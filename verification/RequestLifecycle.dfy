/** Pending browser requests: who may still answer, who may still write, and what is remembered afterwards. */
module RequestLifecycles {
  import opened Wrappers

  const MAX_TERMINAL_REQUESTS: nat := 128

  datatype BrowserMethod = BrowserList | BrowserSnapshot | TabsList

  datatype RequestPhase = Queued | Dispatching | Dispatched

  datatype TerminalState = Responded | TimedOut | AbandonedWaiter

  /** The n-th oneshot sender created; sending on it, or dropping it, uses it up. */
  type Waiter = nat

  datatype ActiveRequest = ActiveRequest(method_: BrowserMethod, phase: RequestPhase, waiter: Waiter)

  datatype TerminalRequest = TerminalRequest(method_: BrowserMethod, phase: RequestPhase, state: TerminalState)

  datatype MatchedResponse = MatchedResponse(method_: BrowserMethod, waiter: Option<Waiter>)

  datatype Records = Records(active: map<string, ActiveRequest>, terminal: map<string, TerminalRequest>, terminalOrder: seq<string>)

  const NO_RECORDS := Records(map[], map[], [])

  // ---------------------------------------------------------------- specification

  ghost predicate NoRepeats(ids: seq<string>) {
    forall i, j :: 0 <= i < j < |ids| ==> ids[i] != ids[j]
  }

  ghost predicate SameIds(terminal: map<string, TerminalRequest>, order: seq<string>) {
    forall id :: id in terminal <==> id in order
  }

  /** No id is both active and terminal, and the order lists every terminal id exactly once. */
  ghost predicate RecordsOk(r: Records) {
    && r.active.Keys !! r.terminal.Keys
    && NoRepeats(r.terminalOrder) && SameIds(r.terminal, r.terminalOrder)
    && |r.terminalOrder| <= MAX_TERMINAL_REQUESTS
  }

  function Newest(ids: seq<string>, n: nat): seq<string> {
    if |ids| <= n then ids else ids[|ids| - n..]
  }

  /** An id turns terminal: it is the newest, and only the newest 128 are remembered. */
  function Ended(r: Records, id: string, record: TerminalRequest): Records {
    var order := Newest(r.terminalOrder + [id], MAX_TERMINAL_REQUESTS);
    var terminal := r.terminal[id := record];
    Records(r.active - {id}, map k | k in terminal && k in order :: terminal[k], order)
  }

  function EndedAs(r: Records, id: string, state: TerminalState): Records
    requires id in r.active
  {
    Ended(r, id, TerminalRequest(r.active[id].method_, r.active[id].phase, state))
  }

  function Registered(r: Records, id: string, m: BrowserMethod, waiter: Waiter): Records {
    if id in r.active || id in r.terminal then r
    else r.(active := r.active[id := ActiveRequest(m, Queued, waiter)])
  }

  predicate Claimable(r: Records, id: string) {
    id in r.active && r.active[id].phase == Queued
  }

  function WithPhase(r: Records, id: string, before: RequestPhase, after: RequestPhase): Records {
    if id in r.active && r.active[id].phase == before then r.(active := r.active[id := r.active[id].(phase := after)])
    else if id in r.terminal && r.terminal[id].phase == before then r.(terminal := r.terminal[id := r.terminal[id].(phase := after)])
    else r
  }

  // ---------------------------------------------------------------- the bounded queue of terminal requests

  /** Queue and map hold the same ids, each queued once. */
  ghost predicate QueueMatches(terminal: map<string, TerminalRequest>, order: seq<string>) {
    |terminal| == |order| && (order != [] ==> order[0] in terminal && QueueMatches(terminal - {order[0]}, order[1..]))
  }

  lemma SameIdsTail(terminal: map<string, TerminalRequest>, order: seq<string>)
    requires order != [] && NoRepeats(order) && SameIds(terminal, order)
    ensures order[0] in terminal && NoRepeats(order[1..]) && SameIds(terminal - {order[0]}, order[1..])
    ensures order[0] !in order[1..]
  {
    assert order == [order[0]] + order[1..];
    assert forall id :: id in order <==> id == order[0] || id in order[1..];
  }

  lemma SameIdsCons(terminal: map<string, TerminalRequest>, order: seq<string>)
    requires order != [] && order[0] in terminal && NoRepeats(order[1..]) && SameIds(terminal - {order[0]}, order[1..])
    ensures NoRepeats(order) && SameIds(terminal, order)
  {
    assert order == [order[0]] + order[1..];
    assert order[0] !in terminal - {order[0]};
    ConsDistinct(order[0], order[1..]);
    assert forall id :: id in order <==> id == order[0] || id in order[1..];
  }

  lemma {:induction false} MatchesIf(terminal: map<string, TerminalRequest>, order: seq<string>)
    requires NoRepeats(order) && SameIds(terminal, order)
    ensures QueueMatches(terminal, order)
  {
    if order == [] {
      assert terminal == map[];
    } else {
      SameIdsTail(terminal, order);
      hide SameIds, NoRepeats;
      MatchesIf(terminal - {order[0]}, order[1..]);
      RemoveOne(terminal, order[0]);
    }
  }

  lemma {:induction false} MatchesOnlyIf(terminal: map<string, TerminalRequest>, order: seq<string>)
    requires QueueMatches(terminal, order)
    ensures NoRepeats(order) && SameIds(terminal, order)
  {
    if order == [] {
      assert terminal == map[];
    } else {
      hide SameIds, NoRepeats;
      MatchesOnlyIf(terminal - {order[0]}, order[1..]);
      SameIdsCons(terminal, order);
    }
  }

  lemma RemoveOne(terminal: map<string, TerminalRequest>, id: string)
    requires id in terminal
    ensures |terminal| == |terminal - {id}| + 1
  {
    assert (terminal - {id}).Keys == terminal.Keys - {id};
  }

  lemma ConsDistinct(id: string, ids: seq<string>)
    requires NoRepeats(ids) && id !in ids
    ensures NoRepeats([id] + ids)
  {
  }

  /** Taking ids from the front until few enough are left. */
  ghost function Trim(terminal: map<string, TerminalRequest>, order: seq<string>): (map<string, TerminalRequest>, seq<string>)
    decreases |order|
  {
    if |terminal| <= MAX_TERMINAL_REQUESTS || order == [] then (terminal, order)
    else Trim(terminal - {order[0]}, order[1..])
  }

  lemma TrimOne(terminal: map<string, TerminalRequest>, order: seq<string>)
    requires QueueMatches(terminal, order) && |terminal| > MAX_TERMINAL_REQUESTS
    ensures order != [] && QueueMatches(terminal - {order[0]}, order[1..]) && |terminal - {order[0]}| < |terminal|
    ensures Trim(terminal - {order[0]}, order[1..]) == Trim(terminal, order)
  {
    RemoveOne(terminal, order[0]);
  }

  lemma TrimDone(terminal: map<string, TerminalRequest>, order: seq<string>)
    ensures |terminal| <= MAX_TERMINAL_REQUESTS ==> Trim(terminal, order) == (terminal, order)
  {
  }

  /** What is left is the newest part of the queue, and the map on it. */
  lemma {:induction false} TrimKeepsNewest(terminal: map<string, TerminalRequest>, order: seq<string>)
    requires QueueMatches(terminal, order)
    ensures Trim(terminal, order).1 == Newest(order, MAX_TERMINAL_REQUESTS)
    ensures Trim(terminal, order).0 == map k | k in terminal && k in Newest(order, MAX_TERMINAL_REQUESTS) :: terminal[k]
    decreases |order|
  {
    MatchesOnlyIf(terminal, order);
    var kept := Newest(order, MAX_TERMINAL_REQUESTS);
    if |terminal| > MAX_TERMINAL_REQUESTS {
      assert kept == Newest(order[1..], MAX_TERMINAL_REQUESTS);
      SameIdsTail(terminal, order);
      assert forall k :: k in kept ==> k in order[1..];
      hide SameIds, NoRepeats, Newest;
      TrimKeepsNewest(terminal - {order[0]}, order[1..]);
      RestrictDrop(terminal, order[0], kept);
    } else {
      RestrictAll(terminal, order);
    }
  }

  lemma RestrictDrop(terminal: map<string, TerminalRequest>, id: string, kept: seq<string>)
    requires id !in kept
    ensures (map k | k in terminal - {id} && k in kept :: (terminal - {id})[k]) == map k | k in terminal && k in kept :: terminal[k]
  {
  }

  lemma RestrictAll(terminal: map<string, TerminalRequest>, order: seq<string>)
    requires SameIds(terminal, order)
    ensures (map k | k in terminal && k in order :: terminal[k]) == terminal
  {
  }

  lemma PushBack(r: Records, id: string, record: TerminalRequest)
    requires RecordsOk(r) && id !in r.terminal
    ensures QueueMatches(r.terminal[id := record], r.terminalOrder + [id])
  {
    assert NoRepeats(r.terminalOrder + [id]) && SameIds(r.terminal[id := record], r.terminalOrder + [id]);
    hide NoRepeats, SameIds;
    MatchesIf(r.terminal[id := record], r.terminalOrder + [id]);
  }

  lemma EndedOk(r: Records, id: string, record: TerminalRequest)
    requires RecordsOk(r) && id in r.active
    ensures RecordsOk(Ended(r, id, record))
    ensures id in Ended(r, id, record).terminal && Ended(r, id, record).terminal[id] == record
  {
    var order := r.terminalOrder + [id];
    assert NoRepeats(order);
    var kept := Newest(order, MAX_TERMINAL_REQUESTS);
    assert kept[|kept| - 1] == id;
    assert forall k :: k in kept ==> k in order;
  }

  /** insert_terminal's loop is what the specification says of it. */
  lemma TrimmedIsEnded(before: Records, id: string, record: TerminalRequest)
    requires RecordsOk(before) && id in before.active
    ensures QueueMatches(before.terminal[id := record], before.terminalOrder + [id])
    ensures var (terminal, order) := Trim(before.terminal[id := record], before.terminalOrder + [id]);
      Ended(before, id, record) == Records(before.active - {id}, terminal, order)
  {
    PushBack(before, id, record);
    TrimKeepsNewest(before.terminal[id := record], before.terminalOrder + [id]);
  }

  class RequestLifecycle {
    var active: map<string, ActiveRequest>
    var terminal: map<string, TerminalRequest>
    var terminalOrder: seq<string>

    ghost function State(): Records
      reads this
    {
      Records(active, terminal, terminalOrder)
    }

    ghost predicate Valid()
      reads this
    {
      RecordsOk(State())
    }

    constructor ()
      ensures Valid() && State() == NO_RECORDS
    {
      active, terminal, terminalOrder := map[], map[], [];
    }

    method Register(id: string, m: BrowserMethod, waiter: Waiter) returns (ok: bool)
      requires Valid()
      modifies this
      ensures Valid() && State() == Registered(old(State()), id, m, waiter)
      ensures ok <==> id !in old(active) && id !in old(terminal)
    {
      if id in active || id in terminal {
        return false;
      }
      active := active[id := ActiveRequest(m, Queued, waiter)];
      return true;
    }

    /** Claims a queued frame for writing. */
    method BeginDispatch(id: string) returns (claimed: bool)
      requires Valid()
      modifies this
      ensures Valid()
      ensures claimed <==> Claimable(old(State()), id)
      ensures State() == if claimed then WithPhase(old(State()), id, Queued, Dispatching) else old(State())
    {
      if id !in active {
        return false;
      }
      var record := active[id];
      if record.phase != Queued {
        return false;
      }
      active := active[id := record.(phase := Dispatching)];
      return true;
    }

    method MarkDispatched(id: string)
      requires Valid()
      modifies this
      ensures Valid() && State() == WithPhase(old(State()), id, Dispatching, Dispatched)
    {
      if id in active && active[id].phase == Dispatching {
        active := active[id := active[id].(phase := Dispatched)];
      } else if id in terminal && terminal[id].phase == Dispatching {
        terminal := terminal[id := terminal[id].(phase := Dispatched)];
      }
    }

    /** The first response takes the waiter; a late one only learns which method it answers. */
    method TakeResponse(id: string) returns (matched: Option<MatchedResponse>)
      requires Valid()
      modifies this
      ensures Valid()
      ensures id in old(active) ==>
        && State() == EndedAs(old(State()), id, Responded)
        && matched == Some(MatchedResponse(old(active)[id].method_, Some(old(active)[id].waiter)))
      ensures id !in old(active) ==> State() == old(State())
      ensures id !in old(active) && id in old(terminal) ==> matched == Some(MatchedResponse(old(terminal)[id].method_, None))
      ensures id !in old(active) && id !in old(terminal) ==> matched == None
    {
      if id in active {
        var record := active[id];
        active := active - {id};
        InsertTerminal(id, TerminalRequest(record.method_, record.phase, Responded), old(State()));
        return Some(MatchedResponse(record.method_, Some(record.waiter)));
      }
      if id !in terminal {
        return None;
      }
      return Some(MatchedResponse(terminal[id].method_, None));
    }

    /** Ends an active request, dropping its waiter; anything else is left alone. */
    method Finish(id: string, state: TerminalState)
      requires Valid()
      modifies this
      ensures Valid()
      ensures State() == if id in old(active) then EndedAs(old(State()), id, state) else old(State())
    {
      if id in active {
        var record := active[id];
        active := active - {id};
        InsertTerminal(id, TerminalRequest(record.method_, record.phase, state), old(State()));
      }
    }

    method Clear()
      modifies this
      ensures Valid() && State() == NO_RECORDS
    {
      active, terminal, terminalOrder := map[], map[], [];
    }

    /** The eviction loop ends, because queue and map hold the same ids. */
    method InsertTerminal(id: string, record: TerminalRequest, ghost before: Records)
      requires RecordsOk(before) && id in before.active
      requires active == before.active - {id} && terminal == before.terminal && terminalOrder == before.terminalOrder
      modifies `terminal, `terminalOrder
      ensures Valid() && State() == Ended(before, id, record)
    {
      hide *;
      TrimmedIsEnded(before, id, record);
      EndedOk(before, id, record);
      terminal := terminal[id := record];
      terminalOrder := terminalOrder + [id];
      ghost var trimmed := Trim(terminal, terminalOrder);
      while |terminal| > MAX_TERMINAL_REQUESTS
        invariant QueueMatches(terminal, terminalOrder) && Trim(terminal, terminalOrder) == trimmed
        decreases |terminal|
      {
        TrimOne(terminal, terminalOrder);
        if |terminalOrder| > 0 {
          var oldest := terminalOrder[0];
          terminalOrder := terminalOrder[1..];
          terminal := terminal - {oldest};
        }
      }
      TrimDone(terminal, terminalOrder);
      StateIs(Ended(before, id, record));
    }

    lemma StateIs(r: Records)
      requires r == Records(active, terminal, terminalOrder) && RecordsOk(r)
      ensures State() == r && Valid()
    {
    }
  }

  /** Gives up on a request unless it has been told that the request timed out. */
  class RequestWaiterGuard {
    const lifecycle: RequestLifecycle
    const requestId: string
    var active: bool

    constructor (lifecycle: RequestLifecycle, requestId: string)
      ensures this.lifecycle == lifecycle && this.requestId == requestId && active
    {
      this.lifecycle, this.requestId := lifecycle, requestId;
      active := true;
    }

    method MarkTimedOut()
      requires lifecycle.Valid()
      modifies this, lifecycle
      ensures lifecycle.Valid() && !active
      ensures lifecycle.State() ==
        if old(active) && requestId in old(lifecycle.active) then EndedAs(old(lifecycle.State()), requestId, TimedOut) else old(lifecycle.State())
    {
      if active {
        lifecycle.Finish(requestId, TimedOut);
        active := false;
      }
    }

    method Drop()
      requires lifecycle.Valid()
      modifies lifecycle
      ensures lifecycle.Valid()
      ensures lifecycle.State() ==
        if active && requestId in old(lifecycle.active) then EndedAs(old(lifecycle.State()), requestId, AbandonedWaiter) else old(lifecycle.State())
    {
      if active {
        lifecycle.Finish(requestId, AbandonedWaiter);
      }
    }
  }
}

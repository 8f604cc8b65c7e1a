/** What every history of the request lifecycle keeps: each waiter is used up once, each frame is claimed once. */
module LifecycleTheorems {
  import opened Wrappers
  import opened RequestLifecycles

  datatype LifecycleEvent =
    | Register(id: string, m: BrowserMethod, waiter: Waiter, ok: bool)
    | BeginDispatch(id: string, claimed: bool)
    | MarkDispatched(id: string)
    | TakeResponse(id: string, matched: Option<MatchedResponse>)
    | Finish(id: string, state: TerminalState)
    | Clear

  /** The records, with an account of every waiter handed over and of the ids that ended since the last clear. */
  datatype Ledger = Ledger(
    records: Records, registered: set<Waiter>, consumed: set<Waiter>, dropped: set<Waiter>, ended: seq<string>)

  const EMPTY_LEDGER := Ledger(NO_RECORDS, {}, {}, {}, [])

  function ActiveWaiters(r: Records): set<Waiter> {
    set id | id in r.active :: r.active[id].waiter
  }

  /** One call; every oneshot channel is created for one registration. */
  ghost predicate Next(l: Ledger, event: LifecycleEvent, n: Ledger) {
    match event
    case Register(id, m, waiter, ok) =>
      && waiter !in l.registered && (ok <==> id !in l.records.active && id !in l.records.terminal)
      && n == l.(records := Registered(l.records, id, m, waiter), registered := l.registered + (if ok then {waiter} else {}))
    case BeginDispatch(id, claimed) =>
      && (claimed <==> Claimable(l.records, id))
      && n == l.(records := if claimed then WithPhase(l.records, id, Queued, Dispatching) else l.records)
    case MarkDispatched(id) =>
      n == l.(records := WithPhase(l.records, id, Dispatching, Dispatched))
    case TakeResponse(id, matched) =>
      if id in l.records.active then
        && matched == Some(MatchedResponse(l.records.active[id].method_, Some(l.records.active[id].waiter)))
        && n == l.(records := EndedAs(l.records, id, Responded),
                   consumed := l.consumed + {l.records.active[id].waiter}, ended := l.ended + [id])
      else
        && matched == (if id in l.records.terminal then Some(MatchedResponse(l.records.terminal[id].method_, None)) else None)
        && n == l
    case Finish(id, state) =>
      if id in l.records.active then
        n == l.(records := EndedAs(l.records, id, state),
                dropped := l.dropped + {l.records.active[id].waiter}, ended := l.ended + [id])
      else n == l
    case Clear =>
      n == l.(records := NO_RECORDS, dropped := l.dropped + ActiveWaiters(l.records), ended := [])
  }

  ghost predicate IsHistory(ledgers: seq<Ledger>, events: seq<LifecycleEvent>) {
    && |ledgers| == |events| + 1 && ledgers[0] == EMPTY_LEDGER
    && forall i :: 0 <= i < |events| ==> Next(ledgers[i], events[i], ledgers[i + 1])
  }

  // ---------------------------------------------------------------- the invariant

  ghost predicate WaitersApart(r: Records) {
    forall a, b :: a in r.active && b in r.active && r.active[a].waiter == r.active[b].waiter ==> a == b
  }

  /** Every waiter ever registered is in exactly one place: pending, consumed or dropped. */
  ghost predicate WaitersConserved(l: Ledger) {
    && WaitersApart(l.records)
    && l.registered == ActiveWaiters(l.records) + l.consumed + l.dropped
    && ActiveWaiters(l.records) !! l.consumed !! l.dropped
  }

  /** The queue holds the newest 128 of the ids that ended, in the order they did. */
  ghost predicate LedgerOk(l: Ledger) {
    RecordsOk(l.records) && WaitersConserved(l) && l.records.terminalOrder == Newest(l.ended, 128)
  }

  lemma NewestPush(ids: seq<string>, id: string, n: nat)
    requires n > 0
    ensures Newest(Newest(ids, n) + [id], n) == Newest(ids + [id], n)
  {
  }

  lemma RemoveWaiter(r: Records, id: string, record: TerminalRequest)
    requires WaitersApart(r) && id in r.active
    ensures WaitersApart(Ended(r, id, record))
    ensures ActiveWaiters(Ended(r, id, record)) == ActiveWaiters(r) - {r.active[id].waiter}
    ensures r.active[id].waiter in ActiveWaiters(r)
  {
    var w := Ended(r, id, record);
    assert w.active == r.active - {id};
    hide Ended;
    forall x ensures x in ActiveWaiters(w) <==> x in ActiveWaiters(r) && x != r.active[id].waiter {
      if a :| a in r.active && a != id && r.active[a].waiter == x { assert a in w.active && w.active[a].waiter == x; }
    }
  }

  lemma AddWaiter(r: Records, id: string, m: BrowserMethod, waiter: Waiter)
    requires WaitersApart(r) && waiter !in ActiveWaiters(r) && id !in r.active && id !in r.terminal
    ensures WaitersApart(Registered(r, id, m, waiter))
    ensures ActiveWaiters(Registered(r, id, m, waiter)) == ActiveWaiters(r) + {waiter}
  {
    var w := Registered(r, id, m, waiter);
    assert w.active.Keys == r.active.Keys + {id};
    forall a | a in r.active ensures r.active[a].waiter in ActiveWaiters(r) && w.active[a] == r.active[a] {}
    forall x | x in ActiveWaiters(r) ensures x in ActiveWaiters(w) {
      var a :| a in r.active && r.active[a].waiter == x;
      assert a in w.active && w.active[a].waiter == x;
    }
    assert w.active[id].waiter in ActiveWaiters(w);
  }

  lemma PhaseKeepsWaiters(r: Records, id: string, before: RequestPhase, after: RequestPhase)
    ensures ActiveWaiters(WithPhase(r, id, before, after)) == ActiveWaiters(r)
    ensures WaitersApart(r) ==> WaitersApart(WithPhase(r, id, before, after))
    ensures RecordsOk(r) ==> RecordsOk(WithPhase(r, id, before, after))
    ensures WithPhase(r, id, before, after).terminalOrder == r.terminalOrder
  {
    var w := WithPhase(r, id, before, after);
    assert w.active.Keys == r.active.Keys && w.terminal.Keys == r.terminal.Keys;
    assert forall a :: a in r.active ==> w.active[a].waiter == r.active[a].waiter;
    forall x ensures x in ActiveWaiters(w) <==> x in ActiveWaiters(r) {
      if a :| a in r.active && r.active[a].waiter == x { assert w.active[a].waiter == x; }
      if a :| a in w.active && w.active[a].waiter == x { assert r.active[a].waiter == x; }
    }
  }

  lemma EndKeepsOk(l: Ledger, id: string, state: TerminalState, n: Ledger)
    requires LedgerOk(l) && id in l.records.active
    requires n.records == EndedAs(l.records, id, state) && n.ended == l.ended + [id] && n.registered == l.registered
    requires var w := l.records.active[id].waiter;
      (n.consumed == l.consumed + {w} && n.dropped == l.dropped) || (n.consumed == l.consumed && n.dropped == l.dropped + {w})
    ensures LedgerOk(n)
  {
    var record := TerminalRequest(l.records.active[id].method_, l.records.active[id].phase, state);
    EndedOk(l.records, id, record);
    RemoveWaiter(l.records, id, record);
    NewestPush(l.ended, id, MAX_TERMINAL_REQUESTS);
    hide ActiveWaiters, RecordsOk, WaitersApart;
  }

  lemma RegisterKeepsOk(l: Ledger, id: string, m: BrowserMethod, waiter: Waiter, n: Ledger)
    requires LedgerOk(l) && waiter !in l.registered && id !in l.records.active && id !in l.records.terminal
    requires n == l.(records := Registered(l.records, id, m, waiter), registered := l.registered + {waiter})
    ensures LedgerOk(n)
  {
    AddWaiter(l.records, id, m, waiter);
    hide ActiveWaiters, WaitersApart;
  }

  lemma NextKeepsOk(l: Ledger, event: LifecycleEvent, n: Ledger)
    requires LedgerOk(l) && Next(l, event, n)
    ensures LedgerOk(n)
  {
    hide LedgerOk;
    match event
    case Register(id, m, waiter, ok) => if ok { RegisterKeepsOk(l, id, m, waiter, n); } else { assert n == l; }
    case BeginDispatch(id, claimed) => PhaseKeepsOk(l, id, Queued, Dispatching);
    case MarkDispatched(id) => PhaseKeepsOk(l, id, Dispatching, Dispatched);
    case TakeResponse(id, _) => if id in l.records.active { EndKeepsOk(l, id, Responded, n); }
    case Finish(id, state) => if id in l.records.active { EndKeepsOk(l, id, state, n); }
    case Clear => ClearKeepsOk(l, n);
  }

  lemma PhaseKeepsOk(l: Ledger, id: string, before: RequestPhase, after: RequestPhase)
    requires LedgerOk(l)
    ensures LedgerOk(l.(records := WithPhase(l.records, id, before, after)))
  {
    PhaseKeepsWaiters(l.records, id, before, after);
    hide ActiveWaiters, WaitersApart, RecordsOk, WithPhase;
  }

  lemma ClearKeepsOk(l: Ledger, n: Ledger)
    requires LedgerOk(l) && n == l.(records := NO_RECORDS, dropped := l.dropped + ActiveWaiters(l.records), ended := [])
    ensures LedgerOk(n)
  {
    assert ActiveWaiters(NO_RECORDS) == {};
  }

  /** In every history the records are in order, and no waiter is lost or used twice. */
  lemma {:induction false} HistoryKeepsOk(ledgers: seq<Ledger>, events: seq<LifecycleEvent>, i: nat)
    requires IsHistory(ledgers, events) && i < |ledgers|
    ensures LedgerOk(ledgers[i])
  {
    hide Next, LedgerOk;
    if i == 0 {
      EmptyOk();
    } else {
      HistoryKeepsOk(ledgers, events, i - 1);
      NextKeepsOk(ledgers[i - 1], events[i - 1], ledgers[i]);
    }
  }

  lemma EmptyOk()
    ensures LedgerOk(EMPTY_LEDGER)
  {
    assert ActiveWaiters(NO_RECORDS) == {};
  }

  /** The waiters registered are as many as those pending, consumed and dropped together. */
  lemma WaitersAddUp(ledgers: seq<Ledger>, events: seq<LifecycleEvent>, i: nat)
    requires IsHistory(ledgers, events) && i < |ledgers|
    ensures var l := ledgers[i];
      |l.registered| == |l.records.active| + |l.consumed| + |l.dropped|
  {
    var l := ledgers[i];
    HistoryKeepsOk(ledgers, events, i);
    hide IsHistory, RecordsOk;
    OneWaiterEach(l.records.active, ActiveWaiters(l.records));
  }

  lemma {:induction false} OneWaiterEach(active: map<string, ActiveRequest>, waiters: set<Waiter>)
    requires forall a, b :: a in active && b in active && active[a].waiter == active[b].waiter ==> a == b
    requires forall w :: w in waiters <==> exists a :: a in active && active[a].waiter == w
    ensures |waiters| == |active|
    decreases |active|
  {
    if active == map[] {
      assert waiters == {};
    } else {
      var a :| a in active;
      var rest, left := active - {a}, waiters - {active[a].waiter};
      assert rest.Keys == active.Keys - {a};
      assert active[a].waiter in waiters;
      forall w ensures w in left <==> exists b :: b in rest && rest[b].waiter == w {
        if w in left {
          var b :| b in active && active[b].waiter == w;
          assert b in rest && rest[b].waiter == w;
        }
      }
      OneWaiterEach(rest, left);
    }
  }

  // ---------------------------------------------------------------- waiters are used up once

  ghost predicate UsedUp(l: Ledger, waiter: Waiter) {
    waiter in l.consumed || waiter in l.dropped
  }

  lemma {:induction false} UsedUpStays(ledgers: seq<Ledger>, events: seq<LifecycleEvent>, i: nat, j: nat, waiter: Waiter)
    requires IsHistory(ledgers, events) && i <= j < |ledgers| && UsedUp(ledgers[i], waiter)
    ensures UsedUp(ledgers[j], waiter)
    decreases j - i
  {
    if i < j {
      UsedUpStays(ledgers, events, i, j - 1, waiter);
      assert Next(ledgers[j - 1], events[j - 1], ledgers[j]);
      hide Ended, WithPhase, Registered;
    }
  }

  /** The waiter an event hands to a response. */
  function Answers(event: LifecycleEvent): Option<Waiter> {
    if event.TakeResponse? && event.matched.Some? then event.matched.value.waiter else None
  }

  /** A response gets a waiter that is pending, and uses it up. */
  lemma AnswerUses(ledgers: seq<Ledger>, events: seq<LifecycleEvent>, i: nat)
    requires IsHistory(ledgers, events) && i < |events| && Answers(events[i]).Some?
    ensures !UsedUp(ledgers[i], Answers(events[i]).value) && Answers(events[i]).value in ledgers[i].registered
    ensures UsedUp(ledgers[i + 1], Answers(events[i]).value)
  {
    HistoryKeepsOk(ledgers, events, i);
    assert Next(ledgers[i], events[i], ledgers[i + 1]);
    hide IsHistory, RecordsOk, Ended;
    assert events[i].id in ledgers[i].records.active;
    assert Answers(events[i]).value in ActiveWaiters(ledgers[i].records);
  }

  /** No waiter answers two responses. */
  lemma WaiterConsumedOnce(ledgers: seq<Ledger>, events: seq<LifecycleEvent>, i: nat, j: nat)
    requires IsHistory(ledgers, events) && i < j < |events| && Answers(events[i]).Some? && Answers(events[j]).Some?
    ensures Answers(events[i]) != Answers(events[j])
  {
    AnswerUses(ledgers, events, i);
    AnswerUses(ledgers, events, j);
    UsedUpStays(ledgers, events, i + 1, j, Answers(events[i]).value);
  }

  // ---------------------------------------------------------------- phases and claims

  function PhaseRank(phase: RequestPhase): nat {
    match phase
    case Queued => 0
    case Dispatching => 1
    case Dispatched => 2
  }

  function PhaseOf(r: Records, id: string): Option<RequestPhase> {
    if id in r.active then Some(r.active[id].phase)
    else if id in r.terminal then Some(r.terminal[id].phase)
    else None
  }

  predicate Reregisters(event: LifecycleEvent, id: string) {
    event.Register? && event.id == id && event.ok
  }

  /** From one state to a later one of the same registration: the phase does not regress, the method stays,
      what has ended stays ended with the outcome that came first, and what is forgotten stays forgotten. */
  ghost predicate SameRequestLater(r: Records, s: Records, id: string) {
    PhaseOf(s, id).Some? ==>
      && PhaseOf(r, id).Some? && PhaseRank(PhaseOf(r, id).value) <= PhaseRank(PhaseOf(s, id).value)
      && (id in s.active ==> id in r.active && s.active[id].method_ == r.active[id].method_ && s.active[id].waiter == r.active[id].waiter)
      && (id !in s.active && id in r.active ==> s.terminal[id].method_ == r.active[id].method_)
      && (id !in r.active ==> id !in s.active && s.terminal[id].method_ == r.terminal[id].method_ && s.terminal[id].state == r.terminal[id].state)
  }

  lemma EndedLater(r: Records, ended: string, record: TerminalRequest, id: string)
    requires RecordsOk(r) && ended in r.active && record.phase == r.active[ended].phase && record.method_ == r.active[ended].method_
    ensures SameRequestLater(r, Ended(r, ended, record), id)
  {
    assert ended !in r.terminal;
  }

  lemma NextLater(l: Ledger, event: LifecycleEvent, n: Ledger, id: string)
    requires LedgerOk(l) && Next(l, event, n) && !Reregisters(event, id)
    ensures SameRequestLater(l.records, n.records, id)
  {
    hide LedgerOk, SameRequestLater, Ended, WithPhase;
    RecordsOfLedger(l);
    match event
    case Register(other, m, waiter, ok) => RegisteredLater(l.records, other, m, waiter, id);
    case BeginDispatch(other, _) => PhaseLater(l.records, other, Queued, Dispatching, id);
    case MarkDispatched(other) => PhaseLater(l.records, other, Dispatching, Dispatched, id);
    case TakeResponse(other, _) => EndLater(l.records, other, Responded, id);
    case Finish(other, state) => EndLater(l.records, other, state, id);
    case Clear => ForgottenLater(l.records, id);
  }

  lemma RecordsOfLedger(l: Ledger)
    requires LedgerOk(l)
    ensures RecordsOk(l.records)
  {
  }

  lemma RegisteredLater(r: Records, other: string, m: BrowserMethod, waiter: Waiter, id: string)
    requires RecordsOk(r) && (other == id ==> id in r.active || id in r.terminal)
    ensures SameRequestLater(r, Registered(r, other, m, waiter), id)
  {
  }

  lemma PhaseLater(r: Records, other: string, before: RequestPhase, after: RequestPhase, id: string)
    requires RecordsOk(r) && PhaseRank(before) < PhaseRank(after)
    ensures SameRequestLater(r, WithPhase(r, other, before, after), id) && SameRequestLater(r, r, id)
  {
  }

  lemma EndLater(r: Records, other: string, state: TerminalState, id: string)
    requires RecordsOk(r)
    ensures other in r.active ==> SameRequestLater(r, EndedAs(r, other, state), id)
    ensures SameRequestLater(r, r, id)
  {
    if other in r.active { EndedLater(r, other, TerminalRequest(r.active[other].method_, r.active[other].phase, state), id); }
  }

  lemma ForgottenLater(r: Records, id: string)
    ensures SameRequestLater(r, NO_RECORDS, id)
  {
  }

  /** Within one registration a request only moves forward. */
  lemma {:induction false} PhaseNeverRegresses(ledgers: seq<Ledger>, events: seq<LifecycleEvent>, i: nat, j: nat, id: string)
    requires IsHistory(ledgers, events) && i <= j < |ledgers|
    requires forall k :: i <= k < j ==> !Reregisters(events[k], id)
    ensures SameRequestLater(ledgers[i].records, ledgers[j].records, id)
    decreases j - i
  {
    hide Next, LedgerOk;
    if i < j {
      PhaseNeverRegresses(ledgers, events, i, j - 1, id);
      HistoryKeepsOk(ledgers, events, j - 1);
      NextLater(ledgers[j - 1], events[j - 1], ledgers[j], id);
    }
  }

  predicate Claims(event: LifecycleEvent, id: string) {
    event.BeginDispatch? && event.id == id && event.claimed
  }

  lemma ClaimStarts(l: Ledger, event: LifecycleEvent, n: Ledger, id: string)
    requires Next(l, event, n) && Claims(event, id)
    ensures Claimable(l.records, id) && id in n.records.active && n.records.active[id].phase == Dispatching
  {
  }

  /** Once an id is claimed, has ended or is unknown, it is not claimed again without a new registration. */
  lemma NoClaimWithoutRegistration(ledgers: seq<Ledger>, events: seq<LifecycleEvent>, i: nat, j: nat, id: string)
    requires IsHistory(ledgers, events) && i <= j < |events|
    requires !Claimable(ledgers[i].records, id) && Claims(events[j], id)
    ensures exists k :: i <= k < j && Reregisters(events[k], id)
  {
    assert Next(ledgers[j], events[j], ledgers[j + 1]);
    ClaimStarts(ledgers[j], events[j], ledgers[j + 1], id);
    hide Next, IsHistory;
    if forall k :: i <= k < j ==> !Reregisters(events[k], id) {
      PhaseNeverRegresses(ledgers, events, i, j, id);
    }
  }

  /** A frame is claimed at most once per registration. */
  lemma ClaimedAtMostOnce(ledgers: seq<Ledger>, events: seq<LifecycleEvent>, i: nat, j: nat, id: string)
    requires IsHistory(ledgers, events) && i < j < |events| && Claims(events[i], id) && Claims(events[j], id)
    ensures exists k :: i < k < j && Reregisters(events[k], id)
  {
    assert Next(ledgers[i], events[i], ledgers[i + 1]);
    ClaimStarts(ledgers[i], events[i], ledgers[i + 1], id);
    NoClaimWithoutRegistration(ledgers, events, i + 1, j, id);
  }

  /** A request that ended while its frame was queued, by response, timeout or abandonment, is never written. */
  lemma NeverWrittenAfterEnd(ledgers: seq<Ledger>, events: seq<LifecycleEvent>, i: nat, j: nat, id: string)
    requires IsHistory(ledgers, events) && i < j < |events|
    requires (events[i].TakeResponse? || events[i].Finish?) && events[i].id == id && Claims(events[j], id)
    ensures exists k :: i < k < j && Reregisters(events[k], id)
  {
    HistoryKeepsOk(ledgers, events, i);
    assert Next(ledgers[i], events[i], ledgers[i + 1]);
    NoClaimWithoutRegistration(ledgers, events, i + 1, j, id);
  }

  // ---------------------------------------------------------------- what a response is told

  /** Nothing ends the request or registers its id again. */
  predicate Untouched(event: LifecycleEvent, id: string) {
    && !Reregisters(event, id) && !event.Clear?
    && !((event.TakeResponse? || event.Finish?) && event.id == id)
  }

  lemma PendingStep(l: Ledger, event: LifecycleEvent, n: Ledger, id: string)
    requires Next(l, event, n) && id in l.records.active && Untouched(event, id)
    ensures id in n.records.active && n.records.active[id].method_ == l.records.active[id].method_
    ensures n.records.active[id].waiter == l.records.active[id].waiter
  {
  }

  lemma {:induction false} PendingStays(ledgers: seq<Ledger>, events: seq<LifecycleEvent>, i: nat, j: nat, id: string, m: BrowserMethod, waiter: Waiter)
    requires IsHistory(ledgers, events) && i < j < |ledgers| && events[i] == Register(id, m, waiter, true)
    requires forall k :: i < k < j ==> Untouched(events[k], id)
    ensures id in ledgers[j].records.active
    ensures ledgers[j].records.active[id].method_ == m && ledgers[j].records.active[id].waiter == waiter
    decreases j
  {
    assert Next(ledgers[j - 1], events[j - 1], ledgers[j]);
    if i < j - 1 {
      PendingStays(ledgers, events, i, j - 1, id, m, waiter);
      PendingStep(ledgers[j - 1], events[j - 1], ledgers[j], id);
      hide Next;
    }
  }

  /** The first response to a pending request gets the method and the waiter it was registered with. */
  lemma ResponseMatchesRegistration(ledgers: seq<Ledger>, events: seq<LifecycleEvent>, i: nat, j: nat, id: string, m: BrowserMethod, waiter: Waiter)
    requires IsHistory(ledgers, events) && i < j < |events| && events[i] == Register(id, m, waiter, true)
    requires forall k :: i < k < j ==> Untouched(events[k], id)
    ensures events[j].TakeResponse? && events[j].id == id ==> events[j].matched == Some(MatchedResponse(m, Some(waiter)))
  {
    PendingStays(ledgers, events, i, j, id, m, waiter);
    assert Next(ledgers[j], events[j], ledgers[j + 1]);
    hide IsHistory, Ended;
  }

  /** Ending a pending request is remembered: with its method, how far it had come, and how it ended; a response that
      comes late learns the method and gets no waiter. */
  lemma EndIsRemembered(l: Ledger, event: LifecycleEvent, n: Ledger)
    requires LedgerOk(l) && Next(l, event, n) && (event.Finish? || event.TakeResponse?) && event.id in l.records.active
    ensures event.id !in n.records.active && event.id in n.records.terminal
    ensures var before, after := l.records.active[event.id], n.records.terminal[event.id];
      && after.method_ == before.method_ && after.phase == before.phase
      && after.state == (if event.Finish? then event.state else Responded)
    ensures forall m, late: Option<MatchedResponse> :: Next(n, LifecycleEvent.TakeResponse(event.id, late), m) ==>
      m == n && late == Some(MatchedResponse(l.records.active[event.id].method_, None))
  {
    var before := l.records.active[event.id];
    EndedOk(l.records, event.id, TerminalRequest(before.method_, before.phase, if event.Finish? then event.state else Responded));
    StillActive(l.records, event.id, TerminalRequest(before.method_, before.phase, if event.Finish? then event.state else Responded));
    hide Ended, RecordsOk, WaitersConserved;
  }

  lemma StillActive(r: Records, id: string, record: TerminalRequest)
    ensures id !in Ended(r, id, record).active
  {
  }

  /** A claimed request is under way and a marked one is done, whether it has ended meanwhile or not; marking
      anything else changes nothing. */
  lemma PhaseAfterCalls(l: Ledger, id: string, n: Ledger)
    requires LedgerOk(l)
    ensures Next(l, BeginDispatch(id, true), n) ==>
      PhaseOf(l.records, id) == Some(Queued) && id in n.records.active && n.records.active[id].phase == Dispatching
    ensures Next(l, MarkDispatched(id), n) && PhaseOf(l.records, id) == Some(Dispatching) ==>
      PhaseOf(n.records, id) == Some(Dispatched)
    ensures Next(l, MarkDispatched(id), n) && PhaseOf(l.records, id) != Some(Dispatching) ==> n == l
  {
    hide WaitersConserved, Newest;
  }
}

/** The native writer racing with responses, timeouts, cancellations and new requests: what every interleaving keeps.
    Payload messages do not touch the request records and are handled in Broker. */
module WriterInterleaving {
  import opened Wrappers
  import Decimal
  import opened RequestLifecycles
  import opened LifecycleTheorems
  import opened Broker

  /** A message from a caller to the writer: `waiter` is the caller's registration. */
  datatype Pending = Pending(frame: RequestFrame, brokerDeadline: nat, preflightAt: nat, waiter: Waiter)

  /** A serialized frame: who sent it, whose registration it was claimed for, and the time its deadline was computed. */
  datatype Output = Output(frame: RequestFrame, deadlineMs: nat, brokerDeadline: nat, at: nat, sender: Waiter, waiter: Waiter)

  /** Between two lines of the writer's loop other tasks may run. */
  datatype WriterPhase =
    | Idle
    | Timed(message: Pending, at: nat)
    | Holding(output: Output)
    | Marking(id: string)

  datatype WriterState = WriterState(
    ledger: Ledger, clock: nat,
    registrations: map<Waiter, RequestFrame>, callers: map<Waiter, Pending>,
    queue: seq<Pending>, phase: WriterPhase, written: seq<Output>, failed: bool)

  const INITIAL_WRITER := WriterState(EMPTY_LEDGER, 0, map[], map[], [], Idle, [], false)

  datatype Step =
    | Tick(elapsed: nat)
    // `request` after its preflight at `at`
    | RegisterCall(frame: RequestFrame, brokerDeadline: nat, at: nat, waiter: Waiter, ok: bool)
    | Send(waiter: Waiter)
    // the reader, the timeouts, the guards of dropped callers, and shutdown
    | Respond(id: string, matched: Option<MatchedResponse>)
    | End(id: string, state: TerminalState)
    | ClearAll
    // the writer: receive and read the clock, claim and serialize, write, mark
    | Take(ready: bool)
    | Claim(claimed: bool)
    | Write
    | Mark

  predicate Enabled(rest: RequestFrame -> nat, s: WriterState, step: Step) {
    match step
    case RegisterCall(frame, brokerDeadline, at, _, _) => at <= s.clock && Preflighted(rest, frame, brokerDeadline, at)
    case Send(waiter) => waiter in s.callers
    case Take(_) => s.phase == Idle && s.queue != []
    case Claim(claimed) => s.phase.Timed? && (claimed ==> Claimable(s.ledger.records, s.phase.message.frame.requestId))
    case Write => s.phase.Holding?
    case Mark => s.phase.Marking?
    case _ => true
  }

  /** The call a step makes on the request records. */
  function CallOf(rest: RequestFrame -> nat, s: WriterState, step: Step): Option<LifecycleEvent>
    requires Enabled(rest, s, step)
  {
    match step
    case RegisterCall(frame, _, _, waiter, ok) => Some(LifecycleEvent.Register(frame.requestId, frame.method_, waiter, ok))
    case Respond(id, matched) => Some(LifecycleEvent.TakeResponse(id, matched))
    case End(id, state) => Some(LifecycleEvent.Finish(id, state))
    case ClearAll => Some(LifecycleEvent.Clear)
    case Claim(claimed) => Some(LifecycleEvent.BeginDispatch(s.phase.message.frame.requestId, claimed))
    case Mark => Some(LifecycleEvent.MarkDispatched(s.phase.id))
    case _ => None
  }

  /** Everything but the request records. */
  function After(rest: RequestFrame -> nat, s: WriterState, step: Step): WriterState
    requires Enabled(rest, s, step)
  {
    match step
    case Tick(elapsed) => s.(clock := s.clock + elapsed)
    case RegisterCall(frame, brokerDeadline, at, waiter, ok) =>
      if ok
      then s.(registrations := s.registrations[waiter := frame],
              callers := s.callers[waiter := Pending(frame, brokerDeadline, at, waiter)])
      else s
    case Send(waiter) => s.(callers := s.callers - {waiter}, queue := s.queue + [s.callers[waiter]])
    case Take(ready) =>
      var message := s.queue[0];
      s.(queue := s.queue[1..],
         phase := if ready && DeadlineMs(message.brokerDeadline, s.clock) > 0 then Timed(message, s.clock) else Idle)
    case Claim(claimed) =>
      var message, deadlineMs := s.phase.message, DeadlineMs(s.phase.message.brokerDeadline, s.phase.at);
      if !claimed then s.(phase := Idle)
      else if !Serializes(RequestSize(rest, message.frame, deadlineMs), MAX_PRODUCT_REQUEST_BYTES) then s.(failed := true)
      else
        s.(phase := Holding(Output(message.frame, deadlineMs, message.brokerDeadline, s.phase.at, message.waiter,
                                   s.ledger.records.active[message.frame.requestId].waiter)))
    case Write => s.(written := s.written + [s.phase.output], phase := Marking(s.phase.output.frame.requestId))
    case Mark => s.(phase := Idle)
    case _ => s
  }

  ghost predicate Calls(l: Ledger, call: Option<LifecycleEvent>, n: Ledger) {
    match call
    case None => n == l
    case Some(event) => Next(l, event, n)
  }

  ghost predicate Moves(rest: RequestFrame -> nat, s: WriterState, step: Step, t: WriterState) {
    && Enabled(rest, s, step)
    && Calls(s.ledger, CallOf(rest, s, step), t.ledger)
    && t == After(rest, s, step).(ledger := t.ledger)
  }

  ghost predicate IsRun(rest: RequestFrame -> nat, states: seq<WriterState>, steps: seq<Step>) {
    && |states| == |steps| + 1 && states[0] == INITIAL_WRITER
    && forall i :: 0 <= i < |steps| ==> Moves(rest, states[i], steps[i], states[i + 1])
  }

  // ---------------------------------------------------------------- the invariant

  /** What has been serialized so far: the frames written, and the one on its way out. */
  function Outputs(s: WriterState): seq<Output> {
    s.written + if s.phase.Holding? then [s.phase.output] else []
  }

  /** A registration that no frame can be claimed for any more. */
  ghost predicate Spent(l: Ledger, waiter: Waiter) {
    waiter in l.registered
    && forall id :: id in l.records.active && l.records.active[id].waiter == waiter ==> l.records.active[id].phase != Queued
  }

  ghost predicate PendingOk(rest: RequestFrame -> nat, clock: nat, registrations: map<Waiter, RequestFrame>, m: Pending) {
    && m.waiter in registrations && registrations[m.waiter] == m.frame
    && m.preflightAt <= clock && Preflighted(rest, m.frame, m.brokerDeadline, m.preflightAt)
  }

  /** In time, within 768 KiB, and claimed for a registration of the frame's id. */
  ghost predicate OutputOk(rest: RequestFrame -> nat, registrations: map<Waiter, RequestFrame>, o: Output) {
    && IsLongest(o.deadlineMs, o.brokerDeadline, o.at) && rest(o.frame) + |Decimal.Numeral(o.deadlineMs)| <= 786_432
    && o.sender in registrations && registrations[o.sender] == o.frame
    && o.waiter in registrations && registrations[o.waiter].requestId == o.frame.requestId
  }

  ghost predicate CallersOk(rest: RequestFrame -> nat, clock: nat, registrations: map<Waiter, RequestFrame>, callers: map<Waiter, Pending>) {
    forall w :: w in callers ==> PendingOk(rest, clock, registrations, callers[w])
  }

  ghost predicate QueuedOk(rest: RequestFrame -> nat, clock: nat, registrations: map<Waiter, RequestFrame>, queue: seq<Pending>) {
    forall m :: m in queue ==> PendingOk(rest, clock, registrations, m)
  }

  ghost predicate TimedOk(rest: RequestFrame -> nat, clock: nat, registrations: map<Waiter, RequestFrame>, phase: WriterPhase) {
    phase.Timed? ==>
      && phase.at <= clock && DeadlineMs(phase.message.brokerDeadline, phase.at) > 0
      && PendingOk(rest, phase.at, registrations, phase.message)
  }

  ghost predicate MessagesOk(rest: RequestFrame -> nat, s: WriterState) {
    && CallersOk(rest, s.clock, s.registrations, s.callers)
    && QueuedOk(rest, s.clock, s.registrations, s.queue)
    && TimedOk(rest, s.clock, s.registrations, s.phase)
  }

  ghost predicate NamesOk(l: Ledger, registrations: map<Waiter, RequestFrame>) {
    && registrations.Keys == l.registered
    && forall id :: id in l.records.active ==>
         l.records.active[id].waiter in registrations && registrations[l.records.active[id].waiter].requestId == id
  }

  ghost predicate WaitersDiffer(outputs: seq<Output>) {
    forall i, j :: 0 <= i < j < |outputs| ==> outputs[i].waiter != outputs[j].waiter
  }

  ghost predicate OutputsOk(rest: RequestFrame -> nat, l: Ledger, registrations: map<Waiter, RequestFrame>, outputs: seq<Output>) {
    && (forall o :: o in outputs ==> OutputOk(rest, registrations, o) && Spent(l, o.waiter))
    && WaitersDiffer(outputs)
  }

  ghost predicate WriterOk(rest: RequestFrame -> nat, s: WriterState) {
    && !s.failed && LedgerOk(s.ledger) && NamesOk(s.ledger, s.registrations)
    && MessagesOk(rest, s) && OutputsOk(rest, s.ledger, s.registrations, Outputs(s))
  }

  // ---------------------------------------------------------------- calls on the request records

  lemma SpentStays(l: Ledger, event: LifecycleEvent, n: Ledger, waiter: Waiter)
    requires Next(l, event, n) && Spent(l, waiter)
    ensures Spent(n, waiter)
  {
    forall id | id in n.records.active && n.records.active[id].waiter == waiter ensures n.records.active[id].phase != Queued {
      assert id in l.records.active && l.records.active[id].waiter == waiter;
    }
  }

  /** A claim uses up what made the registration claimable. */
  lemma ClaimSpends(l: Ledger, id: string, n: Ledger)
    requires LedgerOk(l) && Next(l, LifecycleEvent.BeginDispatch(id, true), n)
    ensures id in l.records.active && !Spent(l, l.records.active[id].waiter) && Spent(n, l.records.active[id].waiter)
  {
    hide RecordsOk, Newest;
    var waiter := l.records.active[id].waiter;
    assert waiter in ActiveWaiters(l.records);
  }

  lemma OutputsStay(rest: RequestFrame -> nat, l: Ledger, event: LifecycleEvent, n: Ledger, registrations: map<Waiter, RequestFrame>, outputs: seq<Output>)
    requires Next(l, event, n) && OutputsOk(rest, l, registrations, outputs)
    ensures OutputsOk(rest, n, registrations, outputs)
  {
    hide Next, Spent, OutputOk, WaitersDiffer;
    forall o | o in outputs ensures Spent(n, o.waiter) { SpentStays(l, event, n, o.waiter); }
  }

  lemma NamesStay(l: Ledger, event: LifecycleEvent, n: Ledger, registrations: map<Waiter, RequestFrame>)
    requires Next(l, event, n) && NamesOk(l, registrations) && !(event.Register? && event.ok)
    ensures NamesOk(n, registrations)
  {
    forall id | id in n.records.active
      ensures id in l.records.active && n.records.active[id].waiter == l.records.active[id].waiter {}
  }

  lemma NameAdded(l: Ledger, frame: RequestFrame, waiter: Waiter, n: Ledger, registrations: map<Waiter, RequestFrame>)
    requires Next(l, LifecycleEvent.Register(frame.requestId, frame.method_, waiter, true), n) && NamesOk(l, registrations)
    ensures waiter !in registrations && NamesOk(n, registrations[waiter := frame])
  {
  }

  // ---------------------------------------------------------------- steps keep the invariant

  ghost predicate Extends(registrations: map<Waiter, RequestFrame>, more: map<Waiter, RequestFrame>) {
    forall w :: w in registrations ==> w in more && more[w] == registrations[w]
  }

  lemma PendingStays(
    rest: RequestFrame -> nat, clock: nat, registrations: map<Waiter, RequestFrame>, m: Pending,
    later: nat, more: map<Waiter, RequestFrame>)
    requires PendingOk(rest, clock, registrations, m) && clock <= later && Extends(registrations, more)
    ensures PendingOk(rest, later, more, m)
  {
    hide Preflighted;
  }

  lemma OutputsExtend(rest: RequestFrame -> nat, l: Ledger, registrations: map<Waiter, RequestFrame>, outputs: seq<Output>, more: map<Waiter, RequestFrame>)
    requires OutputsOk(rest, l, registrations, outputs) && Extends(registrations, more)
    ensures OutputsOk(rest, l, more, outputs)
  {
    hide Spent, WaitersDiffer;
  }

  lemma MessagesKept(rest: RequestFrame -> nat, s: WriterState, step: Step)
    requires MessagesOk(rest, s) && Enabled(rest, s, step)
    requires step.RegisterCall? && step.ok ==> step.waiter !in s.registrations
    ensures MessagesOk(rest, After(rest, s, step)) && Extends(s.registrations, After(rest, s, step).registrations)
  {
    var t := After(rest, s, step);
    hide CallersOk, QueuedOk, TimedOk, PendingOk, Preflighted, Serializes, RequestSize, DeadlineMs;
    AllStay(rest, s, t.clock, t.registrations);
    match step
    case RegisterCall(frame, brokerDeadline, at, waiter, ok) =>
      if ok { AddCaller(rest, t.clock, t.registrations, s.callers, Pending(frame, brokerDeadline, at, waiter)); }
    case Send(waiter) => MoveCaller(rest, s.clock, s.registrations, s.callers, s.queue, waiter);
    case Take(_) => TakeFirst(rest, s.clock, s.registrations, s.queue);
    case _ =>
  }

  lemma AllStay(rest: RequestFrame -> nat, s: WriterState, later: nat, more: map<Waiter, RequestFrame>)
    requires MessagesOk(rest, s) && s.clock <= later && Extends(s.registrations, more)
    ensures CallersOk(rest, later, more, s.callers) && QueuedOk(rest, later, more, s.queue) && TimedOk(rest, later, more, s.phase)
  {
    hide PendingOk, Extends, DeadlineMs;
    forall w | w in s.callers ensures PendingOk(rest, later, more, s.callers[w]) {
      PendingStays(rest, s.clock, s.registrations, s.callers[w], later, more);
    }
    forall m | m in s.queue ensures PendingOk(rest, later, more, m) { PendingStays(rest, s.clock, s.registrations, m, later, more); }
    if s.phase.Timed? { PendingStays(rest, s.phase.at, s.registrations, s.phase.message, s.phase.at, more); }
  }

  lemma AddCaller(
    rest: RequestFrame -> nat, clock: nat, registrations: map<Waiter, RequestFrame>, callers: map<Waiter, Pending>, m: Pending)
    requires CallersOk(rest, clock, registrations, callers)
    requires m.waiter in registrations && registrations[m.waiter] == m.frame
    requires m.preflightAt <= clock && Preflighted(rest, m.frame, m.brokerDeadline, m.preflightAt)
    ensures CallersOk(rest, clock, registrations, callers[m.waiter := m])
  {
    assert PendingOk(rest, clock, registrations, m);
    hide PendingOk, Preflighted;
  }

  lemma MoveCaller(
    rest: RequestFrame -> nat, clock: nat, registrations: map<Waiter, RequestFrame>, callers: map<Waiter, Pending>,
    queue: seq<Pending>, waiter: Waiter)
    requires CallersOk(rest, clock, registrations, callers) && QueuedOk(rest, clock, registrations, queue) && waiter in callers
    ensures CallersOk(rest, clock, registrations, callers - {waiter})
    ensures QueuedOk(rest, clock, registrations, queue + [callers[waiter]])
  {
    hide PendingOk;
  }

  lemma TakeFirst(rest: RequestFrame -> nat, clock: nat, registrations: map<Waiter, RequestFrame>, queue: seq<Pending>)
    requires QueuedOk(rest, clock, registrations, queue) && queue != []
    ensures QueuedOk(rest, clock, registrations, queue[1..])
    ensures DeadlineMs(queue[0].brokerDeadline, clock) > 0 ==> TimedOk(rest, clock, registrations, Timed(queue[0], clock))
    ensures TimedOk(rest, clock, registrations, Idle)
  {
    hide PendingOk, DeadlineMs;
    assert queue[0] in queue;
  }

  lemma NamesKept(rest: RequestFrame -> nat, s: WriterState, step: Step, t: WriterState)
    requires NamesOk(s.ledger, s.registrations) && Moves(rest, s, step, t)
    requires step.RegisterCall? && step.ok ==> step.waiter !in s.registrations
    ensures NamesOk(t.ledger, t.registrations)
  {
    hide NamesOk, Next;
    if step.RegisterCall? && step.ok {
      NameAdded(s.ledger, step.frame, step.waiter, t.ledger, s.registrations);
    } else if CallOf(rest, s, step).Some? {
      NamesStay(s.ledger, CallOf(rest, s, step).value, t.ledger, s.registrations);
    }
  }

  lemma NewWaiter(rest: RequestFrame -> nat, s: WriterState, step: Step, t: WriterState)
    requires NamesOk(s.ledger, s.registrations) && Moves(rest, s, step, t) && step.RegisterCall?
    ensures step.waiter !in s.registrations
  {
  }

  /** What the claim serializes is in time and within the limit. */
  lemma ClaimedOk(rest: RequestFrame -> nat, s: WriterState, t: WriterState)
    requires Moves(rest, s, Claim(true), t) && MessagesOk(rest, s) && NamesOk(s.ledger, s.registrations) && LedgerOk(s.ledger)
    requires OutputsOk(rest, s.ledger, s.registrations, s.written)
    ensures t.phase.Holding? && t.failed == s.failed && OutputsOk(rest, t.ledger, t.registrations, t.written + [t.phase.output])
  {
    var m, at := s.phase.message, s.phase.at;
    PreflightProtectsWriter(rest, m.frame, m.brokerDeadline, m.preflightAt, at);
    DeadlineIsLongest(m.brokerDeadline, at);
    hide DeadlineMs, LeavesTime, Preflighted, Serializes, RequestSize;
    var event := LifecycleEvent.BeginDispatch(m.frame.requestId, true);
    assert Next(s.ledger, event, t.ledger);
    assert OutputOk(rest, t.registrations, t.phase.output);
    hide LedgerOk, NamesOk, MessagesOk;
    ClaimSpends(s.ledger, m.frame.requestId, t.ledger);
    OutputsStay(rest, s.ledger, event, t.ledger, s.registrations, s.written);
    OutputPush(rest, s.ledger, t.ledger, s.registrations, s.written, t.phase.output);
  }

  lemma OutputPush(rest: RequestFrame -> nat, l: Ledger, n: Ledger, registrations: map<Waiter, RequestFrame>, outputs: seq<Output>, o: Output)
    requires OutputsOk(rest, l, registrations, outputs) && OutputsOk(rest, n, registrations, outputs)
    requires !Spent(l, o.waiter) && Spent(n, o.waiter) && OutputOk(rest, registrations, o)
    ensures OutputsOk(rest, n, registrations, outputs + [o])
  {
    hide Spent, OutputOk;
    forall i | 0 <= i < |outputs| ensures outputs[i].waiter != o.waiter { assert outputs[i] in outputs; }
  }

  lemma OutputsKept(rest: RequestFrame -> nat, s: WriterState, step: Step, t: WriterState)
    requires WriterOk(rest, s) && Moves(rest, s, step, t) && Extends(s.registrations, t.registrations)
    ensures !t.failed && OutputsOk(rest, t.ledger, t.registrations, Outputs(t))
  {
    hide LedgerOk, NamesOk, MessagesOk, OutputsOk, Next, Extends, Preflighted, DeadlineMs, Serializes, RequestSize;
    if step == Claim(true) {
      assert Outputs(s) == s.written;
      ClaimedOk(rest, s, t);
    } else {
      assert Outputs(t) == Outputs(s);
      if CallOf(rest, s, step).Some? {
        OutputsStay(rest, s.ledger, CallOf(rest, s, step).value, t.ledger, s.registrations, Outputs(s));
      }
      OutputsExtend(rest, t.ledger, s.registrations, Outputs(s), t.registrations);
    }
  }

  lemma MovesKeepOk(rest: RequestFrame -> nat, s: WriterState, step: Step, t: WriterState)
    requires WriterOk(rest, s) && Moves(rest, s, step, t)
    ensures WriterOk(rest, t)
  {
    if step.RegisterCall? { NewWaiter(rest, s, step, t); }
    MessagesKept(rest, s, step);
    SameMessages(rest, After(rest, s, step), t);
    NamesKept(rest, s, step, t);
    OutputsKept(rest, s, step, t);
    hide LedgerOk, NamesOk, MessagesOk, OutputsOk, Next, Enabled, After;
    if CallOf(rest, s, step).Some? { NextKeepsOk(s.ledger, CallOf(rest, s, step).value, t.ledger); }
  }

  lemma SameMessages(rest: RequestFrame -> nat, s: WriterState, t: WriterState)
    requires MessagesOk(rest, s) && t == s.(ledger := t.ledger)
    ensures MessagesOk(rest, t)
  {
    hide CallersOk, QueuedOk, TimedOk;
  }

  lemma InitialOk(rest: RequestFrame -> nat)
    ensures WriterOk(rest, INITIAL_WRITER)
  {
    EmptyOk();
    hide LedgerOk;
  }

  lemma {:induction false} RunKeepsOk(rest: RequestFrame -> nat, states: seq<WriterState>, steps: seq<Step>, i: nat)
    requires IsRun(rest, states, steps) && i < |states|
    ensures WriterOk(rest, states[i])
  {
    hide Moves, WriterOk;
    if i == 0 {
      InitialOk(rest);
    } else {
      RunKeepsOk(rest, states, steps, i - 1);
      MovesKeepOk(rest, states[i - 1], steps[i - 1], states[i]);
    }
  }

  // ---------------------------------------------------------------- main results

  /** Whatever interleaves with it, the writer never fails to serialize a frame, and every deadline it has
      written is the longest, up to 29 seconds, that ends a second before the caller gives up. */
  lemma WriterNeverFails(rest: RequestFrame -> nat, states: seq<WriterState>, steps: seq<Step>, i: nat)
    requires IsRun(rest, states, steps) && i < |states|
    ensures !states[i].failed
    ensures forall o :: o in states[i].written ==>
      IsLongest(o.deadlineMs, o.brokerDeadline, o.at) && rest(o.frame) + |Decimal.Numeral(o.deadlineMs)| <= 786_432
  {
    RunKeepsOk(rest, states, steps, i);
    hide IsRun, LedgerOk, NamesOk, MessagesOk, Spent, WaitersDiffer;
    forall o | o in states[i].written ensures OutputOk(rest, states[i].registrations, o) { assert o in Outputs(states[i]); }
  }

  /** A message taken off the queue goes on to be claimed exactly if Chrome is ready and a second and a millisecond
      are left; its frame is then written for the registration it finds queued, with the longest deadline there is. */
  lemma ReadyFrameIsWritten(rest: RequestFrame -> nat, s: WriterState, ready: bool)
    returns (taken: WriterState, claimed: WriterState, wrote: WriterState, marked: WriterState)
    requires WriterOk(rest, s) && s.phase == Idle && s.queue != []
    ensures Moves(rest, s, Take(ready), taken) && taken.queue == s.queue[1..] && taken.written == s.written && taken.ledger == s.ledger
    ensures taken.phase.Timed? <==> ready && s.clock + 1_001_000_000 <= s.queue[0].brokerDeadline
    ensures !taken.phase.Timed? ==> taken.phase == Idle
    ensures taken.phase.Timed? && Claimable(s.ledger.records, s.queue[0].frame.requestId) ==>
      && Moves(rest, taken, Claim(true), claimed) && Moves(rest, claimed, Write, wrote) && Moves(rest, wrote, Mark, marked)
      && marked.phase == Idle && |marked.written| == |s.written| + 1 && marked.written[..|s.written|] == s.written
      && var o, m := marked.written[|s.written|], s.queue[0];
         && o.frame == m.frame && o.brokerDeadline == m.brokerDeadline && o.at == s.clock && IsLongest(o.deadlineMs, o.brokerDeadline, o.at)
         && marked.ledger.records == Sent(s.ledger.records, m.frame.requestId)
  {
    taken := TakeIs(rest, s, ready);
    claimed, wrote, marked := taken, taken, taken;
    if taken.phase.Timed? && Claimable(s.ledger.records, s.queue[0].frame.requestId) {
      MovesKeepOk(rest, s, Take(ready), taken);
      hide *;
      claimed, wrote, marked := ClaimedIsWritten(rest, taken);
    }
  }

  lemma TakeIs(rest: RequestFrame -> nat, s: WriterState, ready: bool) returns (taken: WriterState)
    requires s.phase == Idle && s.queue != []
    ensures Moves(rest, s, Take(ready), taken)
    ensures taken == s.(queue := s.queue[1..], phase := taken.phase)
    ensures taken.phase == if ready && s.clock + 1_001_000_000 <= s.queue[0].brokerDeadline then Timed(s.queue[0], s.clock) else Idle
  {
    DeadlineIsLongest(s.queue[0].brokerDeadline, s.clock);
    hide DeadlineMs, LeavesTime;
    taken := After(rest, s, Take(ready));
  }

  lemma ClaimedIsWritten(rest: RequestFrame -> nat, s: WriterState) returns (claimed: WriterState, wrote: WriterState, marked: WriterState)
    requires WriterOk(rest, s) && s.phase.Timed? && Claimable(s.ledger.records, s.phase.message.frame.requestId)
    ensures Moves(rest, s, Claim(true), claimed) && Moves(rest, claimed, Write, wrote) && Moves(rest, wrote, Mark, marked)
    ensures marked.phase == Idle && |marked.written| == |s.written| + 1 && marked.written[..|s.written|] == s.written
    ensures var o, m := marked.written[|s.written|], s.phase.message;
      o.frame == m.frame && o.brokerDeadline == m.brokerDeadline && o.at == s.phase.at && IsLongest(o.deadlineMs, o.brokerDeadline, o.at)
    ensures marked.ledger.records == Sent(s.ledger.records, s.phase.message.frame.requestId)
  {
    hide WriterOk, DeadlineMs, LeavesTime, Serializes, RequestSize, Preflighted, WithPhase, IsLongest;
    var id := s.phase.message.frame.requestId;
    var l := s.ledger.(records := WithPhase(s.ledger.records, id, Queued, Dispatching));
    claimed := After(rest, s, Claim(true)).(ledger := l);
    assert Next(s.ledger, LifecycleEvent.BeginDispatch(id, true), l);
    ClaimHolds(rest, s, claimed);
    wrote := After(rest, claimed, Write);
    assert Moves(rest, claimed, Write, wrote);
    var n := l.(records := WithPhase(l.records, id, Dispatching, RequestPhase.Dispatched));
    marked := After(rest, wrote, Mark).(ledger := n);
    assert Next(wrote.ledger, LifecycleEvent.MarkDispatched(id), n);
  }

  lemma ClaimHolds(rest: RequestFrame -> nat, s: WriterState, t: WriterState)
    requires WriterOk(rest, s) && Moves(rest, s, Claim(true), t)
    ensures t.phase.Holding? && t.written == s.written && t.queue == s.queue && t.clock == s.clock
    ensures var o, m := t.phase.output, s.phase.message;
      o.frame == m.frame && o.brokerDeadline == m.brokerDeadline && o.at == s.phase.at && IsLongest(o.deadlineMs, o.brokerDeadline, o.at)
  {
    assert Outputs(s) == s.written;
    ClaimedOk(rest, s, t);
    assert t.phase.output in t.written + [t.phase.output];
    hide WriterOk, Next, DeadlineMs, Serializes, RequestSize, Preflighted, IsLongest;
  }

  /** At most one frame is written for a registration, and it carries the registered id.  If no id was registered
      twice, it is the frame that was registered. */
  lemma OneFramePerRegistration(rest: RequestFrame -> nat, states: seq<WriterState>, steps: seq<Step>, i: nat)
    requires IsRun(rest, states, steps) && i < |states|
    ensures WaitersDiffer(states[i].written)
    ensures forall o :: o in states[i].written ==>
      o.waiter in states[i].registrations && states[i].registrations[o.waiter].requestId == o.frame.requestId
    ensures IdsDiffer(states[i].registrations) ==>
      forall o :: o in states[i].written ==> o.sender == o.waiter && states[i].registrations[o.waiter] == o.frame
  {
    RunKeepsOk(rest, states, steps, i);
    hide IsRun, LedgerOk, NamesOk, MessagesOk, Spent;
    var s := states[i];
    forall o | o in s.written ensures OutputOk(rest, s.registrations, o) { assert o in Outputs(s); }
    forall k, l | 0 <= k < l < |s.written| ensures s.written[k].waiter != s.written[l].waiter {
      assert Outputs(s)[k] == s.written[k] && Outputs(s)[l] == s.written[l];
    }
  }

  ghost predicate IdsDiffer(registrations: map<Waiter, RequestFrame>) {
    forall v, w :: v in registrations && w in registrations && registrations[v].requestId == registrations[w].requestId ==> v == w
  }

  ghost predicate IsOutputFor(outputs: seq<Output>, waiter: Waiter) {
    exists o :: o in outputs && o.waiter == waiter
  }

  lemma UsedUpHasNoNewOutput(rest: RequestFrame -> nat, s: WriterState, step: Step, t: WriterState, waiter: Waiter)
    requires WriterOk(rest, s) && Moves(rest, s, step, t) && UsedUp(s.ledger, waiter) && !IsOutputFor(Outputs(s), waiter)
    ensures UsedUp(t.ledger, waiter) && !IsOutputFor(Outputs(t), waiter)
  {
    if CallOf(rest, s, step).Some? { UsedUpStep(s.ledger, CallOf(rest, s, step).value, t.ledger, waiter); }
    hide NamesOk, MessagesOk, OutputsOk, Next, UsedUp, Preflighted, DeadlineMs, Serializes, RequestSize;
    if step == Claim(true) {
      PendingNotUsedUp(s.ledger, s.phase.message.frame.requestId);
      assert Outputs(s) == s.written;
    } else {
      assert step.Claim? || Outputs(t) == Outputs(s);
    }
  }

  lemma UsedUpStep(l: Ledger, event: LifecycleEvent, n: Ledger, waiter: Waiter)
    requires Next(l, event, n) && UsedUp(l, waiter)
    ensures UsedUp(n, waiter)
  {
    hide Ended, WithPhase, Registered;
  }

  lemma PendingNotUsedUp(l: Ledger, id: string)
    requires LedgerOk(l) && id in l.records.active
    ensures !UsedUp(l, l.records.active[id].waiter)
  {
    hide RecordsOk, Newest;
    assert l.records.active[id].waiter in ActiveWaiters(l.records);
  }

  /** A request that was answered, timed out or was given up before its frame was claimed is never written. */
  lemma {:induction false} EndedIsNeverWritten(
    rest: RequestFrame -> nat, states: seq<WriterState>, steps: seq<Step>, i: nat, j: nat, waiter: Waiter)
    requires IsRun(rest, states, steps) && i <= j < |states|
    requires UsedUp(states[i].ledger, waiter) && !IsOutputFor(Outputs(states[i]), waiter)
    ensures UsedUp(states[j].ledger, waiter) && !IsOutputFor(Outputs(states[j]), waiter)
    decreases j - i
  {
    hide Moves, WriterOk, UsedUp, IsOutputFor;
    if i < j {
      EndedIsNeverWritten(rest, states, steps, i, j - 1, waiter);
      RunKeepsOk(rest, states, steps, j - 1);
      UsedUpHasNoNewOutput(rest, states[j - 1], steps[j - 1], states[j], waiter);
    }
  }
}

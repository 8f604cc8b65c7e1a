/** Guarantees of the operation scheduler over whole runs. */
module OperationTheorems {
  import opened Wrappers
  import opened Lanes
  import opened OperationTasks
  import opened OperationSafety

  lemma {:induction false} RunKeepsInv(run: seq<State>)
    requires IsRun(run) && Inv(run[0])
    ensures forall i :: 0 <= i < |run| ==> Inv(run[i])
  {
    hide Inv, Next;
    if |run| > 1 {
      var front := run[..|run| - 1];
      RunKeepsInv(front);
      assert run[|run| - 2] == front[|front| - 1];
      assert forall i :: 0 <= i < |front| ==> front[i] == run[i];
      StepKeepsInv(run[|run| - 2], run[|run| - 1]);
    }
  }

  lemma {:induction false} RunEvolves(run: seq<State>, i: nat, j: nat)
    requires IsRun(run) && Inv(run[0]) && i <= j < |run|
    ensures AllEvolve(run[i], run[j])
  {
    hide Inv, Next;
    RunKeepsInv(run);
    if i < j {
      RunEvolves(run, i, j - 1);
      StepKeepsInv(run[j - 1], run[j]);
      forall op | 0 <= op < |run[i].operations| ensures Evolves(run[i].operations[op], run[j].operations[op]) {
        assert Evolves(run[i].operations[op], run[j - 1].operations[op]);
        assert Evolves(run[j - 1].operations[op], run[j].operations[op]);
      }
    }
  }

  // ---------------------------------------------------------------- mutual exclusion

  /** Lane mutual exclusion: in every interleaving, two different operations with overlapping lanes
      never both have a body in progress, whatever a shutdown has relabelled meanwhile. */
  lemma LaneMutualExclusion(run: seq<State>, i: nat, a: nat, b: nat)
    requires IsRun(run) && run[0] == INITIAL_STATE && i < |run|
    requires a < |run[i].operations| && b < |run[i].operations| && a != b
    requires run[i].operations[a].lanes.Overlaps(run[i].operations[b].lanes)
    ensures run[i].operations[a].phase != InBody || run[i].operations[b].phase != InBody
  {
    InitialInv();
    RunKeepsInv(run);
    var s := run[i];
    var first, second := if a < b then a else b, if a < b then b else a;
    var earlier, later := s.operations[first], s.operations[second];
    assert TaskOk(s.closed, earlier) && TaskOk(s.closed, later);
    assert earlier.lanes.Overlaps(later.lanes);
    if first in later.predecessors && later.phase == InBody {
      var k :| 0 <= k < |later.predecessors| && later.predecessors[k] == first;
      assert TaskPredecessorsOk(s, second);
      assert IsSettled(earlier.status);
    }
  }

  // ---------------------------------------------------------------- uncertainty containment

  /** A body starts only after every listed predecessor ended Completed or NotDispatched. */
  lemma StartNeedsSettledPredecessors(run: seq<State>, i: nat, op: nat, p: nat)
    requires IsRun(run) && run[0] == INITIAL_STATE && i < |run| && op < |run[i].operations|
    requires run[i].operations[op].bodyStarts > 0 && p in run[i].operations[op].predecessors
    ensures p < op && IsSettled(run[i].operations[p].status) && run[i].operations[p].phase != InBody
  {
    InitialInv();
    RunKeepsInv(run);
    assert TaskPredecessorsOk(run[i], op) && TaskOk(run[i].closed, run[i].operations[op]);
    var k :| 0 <= k < |run[i].operations[op].predecessors| && run[i].operations[op].predecessors[k] == p;
    assert TaskOk(run[i].closed, run[i].operations[p]);
  }

  /** Below an Unknown predecessor an operation is Queued or NotDispatched, and never starts. */
  lemma UnknownPredecessorContains(run: seq<State>, i: nat, j: nat, op: nat, p: nat)
    requires IsRun(run) && run[0] == INITIAL_STATE && i <= j < |run| && op < |run[i].operations|
    requires p in run[i].operations[op].predecessors && p < |run[i].operations|
    requires run[i].operations[p].status == Terminal(Unknown)
    ensures op < |run[j].operations| && run[j].operations[op].bodyStarts == 0
    ensures run[j].operations[op].status in {Queued, Terminal(NotDispatched)}
  {
    InitialInv();
    RunKeepsInv(run);
    RunEvolves(run, i, j);
    assert Evolves(run[i].operations[op], run[j].operations[op]);
    assert Evolves(run[i].operations[p], run[j].operations[p]);
    assert TaskOk(run[j].closed, run[j].operations[op]);
    if run[j].operations[op].bodyStarts > 0 {
      StartNeedsSettledPredecessors(run, j, op, p);
    }
  }

  /** Uncertainty does not spread through operations that never ran: until a shutdown, an operation
      that ended without starting has a direct predecessor that overlaps it, did start, and is Unknown. */
  lemma DeclinedOnlyByDirectUnknown(run: seq<State>, i: nat, op: nat)
    requires IsRun(run) && run[0] == INITIAL_STATE && i < |run| && op < |run[i].operations|
    requires !run[i].closed && IsTerminal(run[i].operations[op].status) && run[i].operations[op].bodyStarts == 0
    ensures exists p ::
      && 0 <= p < op && p in run[i].operations[op].predecessors
      && run[i].operations[p].lanes.Overlaps(run[i].operations[op].lanes)
      && run[i].operations[p].status == Terminal(Unknown) && run[i].operations[p].bodyStarts == 1
  {
    InitialInv();
    RunKeepsInv(run);
    var s := run[i];
    assert TaskDeclinedOk(s, op);
    var p :| p in s.operations[op].predecessors && p < |s.operations| && s.operations[p].status == Terminal(Unknown);
    assert TaskPredecessorsOk(s, op);
    var k :| 0 <= k < |s.operations[op].predecessors| && s.operations[op].predecessors[k] == p;
    assert TaskOk(s.closed, s.operations[p]);
  }

  /** A NotDispatched predecessor is passed like a Completed one. */
  lemma NotDispatchedIsPassed(s: State, op: nat)
    requires Inv(s) && op < |s.operations|
    requires s.operations[op].phase.Waiting? && s.operations[op].phase.next < |s.operations[op].predecessors|
    requires var p := s.operations[op].predecessors[s.operations[op].phase.next];
      p < |s.operations| && s.operations[p].status == Terminal(NotDispatched)
    ensures Enabled(s, TaskStep(op, PassPredecessor))
    ensures Apply(s, TaskStep(op, PassPredecessor)).operations[op].phase == Waiting(s.operations[op].phase.next + 1)
  {
  }

  // ---------------------------------------------------------------- exactly once per retained key

  /** Only the operation its key's entry names can start a body. */
  lemma OnlyRegisteredStart(s: State, step: Step, op: nat)
    requires RegistryOk(s) && UnregisteredOk(s) && Enabled(s, step) && op < |Apply(s, step).operations|
    requires op < |s.operations| ==> !Registered(s, op)
    ensures op < |s.operations| ==> Apply(s, step).operations[op].bodyStarts == s.operations[op].bodyStarts
    ensures op >= |s.operations| ==> step.AdmitCall? && Apply(s, step).operations[op].key == step.key && step.key !in s.tasks
  {
    assert op < |s.operations| ==> IsTerminal(s.operations[op].status);
    match step
    case AdmitCall(_, _, _) =>
    case AttachAbort(_) =>
    case TaskStep(_, _) =>
    case _ =>
  }

  /** One step: a key that stays in the registry keeps its operation, and nothing else under that key starts. */
  lemma RetainedKeyStep(s: State, s': State, key: OperationKey)
    requires Inv(s) && Next(s, s') && key in s.tasks && key in s'.tasks
    ensures s'.tasks[key].sequence == s.tasks[key].sequence
    ensures forall op :: 0 <= op < |s'.operations| && s'.operations[op].key == key && op != s.tasks[key].sequence ==>
      op < |s.operations| && s'.operations[op].bodyStarts == s.operations[op].bodyStarts
  {
    var step :| Enabled(s, step) && s' == Apply(s, step);
    EntryStep(s, step, key);
    StepKeepsInv(s, s');
    hide Apply, Enabled;
    forall op | 0 <= op < |s'.operations| && s'.operations[op].key == key && op != s.tasks[key].sequence
      ensures op < |s.operations| && s'.operations[op].bodyStarts == s.operations[op].bodyStarts
    {
      if op < |s.operations| { assert Evolves(s.operations[op], s'.operations[op]); }
      OnlyRegisteredStart(s, step, op);
    }
  }

  lemma StartsAtMostOnce(s: State, key: OperationKey)
    requires Inv(s) && key in s.tasks
    ensures s.operations[s.tasks[key].sequence].bodyStarts <= 1
  {
    assert TaskOk(s.closed, s.operations[s.tasks[key].sequence]);
  }

  /** Exactly once per retained key: while a key stays in the registry it names one operation, the
      body of that operation is started at most once, and no other admission of the key starts. */
  lemma {:induction false} ExactlyOncePerRetainedKey(run: seq<State>, i: nat, j: nat, key: OperationKey)
    requires IsRun(run) && run[0] == INITIAL_STATE && i <= j < |run|
    requires forall m :: i <= m <= j ==> key in run[m].tasks
    ensures Inv(run[i]) && Inv(run[j])
    ensures run[j].tasks[key].sequence == run[i].tasks[key].sequence
    ensures run[j].operations[run[j].tasks[key].sequence].bodyStarts <= 1
    ensures forall op :: 0 <= op < |run[j].operations| && run[j].operations[op].key == key && op != run[i].tasks[key].sequence ==>
      op < |run[i].operations| && run[j].operations[op].bodyStarts == run[i].operations[op].bodyStarts
  {
    hide Inv, Next;
    InitialInv();
    RunKeepsInv(run);
    StartsAtMostOnce(run[j], key);
    if i < j {
      ExactlyOncePerRetainedKey(run, i, j - 1, key);
      RetainedKeyStep(run[j - 1], run[j], key);
      RunEvolves(run, j - 1, j);
      forall op | 0 <= op < |run[j].operations| && run[j].operations[op].key == key && op != run[i].tasks[key].sequence
        ensures op < |run[i].operations| && run[j].operations[op].bodyStarts == run[i].operations[op].bodyStarts
      {
        assert op < |run[j - 1].operations|;
        assert Evolves(run[j - 1].operations[op], run[j].operations[op]);
      }
    }
  }

  /** A finish or an attach_abort that comes late, after its entry was removed and perhaps the key
      reused, leaves every entry as it is. */
  lemma StaleCallsTouchNoEntry(s: State, op: nat)
    requires Inv(s) && op < |s.operations| && !Registered(s, op)
    ensures Enabled(s, TaskStep(op, FinishSection)) ==> Apply(s, TaskStep(op, FinishSection)).tasks == s.tasks
    ensures Enabled(s, AttachAbort(op)) ==> Apply(s, AttachAbort(op)).tasks == s.tasks
    ensures IsTerminal(s.operations[op].status)
  {
    assert Registered(s, op) || IsTerminal(s.operations[op].status);
  }

  /** Admission: at most 32 entries, joins share the retained operation, a key conflict is reported exactly when
      the key is retained with another set of lanes, and a new key is admitted exactly when there is room and no shutdown. */
  lemma AdmissionIsBoundedAndKeyed(run: seq<State>, i: nat, key: OperationKey, lanes: seq<BrowserLane>, retained: seq<BrowserLane>)
    requires IsRun(run) && run[0] == INITIAL_STATE && i < |run| && lanes != [] && retained != []
    ensures Inv(run[i])
    ensures |run[i].tasks| <= 32
    ensures key in run[i].tasks && run[i].operations[run[i].tasks[key].sequence].lanes == BrowserLaneSet.New(retained).value ==>
      Decide(run[i], key, BrowserLaneSet.New(lanes).value)
        == if Elements(lanes) == Elements(retained) then Join(run[i].tasks[key].sequence) else Reject(KeyConflict)
    ensures key !in run[i].tasks && run[i].closed ==>
      Decide(run[i], key, BrowserLaneSet.New(lanes).value) == Reject(OperationAdmissionError.Closed)
    ensures key !in run[i].tasks && !run[i].closed && |run[i].operations| < U64_MAX ==>
      Decide(run[i], key, BrowserLaneSet.New(lanes).value) == if |run[i].tasks| < 32 then Admit else Reject(Saturated)
  {
    InitialInv();
    RunKeepsInv(run);
    LaneSetIsCanonical(lanes, retained);
  }

  // ---------------------------------------------------------------- shutdown

  /** Once a shutdown has called its handles, every task whose admitting call has returned is
      finished or aborted; all outcomes are fixed and nothing is admitted any more. */
  lemma ShutdownAbortsEverything(run: seq<State>, i: nat)
    requires IsRun(run) && run[0] == INITIAL_STATE && i < |run|
    requires run[i].closed && run[i].scan.None? && run[i].pendingAborts == {}
    ensures run[i].tasks == map[]
    ensures forall op :: 0 <= op < |run[i].operations| ==>
      && IsTerminal(run[i].operations[op].status)
      && (run[i].operations[op].attached ==> Finished(run[i].operations[op]) || run[i].operations[op].aborted)
  {
    InitialInv();
    RunKeepsInv(run);
    var s := run[i];
    forall op | 0 <= op < |s.operations|
      ensures IsTerminal(s.operations[op].status)
      ensures s.operations[op].attached ==> Finished(s.operations[op]) || s.operations[op].aborted
    {
      assert Registered(s, op) || IsTerminal(s.operations[op].status);
      if !Finished(s.operations[op]) { assert TaskAbortOk(s, op); }
    }
  }

  /** Nobody waits on a channel whose senders are gone without an outcome: the closed-channel arms of
      wait_for_terminal only ever repeat a terminal status, even for a task aborted before its first poll. */
  lemma ClosedChannelsCarryAnOutcome(run: seq<State>, i: nat, op: nat)
    requires IsRun(run) && run[0] == INITIAL_STATE && i < |run| && op < |run[i].operations|
    requires ChannelClosed(run[i], op) || run[i].operations[op].phase == Ended
    ensures IsTerminal(run[i].operations[op].status)
  {
    InitialInv();
    RunKeepsInv(run);
    assert TaskOk(run[i].closed, run[i].operations[op]);
  }
}

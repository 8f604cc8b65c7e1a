/** The scheduler cannot deadlock, and settles in a bounded number of its own steps. */
module OperationProgress {
  import opened Wrappers
  import opened Lanes
  import opened OperationTasks
  import opened OperationSafety
  import opened OperationTheorems

  // ---------------------------------------------------------------- an enabled step

  /** The step an unsettled operation takes when everything before it has an outcome. */
  function NextEvent(task: Operation): TaskEvent {
    match task.phase
    case Unspawned => Spawn
    case Spawned => FirstPoll
    case Waiting(next) => if next < |task.predecessors| then PassPredecessor else Claim
    case InBody => EndBody(Completed)
    case Dropping => GuardReads
    case Publishing(_) => Publish
    case _ => FinishSection
  }

  /** Deadlock freedom: while some operation has no outcome, the one with the least sequence can
      step, whoever holds the registry lock.  A body in progress is trusted to end. */
  lemma LeastUnsettledCanStep(run: seq<State>, i: nat, op: nat)
    requires IsRun(run) && run[0] == INITIAL_STATE && i < |run| && op < |run[i].operations|
    requires !IsTerminal(run[i].operations[op].status)
    requires forall p :: 0 <= p < op ==> IsTerminal(run[i].operations[p].status)
    ensures RegistryOk(run[i]) && Enabled(run[i], TaskStep(op, NextEvent(run[i].operations[op])))
  {
    InitialInv();
    RunKeepsInv(run);
    assert TaskOk(run[i].closed, run[i].operations[op]);
    assert TaskPredecessorsOk(run[i], op);
  }

  // ---------------------------------------------------------------- the measure

  /** How many steps of its own the spawned task of an operation can still take, at most. */
  function Rank(task: Operation): nat {
    (if task.attached then 0 else 1) +
    match task.phase
    case Unspawned => |task.predecessors| + 8
    case Spawned => |task.predecessors| + 7
    case Waiting(next) => (if next <= |task.predecessors| then |task.predecessors| - next else 0) + 6
    case InBody => 5
    case Dropping => 4
    case Publishing(_) => 3
    case Unregistering => 2
    case Ended => 0
  }

  function TotalRank(tasks: seq<Operation>): nat {
    if tasks == [] then 0 else TotalRank(tasks[..|tasks| - 1]) + Rank(tasks[|tasks| - 1])
  }

  function Measure(s: State): nat {
    TotalRank(s.operations) + |s.pendingAborts|
      + if s.scan.Some? then 1 + 2 * |s.scan.value.remaining| + |s.scan.value.aborts| else 0
  }

  lemma {:induction false} TotalRankUpdate(tasks: seq<Operation>, op: nat, task: Operation)
    requires op < |tasks|
    ensures TotalRank(tasks[op := task]) == TotalRank(tasks) - Rank(tasks[op]) + Rank(task)
  {
    var last := |tasks| - 1;
    if op == last {
      assert tasks[op := task][..last] == tasks[..last];
    } else {
      assert tasks[op := task][..last] == tasks[..last][op := task];
      TotalRankUpdate(tasks[..last], op, task);
    }
  }

  lemma TaskStepLowersRank(s: State, op: nat, event: TaskEvent)
    requires op < |s.operations| && TaskEnabled(s, op, event) && TaskOk(s.closed, s.operations[op])
    ensures Rank(TaskAfter(s, op, event)) < Rank(s.operations[op])
  {
  }

  lemma TaskStepLowersMeasure(s: State, op: nat, event: TaskEvent)
    requires RegistryOk(s) && TasksOk(s) && op < |s.operations| && TaskEnabled(s, op, event)
    ensures Measure(Apply(s, TaskStep(op, event))) < Measure(s)
  {
    TaskStepLowersRank(s, op, event);
    TotalRankUpdate(s.operations, op, TaskAfter(s, op, event));
  }

  lemma RelabelLowersMeasure(s: State, key: OperationKey)
    requires RegistryOk(s) && s.scan.Some? && key in s.scan.value.remaining && key in s.tasks
    ensures Measure(RelabelSection(s, key)) < Measure(s)
  {
    var s', op := RelabelSection(s, key), s.tasks[key].sequence;
    TotalRankUpdate(s.operations, op, s'.operations[op]);
    RelabelKeepsRank(s.operations[op]);
    var taken := if s.tasks[key].abort.Some? then {s.tasks[key].abort.value} else {};
    assert |taken| <= 1;
    UnionSize(s.scan.value.aborts, taken);
    hide TotalRank, Rank, FailUnfinished;
    assert TotalRank(s'.operations) == TotalRank(s.operations);
    assert |s'.scan.value.remaining| == |s.scan.value.remaining| - 1;
  }

  lemma RelabelKeepsRank(task: Operation)
    ensures Rank(task.(status := FailUnfinished(task.status))) == Rank(task)
  {
  }

  lemma AttachLowersMeasure(s: State, op: nat)
    requires op < |s.operations| && !s.operations[op].attached
    ensures Measure(AttachSection(s, op)) < Measure(s)
  {
    TotalRankUpdate(s.operations, op, AttachSection(s, op).operations[op]);
    hide TotalRank;
  }

  lemma ClearLowersMeasure(s: State)
    requires RegistryOk(s) && Enabled(s, ClearTasks)
    ensures Measure(Apply(s, ClearTasks)) < Measure(s)
  {
    UnionSize(s.pendingAborts, s.scan.value.aborts);
  }

  lemma CallLowersMeasure(s: State, op: nat)
    requires RegistryOk(s) && Enabled(s, CallAbort(op))
    ensures Measure(Apply(s, CallAbort(op))) < Measure(s)
  {
    TotalRankUpdate(s.operations, op, s.operations[op].(aborted := true));
  }

  /** Every step the scheduler takes by itself lowers the measure. */
  lemma SchedulerStepLowersMeasure(s: State, step: Step)
    requires Inv(s) && Enabled(s, step) && IsSchedulerStep(step)
    ensures Measure(Apply(s, step)) < Measure(s)
  {
    hide Measure;
    match step
    case AttachAbort(op) => AttachLowersMeasure(s, op);
    case Relabel(key) => RelabelLowersMeasure(s, key);
    case ClearTasks => ClearLowersMeasure(s);
    case CallAbort(op) => CallLowersMeasure(s, op);
    case TaskStep(op, event) => TaskStepLowersMeasure(s, op, event);
  }

  lemma UnionSize<T>(a: set<T>, b: set<T>)
    ensures |a + b| <= |a| + |b|
  {
    assert a + b == a + (b - a);
    SubsetSize(b - a, b);
  }

  /** A run in which nobody calls into the registry. */
  ghost predicate IsSchedulerRun(run: seq<State>) {
    |run| > 0 && forall i :: 0 <= i < |run| - 1 ==> SchedulerNext(run[i], run[i + 1])
  }

  ghost predicate SchedulerNext(s: State, s': State) {
    RegistryOk(s) && exists step :: Enabled(s, step) && IsSchedulerStep(step) && s' == Apply(s, step)
  }

  /** Left alone, the scheduler takes at most as many steps as the measure says. */
  lemma {:induction false} SchedulerRunsAreBounded(run: seq<State>)
    requires IsSchedulerRun(run) && Inv(run[0])
    ensures Inv(run[|run| - 1])
    ensures |run| - 1 + Measure(run[|run| - 1]) <= Measure(run[0])
  {
    hide Inv, Enabled, Apply;
    if |run| > 1 {
      var front := run[..|run| - 1];
      assert forall i :: 0 <= i < |front| - 1 ==> SchedulerNext(front[i], front[i + 1]);
      SchedulerRunsAreBounded(front);
      var s, s' := run[|run| - 2], run[|run| - 1];
      assert SchedulerNext(s, s');
      var step :| Enabled(s, step) && IsSchedulerStep(step) && s' == Apply(s, step);
      SchedulerStepLowersMeasure(s, step);
      StepKeepsInv(s, s');
    }
  }

  lemma {:induction false} LeastUnsettled(s: State, op: nat) returns (least: nat)
    requires op < |s.operations| && !IsTerminal(s.operations[op].status)
    ensures least <= op && !IsTerminal(s.operations[least].status)
    ensures forall p :: 0 <= p < least ==> IsTerminal(s.operations[p].status)
  {
    if p :| 0 <= p < op && !IsTerminal(s.operations[p].status) {
      least := LeastUnsettled(s, p);
    } else {
      least := op;
    }
  }

  /** And where it stops, everything is settled: every operation has an outcome, every task has
      ended, every shutdown is done. */
  lemma QuiescentMeansSettled(run: seq<State>, i: nat)
    requires IsRun(run) && run[0] == INITIAL_STATE && i < |run| && RegistryOk(run[i])
    requires forall step :: Enabled(run[i], step) ==> !IsSchedulerStep(step)
    ensures run[i].scan.None? && run[i].pendingAborts == {}
    ensures forall op :: 0 <= op < |run[i].operations| ==>
      IsTerminal(run[i].operations[op].status) && run[i].operations[op].phase == Ended && run[i].operations[op].attached
  {
    InitialInv();
    RunKeepsInv(run);
    var s := run[i];
    if s.scan.Some? {
      if key :| key in s.scan.value.remaining {
        assert Enabled(s, Relabel(key)) && IsSchedulerStep(Relabel(key));
      } else {
        assert Enabled(s, ClearTasks) && IsSchedulerStep(ClearTasks);
      }
    }
    if op :| op in s.pendingAborts {
      assert Enabled(s, CallAbort(op)) && IsSchedulerStep(CallAbort(op));
    }
    forall op | 0 <= op < |s.operations| ensures IsTerminal(s.operations[op].status) {
      if !IsTerminal(s.operations[op].status) {
        var least := LeastUnsettled(s, op);
        LeastUnsettledCanStep(run, i, least);
        assert IsSchedulerStep(TaskStep(least, NextEvent(s.operations[least])));
      }
    }
    forall op | 0 <= op < |s.operations|
      ensures s.operations[op].phase == Ended && s.operations[op].attached
    {
      EndedOrCanStep(run, i, op);
      assert IsSchedulerStep(TaskStep(op, NextEvent(s.operations[op]))) && IsSchedulerStep(AttachAbort(op));
    }
  }

  lemma EndedOrCanStep(run: seq<State>, i: nat, op: nat)
    requires IsRun(run) && run[0] == INITIAL_STATE && i < |run| && op < |run[i].operations|
    requires forall p :: 0 <= p < |run[i].operations| ==> IsTerminal(run[i].operations[p].status)
    requires LockFree(run[i])
    ensures RegistryOk(run[i])
    ensures || (run[i].operations[op].phase == Ended && run[i].operations[op].attached)
            || Enabled(run[i], TaskStep(op, NextEvent(run[i].operations[op])))
            || Enabled(run[i], AttachAbort(op))
  {
    InitialInv();
    RunKeepsInv(run);
    assert TaskOk(run[i].closed, run[i].operations[op]);
    assert TaskPredecessorsOk(run[i], op);
  }
}

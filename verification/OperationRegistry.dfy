/**
 The registry calls as the code performs them: in place, one loop per collection.  Each method is one
 critical section (a shutdown nobody interrupts is a sequence of them) and is proved to be the
 corresponding step of the scheduler's transition system.
 */
module OperationRegistry {
  import opened Wrappers
  import opened Sorting
  import opened Lanes
  import opened OperationTasks

  predicate SequenceLeq(a: nat, b: nat) { a <= b }

  class OperationTaskRegistry {
    var closed: bool
    var operations: seq<Operation>
    var tasks: map<OperationKey, TaskEntry>
    var pendingAborts: set<nat>

    constructor ()
      ensures Model() == INITIAL_STATE
    {
      closed, operations, tasks, pendingAborts := false, [], map[], {};
    }

    /** The scheduler state between two critical sections. */
    ghost function Model(): State
      reads this
    {
      State(closed, operations, tasks, None, pendingAborts)
    }

    /** The admission section of join_or_spawn. */
    method JoinOrSpawn(key: OperationKey, lanes: BrowserLaneSet) returns (decision: AdmissionDecision)
      requires RegistryOk(Model())
      modifies this
      ensures decision == Decide(old(Model()), key, lanes)
      ensures decision != Admit ==> Model() == old(Model())
      ensures decision == Admit ==>
        && |operations| == |old(operations)| + 1
        && var predecessors := operations[|old(operations)|].predecessors;
           && Enabled(old(Model()), AdmitCall(key, lanes, predecessors))
           && Model() == Apply(old(Model()), AdmitCall(key, lanes, predecessors))
    {
      if key in tasks {
        var sequence := tasks[key].sequence;
        if operations[sequence].lanes != lanes {
          return Reject(KeyConflict);
        }
        return Join(sequence);
      }
      if closed {
        return Reject(OperationAdmissionError.Closed);
      }
      if |tasks| >= MAX_ADMITTED_BROWSER_OPERATIONS || |operations| == U64_MAX {
        return Reject(Saturated);
      }

      var found := CollectConflicts(lanes);
      var predecessors := Sort(found, SequenceLeq);
      ghost var before := Model();
      SortedConflicts(before, lanes, found);
      tasks := tasks[key := TaskEntry(|operations|, None, true)];
      operations := operations + [Operation(key, lanes, predecessors, Queued, Unspawned, false, false, 0)];
      return Admit;
    }

    /** The scan over the registry: every entry that overlaps and is not settled, in any order. */
    method CollectConflicts(lanes: BrowserLaneSet) returns (found: seq<nat>)
      requires RegistryOk(Model())
      ensures forall op: nat :: op in found <==>
        op < |operations| && Conflicts(Model(), op, lanes) && !IsSettled(operations[op].status)
      ensures forall i, j :: 0 <= i < j < |found| ==> found[i] != found[j]
    {
      found := [];
      var unseen := tasks.Keys;
      while unseen != {}
        invariant unseen <= tasks.Keys
        invariant forall op: nat :: op in found <==>
          && op < |operations| && Conflicts(Model(), op, lanes) && !IsSettled(operations[op].status)
          && operations[op].key !in unseen
        invariant forall i, j :: 0 <= i < j < |found| ==> found[i] != found[j]
      {
        var key :| key in unseen;
        var op := tasks[key].sequence;
        if operations[op].lanes.Overlaps(lanes) && !IsSettled(operations[op].status) {
          found := found + [op];
        }
        unseen := unseen - {key};
      }
    }

    method EvictOwner(key: OperationKey)
      requires RegistryOk(Model())
      modifies this`tasks
      ensures Model() == Apply(old(Model()), EvictCall(key))
    {
      if key in tasks {
        var entry := tasks[key];
        tasks := tasks[key := entry.(ownerRetained := false)];
        if IsTerminal(operations[entry.sequence].status) {
          tasks := tasks - {key};
          assert tasks == old(tasks) - {key};
        }
      }
    }

    method Attach(op: nat)
      requires RegistryOk(Model()) && Enabled(Model(), AttachAbort(op))
      modifies this`tasks, this`operations
      ensures Model() == Apply(old(Model()), AttachAbort(op))
    {
      var task := operations[op];
      var aborts := false;
      if task.key in tasks && tasks[task.key].sequence == op {
        if !IsTerminal(task.status) {
          tasks := tasks[task.key := tasks[task.key].(abort := Some(op))];
        }
      } else if closed {
        aborts := true;
      }
      operations := operations[op := task.(attached := true, aborted := task.aborted || aborts)];
    }

    /** finish, run without interruption: terminal_transition, then the registry section. */
    method Finish(op: nat)
      requires RegistryOk(Model()) && Enabled(Model(), TaskStep(op, Publish))
      modifies this`tasks, this`operations
      ensures var published := Apply(old(Model()), TaskStep(op, Publish));
        && RegistryOk(published) && Enabled(published, TaskStep(op, FinishSection))
        && Model() == Apply(published, TaskStep(op, FinishSection))
    {
      var task := operations[op];
      operations := operations[op := task.(status := TerminalTransition(task.status, task.phase.outcome),
                                           phase := Unregistering)];
      assert Model() == Apply(old(Model()), TaskStep(op, Publish));
      UnregisterFinished(op);
    }

    method UnregisterFinished(op: nat)
      requires RegistryOk(Model()) && Enabled(Model(), TaskStep(op, FinishSection))
      modifies this`tasks, this`operations
      ensures Model() == Apply(old(Model()), TaskStep(op, FinishSection))
    {
      var task := operations[op];
      if task.key in tasks && tasks[task.key].sequence == op {
        var entry := tasks[task.key].(abort := None);
        tasks := tasks[task.key := entry];
        if !entry.ownerRetained {
          tasks := tasks - {task.key};
          assert tasks == old(tasks) - {task.key};
        }
      }
      operations := operations[op := task.(phase := Ended)];
    }

    /** shutdown_and_clear: relabel every entry and take its handle, clear, then abort. */
    method ShutdownAndClear()
      requires RegistryOk(Model()) && pendingAborts == {}
      requires forall key :: key in tasks && tasks[key].abort.Some? ==> tasks[key].abort.value == tasks[key].sequence
      modifies this
      ensures closed && tasks == map[] && pendingAborts == {}
      ensures |operations| == |old(operations)|
      ensures forall op :: 0 <= op < |operations| ==>
        operations[op] == AfterShutdown(old(Model()), op)
    {
      closed := true;
      var aborts := RelabelAll();
      tasks := map[];
      CallAborts(aborts);
    }

    method RelabelAll() returns (aborts: set<nat>)
      requires RegistryOk(Model())
      requires forall key :: key in tasks && tasks[key].abort.Some? ==> tasks[key].abort.value == tasks[key].sequence
      modifies this`operations
      ensures |operations| == |old(operations)|
      ensures forall op :: 0 <= op < |operations| ==> Relabelled(old(Model()), operations[op], {}, op)
      ensures forall op: nat :: op in aborts <==> op < |operations| && HandleInEntry(old(Model()), op)
    {
      ghost var start := Model();
      aborts := {};
      var unseen := tasks.Keys;
      while unseen != {}
        invariant unseen <= tasks.Keys && |operations| == |start.operations|
        invariant forall op :: 0 <= op < |operations| ==> Relabelled(start, operations[op], unseen, op)
        invariant forall op: nat :: op in aborts <==>
          op < |operations| && HandleInEntry(start, op) && start.operations[op].key !in unseen
      {
        var key :| key in unseen;
        var entry := tasks[key];
        assert start.operations[entry.sequence].key == key;
        var task := operations[entry.sequence];
        assert Relabelled(start, task, unseen, entry.sequence);
        operations := operations[entry.sequence := task.(status := FailUnfinished(task.status))];
        if entry.abort.Some? {
          aborts := aborts + {entry.abort.value};
        }
        unseen := unseen - {key};
      }
    }

    method CallAborts(aborts: set<nat>)
      requires forall op: nat :: op in aborts ==> op < |operations|
      modifies this`operations
      ensures |operations| == |old(operations)|
      ensures forall op :: 0 <= op < |operations| ==>
        operations[op] == if op in aborts then old(operations)[op].(aborted := true) else old(operations)[op]
    {
      var rest := aborts;
      while rest != {}
        invariant rest <= aborts && |operations| == |old(operations)|
        invariant forall op :: 0 <= op < |operations| ==>
          operations[op] == if op in aborts && op !in rest then old(operations)[op].(aborted := true) else old(operations)[op]
      {
        var op :| op in rest;
        operations := operations[op := operations[op].(aborted := true)];
        rest := rest - {op};
      }
    }
  }

  predicate Relabelled(start: State, task: Operation, unseen: set<OperationKey>, op: nat)
    requires op < |start.operations|
  {
    var before := start.operations[op];
    task == if Registered(start, op) && before.key !in unseen then before.(status := FailUnfinished(before.status)) else before
  }

  predicate HandleInEntry(s: State, op: nat)
    requires op < |s.operations|
  {
    Registered(s, op) && s.tasks[s.operations[op].key].abort == Some(op)
  }

  /** What a shutdown nobody interrupts leaves of an operation: registered ones get an outcome, and
      those with a handle are aborted. */
  function AfterShutdown(s: State, op: nat): Operation
    requires op < |s.operations|
  {
    var task := s.operations[op];
    task.(status := if Registered(s, op) then FailUnfinished(task.status) else task.status,
          aborted := task.aborted || HandleInEntry(s, op))
  }

  /** Sorted by sequence number, the collected conflicts are a predecessor list. */
  lemma SortedConflicts(s: State, lanes: BrowserLaneSet, found: seq<nat>)
    requires forall op: nat :: op in found <==> op < |s.operations| && Conflicts(s, op, lanes) && !IsSettled(s.operations[op].status)
    requires forall i, j :: 0 <= i < j < |found| ==> found[i] != found[j]
    ensures PredecessorsOf(s, lanes, Sort(found, SequenceLeq))
  {
    var sorted := Sort(found, SequenceLeq);
    assert TotalPreorder(SequenceLeq);
    SortSorts(found, SequenceLeq);
    SortKeepsElements(found, SequenceLeq);
    SortKeepsDistinct(found, SequenceLeq);
    forall k | 0 <= k < |sorted| ensures sorted[k] < |s.operations| && Conflicts(s, sorted[k], lanes) {
      assert sorted[k] in found;
    }
    forall k, m | 0 <= k < m < |sorted| ensures sorted[k] < sorted[m] {
      assert SequenceLeq(sorted[k], sorted[m]);
    }
  }
}

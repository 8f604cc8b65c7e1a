/** How an operation ends, over whole runs: its outcome is what its body made of it, and its entry goes when it should. */
module OperationOutcomes {
  import opened Wrappers
  import opened OperationTasks
  import opened OperationSafety
  import opened OperationTheorems

  /** A run with its steps: steps[i] leads from states[i] to states[i + 1]. */
  ghost predicate IsSteppedRun(states: seq<State>, steps: seq<Step>) {
    && |states| == |steps| + 1 && states[0] == INITIAL_STATE
    && forall i :: 0 <= i < |steps| ==> Steps(states[i], steps[i], states[i + 1])
  }

  ghost predicate Steps(s: State, step: Step, s': State) {
    RegistryOk(s) && Enabled(s, step) && s' == Apply(s, step)
  }

  lemma {:induction false} SteppedKeepsInv(states: seq<State>, steps: seq<Step>, i: nat)
    requires IsSteppedRun(states, steps) && i < |states|
    ensures Inv(states[i])
  {
    hide Inv, Steps;
    if i == 0 {
      InitialInv();
    } else {
      SteppedKeepsInv(states, steps, i - 1);
      assert Next(states[i - 1], states[i]) by { SteppedNext(states[i - 1], steps[i - 1], states[i]); }
      StepKeepsInv(states[i - 1], states[i]);
    }
  }

  lemma SteppedNext(s: State, step: Step, s': State)
    requires Steps(s, step, s')
    ensures Next(s, s')
  {
    hide Apply, Enabled, RegistryOk;
  }

  // ---------------------------------------------------------------- how bodies end

  /** The step ends the body of `op`: with an outcome of its own, or with Unknown if the body was lost half way. */
  function EndingIn(s: State, step: Step, op: nat): Option<OperationTerminal> {
    if op >= |s.operations| || !step.TaskStep? || step.op != op then None
    else
      match step.event
      case EndBody(outcome) => Some(outcome)
      case DropFuture => if s.operations[op].phase == InBody then Some(Unknown) else None
      case _ => None
  }

  /** How the body of `op` has ended in the first j steps, if it has. */
  ghost function BodyEnding(states: seq<State>, steps: seq<Step>, j: nat, op: nat): Option<OperationTerminal>
    requires j <= |steps| < |states|
  {
    if j == 0 then None
    else if EndingIn(states[j - 1], steps[j - 1], op).Some? then EndingIn(states[j - 1], steps[j - 1], op)
    else BodyEnding(states, steps, j - 1, op)
  }

  /** Phase and status of an operation agree with how its body ended. */
  predicate EndingOk(closed: bool, task: Operation, ending: Option<OperationTerminal>) {
    && (task.bodyStarts == 0 || task.phase == InBody ==> ending == None)
    && (task.bodyStarts > 0 && task.phase != InBody ==> ending.Some?)
    && (task.phase == Dropping && task.bodyStarts > 0 ==> ending == Some(Unknown))
    && (task.phase.Publishing? && task.bodyStarts > 0 ==> ending == Some(task.phase.outcome))
    && (IsTerminal(task.status) && task.bodyStarts > 0 ==>
          ending == Some(task.status.terminal) || (closed && task.status == Terminal(Unknown)))
  }

  lemma TaskEndingKept(s: State, op: nat, event: TaskEvent, ending: Option<OperationTerminal>)
    requires op < |s.operations| && TaskOk(s.closed, s.operations[op]) && TaskEnabled(s, op, event)
    requires EndingOk(s.closed, s.operations[op], ending)
    ensures var now := EndingIn(s, TaskStep(op, event), op);
      && (now.Some? ==> ending == None)
      && EndingOk(s.closed, TaskAfter(s, op, event), if now.Some? then now else ending)
  {
    hide Observed;
    match event
    case Claim =>
    case PassPredecessor =>
    case DropFuture =>
    case GuardReads =>
    case Publish =>
    case EndBody(_) =>
    case _ =>
  }

  lemma EndingStays(before: State, step: Step, op: nat, closed: bool, after: Operation, ending: Option<OperationTerminal>)
    requires op < |before.operations| && OperationAfter(before, step, op, after) && TaskOk(before.closed, before.operations[op])
    requires EndingOk(before.closed, before.operations[op], ending) && (before.closed ==> closed)
    requires step.Relabel? && before.scan.Some? ==> before.closed
    requires !(step.TaskStep? && step.op == op)
    ensures EndingOk(closed, after, ending)
  {
    hide TaskAfter, TaskEnabled;
  }

  lemma EndingKept(s: State, step: Step, s': State, op: nat, ending: Option<OperationTerminal>)
    requires Inv(s) && Steps(s, step, s') && op < |s.operations| && EndingOk(s.closed, s.operations[op], ending)
    ensures op < |s'.operations|
    ensures var now := EndingIn(s, step, op);
      (now.Some? ==> ending == None) && EndingOk(s'.closed, s'.operations[op], if now.Some? then now else ending)
  {
    assert TaskOk(s.closed, s.operations[op]);
    assert step.Relabel? ==> s.closed;
    StepGrows(s, step);
    OperationStep(s, step, op);
    if step.TaskStep? && step.op == op {
      TaskEndingKept(s, op, step.event, ending);
      TaskStepIs(s, op, step.event);
    } else {
      hide Inv, TaskOk, EndingOk, OperationAfter, Apply, Enabled;
      EndingStays(s, step, op, s'.closed, s'.operations[op], ending);
    }
  }

  lemma TaskStepIs(s: State, op: nat, event: TaskEvent)
    requires RegistryOk(s) && Enabled(s, TaskStep(op, event))
    ensures Apply(s, TaskStep(op, event)).closed == s.closed
    ensures Apply(s, TaskStep(op, event)).operations == s.operations[op := TaskAfter(s, op, event)]
  {
    hide TaskAfter, TaskEnabled, FinishTasks;
  }

  lemma NewEnding(s: State, step: Step, s': State, op: nat)
    requires Inv(s) && Steps(s, step, s') && |s.operations| <= op < |s'.operations|
    ensures EndingOk(s'.closed, s'.operations[op], None) && EndingIn(s, step, op) == None
  {
    StepGrows(s, step);
    if step.AdmitCall? { AdmittedIs(s, step); }
    hide Apply, Enabled, Inv;
  }

  /** The invariant, over runs. */
  lemma {:induction false} EndingsOk(states: seq<State>, steps: seq<Step>, j: nat, op: nat)
    requires IsSteppedRun(states, steps) && j < |states|
    ensures op < |states[j].operations| ==> EndingOk(states[j].closed, states[j].operations[op], BodyEnding(states, steps, j, op))
    ensures op >= |states[j].operations| ==> BodyEnding(states, steps, j, op) == None
  {
    hide Inv, Steps, EndingOk;
    if j > 0 {
      EndingsOk(states, steps, j - 1, op);
      SteppedKeepsInv(states, steps, j - 1);
      var s, step, s' := states[j - 1], steps[j - 1], states[j];
      assert Steps(s, step, s');
      if op < |s.operations| {
        EndingKept(s, step, s', op, BodyEnding(states, steps, j - 1, op));
      } else if op < |s'.operations| {
        NewEnding(s, step, s', op);
      }
    }
  }

  lemma {:induction false} EndingStaysOver(states: seq<State>, steps: seq<Step>, k: nat, j: nat, op: nat)
    requires IsSteppedRun(states, steps) && k < j < |states| && EndingIn(states[k], steps[k], op).Some?
    ensures op < |states[j].operations| && BodyEnding(states, steps, j, op) == EndingIn(states[k], steps[k], op)
    decreases j
  {
    hide Inv, Steps, EndingOk;
    SteppedKeepsInv(states, steps, j - 1);
    EndingsOk(states, steps, j - 1, op);
    assert Steps(states[j - 1], steps[j - 1], states[j]);
    if k < j - 1 { EndingStaysOver(states, steps, k, j - 1, op); }
    EndingKept(states[j - 1], steps[j - 1], states[j], op, BodyEnding(states, steps, j - 1, op));
  }

  /** A body that is lost half way, by a panic or an abort, leaves the outcome Unknown. */
  lemma LostBodyIsUnknown(states: seq<State>, steps: seq<Step>, k: nat, j: nat, op: nat)
    requires IsSteppedRun(states, steps) && k < j < |states|
    requires steps[k] == TaskStep(op, DropFuture) && op < |states[k].operations| && states[k].operations[op].phase == InBody
    ensures op < |states[j].operations|
    ensures IsTerminal(states[j].operations[op].status) ==> states[j].operations[op].status == Terminal(Unknown)
  {
    EndingStaysOver(states, steps, k, j, op);
    EndingsOk(states, steps, j, op);
    SteppedKeepsInv(states, steps, j);
    StartedTasks(states[j], op);
    hide IsSteppedRun, Inv, BodyEnding;
  }

  lemma StartedTasks(s: State, op: nat)
    requires Inv(s) && op < |s.operations|
    ensures TaskOk(s.closed, s.operations[op])
  {
    assert TasksOk(s);
    hide Inv;
  }

  lemma {:induction false} EndingHasStep(states: seq<State>, steps: seq<Step>, j: nat, op: nat)
    requires IsSteppedRun(states, steps) && j < |states| && BodyEnding(states, steps, j, op).Some?
    ensures exists k :: 0 <= k < j && EndingIn(states[k], steps[k], op) == BodyEnding(states, steps, j, op)
  {
    hide Steps;
    if EndingIn(states[j - 1], steps[j - 1], op).None? { EndingHasStep(states, steps, j - 1, op); }
  }

  /** A started operation has an outcome other than Unknown only if its body returned that outcome; it is Unknown
      only if its body said so, was lost, or a shutdown came. */
  lemma OutcomeIsTheBodys(states: seq<State>, steps: seq<Step>, j: nat, op: nat, outcome: OperationTerminal)
    requires IsSteppedRun(states, steps) && j < |states| && op < |states[j].operations|
    requires states[j].operations[op].bodyStarts > 0 && states[j].operations[op].status == Terminal(outcome)
    ensures outcome != Unknown ==> exists k :: 0 <= k < j && steps[k] == TaskStep(op, EndBody(outcome))
    ensures outcome == Unknown ==>
      || states[j].closed
      || exists k :: 0 <= k < j && op < |states[k].operations| && (steps[k] == TaskStep(op, EndBody(Unknown))
           || (steps[k] == TaskStep(op, DropFuture) && states[k].operations[op].phase == InBody))
  {
    EndingsOk(states, steps, j, op);
    var ending := BodyEnding(states, steps, j, op);
    if ending == Some(outcome) {
      EndingHasStep(states, steps, j, op);
      var k :| 0 <= k < j && EndingIn(states[k], steps[k], op) == ending;
    }
    hide IsSteppedRun, BodyEnding;
  }

  /** The outcome a body returns is the one that is published, unless a shutdown came first. */
  lemma ReturnedOutcomeIsPublished(states: seq<State>, steps: seq<Step>, k: nat, j: nat, op: nat, outcome: OperationTerminal)
    requires IsSteppedRun(states, steps) && k < j < |steps|
    requires steps[k] == TaskStep(op, EndBody(outcome)) && steps[j] == TaskStep(op, Publish) && !states[j].closed
    ensures op < |states[j + 1].operations| && states[j + 1].operations[op].status == Terminal(outcome)
  {
    assert Steps(states[k], steps[k], states[k + 1]) && Steps(states[j], steps[j], states[j + 1]);
    EndsBody(states[k], steps[k], states[k + 1], op, outcome);
    hide IsSteppedRun, Inv, BodyEnding, Steps, EndingIn;
    EndingStaysOver(states, steps, k, j, op);
    EndingsOk(states, steps, j, op);
    SteppedKeepsInv(states, steps, j);
    StartedTasks(states[j], op);
    PublishIs(states[j], states[j + 1], op);
  }

  lemma EndsBody(s: State, step: Step, s': State, op: nat, outcome: OperationTerminal)
    requires Steps(s, step, s') && step == TaskStep(op, EndBody(outcome))
    ensures EndingIn(s, step, op) == Some(outcome)
  {
    hide TaskEnabled, Apply;
  }

  lemma PublishIs(s: State, s': State, op: nat)
    requires Steps(s, TaskStep(op, Publish), s')
    ensures op < |s.operations| == |s'.operations| && s.operations[op].phase.Publishing?
    ensures s'.operations[op].status == TerminalTransition(s.operations[op].status, s.operations[op].phase.outcome)
  {
    TaskStepIs(s, op, Publish);
    hide Observed, Apply;
  }

  /** Once an operation has an outcome, no step of a run gives it another. */
  lemma ReturnedOutcomeStands(states: seq<State>, steps: seq<Step>, k: nat, j: nat, op: nat, outcome: OperationTerminal)
    requires IsSteppedRun(states, steps) && k < j < |states| && steps[k] == TaskStep(op, EndBody(outcome))
    ensures op < |states[j].operations|
    ensures IsTerminal(states[j].operations[op].status) && !states[j].closed ==> states[j].operations[op].status == Terminal(outcome)
    ensures IsTerminal(states[j].operations[op].status) ==> states[j].operations[op].status in {Terminal(outcome), Terminal(Unknown)}
  {
    assert Steps(states[k], steps[k], states[k + 1]);
    EndingStaysOver(states, steps, k, j, op);
    EndingsOk(states, steps, j, op);
    SteppedKeepsInv(states, steps, j);
    StartedTasks(states[j], op);
    hide IsSteppedRun, Inv, BodyEnding;
  }

  lemma OwnStep(s: State, op: nat, event: TaskEvent) returns (s': State)
    requires RegistryOk(s) && op < |s.operations| && TaskEnabled(s, op, event) && !event.FinishSection?
    ensures Steps(s, TaskStep(op, event), s') && RegistryOk(s') && |s'.operations| == |s.operations|
    ensures s'.operations[op] == TaskAfter(s, op, event)
  {
    hide TaskAfter, TaskEnabled;
    s' := Apply(s, TaskStep(op, event));
    SameKey(s, TaskStep(op, event), s', op);
  }

  /** A body in progress can always be lost; its guard then publishes Unknown. */
  lemma PanicEndsUnknown(s: State, op: nat) returns (dropped: State, read: State, published: State)
    requires Inv(s) && op < |s.operations| && s.operations[op].phase == InBody && s.operations[op].status == Running
    ensures Steps(s, TaskStep(op, DropFuture), dropped) && Steps(dropped, TaskStep(op, GuardReads), read)
    ensures Steps(read, TaskStep(op, Publish), published)
    ensures op < |published.operations| && published.operations[op].status == Terminal(Unknown)
  {
    assert RegistryOk(s);
    hide *;
    LosingSteps(s, op);
    dropped := OwnStep(s, op, DropFuture);
    LosingSteps(dropped, op);
    read := OwnStep(dropped, op, GuardReads);
    LosingSteps(read, op);
    published := OwnStep(read, op, Publish);
  }

  lemma LosingSteps(s: State, op: nat)
    requires op < |s.operations| && s.operations[op].status == Running
    ensures s.operations[op].phase == InBody ==>
      TaskEnabled(s, op, DropFuture) && TaskAfter(s, op, DropFuture) == s.operations[op].(phase := Dropping)
    ensures s.operations[op].phase == Dropping ==>
      TaskEnabled(s, op, GuardReads) && TaskAfter(s, op, GuardReads) == s.operations[op].(phase := Publishing(Unknown))
    ensures s.operations[op].phase == Publishing(Unknown) ==>
      TaskEnabled(s, op, Publish) && TaskAfter(s, op, Publish).status == Terminal(Unknown)
  {
  }

  /** An aborted task that has not started, or is between two predecessors, can be dropped, and never starts after that. */
  lemma AbortDropsTask(s: State, op: nat)
    requires Inv(s) && op < |s.operations| && s.operations[op].aborted
    requires s.operations[op].phase == Spawned || s.operations[op].phase.Waiting?
    ensures Enabled(s, TaskStep(op, DropFuture))
    ensures var dropped := Apply(s, TaskStep(op, DropFuture));
      && op < |dropped.operations| && dropped.operations[op].bodyStarts == 0
      && (dropped.operations[op].phase == Ended || dropped.operations[op].phase == Dropping)
  {
    StartedTasks(s, op);
    assert RegistryOk(s);
    hide Inv, Observed, FinishTasks;
  }

  // ---------------------------------------------------------------- entries

  /** Nobody holds the entry any more: it goes when the task ends, unless a shutdown is about to take all. */
  predicate Released(s: State, op: nat) {
    op < |s.operations| &&
    (Registered(s, op) ==> !s.tasks[s.operations[op].key].ownerRetained && (s.operations[op].phase == Ended ==> s.closed))
  }

  /** What a step does to the entry of an operation. */
  ghost predicate EntryFollows(s: State, step: Step, s': State, op: nat)
    requires op < |s.operations| <= |s'.operations|
  {
    var key := s.operations[op].key;
    && s'.operations[op].key == key
    && (Registered(s', op) ==>
          && Registered(s, op)
          && (!s.tasks[key].ownerRetained ==> !s'.tasks[key].ownerRetained)
          && (step == EvictCall(key) ==> !s'.tasks[key].ownerRetained && !IsTerminal(s.operations[op].status))
          && (step == TaskStep(op, FinishSection) ==> s.tasks[key].ownerRetained))
  }

  lemma EntryOfStep(s: State, step: Step, s': State, op: nat)
    requires Steps(s, step, s') && op < |s.operations|
    ensures op < |s'.operations| && EntryFollows(s, step, s', op)
  {
    StepGrows(s, step);
    SameKey(s, step, s', op);
    var key := s.operations[op].key;
    if key in s'.tasks { EntryStep(s, step, key); }
    hide TaskAfter, TaskEnabled, PredecessorsOf, Decide;
    match step
    case AdmitCall(_, _, _) =>
    case EvictCall(_) =>
    case AttachAbort(_) =>
    case Relabel(_) =>
    case TaskStep(_, _) =>
    case _ =>
  }

  lemma SameKey(s: State, step: Step, s': State, op: nat)
    requires Steps(s, step, s') && op < |s.operations|
    ensures op < |s'.operations| && s'.operations[op].key == s.operations[op].key
  {
    OperationStep(s, step, op);
    hide Apply, Enabled, RegistryOk, TaskEnabled, Observed;
  }

  /** A task reaches its end through the registry section of finish, or after a shutdown. */
  lemma EndsByFinish(s: State, step: Step, s': State, op: nat)
    requires Inv(s) && Steps(s, step, s') && op < |s.operations| && s.operations[op].phase != Ended
    ensures op < |s'.operations|
    ensures s'.operations[op].phase == Ended ==> step == TaskStep(op, FinishSection) || s'.closed
  {
    StepGrows(s, step);
    OperationStep(s, step, op);
    assert TaskOk(s.closed, s.operations[op]);
    assert s.operations[op].aborted ==> HandleTaken(s, op);
    hide Inv, Apply, Enabled, TaskOk, TaskEnabled, TaskAfter;
    if step.TaskStep? && step.op == op && TaskEnabled(s, op, step.event) { TaskEnds(s, op, step.event); }
  }

  lemma TaskEnds(s: State, op: nat, event: TaskEvent)
    requires op < |s.operations| && TaskEnabled(s, op, event) && TaskOk(s.closed, s.operations[op])
    requires s.operations[op].aborted ==> s.closed
    ensures TaskAfter(s, op, event).phase == Ended ==> event == FinishSection || s.closed
  {
    hide Observed;
    match event
    case Claim =>
    case DropFuture =>
    case GuardReads =>
    case _ =>
  }

  lemma ReleasedKept(s: State, step: Step, s': State, op: nat)
    requires Inv(s) && Steps(s, step, s') && Released(s, op)
    ensures Released(s', op)
  {
    EntryOfStep(s, step, s', op);
    StepGrows(s, step);
    if s.operations[op].phase != Ended { EndsByFinish(s, step, s', op); }
    hide Inv, Steps;
  }

  lemma EvictionReleases(s: State, step: Step, s': State, op: nat)
    requires Inv(s) && Steps(s, step, s') && op < |s.operations| && step == EvictCall(s.operations[op].key)
    ensures Released(s', op)
    ensures IsTerminal(s.operations[op].status) ==> !Registered(s', op)
  {
    assert TaskOk(s.closed, s.operations[op]);
    EntryOfStep(s, step, s', op);
    if s.operations[op].phase != Ended { EndsByFinish(s, step, s', op); }
    hide Inv, Steps;
  }

  lemma {:induction false} ReleasedStays(states: seq<State>, steps: seq<Step>, k: nat, j: nat, op: nat)
    requires IsSteppedRun(states, steps) && k < j < |states|
    requires op < |states[k].operations| && steps[k] == EvictCall(states[k].operations[op].key)
    ensures Released(states[j], op)
    ensures IsTerminal(states[k].operations[op].status) ==> !Registered(states[j], op)
    decreases j
  {
    hide Inv, Steps, Released;
    SteppedKeepsInv(states, steps, j - 1);
    assert Steps(states[j - 1], steps[j - 1], states[j]);
    if k == j - 1 {
      EvictionReleases(states[k], steps[k], states[j], op);
    } else {
      ReleasedStays(states, steps, k, j - 1, op);
      ReleasedKept(states[j - 1], steps[j - 1], states[j], op);
      ReleasedInRange(states[j - 1], op);
      EntryOfStep(states[j - 1], steps[j - 1], states[j], op);
    }
  }

  lemma ReleasedInRange(s: State, op: nat)
    requires Released(s, op)
    ensures op < |s.operations|
  {
  }

  /** Capacity comes back: the entry of an evicted operation is gone at once if it had an outcome, and otherwise
      as soon as its task has ended and no shutdown is under way. */
  lemma EvictedEntryGoes(states: seq<State>, steps: seq<Step>, k: nat, j: nat, op: nat)
    requires IsSteppedRun(states, steps) && k < j < |states|
    requires op < |states[k].operations| && steps[k] == EvictCall(states[k].operations[op].key)
    ensures op < |states[j].operations|
    ensures IsTerminal(states[k].operations[op].status) ==> !Registered(states[j], op)
    ensures states[j].operations[op].phase == Ended && states[j].scan.None? ==> !Registered(states[j], op)
  {
    ReleasedStays(states, steps, k, j, op);
    SteppedKeepsInv(states, steps, j);
    assert ScanOk(states[j]);
    hide IsSteppedRun, Inv;
  }

  /** The step that admits a key, or one at which it may leave the registry. */
  predicate Forgets(step: Step, key: OperationKey) { step == EvictCall(key) || step.ClearTasks? }

  predicate Holds(s: State, key: OperationKey, op: nat) {
    key in s.tasks && s.tasks[key].sequence == op && s.tasks[key].ownerRetained
  }

  lemma HoldsKept(s: State, step: Step, s': State, key: OperationKey, op: nat)
    requires Steps(s, step, s') && Holds(s, key, op) && !Forgets(step, key)
    ensures Holds(s', key, op)
  {
    hide TaskAfter, TaskEnabled, PredecessorsOf;
    match step
    case AdmitCall(_, _, _) =>
    case EvictCall(_) =>
    case AttachAbort(_) =>
    case Relabel(_) =>
    case TaskStep(_, _) =>
    case _ =>
  }

  lemma AdmittedHolds(s: State, step: Step, s': State)
    requires Steps(s, step, s') && step.AdmitCall?
    ensures Holds(s', step.key, |s.operations|)
  {
    hide Decide, PredecessorsOf;
  }

  /** A call under the key, with the lanes of the operation, joins it. */
  ghost predicate Joins(s: State, key: OperationKey, op: nat) {
    RegistryOk(s) && op < |s.operations| && Decide(s, key, s.operations[op].lanes) == Join(op)
  }

  /** An admitted key stays, whatever becomes of its operation, until its owner evicts it or a shutdown clears all;
      until then a call with the same lanes joins that operation. */
  lemma KeptUntilEvicted(states: seq<State>, steps: seq<Step>, k: nat, j: nat)
    requires IsSteppedRun(states, steps) && k < j < |states| && steps[k].AdmitCall?
    requires forall m :: k < m < j ==> !Forgets(steps[m], steps[k].key)
    ensures steps[k].key in states[j].tasks && Joins(states[j], steps[k].key, |states[k].operations|)
  {
    HeldUntilEvicted(states, steps, k, j);
    SteppedKeepsInv(states, steps, j);
    hide IsSteppedRun, Inv, Joins;
    HeldIsJoined(states[j], steps[k].key, |states[k].operations|);
  }

  lemma {:induction false} HeldUntilEvicted(states: seq<State>, steps: seq<Step>, k: nat, j: nat)
    requires IsSteppedRun(states, steps) && k < j < |states| && steps[k].AdmitCall?
    requires forall m :: k < m < j ==> !Forgets(steps[m], steps[k].key)
    ensures Holds(states[j], steps[k].key, |states[k].operations|)
    decreases j
  {
    assert Steps(states[j - 1], steps[j - 1], states[j]);
    hide Steps, Holds;
    if k == j - 1 {
      AdmittedHolds(states[k], steps[k], states[j]);
    } else {
      HeldUntilEvicted(states, steps, k, j - 1);
      HoldsKept(states[j - 1], steps[j - 1], states[j], steps[k].key, |states[k].operations|);
    }
  }

  lemma HeldIsJoined(s: State, key: OperationKey, op: nat)
    requires Inv(s) && Holds(s, key, op)
    ensures Joins(s, key, op)
  {
    assert RegistryOk(s);
    hide Inv;
  }
}

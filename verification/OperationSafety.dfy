/** What every interleaving of the scheduler keeps. */
module OperationSafety {
  import opened Wrappers
  import opened Lanes
  import opened OperationTasks

  // ---------------------------------------------------------------- the invariant

  /** Phase, status and body count of one operation agree. */
  predicate TaskOk(closed: bool, task: Operation) {
    && task.bodyStarts <= 1
    && (task.bodyStarts == 0 ==> task.status == Queued || task.status == Terminal(NotDispatched))
    && (task.bodyStarts == 1 ==> task.status != Queued)
    && match task.phase
       case Unspawned => !task.attached && Untouched(closed, task)
       case Spawned => Untouched(closed, task)
       case Waiting(next) => Untouched(closed, task) && next <= |task.predecessors|
       case InBody => Started(closed, task)
       // an abort can only reach a suspended task after a shutdown gave it an outcome
       case Dropping => (Untouched(closed, task) && IsTerminal(task.status)) || Started(closed, task)
       case Publishing(outcome) =>
         (task.bodyStarts == 0 && outcome == NotDispatched && (IsTerminal(task.status) ==> closed)) || Started(closed, task)
       case Unregistering => IsTerminal(task.status)
       case Ended => IsTerminal(task.status)
  }

  predicate Untouched(closed: bool, task: Operation) {
    task.bodyStarts == 0 && (IsTerminal(task.status) ==> closed)
  }

  predicate Started(closed: bool, task: Operation) {
    task.bodyStarts == 1 && (task.status == Running || (closed && task.status == Terminal(Unknown)))
  }

  /** How many predecessors the spawned task has been let past. */
  function Passed(task: Operation): nat {
    if task.phase.Waiting? && task.phase.next <= |task.predecessors| then task.phase.next
    else if task.bodyStarts > 0 then |task.predecessors| else 0
  }

  predicate Finished(task: Operation) { task.phase == Unregistering || task.phase == Ended }

  ghost predicate TasksOk(s: State) {
    forall op :: 0 <= op < |s.operations| ==> TaskOk(s.closed, s.operations[op])
  }

  /** An operation that left the registry has an outcome. */
  ghost predicate UnregisteredOk(s: State) {
    forall op :: 0 <= op < |s.operations| ==> Registered(s, op) || IsTerminal(s.operations[op].status)
  }

  /** A shutdown relabels entry by entry and then leaves the registry empty. */
  ghost predicate ScanOk(s: State)
    requires RegistryOk(s)
  {
    && (s.scan.Some? ==>
          && s.closed
          && s.scan.value.remaining <= s.tasks.Keys
          && forall key :: key in s.tasks && key !in s.scan.value.remaining ==>
               IsTerminal(s.operations[s.tasks[key].sequence].status) && s.tasks[key].abort.None?)
    && (s.closed && s.scan.None? ==> s.tasks == map[])
  }

  /** Handles a shutdown has collected or used. */
  predicate HandleTaken(s: State, op: nat)
    requires op < |s.operations|
  {
    s.operations[op].aborted || op in s.pendingAborts || (s.scan.Some? && op in s.scan.value.aborts)
  }

  /** abort() only ever reaches a task that has its outcome already. */
  ghost predicate HandlesOk(s: State) {
    && (forall op :: op in s.pendingAborts ==> op < |s.operations|)
    && (s.scan.Some? ==> forall op :: op in s.scan.value.aborts ==> op < |s.operations|)
    && (forall op :: 0 <= op < |s.operations| && HandleTaken(s, op) ==>
          s.closed && IsTerminal(s.operations[op].status))
  }

  ghost predicate BoundsOk(s: State) {
    && |s.tasks| <= MAX_ADMITTED_BROWSER_OPERATIONS
    && |s.operations| <= U64_MAX
    && (forall key :: key in s.tasks && s.tasks[key].abort.Some? ==> s.tasks[key].abort.value == s.tasks[key].sequence)
  }

  /** Wait edges point backwards along overlapping lanes; those passed are settled. */
  ghost predicate PredecessorsOk(s: State) {
    forall op :: 0 <= op < |s.operations| ==> TaskPredecessorsOk(s, op)
  }

  ghost predicate TaskPredecessorsOk(s: State, op: nat)
    requires op < |s.operations|
  {
    var task := s.operations[op];
    && (forall k :: 0 <= k < |task.predecessors| ==>
          task.predecessors[k] < op && s.operations[task.predecessors[k]].lanes.Overlaps(task.lanes))
    && (forall k :: 0 <= k < Passed(task) ==>
          task.predecessors[k] < op && IsSettled(s.operations[task.predecessors[k]].status))
  }

  /** Over, and never to run again. */
  predicate BodyOver(task: Operation) { IsTerminal(task.status) && task.phase != InBody }

  /** An earlier overlapping operation is either waited for or over. */
  ghost predicate CoverageOk(s: State) {
    forall i, j :: 0 <= i < j < |s.operations| && s.operations[i].lanes.Overlaps(s.operations[j].lanes) ==>
      i in s.operations[j].predecessors || BodyOver(s.operations[i])
  }

  /** Before any shutdown, an operation is declined only for a direct predecessor that is Unknown. */
  ghost predicate DeclinedOk(s: State) {
    !s.closed ==> forall op :: 0 <= op < |s.operations| ==> TaskDeclinedOk(s, op)
  }

  ghost predicate TaskDeclinedOk(s: State, op: nat)
    requires op < |s.operations|
  {
    var task := s.operations[op];
    task.bodyStarts == 0 && (task.phase.Publishing? || IsTerminal(task.status)) ==>
      exists p :: p in task.predecessors && p < |s.operations| && s.operations[p].status == Terminal(Unknown)
  }

  /** Who can abort the spawned task: its entry, a running scan, a finished scan, or its own attach. */
  ghost predicate AbortOk(s: State) {
    forall op :: 0 <= op < |s.operations| && !Finished(s.operations[op]) ==> TaskAbortOk(s, op)
  }

  ghost predicate TaskAbortOk(s: State, op: nat)
    requires op < |s.operations|
  {
    var task := s.operations[op];
    || !task.attached
    || HandleTaken(s, op)
    || (Registered(s, op) && s.tasks[task.key].abort == Some(op))
  }

  ghost predicate Inv(s: State) {
    && RegistryOk(s)
    && TasksOk(s)
    && UnregisteredOk(s)
    && ScanOk(s)
    && HandlesOk(s)
    && BoundsOk(s)
    && PredecessorsOk(s)
    && CoverageOk(s)
    && DeclinedOk(s)
    && AbortOk(s)
  }

  // ---------------------------------------------------------------- preservation

  /** What any step may do to an operation that exists already. */
  predicate Evolves(before: Operation, after: Operation) {
    && after.key == before.key && after.lanes == before.lanes && after.predecessors == before.predecessors
    && (IsTerminal(before.status) ==> after.status == before.status)
    && (BodyOver(before) ==> BodyOver(after))
    && (Finished(before) ==> Finished(after))
    && before.bodyStarts <= after.bodyStarts
  }

  ghost predicate AllEvolve(s: State, s': State) {
    && |s.operations| <= |s'.operations|
    && (s.closed ==> s'.closed)
    && forall op :: 0 <= op < |s.operations| ==> Evolves(s.operations[op], s'.operations[op])
  }

  /** What any step can have done to one operation. */
  ghost predicate OperationAfter(s: State, step: Step, op: nat, after: Operation)
    requires op < |s.operations|
  {
    var before := s.operations[op];
    || after == before
    || (step == AttachAbort(op) && before.phase != Unspawned
        && after == before.(attached := true, aborted := after.aborted)
        && (after.aborted ==> before.aborted || (s.closed && !Registered(s, op))))
    || (step.Relabel? && s.scan.Some? && after == before.(status := FailUnfinished(before.status)))
    || (step == CallAbort(op) && op in s.pendingAborts && after == before.(aborted := true))
    || (step.TaskStep? && step.op == op && TaskEnabled(s, op, step.event) && after == TaskAfter(s, op, step.event))
  }

  lemma OperationStep(s: State, step: Step, op: nat)
    requires RegistryOk(s) && Enabled(s, step) && op < |s.operations|
    ensures |s.operations| <= |Apply(s, step).operations| && (s.closed ==> Apply(s, step).closed)
    ensures OperationAfter(s, step, op, Apply(s, step).operations[op])
  {
    hide TaskAfter, TaskEnabled, FinishTasks, Decide, PredecessorsOf;
  }

  lemma StepGrows(s: State, step: Step)
    requires RegistryOk(s) && Enabled(s, step)
    ensures |s.operations| <= |Apply(s, step).operations| && (s.closed ==> Apply(s, step).closed)
    ensures step.AdmitCall? || |s.operations| == |Apply(s, step).operations|
  {
    hide TaskAfter, TaskEnabled, FinishTasks, Decide, PredecessorsOf;
  }

  lemma TaskEvolves(s: State, op: nat, event: TaskEvent)
    requires op < |s.operations| && TaskOk(s.closed, s.operations[op]) && TaskEnabled(s, op, event)
    ensures Evolves(s.operations[op], TaskAfter(s, op, event))
  {
    match event
    case Claim =>
    case PassPredecessor =>
    case Publish =>
    case _ =>
  }

  lemma StepEvolves(s: State, step: Step)
    requires RegistryOk(s) && TasksOk(s) && Enabled(s, step)
    ensures AllEvolve(s, Apply(s, step))
  {
    hide Apply, Enabled, TaskAfter, TaskEnabled, RegistryOk;
    var s' := Apply(s, step);
    StepGrows(s, step);
    forall op | 0 <= op < |s.operations| ensures Evolves(s.operations[op], s'.operations[op]) {
      OperationStep(s, step, op);
      assert TaskOk(s.closed, s.operations[op]);
      OperationEvolves(s, step, op, s'.operations[op]);
    }
  }

  lemma OperationEvolves(s: State, step: Step, op: nat, after: Operation)
    requires op < |s.operations| && OperationAfter(s, step, op, after) && TaskOk(s.closed, s.operations[op])
    ensures Evolves(s.operations[op], after)
  {
    if step.TaskStep? && step.op == op && TaskEnabled(s, op, step.event) { TaskEvolves(s, op, step.event); }
    hide TaskAfter, TaskEnabled;
  }

  /** What a step may do to an entry: entries are never renamed, and only carry their own handle. */
  lemma EntryStep(s: State, step: Step, key: OperationKey)
    requires RegistryOk(s) && Enabled(s, step) && key in Apply(s, step).tasks
    ensures var entry := Apply(s, step).tasks[key];
      if key in s.tasks
      then entry.sequence == s.tasks[key].sequence
           && (entry.abort == s.tasks[key].abort || entry.abort == None || entry.abort == Some(entry.sequence))
      else step.AdmitCall? && key == step.key && entry == TaskEntry(|s.operations|, None, true)
  {
    match step
    case AdmitCall(_, _, _) =>
    case EvictCall(_) =>
    case AttachAbort(_) =>
    case TaskStep(_, _) =>
    case _ =>
  }

  lemma RegistryKept(s: State, step: Step)
    requires RegistryOk(s) && TasksOk(s) && BoundsOk(s) && Enabled(s, step)
    ensures RegistryOk(Apply(s, step)) && BoundsOk(Apply(s, step))
  {
    var s' := Apply(s, step);
    RegistryBounded(s, step);
    StepEvolves(s, step);
    forall key | key in s'.tasks
      ensures s'.tasks[key].sequence < |s'.operations| && s'.operations[s'.tasks[key].sequence].key == key
      ensures s'.tasks[key].abort.Some? ==> s'.tasks[key].abort.value == s'.tasks[key].sequence
    {
      EntryStep(s, step, key);
      if key in s.tasks {
        var op := s.tasks[key].sequence;
        assert Evolves(s.operations[op], s'.operations[op]);
      }
    }
  }

  lemma KeysAfter(s: State, step: Step)
    requires RegistryOk(s) && Enabled(s, step)
    ensures if step.AdmitCall? then |s.tasks| < MAX_ADMITTED_BROWSER_OPERATIONS && Apply(s, step).tasks.Keys == s.tasks.Keys + {step.key}
      else Apply(s, step).tasks.Keys <= s.tasks.Keys
  {
    hide TaskAfter, TaskEnabled, PredecessorsOf;
    match step
    case EvictCall(_) =>
    case AttachAbort(_) =>
    case _ =>
  }

  lemma RegistryBounded(s: State, step: Step)
    requires RegistryOk(s) && BoundsOk(s) && Enabled(s, step)
    ensures |Apply(s, step).tasks| <= MAX_ADMITTED_BROWSER_OPERATIONS
  {
    KeysAfter(s, step);
    hide Apply, Enabled, RegistryOk;
    var s' := Apply(s, step);
    if !step.AdmitCall? { SubsetSize(s'.tasks.Keys, s.tasks.Keys); }
  }

  lemma {:induction false} SubsetSize<T>(a: set<T>, b: set<T>)
    requires a <= b
    ensures |a| <= |b|
  {
    if x :| x in a { SubsetSize(a - {x}, b - {x}); }
  }

  /** One task's own step keeps its phase, status and body count in agreement. */
  lemma TaskKept(s: State, op: nat, event: TaskEvent)
    requires op < |s.operations| && TaskOk(s.closed, s.operations[op]) && TaskEnabled(s, op, event)
    requires s.operations[op].aborted ==> s.closed && IsTerminal(s.operations[op].status)
    ensures TaskOk(s.closed, TaskAfter(s, op, event))
  {
    match event
    case Claim =>
    case PassPredecessor =>
    case DropFuture =>
    case GuardReads =>
    case Publish =>
    case _ =>
  }

  lemma OperationKept(s: State, step: Step, op: nat, after: Operation)
    requires op < |s.operations| && OperationAfter(s, step, op, after) && TaskOk(s.closed, s.operations[op])
    requires s.operations[op].aborted ==> s.closed && IsTerminal(s.operations[op].status)
    requires s.scan.Some? ==> s.closed
    ensures TaskOk(s.closed, after)
  {
    if step.TaskStep? && step.op == op && TaskEnabled(s, op, step.event) { TaskKept(s, op, step.event); }
    hide TaskAfter, TaskEnabled;
  }

  lemma ClosingKeeps(task: Operation, closed: bool, closes: bool)
    requires TaskOk(closed, task) && (closed ==> closes)
    ensures TaskOk(closes, task)
  {
  }

  lemma AdmittedIs(s: State, step: Step)
    requires RegistryOk(s) && Enabled(s, step) && step.AdmitCall?
    ensures |Apply(s, step).operations| == |s.operations| + 1
    ensures Apply(s, step).operations[|s.operations|] == Operation(step.key, step.lanes, step.predecessors, Queued, Unspawned, false, false, 0)
    ensures Registered(Apply(s, step), |s.operations|)
  {
  }

  lemma TasksKept(s: State, step: Step)
    requires RegistryOk(s) && TasksOk(s) && ScanOk(s) && HandlesOk(s) && UnregisteredOk(s) && Enabled(s, step)
    ensures TasksOk(Apply(s, step))
  {
    hide Apply, Enabled, TaskAfter, TaskEnabled, OperationAfter;
    var s' := Apply(s, step);
    StepGrows(s, step);
    forall op | 0 <= op < |s'.operations| ensures TaskOk(s'.closed, s'.operations[op]) {
      if op < |s.operations| {
        OperationStep(s, step, op);
        assert HandleTaken(s, op) || !s.operations[op].aborted;
        OperationKept(s, step, op, s'.operations[op]);
        ClosingKeeps(s'.operations[op], s.closed, s'.closed);
      } else {
        AdmittedIs(s, step);
      }
    }
  }

  lemma FinishLeaves(s: State, finished: nat, op: nat)
    requires RegistryOk(s) && finished < |s.operations| && op < |s.operations| && Registered(s, op)
    requires s.operations[op].key !in FinishTasks(s, finished)
      || FinishTasks(s, finished)[s.operations[op].key].sequence != op
    ensures finished == op
  {
  }

  /** An entry is only taken out, or given to another operation, once its operation is over. */
  lemma EntryLeaves(s: State, step: Step, op: nat)
    requires RegistryOk(s) && TasksOk(s) && ScanOk(s) && Enabled(s, step)
    requires op < |s.operations| <= |Apply(s, step).operations| && Registered(s, op) && !Registered(Apply(s, step), op)
    ensures IsTerminal(s.operations[op].status)
  {
    OperationStep(s, step, op);
    assert TaskOk(s.closed, s.operations[op]);
    hide TaskAfter, OperationAfter, Decide, PredecessorsOf, FinishTasks, TaskOk;
    match step
    case AdmitCall(_, _, _) =>
    case EvictCall(_) =>
    case AttachAbort(_) =>
    case ClearTasks =>
    case TaskStep(finished, event) => EntryLeavesByFinish(s, finished, event, op);
    case _ =>
  }

  lemma EntryLeavesByFinish(s: State, finished: nat, event: TaskEvent, op: nat)
    requires RegistryOk(s) && TasksOk(s) && Enabled(s, TaskStep(finished, event)) && op < |s.operations|
    requires Registered(s, op) && !Registered(Apply(s, TaskStep(finished, event)), op)
    ensures IsTerminal(s.operations[op].status)
  {
    OperationStep(s, TaskStep(finished, event), op);
    assert TaskOk(s.closed, s.operations[finished]);
    hide TaskAfter;
    if event.FinishSection? { FinishLeaves(s, finished, op); }
  }

  lemma UnregisteredKept(s: State, step: Step)
    requires RegistryOk(s) && TasksOk(s) && UnregisteredOk(s) && ScanOk(s) && Enabled(s, step)
    ensures UnregisteredOk(Apply(s, step))
  {
    hide Apply, Enabled, RegistryOk, TasksOk, ScanOk;
    var s' := Apply(s, step);
    StepEvolves(s, step);
    StepGrows(s, step);
    forall op | 0 <= op < |s'.operations| ensures Registered(s', op) || IsTerminal(s'.operations[op].status) {
      if op < |s.operations| {
        assert Evolves(s.operations[op], s'.operations[op]);
        assert Registered(s, op) || IsTerminal(s.operations[op].status);
        if Registered(s, op) && !Registered(s', op) { EntryLeaves(s, step, op); }
      } else {
        AdmittedIs(s, step);
      }
    }
  }

  /** While a shutdown holds the lock only its own relabelling touches the registry. */
  lemma ScanStep(s: State, step: Step)
    requires RegistryOk(s) && ScanOk(s) && Enabled(s, step) && s.scan.Some?
    ensures step == ClearTasks
      || (step.Relabel? && Apply(s, step) == RelabelSection(s, step.key))
      || (Apply(s, step).tasks == s.tasks && Apply(s, step).scan == s.scan && Apply(s, step).closed)
  {
  }

  lemma RelabelKeepsScan(s: State, key: OperationKey)
    requires RegistryOk(s) && ScanOk(s) && Enabled(s, Relabel(key)) && RegistryOk(RelabelSection(s, key))
    ensures ScanOk(RelabelSection(s, key))
  {
    var s' := RelabelSection(s, key);
    assert s'.tasks.Keys == s.tasks.Keys;
    forall k | k in s'.tasks && k !in s'.scan.value.remaining
      ensures IsTerminal(s'.operations[s'.tasks[k].sequence].status) && s'.tasks[k].abort.None?
    {
      assert s.operations[s.tasks[k].sequence].key == k;
    }
  }

  lemma ScanKept(s: State, step: Step)
    requires RegistryOk(s) && TasksOk(s) && BoundsOk(s) && ScanOk(s) && Enabled(s, step)
    requires RegistryOk(Apply(s, step))
    ensures ScanOk(Apply(s, step))
  {
    if s.scan.Some? {
      var s' := Apply(s, step);
      ScanStep(s, step);
      if step.Relabel? {
        RelabelKeepsScan(s, step.key);
      } else if step != ClearTasks {
        StepEvolves(s, step);
        hide Apply, Enabled;
        forall key | key in s'.tasks && key !in s'.scan.value.remaining
          ensures IsTerminal(s'.operations[s'.tasks[key].sequence].status) && s'.tasks[key].abort.None?
        {
          var op := s.tasks[key].sequence;
          assert Evolves(s.operations[op], s'.operations[op]);
        }
      }
    }
  }

  /** Where the handles a shutdown holds or has used come from. */
  lemma HandleSources(s: State, step: Step, op: nat)
    requires RegistryOk(s) && Enabled(s, step) && op < |s.operations| <= |Apply(s, step).operations|
    requires HandleTaken(Apply(s, step), op)
    ensures HandleTaken(s, op)
      || (step == AttachAbort(op) && s.closed && !Registered(s, op))
      || (step.Relabel? && s.scan.Some? && step.key in s.tasks && s.tasks[step.key].abort == Some(op))
  {
    OperationStep(s, step, op);
    hide Decide, PredecessorsOf, FinishTasks, EvictSection;
    match step
    case AdmitCall(_, _, _) =>
    case AttachAbort(_) =>
    case TaskStep(_, _) =>
    case _ =>
  }

  lemma HandleSets(s: State, step: Step)
    requires RegistryOk(s) && Enabled(s, step)
    ensures forall op :: op in Apply(s, step).pendingAborts ==> op in s.pendingAborts || (s.scan.Some? && op in s.scan.value.aborts)
    ensures Apply(s, step).scan.Some? ==> forall op :: op in Apply(s, step).scan.value.aborts ==>
      (s.scan.Some? && op in s.scan.value.aborts) || (step.Relabel? && step.key in s.tasks && s.tasks[step.key].abort == Some(op))
  {
    hide Decide, PredecessorsOf, FinishTasks, TaskAfter, TaskEnabled;
    match step
    case EvictCall(_) =>
    case AttachAbort(_) =>
    case _ =>
  }

  lemma RelabelledIsOver(s: State, step: Step, op: nat)
    requires RegistryOk(s) && BoundsOk(s) && Enabled(s, step) && step.Relabel? && s.tasks[step.key].abort == Some(op)
    ensures op < |s.operations| <= |Apply(s, step).operations| && IsTerminal(Apply(s, step).operations[op].status)
  {
    assert s.tasks[step.key].sequence == op;
  }

  lemma AdmittedHasNoHandle(s: State, step: Step)
    requires RegistryOk(s) && HandlesOk(s) && Enabled(s, step) && step.AdmitCall?
    ensures |Apply(s, step).operations| == |s.operations| + 1 && !HandleTaken(Apply(s, step), |s.operations|)
  {
    AdmittedIs(s, step);
  }

  lemma HandlesKept(s: State, step: Step)
    requires RegistryOk(s) && TasksOk(s) && UnregisteredOk(s) && BoundsOk(s) && ScanOk(s) && HandlesOk(s) && Enabled(s, step)
    ensures HandlesOk(Apply(s, step))
  {
    var s' := Apply(s, step);
    StepEvolves(s, step);
    StepGrows(s, step);
    HandleSets(s, step);
    assert s.scan.Some? ==> s.closed;
    assert step.Relabel? ==> s.scan.Some? && step.key in s.tasks;
    hide Apply, Enabled, TasksOk, ScanOk, HandleTaken;
    forall op | 0 <= op < |s'.operations| && HandleTaken(s', op)
      ensures s'.closed && IsTerminal(s'.operations[op].status)
    {
      if op < |s.operations| {
        assert Evolves(s.operations[op], s'.operations[op]);
        assert Registered(s, op) || IsTerminal(s.operations[op].status);
        HandleSources(s, step, op);
        if step.Relabel? && s.tasks[step.key].abort == Some(op) { RelabelledIsOver(s, step, op); }
      } else {
        AdmittedHasNoHandle(s, step);
      }
    }
  }

  /** A task gets past one more predecessor only by seeing it settled. */
  lemma PassedStep(s: State, op: nat, event: TaskEvent)
    requires RegistryOk(s) && TasksOk(s) && UnregisteredOk(s) && op < |s.operations| && TaskEnabled(s, op, event)
    ensures var before, after := s.operations[op], TaskAfter(s, op, event);
      || Passed(after) <= Passed(before)
      || (Passed(after) == Passed(before) + 1 && Passed(before) < |before.predecessors|
          && before.predecessors[Passed(before)] < |s.operations|
          && IsSettled(s.operations[before.predecessors[Passed(before)]].status))
  {
    var before := s.operations[op];
    hide RegistryOk, TasksOk, UnregisteredOk, Observed;
    if event == PassPredecessor && Observed(s, before.predecessors[before.phase.next]) != Some(Unknown) {
      ObservedSettled(s, before.predecessors[before.phase.next]);
    }
  }

  /** What a watcher sees of an operation, other than Unknown, is a settled outcome. */
  lemma ObservedSettled(s: State, p: nat)
    requires UnregisteredOk(s) && p < |s.operations| && Observed(s, p).Some? && Observed(s, p) != Some(Unknown)
    ensures IsSettled(s.operations[p].status)
  {
    match s.operations[p].status
    case Terminal(t) => assert Observed(s, p) == Some(t) && (t.Completed? || t.NotDispatched? || t.Unknown?);
    case Queued => ChannelOpen(s, p); assert false;
    case Running => ChannelOpen(s, p); assert false;
  }

  lemma ChannelOpen(s: State, p: nat)
    requires UnregisteredOk(s) && p < |s.operations| && !IsTerminal(s.operations[p].status)
    ensures Observed(s, p) == None
  {
    assert Registered(s, p);
    assert !ChannelClosed(s, p);
  }

  lemma TaskPredecessorsKept(s: State, s': State, op: nat)
    requires op < |s.operations| <= |s'.operations| && TaskPredecessorsOk(s, op)
    requires forall p :: 0 <= p < |s.operations| ==> Evolves(s.operations[p], s'.operations[p])
    requires var before, after := s.operations[op], s'.operations[op];
      || Passed(after) <= Passed(before)
      || (Passed(after) == Passed(before) + 1 && Passed(before) < |before.predecessors|
          && before.predecessors[Passed(before)] < |s.operations|
          && IsSettled(s.operations[before.predecessors[Passed(before)]].status))
    ensures TaskPredecessorsOk(s', op)
  {
    var before, after := s.operations[op], s'.operations[op];
    assert Evolves(before, after);
    forall k | 0 <= k < |after.predecessors|
      ensures after.predecessors[k] < op && s'.operations[after.predecessors[k]].lanes == s.operations[before.predecessors[k]].lanes
    {
      assert before.predecessors[k] < op;
      assert Evolves(s.operations[before.predecessors[k]], s'.operations[before.predecessors[k]]);
    }
    forall k | 0 <= k < Passed(after)
      ensures after.predecessors[k] < op && IsSettled(s'.operations[after.predecessors[k]].status)
    {
      assert Evolves(s.operations[before.predecessors[k]], s'.operations[before.predecessors[k]]);
    }
  }

  lemma AdmittedPredecessors(s: State, step: Step)
    requires RegistryOk(s) && Enabled(s, step) && step.AdmitCall?
    ensures |Apply(s, step).operations| == |s.operations| + 1
    ensures TaskPredecessorsOk(Apply(s, step), |s.operations|)
  {
    AdmittedIs(s, step);
    var s' := Apply(s, step);
    forall k | 0 <= k < |step.predecessors|
      ensures step.predecessors[k] < |s.operations| && s'.operations[step.predecessors[k]].lanes.Overlaps(step.lanes)
    {
      assert Conflicts(s, step.predecessors[k], step.lanes);
    }
  }

  lemma PredecessorsKept(s: State, step: Step)
    requires RegistryOk(s) && TasksOk(s) && UnregisteredOk(s) && PredecessorsOk(s) && Enabled(s, step)
    ensures PredecessorsOk(Apply(s, step))
  {
    hide Apply, Enabled, TaskPredecessorsOk, TaskAfter, TaskEnabled, UnregisteredOk, TaskOk, RegistryOk;
    var s' := Apply(s, step);
    StepEvolves(s, step);
    StepGrows(s, step);
    forall op | 0 <= op < |s'.operations| ensures TaskPredecessorsOk(s', op) {
      if op < |s.operations| {
        assert TaskPredecessorsOk(s, op);
        OperationStep(s, step, op);
        if step.TaskStep? && step.op == op && TaskEnabled(s, op, step.event) && s'.operations[op] == TaskAfter(s, op, step.event) {
          PassedStep(s, op, step.event);
        } else {
          PassedOtherwise(s, step, op, s'.operations[op]);
        }
        TaskPredecessorsKept(s, s', op);
      } else {
        AdmittedPredecessors(s, step);
      }
    }
  }

  /** Nothing but its own steps moves a task past predecessors. */
  lemma PassedOtherwise(s: State, step: Step, op: nat, after: Operation)
    requires op < |s.operations| && OperationAfter(s, step, op, after)
    requires !(step.TaskStep? && step.op == op && TaskEnabled(s, op, step.event) && after == TaskAfter(s, op, step.event))
    ensures Passed(after) == Passed(s.operations[op])
  {
    hide TaskAfter, TaskEnabled;
  }

  lemma CoverageKept(s: State, step: Step)
    requires RegistryOk(s) && TasksOk(s) && UnregisteredOk(s) && CoverageOk(s) && Enabled(s, step)
    ensures CoverageOk(Apply(s, step))
  {
    var s' := Apply(s, step);
    StepEvolves(s, step);
    forall i, j | 0 <= i < j < |s'.operations| && s'.operations[i].lanes.Overlaps(s'.operations[j].lanes)
      ensures i in s'.operations[j].predecessors || BodyOver(s'.operations[i])
    {
      assert Evolves(s.operations[i], s'.operations[i]);
      assert TaskOk(s.closed, s.operations[i]);
      if j < |s.operations| {
        assert Evolves(s.operations[j], s'.operations[j]);
      } else {
        assert Registered(s, i) || IsTerminal(s.operations[i].status);
        assert Registered(s, i) ==> Conflicts(s, i, s'.operations[j].lanes);
      }
    }
  }

  /** A task that turns declined does so by passing an Unknown predecessor. */
  lemma TurnsDeclined(s: State, step: Step, op: nat, after: Operation)
    requires op < |s.operations| && OperationAfter(s, step, op, after) && TaskOk(s.closed, s.operations[op]) && !s.closed
    requires s.scan.None? && (s.operations[op].aborted ==> IsTerminal(s.operations[op].status))
    requires after.bodyStarts == 0 && (after.phase.Publishing? || IsTerminal(after.status))
    ensures var before := s.operations[op];
      || (before.bodyStarts == 0 && (before.phase.Publishing? || IsTerminal(before.status)))
      || (before.phase.Waiting? && before.phase.next < |before.predecessors|
          && before.predecessors[before.phase.next] < |s.operations|
          && Observed(s, before.predecessors[before.phase.next]) == Some(Unknown))
  {
    if step.TaskStep? && step.op == op && TaskEnabled(s, op, step.event) {
      match step.event
      case PassPredecessor =>
      case Claim =>
      case DropFuture =>
      case GuardReads =>
      case _ =>
    }
  }

  /** While nothing is shut down, Unknown is only observed of an operation whose status it is. */
  lemma ObservedUnknown(s: State, p: nat)
    requires TasksOk(s) && UnregisteredOk(s) && p < |s.operations| && !s.closed && Observed(s, p) == Some(Unknown)
    ensures s.operations[p].status == Terminal(Unknown)
  {
    assert Registered(s, p) || IsTerminal(s.operations[p].status);
    assert TaskOk(s.closed, s.operations[p]);
  }

  lemma TaskDeclinedKept(s: State, s': State, op: nat)
    requires op < |s.operations| <= |s'.operations|
    requires forall p :: 0 <= p < |s.operations| ==> Evolves(s.operations[p], s'.operations[p])
    requires exists p :: p in s.operations[op].predecessors && p < |s.operations| && s.operations[p].status == Terminal(Unknown)
    ensures TaskDeclinedOk(s', op)
  {
    var p :| p in s.operations[op].predecessors && p < |s.operations| && s.operations[p].status == Terminal(Unknown);
    assert Evolves(s.operations[p], s'.operations[p]) && Evolves(s.operations[op], s'.operations[op]);
  }

  lemma DeclinedKept(s: State, step: Step)
    requires RegistryOk(s) && TasksOk(s) && UnregisteredOk(s) && ScanOk(s) && HandlesOk(s) && PredecessorsOk(s) && DeclinedOk(s) && Enabled(s, step)
    ensures DeclinedOk(Apply(s, step))
  {
    var s' := Apply(s, step);
    if !s'.closed {
      StepEvolves(s, step);
      StepGrows(s, step);
      assert s.scan.None?;
      hide Apply, Enabled, TaskAfter, TaskEnabled, ScanOk, PredecessorsOk, OperationAfter;
      forall op | 0 <= op < |s'.operations| ensures TaskDeclinedOk(s', op) {
        if op < |s.operations| {
          var before, after := s.operations[op], s'.operations[op];
          OperationStep(s, step, op);
          assert TaskOk(s.closed, before) && TaskDeclinedOk(s, op);
          assert before.aborted ==> HandleTaken(s, op);
          if after.bodyStarts == 0 && (after.phase.Publishing? || IsTerminal(after.status)) {
            TurnsDeclined(s, step, op, after);
            if !(before.bodyStarts == 0 && (before.phase.Publishing? || IsTerminal(before.status))) {
              ObservedUnknown(s, before.predecessors[before.phase.next]);
            }
            TaskDeclinedKept(s, s', op);
          }
        } else {
          AdmittedIs(s, step);
        }
      }
    }
  }

  /** Only finishing, a shutdown or the eviction of an operation that is over takes an entry's handle. */
  lemma HandleStep(s: State, step: Step, key: OperationKey)
    requires RegistryOk(s) && ScanOk(s) && Enabled(s, step)
    requires key in s.tasks && s.tasks[key].abort == Some(s.tasks[key].sequence)
    ensures var s', op := Apply(s, step), s.tasks[key].sequence;
      || (key in s'.tasks && s'.tasks[key].sequence == op && s'.tasks[key].abort == Some(op))
      || (s'.scan.Some? && op in s'.scan.value.aborts)
      || step == TaskStep(op, FinishSection)
      || (step == EvictCall(key) && IsTerminal(s.operations[op].status))
  {
    match step
    case AttachAbort(_) =>
    case TaskStep(_, _) =>
    case _ =>
  }

  /** A handle once taken stays with the shutdown until abort() is called. */
  lemma TakenStep(s: State, step: Step, op: nat)
    requires RegistryOk(s) && Enabled(s, step) && op < |s.operations| <= |Apply(s, step).operations|
    requires HandleTaken(s, op)
    ensures HandleTaken(Apply(s, step), op)
  {
    match step
    case AdmitCall(_, _, _) =>
    case EvictCall(_) =>
    case TaskStep(_, _) =>
    case _ =>
  }

  /** attach_abort leaves the handle with the entry, or uses it, unless the spawned task is finished. */
  lemma AttachStep(s: State, op: nat)
    requires RegistryOk(s) && TasksOk(s) && UnregisteredOk(s) && ScanOk(s)
    requires Enabled(s, AttachAbort(op)) && !Finished(s.operations[op])
    ensures TaskAbortOk(Apply(s, AttachAbort(op)), op)
  {
    assert TaskOk(s.closed, s.operations[op]);
    assert Registered(s, op) || IsTerminal(s.operations[op].status);
  }

  lemma AbortKept(s: State, step: Step)
    requires RegistryOk(s) && TasksOk(s) && UnregisteredOk(s) && BoundsOk(s) && ScanOk(s) && HandlesOk(s) && AbortOk(s)
    requires Enabled(s, step)
    ensures AbortOk(Apply(s, step))
  {
    var s' := Apply(s, step);
    StepEvolves(s, step);
    StepGrows(s, step);
    hide Apply, Enabled, TasksOk, ScanOk, BoundsOk, HandlesOk, UnregisteredOk, TaskAbortOk;
    forall op | 0 <= op < |s'.operations| && !Finished(s'.operations[op]) ensures TaskAbortOk(s', op) {
      if op < |s.operations| {
        assert Evolves(s.operations[op], s'.operations[op]);
        assert TaskAbortOk(s, op);
        TaskAbortKept(s, step, op);
      } else {
        AdmittedIs(s, step);
        NotYetAttached(s', op);
      }
    }
  }

  lemma NotYetAttached(s: State, op: nat)
    requires op < |s.operations| && !s.operations[op].attached
    ensures TaskAbortOk(s, op)
  {
  }

  lemma TaskAbortKept(s: State, step: Step, op: nat)
    requires RegistryOk(s) && TasksOk(s) && UnregisteredOk(s) && BoundsOk(s) && ScanOk(s) && Enabled(s, step)
    requires op < |s.operations| <= |Apply(s, step).operations| && TaskAbortOk(s, op)
    requires Evolves(s.operations[op], Apply(s, step).operations[op]) && !Finished(Apply(s, step).operations[op])
    ensures TaskAbortOk(Apply(s, step), op)
  {
    var task := s.operations[op];
    OperationStep(s, step, op);
    hide Apply, Enabled, TasksOk, ScanOk, BoundsOk, UnregisteredOk, HandleTaken;
    if step == AttachAbort(op) {
      AttachStep(s, op);
    } else if HandleTaken(s, op) {
      TakenStep(s, step, op);
    } else if task.attached {
      KeepsItsHandle(s, step, op);
    } else {
      StaysUnattached(s, step, op, Apply(s, step).operations[op]);
    }
  }

  lemma StaysUnattached(s: State, step: Step, op: nat, after: Operation)
    requires op < |s.operations| && OperationAfter(s, step, op, after) && !s.operations[op].attached && step != AttachAbort(op)
    ensures !after.attached
  {
  }

  /** The entry of an unfinished task keeps its handle until a shutdown collects it. */
  lemma KeepsItsHandle(s: State, step: Step, op: nat)
    requires RegistryOk(s) && TasksOk(s) && BoundsOk(s) && ScanOk(s) && Enabled(s, step)
    requires op < |s.operations| <= |Apply(s, step).operations| && !Finished(Apply(s, step).operations[op])
    requires Evolves(s.operations[op], Apply(s, step).operations[op])
    requires Registered(s, op) && s.tasks[s.operations[op].key].abort == Some(op)
    ensures HandleTaken(Apply(s, step), op)
      || (Registered(Apply(s, step), op) && Apply(s, step).tasks[s.operations[op].key].abort == Some(op))
      || (step == EvictCall(s.operations[op].key) && IsTerminal(s.operations[op].status))
  {
    HandleStep(s, step, s.operations[op].key);
    FinishFinishes(s, step, op);
    hide Apply, Enabled, TasksOk, ScanOk, BoundsOk;
  }

  lemma FinishFinishes(s: State, step: Step, op: nat)
    requires RegistryOk(s) && Enabled(s, step) && op < |s.operations| <= |Apply(s, step).operations|
    ensures step == TaskStep(op, FinishSection) ==> Finished(Apply(s, step).operations[op])
  {
  }

  lemma InitialInv()
    ensures Inv(INITIAL_STATE)
  {
  }

  /** Every step of every interleaving keeps the invariant. */
  lemma StepKeepsInv(s: State, s': State)
    requires Inv(s) && Next(s, s')
    ensures Inv(s') && AllEvolve(s, s')
  {
    var step :| Enabled(s, step) && s' == Apply(s, step);
    StepEvolves(s, step);
    RegistryKept(s, step);
    TasksKept(s, step);
    UnregisteredKept(s, step);
    ScanKept(s, step);
    HandlesKept(s, step);
    PredecessorsKept(s, step);
    CoverageKept(s, step);
    DeclinedKept(s, step);
    AbortKept(s, step);
  }
}

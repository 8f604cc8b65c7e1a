/**
 The operation scheduler as a transition system.

 One operation is one admission: it is named by its sequence number, which also names its status
 channel, its spawned task and its abort handle.  The registry lock, the status channels and the
 tasks interleave freely; each step below is one critical section or one atomic channel access.
 */
module OperationTasks {
  import opened Wrappers
  import opened Lanes

  const MAX_ADMITTED_BROWSER_OPERATIONS: nat := 32
  const U64_MAX: nat := 0xFFFF_FFFF_FFFF_FFFF

  type OperationKey = nat

  datatype OperationTerminal = Completed | NotDispatched | Unknown

  datatype TaskStatus = Queued | Running | Terminal(terminal: OperationTerminal)

  /** Where the spawned task of an operation stands. */
  datatype Phase =
    | Unspawned                               // admitted; the caller has not reached tokio::spawn
    | Spawned                                 // never polled, so no drop guard exists yet
    | Waiting(next: nat)                      // guard armed, predecessors before `next` passed
    | InBody                                  // the operation's own future is in progress
    | Dropping                                // body gone, the armed guard is being dropped
    | Publishing(outcome: OperationTerminal)  // in finish, before terminal_transition
    | Unregistering                           // in finish, before its registry section
    | Ended

  datatype Operation = Operation(
    key: OperationKey,
    lanes: BrowserLaneSet,
    predecessors: seq<nat>,
    status: TaskStatus,
    phase: Phase,
    attached: bool,     // attach_abort has run
    aborted: bool,      // abort() was called on the spawned task's handle
    bodyStarts: nat)    // how often the body was started

  datatype TaskEntry = TaskEntry(sequence: nat, abort: Option<nat>, ownerRetained: bool)

  /** A shutdown that holds the registry lock: entries not yet relabelled, abort handles taken. */
  datatype Scan = Scan(remaining: set<OperationKey>, aborts: set<nat>)

  datatype State = State(
    closed: bool,
    operations: seq<Operation>,   // by sequence number, so next_sequence is its length
    tasks: map<OperationKey, TaskEntry>,
    scan: Option<Scan>,
    pendingAborts: set<nat>)      // handles a finished scan still has to call abort() on

  const INITIAL_STATE := State(false, [], map[], None, {})

  // ---------------------------------------------------------------- status channels

  predicate IsTerminal(status: TaskStatus) { status.Terminal? }

  /** Completed or NotDispatched: an outcome later operations need not wait for. */
  predicate IsSettled(status: TaskStatus) {
    status == Terminal(Completed) || status == Terminal(NotDispatched)
  }

  function TerminalTransition(status: TaskStatus, terminal: OperationTerminal): TaskStatus {
    if IsTerminal(status) then status else Terminal(terminal)
  }

  function FailUnfinished(status: TaskStatus): TaskStatus {
    match status
    case Queued => Terminal(NotDispatched)
    case Running => Terminal(Unknown)
    case Terminal(_) => status
  }

  /** No sender is left: not in the registry, not in the spawned task, not in the admitting call. */
  predicate ChannelClosed(s: State, op: nat)
    requires op < |s.operations|
  {
    s.operations[op].phase == Ended && s.operations[op].attached && !Registered(s, op)
  }

  /** What wait_for_terminal returns for `op`, if it returns. */
  function Observed(s: State, op: nat): Option<OperationTerminal>
    requires op < |s.operations|
  {
    match s.operations[op].status
    case Terminal(terminal) => Some(terminal)
    case Queued => if ChannelClosed(s, op) then Some(NotDispatched) else None
    case Running => if ChannelClosed(s, op) then Some(Unknown) else None
  }

  // ---------------------------------------------------------------- registry sections

  predicate Registered(s: State, op: nat)
    requires op < |s.operations|
  {
    s.operations[op].key in s.tasks && s.tasks[s.operations[op].key].sequence == op
  }

  predicate LockFree(s: State) { s.scan.None? }

  datatype AdmissionDecision = Join(sequence: nat) | Reject(error: OperationAdmissionError) | Admit

  function Decide(s: State, key: OperationKey, lanes: BrowserLaneSet): AdmissionDecision
    requires forall k :: k in s.tasks ==> s.tasks[k].sequence < |s.operations|
  {
    if key in s.tasks then
      if s.operations[s.tasks[key].sequence].lanes != lanes then Reject(KeyConflict)
      else Join(s.tasks[key].sequence)
    else if s.closed then Reject(OperationAdmissionError.Closed)
    else if |s.tasks| >= MAX_ADMITTED_BROWSER_OPERATIONS || |s.operations| == U64_MAX then Reject(Saturated)
    else Admit
  }

  predicate Conflicts(s: State, op: nat, lanes: BrowserLaneSet)
    requires op < |s.operations|
  {
    Registered(s, op) && s.operations[op].lanes.Overlaps(lanes)
  }

  /** The scan borrows each status on its own while lock-free steps go on, so an operation that
      settles during the scan may or may not be listed; every other conflict is. */
  ghost predicate PredecessorsOf(s: State, lanes: BrowserLaneSet, predecessors: seq<nat>) {
    && (forall k :: 0 <= k < |predecessors| ==>
          predecessors[k] < |s.operations| && Conflicts(s, predecessors[k], lanes))
    && (forall k, m :: 0 <= k < m < |predecessors| ==> predecessors[k] < predecessors[m])
    && (forall op :: 0 <= op < |s.operations| && Conflicts(s, op, lanes) && !IsSettled(s.operations[op].status) ==>
          op in predecessors)
  }

  function AdmitSection(s: State, key: OperationKey, lanes: BrowserLaneSet, predecessors: seq<nat>): State {
    s.(operations := s.operations + [Operation(key, lanes, predecessors, Queued, Unspawned, false, false, 0)],
       tasks := s.tasks[key := TaskEntry(|s.operations|, None, true)])
  }

  function EvictSection(s: State, key: OperationKey): State
    requires key in s.tasks ==> s.tasks[key].sequence < |s.operations|
  {
    if key !in s.tasks then s
    else if IsTerminal(s.operations[s.tasks[key].sequence].status) then s.(tasks := s.tasks - {key})
    else s.(tasks := s.tasks[key := s.tasks[key].(ownerRetained := false)])
  }

  function FinishTasks(s: State, op: nat): map<OperationKey, TaskEntry>
    requires op < |s.operations|
  {
    var key := s.operations[op].key;
    if !Registered(s, op) then s.tasks
    else if !s.tasks[key].ownerRetained then s.tasks - {key}
    else s.tasks[key := s.tasks[key].(abort := None)]
  }

  function AttachSection(s: State, op: nat): State
    requires op < |s.operations|
  {
    var task := s.operations[op];
    if Registered(s, op) then
      if IsTerminal(task.status) then s.(operations := s.operations[op := task.(attached := true)])
      else s.(operations := s.operations[op := task.(attached := true)],
              tasks := s.tasks[task.key := s.tasks[task.key].(abort := Some(op))])
    else s.(operations := s.operations[op := task.(attached := true, aborted := task.aborted || s.closed)])
  }

  // ---------------------------------------------------------------- steps

  /** What the spawned task of one operation does next. */
  datatype TaskEvent =
    | Spawn
    | FirstPoll
    | PassPredecessor
    | Claim                               // the Queued-to-Running compare-and-set
    | EndBody(outcome: OperationTerminal)
    | DropFuture                          // a panic, or an abort taking effect
    | GuardReads                          // TerminalOnDrop::drop reads the status
    | Publish                             // terminal_transition
    | FinishSection                       // the registry section of finish

  datatype Step =
    // calls into the registry
    | AdmitCall(key: OperationKey, lanes: BrowserLaneSet, predecessors: seq<nat>)
    | EvictCall(key: OperationKey)
    | BeginShutdown
    // the rest of an admitting call, and of a shutdown
    | AttachAbort(op: nat)
    | Relabel(key: OperationKey)
    | ClearTasks
    | CallAbort(op: nat)
    | TaskStep(op: nat, event: TaskEvent)

  /** Steps the scheduler takes by itself once operations are admitted. */
  predicate IsSchedulerStep(step: Step) {
    !step.AdmitCall? && !step.EvictCall? && !step.BeginShutdown?
  }

  predicate TaskEnabled(s: State, op: nat, event: TaskEvent)
    requires op < |s.operations|
  {
    var task := s.operations[op];
    match event
    case Spawn => task.phase == Unspawned
    case FirstPoll => task.phase == Spawned
    case PassPredecessor =>
      && task.phase.Waiting? && task.phase.next < |task.predecessors|
      && task.predecessors[task.phase.next] < |s.operations|
      && Observed(s, task.predecessors[task.phase.next]).Some?
    case Claim => task.phase == Waiting(|task.predecessors|)
    case EndBody(_) => task.phase == InBody
    // a panicking body, or an abort taking effect where the spawned task is suspended
    case DropFuture => task.phase == InBody || (task.aborted && (task.phase.Waiting? || task.phase == Spawned))
    case GuardReads => task.phase == Dropping
    case Publish => task.phase.Publishing?
    case FinishSection => LockFree(s) && task.phase == Unregistering
  }

  function TaskAfter(s: State, op: nat, event: TaskEvent): Operation
    requires op < |s.operations| && TaskEnabled(s, op, event)
  {
    var task := s.operations[op];
    match event
    case Spawn => task.(phase := Spawned)
    case FirstPoll => task.(phase := Waiting(0))
    case PassPredecessor =>
      if Observed(s, task.predecessors[task.phase.next]) == Some(Unknown)
      then task.(phase := Publishing(NotDispatched))
      else task.(phase := Waiting(task.phase.next + 1))
    case Claim =>
      if task.status == Queued
      then task.(status := Running, phase := InBody, bodyStarts := task.bodyStarts + 1)
      else task.(phase := Ended)
    case EndBody(outcome) => task.(phase := Publishing(outcome))
    case DropFuture => task.(phase := if task.phase == Spawned then Ended else Dropping)
    case GuardReads =>
      (match task.status
       case Queued => task.(phase := Publishing(NotDispatched))
       case Running => task.(phase := Publishing(Unknown))
       case Terminal(_) => task.(phase := Ended))
    case Publish => task.(status := TerminalTransition(task.status, task.phase.outcome), phase := Unregistering)
    case FinishSection => task.(phase := Ended)
  }

  ghost predicate Enabled(s: State, step: Step)
    requires RegistryOk(s)
  {
    match step
    case AdmitCall(key, lanes, predecessors) =>
      LockFree(s) && Decide(s, key, lanes) == Admit && PredecessorsOf(s, lanes, predecessors)
    case EvictCall(_) => LockFree(s)
    case BeginShutdown => LockFree(s)
    case AttachAbort(op) =>
      LockFree(s) && op < |s.operations| && s.operations[op].phase != Unspawned && !s.operations[op].attached
    case Relabel(key) => s.scan.Some? && key in s.scan.value.remaining && key in s.tasks
    case ClearTasks => s.scan.Some? && s.scan.value.remaining == {}
    case CallAbort(op) => op in s.pendingAborts && op < |s.operations|
    case TaskStep(op, event) => op < |s.operations| && TaskEnabled(s, op, event)
  }

  function RelabelSection(s: State, key: OperationKey): State
    requires RegistryOk(s) && s.scan.Some? && key in s.tasks
  {
    var entry := s.tasks[key];
    var task := s.operations[entry.sequence];
    s.(operations := s.operations[entry.sequence := task.(status := FailUnfinished(task.status))],
       tasks := s.tasks[key := entry.(abort := None)],
       scan := Some(Scan(s.scan.value.remaining - {key},
                         s.scan.value.aborts + (if entry.abort.Some? then {entry.abort.value} else {}))))
  }

  ghost function Apply(s: State, step: Step): State
    requires RegistryOk(s) && Enabled(s, step)
  {
    match step
    case AdmitCall(key, lanes, predecessors) => AdmitSection(s, key, lanes, predecessors)
    case EvictCall(key) => EvictSection(s, key)
    case BeginShutdown => s.(closed := true, scan := Some(Scan(s.tasks.Keys, {})))
    case AttachAbort(op) => AttachSection(s, op)
    case Relabel(key) => RelabelSection(s, key)
    case ClearTasks => s.(tasks := map[], scan := None, pendingAborts := s.pendingAborts + s.scan.value.aborts)
    case CallAbort(op) =>
      s.(operations := s.operations[op := s.operations[op].(aborted := true)], pendingAborts := s.pendingAborts - {op})
    case TaskStep(op, event) =>
      s.(operations := s.operations[op := TaskAfter(s, op, event)],
         tasks := if event.FinishSection? then FinishTasks(s, op) else s.tasks)
  }

  /** Every entry names the operation it was created for. */
  predicate RegistryOk(s: State) {
    forall key :: key in s.tasks ==>
      && s.tasks[key].sequence < |s.operations|
      && s.operations[s.tasks[key].sequence].key == key
  }

  ghost predicate Next(s: State, s': State) {
    RegistryOk(s) && exists step :: Enabled(s, step) && s' == Apply(s, step)
  }

  /** A run, from any state, in any interleaving. */
  ghost predicate IsRun(run: seq<State>) {
    |run| > 0 && forall i :: 0 <= i < |run| - 1 ==> Next(run[i], run[i + 1])
  }
}

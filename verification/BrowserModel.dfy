/** The extension's model of the browser: incarnation keys, guarded re-reads and the revision counter. */
module BrowserModels {
  import opened Wrappers

  /** The n-th random UUID drawn. */
  type Name = nat

  datatype Kind = Windows | Groups | Tabs

  datatype PerKind<T> = PerKind(windows: T, groups: T, tabs: T) {
    function Of(kind: Kind): T {
      match kind
      case Windows => windows
      case Groups => groups
      case Tabs => tabs
    }

    function With(kind: Kind, value: T): PerKind<T> {
      match kind
      case Windows => this.(windows := value)
      case Groups => this.(groups := value)
      case Tabs => this.(tabs := value)
    }
  }

  type KeyMap = map<int, Name>

  datatype Support = Support(frozenTabs: bool, sharedTabGroups: bool)

  // What Chrome reports.  `frozen` and `shared` say whether the object has the property at all; the
  // remaining fields, which are only copied, are one opaque string.

  datatype SourceWindow = SourceWindow(id: int, focused: bool, rest: string)

  datatype SourceGroup = SourceGroup(id: int, windowId: int, collapsed: bool, shared: Option<bool>, rest: string)

  datatype SourceTab = SourceTab(
    id: int, windowId: int, groupId: Option<int>, openerTabId: Option<int>, frozen: Option<bool>, rest: string)

  datatype Source = Source(windows: seq<SourceWindow>, groups: seq<SourceGroup>, tabs: seq<SourceTab>)

  datatype ModelWindow = ModelWindow(key: Name, id: int, focused: bool, rest: string)

  datatype ModelGroup = ModelGroup(key: Name, id: int, windowKey: Option<Name>, collapsed: bool, shared: Option<bool>, rest: string)

  datatype ModelTab = ModelTab(
    key: Name, id: int, windowKey: Option<Name>, groupKey: Option<Name>, openerKey: Option<Name>, frozen: Option<bool>, rest: string)

  datatype Records = Records(windows: seq<ModelWindow>, groups: seq<ModelGroup>, tabs: seq<ModelTab>)

  /** Where the reconciliation loop is suspended, and the generation its read started at. */
  datatype Reconciliation = Idle | Reading(generation: nat) | Draining(generation: nat, source: Source)

  datatype Keying = Keying(keys: PerKind<KeyMap>, forceNewIds: PerKind<set<int>>, issued: Name)

  datatype State = State(
    keying: Keying, eventGeneration: nat, reconciledGeneration: int, reconciliation: Reconciliation,
    records: Option<Records>, support: Support, modelRevision: nat)

  /** createBrowserModel starts its first read at once. */
  const INITIAL := State(
    Keying(PerKind(map[], map[], map[]), PerKind({}, {}, {}), 0), 0, -1, Reading(0), None, Support(false, false), 0)

  const NO_GROUP_ID := -1

  // ---------------------------------------------------------------- keys

  function WindowIds(source: Source): seq<int> {
    seq(|source.windows|, i requires 0 <= i < |source.windows| => source.windows[i].id)
  }

  function GroupIds(source: Source): seq<int> {
    seq(|source.groups|, i requires 0 <= i < |source.groups| => source.groups[i].id)
  }

  function TabIds(source: Source): seq<int> {
    seq(|source.tabs|, i requires 0 <= i < |source.tabs| => source.tabs[i].id)
  }

  function IdsOf(source: Source, kind: Kind): seq<int> {
    match kind
    case Windows => WindowIds(source)
    case Groups => GroupIds(source)
    case Tabs => TabIds(source)
  }

  function Prune(keys: KeyMap, ids: seq<int>): KeyMap {
    map id | id in keys && id in ids :: keys[id]
  }

  function PruneAll(k: Keying, source: Source): Keying {
    k.(keys := PerKind(
         Prune(k.keys.windows, WindowIds(source)), Prune(k.keys.groups, GroupIds(source)), Prune(k.keys.tabs, TabIds(source))))
  }

  /** keyFor: an id that is forced, or has no key, gets a new one. */
  function KeyFor(k: Keying, kind: Kind, id: int): Keying {
    var keys, forced := k.keys.Of(kind), k.forceNewIds.Of(kind);
    if id in keys && id !in forced then k
    else Keying(k.keys.With(kind, keys[id := k.issued]), k.forceNewIds.With(kind, forced - {id}), k.issued + 1)
  }

  function KeysForAll(k: Keying, kind: Kind, ids: seq<int>): Keying {
    if ids == [] then k else KeyFor(KeysForAll(k, kind, ids[..|ids| - 1]), kind, ids[|ids| - 1])
  }

  function AssignKeys(k: Keying, source: Source): Keying {
    KeysForAll(KeysForAll(KeysForAll(PruneAll(k, source), Windows, WindowIds(source)), Groups, GroupIds(source)), Tabs, TabIds(source))
  }

  function DropKey(k: Keying, kind: Kind, id: int): Keying {
    k.(keys := k.keys.With(kind, k.keys.Of(kind) - {id}))
  }

  function Force(k: Keying, kind: Kind, id: int): Keying {
    k.(forceNewIds := k.forceNewIds.With(kind, k.forceNewIds.Of(kind) + {id}))
  }

  // ---------------------------------------------------------------- records

  function KeyOf(keys: KeyMap, id: int): Option<Name> {
    if id in keys then Some(keys[id]) else None
  }

  function QueriedSupport(source: Source): Support {
    Support(
      exists i :: 0 <= i < |source.tabs| && source.tabs[i].frozen.Some?,
      exists i :: 0 <= i < |source.groups| && source.groups[i].shared.Some?)
  }

  function NextSupport(support: Support, source: Source): Support {
    var queried := QueriedSupport(source);
    Support(support.frozenTabs || queried.frozenTabs, support.sharedTabGroups || queried.sharedTabGroups)
  }

  function NormalWindow(keys: PerKind<KeyMap>, w: SourceWindow): ModelWindow
    requires w.id in keys.windows
  {
    ModelWindow(keys.windows[w.id], w.id, w.focused, w.rest)
  }

  function NormalGroup(keys: PerKind<KeyMap>, support: Support, g: SourceGroup): ModelGroup
    requires g.id in keys.groups
  {
    ModelGroup(keys.groups[g.id], g.id, KeyOf(keys.windows, g.windowId), g.collapsed,
      if support.sharedTabGroups then Some(g.shared == Some(true)) else None, g.rest)
  }

  function NormalTab(keys: PerKind<KeyMap>, support: Support, t: SourceTab): ModelTab
    requires t.id in keys.tabs
  {
    ModelTab(keys.tabs[t.id], t.id, KeyOf(keys.windows, t.windowId),
      if t.groupId.Some? && t.groupId.value != NO_GROUP_ID then KeyOf(keys.groups, t.groupId.value) else None,
      if t.openerTabId.Some? then KeyOf(keys.tabs, t.openerTabId.value) else None,
      if support.frozenTabs then Some(t.frozen == Some(true)) else None, t.rest)
  }

  ghost predicate KeysCover(keys: PerKind<KeyMap>, source: Source) {
    && (forall i :: 0 <= i < |source.windows| ==> source.windows[i].id in keys.windows)
    && (forall i :: 0 <= i < |source.groups| ==> source.groups[i].id in keys.groups)
    && (forall i :: 0 <= i < |source.tabs| ==> source.tabs[i].id in keys.tabs)
  }

  function Normalized(keys: PerKind<KeyMap>, support: Support, source: Source): Records
    requires KeysCover(keys, source)
  {
    Records(
      seq(|source.windows|, i requires 0 <= i < |source.windows| => NormalWindow(keys, source.windows[i])),
      seq(|source.groups|, i requires 0 <= i < |source.groups| => NormalGroup(keys, support, source.groups[i])),
      seq(|source.tabs|, i requires 0 <= i < |source.tabs| => NormalTab(keys, support, source.tabs[i])))
  }

  // ---------------------------------------------------------------- what assigning keys promises

  /** Ids present keep a key they have, unless forced; all others get names first .. , no two alike. */
  ghost predicate Assigned(before: KeyMap, forced: set<int>, ids: seq<int>, after: KeyMap, forcedAfter: set<int>, first: Name, next: Name) {
    && first <= next
    && (forall id :: id in after <==> id in ids)
    && (forall id :: id in ids && id in before && id !in forced ==> after[id] == before[id])
    && (forall id :: id in ids && !(id in before && id !in forced) ==> first <= after[id] < next)
    && (forall id :: id in forcedAfter <==> id in forced && id !in ids)
    && (forall a, b :: a in after && b in after && first <= after[a] && after[a] == after[b] ==> a == b)
  }

  /** After some of the ids have been looked up. */
  ghost predicate Assigning(before: KeyMap, forced: set<int>, done: seq<int>, after: KeyMap, forcedAfter: set<int>, first: Name, next: Name) {
    && first <= next
    && (forall id :: id in before ==> before[id] < first)
    && (forall id :: id in after <==> id in done || id in before)
    && (forall id :: id in before && (id !in forced || id !in done) ==> after[id] == before[id])
    && (forall id :: id in done && !(id in before && id !in forced) ==> first <= after[id] < next)
    && (forall id :: id in forcedAfter <==> id in forced && id !in done)
    && (forall a, b :: a in after && b in after && first <= after[a] && after[a] == after[b] ==> a == b)
    && (forall a :: a in after ==> after[a] < next)
  }

  lemma AssigningStep(before: KeyMap, forced: set<int>, done: seq<int>, after: KeyMap, forcedAfter: set<int>, first: Name, next: Name, id: int)
    requires Assigning(before, forced, done, after, forcedAfter, first, next)
    ensures id in after && id !in forcedAfter ==> Assigning(before, forced, done + [id], after, forcedAfter, first, next)
    ensures !(id in after && id !in forcedAfter) ==>
      Assigning(before, forced, done + [id], after[id := next], forcedAfter - {id}, first, next + 1)
  {
    assert forall x :: x in done + [id] <==> x in done || x == id;
  }

  lemma {:induction false} KeysForAllAssigns(k: Keying, kind: Kind, ids: seq<int>)
    requires forall id :: id in k.keys.Of(kind) ==> k.keys.Of(kind)[id] < k.issued
    ensures var n := KeysForAll(k, kind, ids);
      Assigning(k.keys.Of(kind), k.forceNewIds.Of(kind), ids, n.keys.Of(kind), n.forceNewIds.Of(kind), k.issued, n.issued)
  {
    if ids == [] {
      assert NoIds(k, kind);
    } else {
      var front, id := ids[..|ids| - 1], ids[|ids| - 1];
      KeysForAllAssigns(k, kind, front);
      var m := KeysForAll(k, kind, front);
      AssigningStep(k.keys.Of(kind), k.forceNewIds.Of(kind), front, m.keys.Of(kind), m.forceNewIds.Of(kind), k.issued, m.issued, id);
      assert ids == front + [id];
      hide Assigning;
      KeyForIs(m, kind, id);
    }
  }

  ghost predicate NoIds(k: Keying, kind: Kind) { KeysForAll(k, kind, []) == k }

  lemma KeyForIs(k: Keying, kind: Kind, id: int)
    ensures var n, keys, forced := KeyFor(k, kind, id), k.keys.Of(kind), k.forceNewIds.Of(kind);
      if id in keys && id !in forced then n == k
      else n.keys.Of(kind) == keys[id := k.issued] && n.forceNewIds.Of(kind) == forced - {id} && n.issued == k.issued + 1
  {
  }

  lemma {:induction false} OtherKindsKept(k: Keying, kind: Kind, ids: seq<int>, other: Kind)
    requires other != kind
    ensures var n := KeysForAll(k, kind, ids);
      n.keys.Of(other) == k.keys.Of(other) && n.forceNewIds.Of(other) == k.forceNewIds.Of(other) && k.issued <= n.issued
  {
    if ids != [] { OtherKindsKept(k, kind, ids[..|ids| - 1], other); }
  }

  ghost predicate KeysIssued(keys: PerKind<KeyMap>, next: Name) {
    forall kind: Kind, id :: id in keys.Of(kind) ==> keys.Of(kind)[id] < next
  }

  /** The names each kind drew when a read was applied: windows, then groups, then tabs. */
  ghost predicate AssignedAll(k: Keying, source: Source, n: Keying) {
    exists second: Name, third: Name ::
      && Assigned(k.keys.windows, k.forceNewIds.windows, WindowIds(source), n.keys.windows, n.forceNewIds.windows, k.issued, second)
      && Assigned(k.keys.groups, k.forceNewIds.groups, GroupIds(source), n.keys.groups, n.forceNewIds.groups, second, third)
      && Assigned(k.keys.tabs, k.forceNewIds.tabs, TabIds(source), n.keys.tabs, n.forceNewIds.tabs, third, n.issued)
  }

  /** Pruning first makes no difference to who keeps a key. */
  lemma PrunedAssigned(before: KeyMap, forced: set<int>, ids: seq<int>, after: KeyMap, forcedAfter: set<int>, first: Name, next: Name)
    requires Assigning(Prune(before, ids), forced, ids, after, forcedAfter, first, next)
    ensures Assigned(before, forced, ids, after, forcedAfter, first, next)
  {
  }

  lemma KindAssigned(k: Keying, pruned: Keying, kind: Kind, ids: seq<int>)
    requires pruned.keys.Of(kind) == Prune(k.keys.Of(kind), ids) && pruned.forceNewIds.Of(kind) == k.forceNewIds.Of(kind)
    requires forall id :: id in k.keys.Of(kind) ==> k.keys.Of(kind)[id] < pruned.issued
    ensures var n := KeysForAll(pruned, kind, ids);
      Assigned(k.keys.Of(kind), k.forceNewIds.Of(kind), ids, n.keys.Of(kind), n.forceNewIds.Of(kind), pruned.issued, n.issued)
      && pruned.issued <= n.issued
  {
    KeysForAllAssigns(pruned, kind, ids);
    var n := KeysForAll(pruned, kind, ids);
    PrunedAssigned(k.keys.Of(kind), k.forceNewIds.Of(kind), ids, n.keys.Of(kind), n.forceNewIds.Of(kind), pruned.issued, n.issued);
  }

  lemma AssignKeysAssigns(k: Keying, source: Source)
    requires KeysIssued(k.keys, k.issued)
    ensures AssignedAll(k, source, AssignKeys(k, source)) && k.issued <= AssignKeys(k, source).issued
  {
    var p := PruneAll(k, source);
    var w := KeysForAll(p, Windows, WindowIds(source));
    var g := KeysForAll(w, Groups, GroupIds(source));
    var t := KeysForAll(g, Tabs, TabIds(source));
    OtherKindsKept(p, Windows, WindowIds(source), Groups);
    OtherKindsKept(p, Windows, WindowIds(source), Tabs);
    OtherKindsKept(w, Groups, GroupIds(source), Windows);
    OtherKindsKept(w, Groups, GroupIds(source), Tabs);
    OtherKindsKept(g, Tabs, TabIds(source), Windows);
    OtherKindsKept(g, Tabs, TabIds(source), Groups);
    AllIssued(k, k.issued);
    hide KeysForAll, Prune, WindowIds, GroupIds, TabIds, Assigned, KeysIssued;
    KindAssigned(k, p, Windows, WindowIds(source));
    KindAssigned(k, w, Groups, GroupIds(source));
    KindAssigned(k, g, Tabs, TabIds(source));
  }

  lemma AllIssued(k: Keying, next: Name)
    requires KeysIssued(k.keys, next)
    ensures forall id :: id in k.keys.Of(Windows) ==> k.keys.Of(Windows)[id] < next
    ensures forall id :: id in k.keys.Of(Groups) ==> k.keys.Of(Groups)[id] < next
    ensures forall id :: id in k.keys.Of(Tabs) ==> k.keys.Of(Tabs)[id] < next
  {
  }

  lemma AssignedCovers(k: Keying, source: Source)
    requires KeysIssued(k.keys, k.issued)
    ensures KeysCover(AssignKeys(k, source).keys, source)
  {
    AssignKeysAssigns(k, source);
    var n := AssignKeys(k, source);
    hide AssignKeys;
    forall i | 0 <= i < |source.windows| ensures source.windows[i].id in n.keys.windows { assert WindowIds(source)[i] in WindowIds(source); }
    forall i | 0 <= i < |source.groups| ensures source.groups[i].id in n.keys.groups { assert GroupIds(source)[i] in GroupIds(source); }
    forall i | 0 <= i < |source.tabs| ensures source.tabs[i].id in n.keys.tabs { assert TabIds(source)[i] in TabIds(source); }
  }

  // ---------------------------------------------------------------- steps

  datatype BrowserEvent =
    | Created(kind: Kind, id: Option<int>)
    | Removed(kind: Kind, id: Option<int>)
    | Replaced(added: int, removed: int)
    | Changed

  datatype Step =
    | Event(event: BrowserEvent)
    | Demand                     // snapshot, getSupport and whenIdle
    | ReadDone(source: Source)
    | ReadFailed
    | Resume                     // after drainEvents

  function KeyingAfter(k: Keying, event: BrowserEvent): Keying {
    match event
    case Created(kind, id) => if id.Some? then Force(DropKey(k, kind, id.value), kind, id.value) else k
    case Removed(kind, id) => if id.Some? then DropKey(k, kind, id.value) else k
    case Replaced(added, removed) => Force(DropKey(DropKey(k, Tabs, removed), Tabs, added), Tabs, added)
    case Changed => k
  }

  /** reconcile(): joins a loop under way, and starts one unless the last read is still current. */
  function Reconcile(s: State): State {
    if s.reconciliation.Idle? && !(s.records.Some? && s.reconciledGeneration == s.eventGeneration)
    then s.(reconciliation := Reading(s.eventGeneration)) else s
  }

  function AfterEvent(s: State, event: BrowserEvent): State {
    Reconcile(s.(keying := KeyingAfter(s.keying, event), eventGeneration := s.eventGeneration + 1))
  }

  function Applied(s: State, source: Source): State
    requires KeysIssued(s.keying.keys, s.keying.issued)
  {
    var keying, support := AssignKeys(s.keying, source), NextSupport(s.support, source);
    AssignedCovers(s.keying, source);
    var records := Normalized(keying.keys, support, source);
    s.(keying := keying, support := support,
       records := Some(records), modelRevision := if s.records == Some(records) then s.modelRevision else s.modelRevision + 1)
  }

  predicate Applies(s: State) {
    s.reconciliation.Draining? && s.reconciliation.generation == s.eventGeneration
  }

  /** The loop condition, on a new turn. */
  function Loop(s: State): State {
    s.(reconciliation := if s.reconciledGeneration != s.eventGeneration || s.records.None? then Reading(s.eventGeneration) else Idle)
  }

  function Resumed(s: State): State
    requires s.reconciliation.Draining? && KeysIssued(s.keying.keys, s.keying.issued)
  {
    if !Applies(s) then Loop(s)
    else Loop(Applied(s, s.reconciliation.source).(reconciledGeneration := s.reconciliation.generation))
  }

  ghost predicate Next(s: State, step: Step, t: State) {
    match step
    case Event(event) => t == AfterEvent(s, event)
    case Demand => t == Reconcile(s)
    case ReadDone(source) => s.reconciliation.Reading? && t == s.(reconciliation := Draining(s.reconciliation.generation, source))
    case ReadFailed => s.reconciliation.Reading? && t == s.(reconciliation := Idle)
    case Resume => s.reconciliation.Draining? && KeysIssued(s.keying.keys, s.keying.issued) && t == Resumed(s)
  }
}

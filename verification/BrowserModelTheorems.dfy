/** What holds over every run of the extension's browser model, with events arriving at every await. */
module BrowserModelTheorems {
  import opened Wrappers
  import opened BrowserModels
  import opened BrowserModelObject
  import B = Baselines
  import R = Runtime

  ghost predicate IsRun(states: seq<State>, steps: seq<Step>) {
    && |states| == |steps| + 1 && states[0] == INITIAL
    && forall i :: 0 <= i < |steps| ==> Next(states[i], steps[i], states[i + 1])
  }

  // ---------------------------------------------------------------- the invariant

  /** No key names two objects, of whatever kind. */
  ghost predicate KeysApart(keys: PerKind<KeyMap>) {
    forall j: Kind, k: Kind, a, b ::
      a in keys.Of(j) && b in keys.Of(k) && keys.Of(j)[a] == keys.Of(k)[b] ==> j == k && a == b
  }

  /** Records show a support field on every object exactly if the feature counts as supported. */
  ghost predicate RecordsMatch(records: Records, support: Support) {
    && (forall i :: 0 <= i < |records.tabs| ==> records.tabs[i].frozen.Some? == support.frozenTabs)
    && (forall i :: 0 <= i < |records.groups| ==> records.groups[i].shared.Some? == support.sharedTabGroups)
  }

  ghost predicate ContentOk(s: State) {
    if s.records.None? then s.support == Support(false, false) && s.modelRevision == 0
    else s.modelRevision >= 1 && RecordsMatch(s.records.value, s.support)
  }

  ghost predicate ModelOk(s: State) {
    && KeysIssued(s.keying.keys, s.keying.issued) && KeysApart(s.keying.keys)
    && ContentOk(s)
    && s.reconciledGeneration <= s.eventGeneration
    && (!s.reconciliation.Idle? ==> s.reconciliation.generation <= s.eventGeneration)
  }

  /** One kind's part of an assignment, and the names it drew from. */
  lemma KindOf(k: Keying, source: Source, n: Keying, kind: Kind) returns (low: Name, high: Name)
    requires AssignedAll(k, source, n)
    ensures Assigned(k.keys.Of(kind), k.forceNewIds.Of(kind), IdsOf(source, kind), n.keys.Of(kind), n.forceNewIds.Of(kind), low, high)
    ensures k.issued <= low <= high <= n.issued
  {
    hide WindowIds, GroupIds, TabIds;
    var second: Name, third: Name :|
      && Assigned(k.keys.windows, k.forceNewIds.windows, WindowIds(source), n.keys.windows, n.forceNewIds.windows, k.issued, second)
      && Assigned(k.keys.groups, k.forceNewIds.groups, GroupIds(source), n.keys.groups, n.forceNewIds.groups, second, third)
      && Assigned(k.keys.tabs, k.forceNewIds.tabs, TabIds(source), n.keys.tabs, n.forceNewIds.tabs, third, n.issued);
    low, high := match kind { case Windows => k.issued case Groups => second case Tabs => third },
                 match kind { case Windows => second case Groups => third case Tabs => n.issued };
  }

  /** A name in one kind's table after an assignment: an old one of the same id, or one drawn for that kind. */
  lemma NameOrigin(before: KeyMap, forced: set<int>, ids: seq<int>, after: KeyMap, forcedAfter: set<int>, low: Name, high: Name, id: int)
    requires Assigned(before, forced, ids, after, forcedAfter, low, high) && id in after
    ensures (id in before && after[id] == before[id]) || low <= after[id] < high
  {
  }

  lemma AssignedApart(k: Keying, source: Source, n: Keying)
    requires KeysIssued(k.keys, k.issued) && KeysApart(k.keys) && AssignedAll(k, source, n)
    ensures KeysApart(n.keys)
  {
    hide WindowIds, GroupIds, TabIds;
    var second: Name, third: Name :|
      && Assigned(k.keys.windows, k.forceNewIds.windows, WindowIds(source), n.keys.windows, n.forceNewIds.windows, k.issued, second)
      && Assigned(k.keys.groups, k.forceNewIds.groups, GroupIds(source), n.keys.groups, n.forceNewIds.groups, second, third)
      && Assigned(k.keys.tabs, k.forceNewIds.tabs, TabIds(source), n.keys.tabs, n.forceNewIds.tabs, third, n.issued);
    forall j: Kind, l: Kind, a, b | a in n.keys.Of(j) && b in n.keys.Of(l) && n.keys.Of(j)[a] == n.keys.Of(l)[b]
      ensures j == l && a == b
    {
      NameFrom(k, source, n, second, third, j, a);
      NameFrom(k, source, n, second, third, l, b);
      hide KeysIssued, Assigned;
      if j == l && n.keys.Of(j)[a] >= k.issued { DrawnApart(k, source, n, second, third, j, a, b); }
    }
  }

  function Low(k: Keying, second: Name, third: Name, kind: Kind): Name {
    match kind case Windows => k.issued case Groups => second case Tabs => third
  }

  function High(n: Keying, second: Name, third: Name, kind: Kind): Name {
    match kind case Windows => second case Groups => third case Tabs => n.issued
  }

  ghost predicate Splits(k: Keying, source: Source, n: Keying, second: Name, third: Name) {
    && Assigned(k.keys.windows, k.forceNewIds.windows, WindowIds(source), n.keys.windows, n.forceNewIds.windows, k.issued, second)
    && Assigned(k.keys.groups, k.forceNewIds.groups, GroupIds(source), n.keys.groups, n.forceNewIds.groups, second, third)
    && Assigned(k.keys.tabs, k.forceNewIds.tabs, TabIds(source), n.keys.tabs, n.forceNewIds.tabs, third, n.issued)
  }

  lemma NameFrom(k: Keying, source: Source, n: Keying, second: Name, third: Name, kind: Kind, id: int)
    requires KeysIssued(k.keys, k.issued) && Splits(k, source, n, second, third) && id in n.keys.Of(kind)
    ensures k.issued <= second <= third <= n.issued
    ensures
      || (id in k.keys.Of(kind) && n.keys.Of(kind)[id] == k.keys.Of(kind)[id] && n.keys.Of(kind)[id] < k.issued)
      || (Low(k, second, third, kind) <= n.keys.Of(kind)[id] < High(n, second, third, kind))
  {
    hide WindowIds, GroupIds, TabIds;
    assert id in k.keys.Of(kind) ==> k.keys.Of(kind)[id] < k.issued;
    match kind
    case Windows => NameOrigin(k.keys.windows, k.forceNewIds.windows, WindowIds(source), n.keys.windows, n.forceNewIds.windows, k.issued, second, id);
    case Groups => NameOrigin(k.keys.groups, k.forceNewIds.groups, GroupIds(source), n.keys.groups, n.forceNewIds.groups, second, third, id);
    case Tabs => NameOrigin(k.keys.tabs, k.forceNewIds.tabs, TabIds(source), n.keys.tabs, n.forceNewIds.tabs, third, n.issued, id);
  }

  lemma DrawnApart(k: Keying, source: Source, n: Keying, second: Name, third: Name, kind: Kind, a: int, b: int)
    requires Splits(k, source, n, second, third)
    requires a in n.keys.Of(kind) && b in n.keys.Of(kind) && n.keys.Of(kind)[a] == n.keys.Of(kind)[b]
    requires Low(k, second, third, kind) <= n.keys.Of(kind)[a]
    ensures a == b
  {
    hide WindowIds, GroupIds, TabIds;
  }

  lemma EventKeepsApart(k: Keying, event: BrowserEvent)
    requires KeysIssued(k.keys, k.issued) && KeysApart(k.keys)
    ensures KeysIssued(KeyingAfter(k, event).keys, KeyingAfter(k, event).issued) && KeysApart(KeyingAfter(k, event).keys)
  {
    FewerKeys(k, event);
    var n := KeyingAfter(k, event);
    forall j: Kind, l: Kind, a, b | a in n.keys.Of(j) && b in n.keys.Of(l) && n.keys.Of(j)[a] == n.keys.Of(l)[b]
      ensures j == l && a == b
    {
      EventOnlyDrops(k, event, j, a);
      EventOnlyDrops(k, event, l, b);
    }
  }

  // ---------------------------------------------------------------- the revision determines the content

  lemma NormalizedMatches(keys: PerKind<KeyMap>, support: Support, source: Source)
    requires KeysCover(keys, source)
    ensures RecordsMatch(Normalized(keys, support, source), support)
  {
  }

  /** A support flag flips only on a read whose records then show the field, which the old ones did not. */
  lemma FlipChangesRecords(s: State, source: Source)
    requires ContentOk(s) && KeysIssued(s.keying.keys, s.keying.issued) && NextSupport(s.support, source) != s.support
    ensures s.records != Applied(s, source).records
  {
    AssignedCovers(s.keying, source);
    var support, records := NextSupport(s.support, source), Applied(s, source).records.value;
    assert records == Normalized(AssignKeys(s.keying, source).keys, support, source);
    hide AssignKeys, KeysCover;
    if support.frozenTabs != s.support.frozenTabs {
      var i :| 0 <= i < |source.tabs| && source.tabs[i].frozen.Some?;
      assert records.tabs[i].frozen.Some?;
    } else {
      var i :| 0 <= i < |source.groups| && source.groups[i].shared.Some?;
      assert records.groups[i].shared.Some?;
    }
  }

  lemma AppliedOk(s: State, source: Source)
    requires ModelOk(s)
    ensures ContentOk(Applied(s, source))
    ensures KeysIssued(Applied(s, source).keying.keys, Applied(s, source).keying.issued) && KeysApart(Applied(s, source).keying.keys)
    ensures s.keying.issued <= Applied(s, source).keying.issued
  {
    AssignKeysAssigns(s.keying, source);
    AssignedIssued(s.keying, source);
    AssignedApart(s.keying, source, AssignKeys(s.keying, source));
    AssignedCovers(s.keying, source);
    var support := NextSupport(s.support, source);
    NormalizedMatches(AssignKeys(s.keying, source).keys, support, source);
    if support != s.support { FlipChangesRecords(s, source); }
    hide KeysIssued, KeysApart, AssignKeys, KeysCover, AssignedAll, NextSupport, RecordsMatch, Normalized;
  }

  lemma NextKeepsOk(s: State, step: Step, t: State)
    requires ModelOk(s) && Next(s, step, t)
    ensures ModelOk(t)
  {
    hide KeysIssued, KeysApart, ContentOk, Applied, KeyingAfter;
    match step
    case Event(event) => EventKeepsApart(s.keying, event); SameContent(s, t);
    case Demand => SameContent(s, t);
    case ReadDone(_) => SameContent(s, t);
    case ReadFailed => SameContent(s, t);
    case Resume =>
      if Applies(s) {
        AppliedOk(s, s.reconciliation.source);
        AppliedGenerations(s, s.reconciliation.source);
        SameContent(Applied(s, s.reconciliation.source), t);
      } else {
        SameContent(s, t);
      }
  }

  lemma AppliedGenerations(s: State, source: Source)
    requires KeysIssued(s.keying.keys, s.keying.issued)
    ensures Applied(s, source).eventGeneration == s.eventGeneration
  {
    hide AssignKeys, NextSupport;
  }

  lemma SameContent(s: State, t: State)
    requires ContentOk(s) && t.records == s.records && t.support == s.support && t.modelRevision == s.modelRevision
    ensures ContentOk(t)
  {
  }

  lemma {:induction false} RunKeepsOk(states: seq<State>, steps: seq<Step>, i: nat)
    requires IsRun(states, steps) && i < |states|
    ensures ModelOk(states[i])
  {
    hide Next, ModelOk;
    if i == 0 {
      InitialOk();
    } else {
      RunKeepsOk(states, steps, i - 1);
      NextKeepsOk(states[i - 1], steps[i - 1], states[i]);
    }
  }

  lemma InitialOk()
    ensures ModelOk(INITIAL)
  {
  }

  /** The revision never goes back, and while it stands still so does the content. */
  ghost predicate ContentFollows(s: State, t: State) {
    && s.modelRevision <= t.modelRevision
    && (s.modelRevision == t.modelRevision ==> t.records == s.records && t.support == s.support)
  }

  lemma AppliedFollows(s: State, source: Source)
    requires ModelOk(s)
    ensures ContentFollows(s, Applied(s, source))
  {
    if NextSupport(s.support, source) != s.support { FlipChangesRecords(s, source); }
    hide AssignKeys, NextSupport, KeysCover, Normalized, KeysIssued, KeysApart, ContentOk;
  }

  lemma NextFollows(s: State, step: Step, t: State)
    requires ModelOk(s) && Next(s, step, t)
    ensures ContentFollows(s, t)
  {
    hide ModelOk, KeysIssued, Applied, KeyingAfter;
    if step.Resume? && Applies(s) { AppliedFollows(s, s.reconciliation.source); }
  }

  lemma {:induction false} RunFollows(states: seq<State>, steps: seq<Step>, i: nat, j: nat)
    requires IsRun(states, steps) && i <= j < |states|
    ensures ContentFollows(states[i], states[j])
    decreases j - i
  {
    hide Next, ModelOk;
    if i < j {
      RunFollows(states, steps, i, j - 1);
      RunKeepsOk(states, steps, j - 1);
      NextFollows(states[j - 1], steps[j - 1], states[j]);
    }
  }

  /** Within one worker epoch, snapshots of equal revision have equal records and equal support flags. */
  lemma RevisionDeterminesContent(states: seq<State>, steps: seq<Step>, i: nat, j: nat)
    requires IsRun(states, steps) && i < |states| && j < |states| && states[i].modelRevision == states[j].modelRevision
    ensures states[i].records == states[j].records && states[i].support == states[j].support
  {
    if i <= j { RunFollows(states, steps, i, j); } else { RunFollows(states, steps, j, i); }
  }

  /** The revision moves by one with every change of the records, and only then. */
  lemma RevisionCountsChanges(states: seq<State>, steps: seq<Step>, i: nat)
    requires IsRun(states, steps) && i < |steps|
    ensures states[i + 1].modelRevision ==
      if states[i + 1].records == states[i].records then states[i].modelRevision else states[i].modelRevision + 1
  {
    assert Next(states[i], steps[i], states[i + 1]);
    hide IsRun, AssignKeys, NextSupport, Normalized, KeyingAfter, KeysIssued;
  }

  /** A feature counts as supported exactly if some read applied so far showed its property on some object. */
  lemma {:induction false} SupportedIffSeen(states: seq<State>, steps: seq<Step>, j: nat)
    requires IsRun(states, steps) && j < |states|
    ensures states[j].support.frozenTabs <==> exists k :: 0 <= k < j && ShowsFrozen(states[k], steps[k])
    ensures states[j].support.sharedTabGroups <==> exists k :: 0 <= k < j && ShowsShared(states[k], steps[k])
  {
    hide *;
    if j == 0 {
      StartsAt(states, steps);
    } else {
      SupportedIffSeen(states, steps, j - 1);
      StepOf(states, steps, j - 1);
      SupportStep(states[j - 1], steps[j - 1], states[j]);
    }
  }

  lemma StartsAt(states: seq<State>, steps: seq<Step>)
    requires IsRun(states, steps)
    ensures states[0] == INITIAL && INITIAL.support == Support(false, false)
  {
    hide Next;
  }

  lemma StepOf(states: seq<State>, steps: seq<Step>, i: nat)
    requires IsRun(states, steps) && i + 1 < |states|
    ensures i < |steps| && Next(states[i], steps[i], states[i + 1])
  {
    hide Next;
  }

  /** The step applies a read with a tab that has the property `frozen`. */
  predicate ShowsFrozen(s: State, step: Step) {
    step.Resume? && Applies(s) && exists t :: t in s.reconciliation.source.tabs && t.frozen.Some?
  }

  predicate ShowsShared(s: State, step: Step) {
    step.Resume? && Applies(s) && exists g :: g in s.reconciliation.source.groups && g.shared.Some?
  }

  lemma SupportStep(s: State, step: Step, t: State)
    requires Next(s, step, t)
    ensures t.support.frozenTabs <==> s.support.frozenTabs || ShowsFrozen(s, step)
    ensures t.support.sharedTabGroups <==> s.support.sharedTabGroups || ShowsShared(s, step)
  {
    hide KeyingAfter, AssignKeys, Normalized, KeysIssued;
  }

  /** How a snapshot reaches the broker: as a baseline, with the time of the call as its only other ingredient. */
  ghost predicate Decodes(decode: (Snapshot, string) -> B.Baseline) {
    && (forall snapshot: Snapshot, at: string {:trigger decode(snapshot, at)} :: decode(snapshot, at).modelRevision == snapshot.modelRevision)
    && (forall snapshot: Snapshot, at: string, later: string {:trigger decode(snapshot, at), decode(snapshot, later)} ::
          decode(snapshot, at).(capturedAt := "") == decode(snapshot, later).(capturedAt := ""))
  }

  /** So the broker's check that equal revisions carry equal models never turns this extension away. */
  lemma FingerprintsAgree(states: seq<State>, steps: seq<Step>, i: nat, j: nat, decode: (Snapshot, string) -> B.Baseline, at: string, later: string)
    requires IsRun(states, steps) && i < |states| && j < |states| && states[i].records.Some? && states[j].records.Some? && Decodes(decode)
    requires var first := decode(Snapshot(states[i].modelRevision, states[i].support, states[i].records.value), at);
      var second := decode(Snapshot(states[j].modelRevision, states[j].support, states[j].records.value), later);
      first.modelRevision == second.modelRevision
    ensures var first := decode(Snapshot(states[i].modelRevision, states[i].support, states[i].records.value), at);
      var second := decode(Snapshot(states[j].modelRevision, states[j].support, states[j].records.value), later);
      R.Fingerprint(first) == R.Fingerprint(second)
  {
    RevisionDeterminesContent(states, steps, i, j);
    hide IsRun;
  }

  // ---------------------------------------------------------------- the keys in the records

  /** A key field resolves: it names the record of the object Chrome named, or is absent if there is none. */
  ghost predicate NamesWindow(r: Records, key: Option<Name>, id: int) {
    && (key.Some? ==> exists w :: w in r.windows && w.id == id && w.key == key.value)
    && (key.None? ==> forall w :: w in r.windows ==> w.id != id)
  }

  ghost predicate NamesGroup(r: Records, key: Option<Name>, id: int) {
    && (key.Some? ==> exists g :: g in r.groups && g.id == id && g.key == key.value)
    && (key.None? ==> forall g :: g in r.groups ==> g.id != id)
  }

  ghost predicate NamesTab(r: Records, key: Option<Name>, id: int) {
    && (key.Some? ==> exists t :: t in r.tabs && t.id == id && t.key == key.value)
    && (key.None? ==> forall t :: t in r.tabs ==> t.id != id)
  }

  /** After an applied read the tables hold exactly the ids reported. */
  lemma TablesMatch(k: Keying, source: Source, kind: Kind, id: int)
    requires KeysIssued(k.keys, k.issued)
    ensures id in AssignKeys(k, source).keys.Of(kind) <==> id in IdsOf(source, kind)
  {
    AssignKeysAssigns(k, source);
    hide AssignKeys, AssignedAll, IdsOf;
    var low, high := KindOf(k, source, AssignKeys(k, source), kind);
  }

  lemma WindowResolves(k: Keying, source: Source, support: Support, id: int)
    requires KeysIssued(k.keys, k.issued) && KeysCover(AssignKeys(k, source).keys, source)
    ensures var keys := AssignKeys(k, source).keys; NamesWindow(Normalized(keys, support, source), KeyOf(keys.windows, id), id)
  {
    var keys := AssignKeys(k, source).keys;
    var r := Normalized(keys, support, source);
    TablesMatch(k, source, Windows, id);
    hide AssignKeys;
    if id in keys.windows {
      var i :| 0 <= i < |source.windows| && WindowIds(source)[i] == id;
      assert r.windows[i] in r.windows && r.windows[i].id == id && r.windows[i].key == keys.windows[id];
    } else {
      forall w | w in r.windows ensures w.id != id {
        var i :| 0 <= i < |r.windows| && r.windows[i] == w;
        assert WindowIds(source)[i] == w.id;
      }
    }
  }

  lemma GroupResolves(k: Keying, source: Source, support: Support, id: int)
    requires KeysIssued(k.keys, k.issued) && KeysCover(AssignKeys(k, source).keys, source)
    ensures var keys := AssignKeys(k, source).keys; NamesGroup(Normalized(keys, support, source), KeyOf(keys.groups, id), id)
  {
    var keys := AssignKeys(k, source).keys;
    var r := Normalized(keys, support, source);
    TablesMatch(k, source, Groups, id);
    hide AssignKeys;
    if id in keys.groups {
      var i :| 0 <= i < |source.groups| && GroupIds(source)[i] == id;
      assert r.groups[i] in r.groups && r.groups[i].id == id && r.groups[i].key == keys.groups[id];
    } else {
      forall g | g in r.groups ensures g.id != id {
        var i :| 0 <= i < |r.groups| && r.groups[i] == g;
        assert GroupIds(source)[i] == g.id;
      }
    }
  }

  lemma TabResolves(k: Keying, source: Source, support: Support, id: int)
    requires KeysIssued(k.keys, k.issued) && KeysCover(AssignKeys(k, source).keys, source)
    ensures var keys := AssignKeys(k, source).keys; NamesTab(Normalized(keys, support, source), KeyOf(keys.tabs, id), id)
  {
    var keys := AssignKeys(k, source).keys;
    var r := Normalized(keys, support, source);
    TablesMatch(k, source, Tabs, id);
    hide AssignKeys;
    if id in keys.tabs {
      var i :| 0 <= i < |source.tabs| && TabIds(source)[i] == id;
      assert r.tabs[i] in r.tabs && r.tabs[i].id == id && r.tabs[i].key == keys.tabs[id];
    } else {
      forall t | t in r.tabs ensures t.id != id {
        var i :| 0 <= i < |r.tabs| && r.tabs[i] == t;
        assert TabIds(source)[i] == t.id;
      }
    }
  }

  /** Every applied read gives records in Chrome's order whose keys lead to the objects Chrome named. */
  lemma RecordsResolve(s: State, source: Source, i: nat)
    requires ModelOk(s) && i < |source.tabs|
    ensures var r, t := Applied(s, source).records.value, source.tabs[i];
      && |r.windows| == |source.windows| && |r.groups| == |source.groups| && |r.tabs| == |source.tabs|
      && r.tabs[i].id == t.id && NamesTab(r, Some(r.tabs[i].key), t.id) && NamesWindow(r, r.tabs[i].windowKey, t.windowId)
      && (t.groupId.Some? && t.groupId.value != -1 ==> NamesGroup(r, r.tabs[i].groupKey, t.groupId.value))
      && (!(t.groupId.Some? && t.groupId.value != -1) ==> r.tabs[i].groupKey.None?)
      && (t.openerTabId.Some? ==> NamesTab(r, r.tabs[i].openerKey, t.openerTabId.value))
      && (t.openerTabId.None? ==> r.tabs[i].openerKey.None?)
      && r.tabs[i].rest == t.rest
      && r.tabs[i].frozen == (if Applied(s, source).support.frozenTabs then Some(t.frozen == Some(true)) else None)
  {
    var k, support, t := s.keying, NextSupport(s.support, source), source.tabs[i];
    AssignedCovers(k, source);
    WindowResolves(k, source, support, t.windowId);
    TabResolves(k, source, support, t.id);
    if t.groupId.Some? { GroupResolves(k, source, support, t.groupId.value); }
    if t.openerTabId.Some? { TabResolves(k, source, support, t.openerTabId.value); }
    hide AssignKeys, NextSupport, NamesWindow, NamesGroup, NamesTab, KeysApart, ContentOk;
  }

  lemma GroupRecordsResolve(s: State, source: Source, i: nat)
    requires ModelOk(s) && i < |source.groups|
    ensures var r, g := Applied(s, source).records.value, source.groups[i];
      && |r.groups| == |source.groups| && r.groups[i].id == g.id && NamesGroup(r, Some(r.groups[i].key), g.id)
      && NamesWindow(r, r.groups[i].windowKey, g.windowId)
      && r.groups[i].collapsed == g.collapsed && r.groups[i].rest == g.rest
      && r.groups[i].shared == (if Applied(s, source).support.sharedTabGroups then Some(g.shared == Some(true)) else None)
  {
    var k, support, g := s.keying, NextSupport(s.support, source), source.groups[i];
    AssignedCovers(k, source);
    WindowResolves(k, source, support, g.windowId);
    GroupResolves(k, source, support, g.id);
    hide AssignKeys, NextSupport, NamesWindow, NamesGroup, KeysApart, ContentOk;
  }

  lemma WindowRecordsResolve(s: State, source: Source, i: nat)
    requires ModelOk(s) && i < |source.windows|
    ensures var r, w := Applied(s, source).records.value, source.windows[i];
      && |r.windows| == |source.windows| && r.windows[i].id == w.id && NamesWindow(r, Some(r.windows[i].key), w.id)
      && r.windows[i].focused == w.focused && r.windows[i].rest == w.rest
  {
    var k, support, w := s.keying, NextSupport(s.support, source), source.windows[i];
    AssignedCovers(k, source);
    WindowResolves(k, source, support, w.id);
    hide AssignKeys, NextSupport, NamesWindow, KeysApart, ContentOk;
  }

  // ---------------------------------------------------------------- incarnation keys

  /** Later keys are earlier ones of the same object, or were drawn since. */
  ghost predicate KeysDescend(k: Keying, n: Keying) {
    && k.issued <= n.issued
    && forall kind: Kind, id :: id in n.keys.Of(kind) ==>
         (id in k.keys.Of(kind) && n.keys.Of(kind)[id] == k.keys.Of(kind)[id]) || n.keys.Of(kind)[id] >= k.issued
  }

  lemma AssignedDescends(k: Keying, source: Source)
    requires KeysIssued(k.keys, k.issued)
    ensures KeysDescend(k, AssignKeys(k, source))
  {
    AssignKeysAssigns(k, source);
    var n := AssignKeys(k, source);
    hide AssignKeys, AssignedAll;
    forall kind: Kind, id | id in n.keys.Of(kind)
      ensures (id in k.keys.Of(kind) && n.keys.Of(kind)[id] == k.keys.Of(kind)[id]) || n.keys.Of(kind)[id] >= k.issued
    {
      var low, high := KindOf(k, source, n, kind);
      NameOrigin(k.keys.Of(kind), k.forceNewIds.Of(kind), IdsOf(source, kind), n.keys.Of(kind), n.forceNewIds.Of(kind), low, high, id);
    }
  }

  lemma EventDescends(k: Keying, event: BrowserEvent)
    ensures KeysDescend(k, KeyingAfter(k, event))
  {
    var n := KeyingAfter(k, event);
    forall kind: Kind, id | id in n.keys.Of(kind)
      ensures id in k.keys.Of(kind) && n.keys.Of(kind)[id] == k.keys.Of(kind)[id]
    {
      EventOnlyDrops(k, event, kind, id);
    }
  }

  /** What a step does to the keying: an event's part, an assignment, or nothing. */
  lemma KeyingStep(s: State, step: Step, t: State)
    requires Next(s, step, t)
    ensures t.keying ==
      if step.Event? then KeyingAfter(s.keying, step.event)
      else if step.Resume? && Applies(s) then AssignKeys(s.keying, s.reconciliation.source)
      else s.keying
  {
    hide AssignKeys, KeyingAfter, NextSupport;
  }

  lemma NextDescends(s: State, step: Step, t: State)
    requires ModelOk(s) && Next(s, step, t)
    ensures KeysDescend(s.keying, t.keying)
  {
    KeyingStep(s, step, t);
    hide Next, AssignKeys, KeyingAfter, KeysApart, ContentOk, KeysIssued;
    if step.Event? { EventDescends(s.keying, step.event); }
    else if step.Resume? && Applies(s) { AssignedDescends(s.keying, s.reconciliation.source); }
  }

  lemma {:induction false} RunDescends(states: seq<State>, steps: seq<Step>, i: nat, j: nat)
    requires IsRun(states, steps) && i <= j < |states|
    ensures KeysDescend(states[i].keying, states[j].keying)
    decreases j - i
  {
    hide Next, ModelOk;
    if i < j {
      RunDescends(states, steps, i, j - 1);
      RunKeepsOk(states, steps, j - 1);
      NextDescends(states[j - 1], steps[j - 1], states[j]);
    }
  }

  /** Over a whole epoch a key names one object: one kind, one Chrome id. */
  lemma KeyNamesOneObject(states: seq<State>, steps: seq<Step>, i: nat, j: nat, kind: Kind, id: int, other: Kind, otherId: int)
    requires IsRun(states, steps) && i <= j < |states|
    requires id in states[i].keying.keys.Of(kind) && otherId in states[j].keying.keys.Of(other)
    requires states[i].keying.keys.Of(kind)[id] == states[j].keying.keys.Of(other)[otherId]
    ensures kind == other && id == otherId
  {
    RunKeepsOk(states, steps, i);
    RunDescends(states, steps, i, j);
    hide IsRun, ContentOk;
  }

  /** An id that is forced to get a new key has no key. */
  ghost predicate ForcedHaveNone(k: Keying) {
    forall kind: Kind, id :: id in k.forceNewIds.Of(kind) ==> id !in k.keys.Of(kind)
  }

  lemma ForcedAfterEvent(k: Keying, event: BrowserEvent)
    requires ForcedHaveNone(k)
    ensures ForcedHaveNone(KeyingAfter(k, event))
  {
    var n := KeyingAfter(k, event);
    forall kind: Kind, id | id in n.forceNewIds.Of(kind) ensures id !in n.keys.Of(kind) {
      if id in k.forceNewIds.Of(kind) {
        if id in n.keys.Of(kind) { EventOnlyDrops(k, event, kind, id); }
      } else {
        NewlyForced(k, event, kind, id);
      }
    }
  }

  lemma NewlyForced(k: Keying, event: BrowserEvent, kind: Kind, id: int)
    requires id in KeyingAfter(k, event).forceNewIds.Of(kind) && id !in k.forceNewIds.Of(kind)
    ensures id !in KeyingAfter(k, event).keys.Of(kind)
  {
  }

  lemma ForcedAfterRead(k: Keying, source: Source)
    requires KeysIssued(k.keys, k.issued)
    ensures ForcedHaveNone(AssignKeys(k, source))
  {
    AssignKeysAssigns(k, source);
    var n := AssignKeys(k, source);
    hide AssignKeys, AssignedAll, IdsOf;
    forall kind: Kind, id | id in n.forceNewIds.Of(kind) ensures id !in n.keys.Of(kind) {
      var low, high := KindOf(k, source, n, kind);
    }
  }

  /** In every reachable state a forced id has no key: dropping the key when the event comes is what ends an
      incarnation, and the forced ids never make a difference. */
  lemma {:induction false} ForcedIdsHaveNoKey(states: seq<State>, steps: seq<Step>, i: nat)
    requires IsRun(states, steps) && i < |states|
    ensures ForcedHaveNone(states[i].keying)
  {
    if i > 0 {
      ForcedIdsHaveNoKey(states, steps, i - 1);
      RunKeepsOk(states, steps, i - 1);
      assert Next(states[i - 1], steps[i - 1], states[i]);
      KeyingStep(states[i - 1], steps[i - 1], states[i]);
      ForcedStep(states[i - 1], steps[i - 1]);
      hide IsRun, Next, AssignKeys, KeyingAfter, ForcedHaveNone, ModelOk;
    }
  }

  lemma ForcedStep(s: State, step: Step)
    requires ModelOk(s) && ForcedHaveNone(s.keying)
    ensures step.Event? ==> ForcedHaveNone(KeyingAfter(s.keying, step.event))
    ensures step.Resume? && Applies(s) ==> ForcedHaveNone(AssignKeys(s.keying, s.reconciliation.source))
  {
    hide AssignKeys, KeyingAfter, KeysApart, ContentOk;
    if step.Event? { ForcedAfterEvent(s.keying, step.event); }
    if step.Resume? && Applies(s) { ForcedAfterRead(s.keying, s.reconciliation.source); }
  }

  /** An event that ends, or begins, an incarnation of the object. */
  predicate Names(step: Step, kind: Kind, id: int) {
    step.Event? &&
    match step.event
    case Created(k, named) => k == kind && named == Some(id)
    case Removed(k, named) => k == kind && named == Some(id)
    case Replaced(added, removed) => kind == Tabs && (id == added || id == removed)
    case Changed => false
  }

  /** The object has the given key and will keep it at the next read. */
  predicate Keeps(k: Keying, kind: Kind, id: int, key: Name) {
    id in k.keys.Of(kind) && k.keys.Of(kind)[id] == key && id !in k.forceNewIds.Of(kind)
  }

  lemma EventKeeps(k: Keying, event: BrowserEvent, kind: Kind, id: int, key: Name)
    ensures Keeps(KeyingAfter(k, event), kind, id, key) <==> Keeps(k, kind, id, key) && !Names(Step.Event(event), kind, id)
    ensures HasOnly(k, kind, id, key) ==> HasOnly(KeyingAfter(k, event), kind, id, key)
  {
  }

  /** The object has no other key than the given one. */
  predicate HasOnly(k: Keying, kind: Kind, id: int, key: Name) {
    id in k.keys.Of(kind) ==> k.keys.Of(kind)[id] == key
  }

  predicate IsApply(s: State, step: Step) { step.Resume? && Applies(s) }

  /** Where an incarnation of the object ends: an event names it, or an applied read does not show it. */
  predicate Breaks(s: State, step: Step, kind: Kind, id: int) {
    Names(step, kind, id) || (IsApply(s, step) && id !in IdsOf(s.reconciliation.source, kind))
  }

  /** An applied read gives each object present its kept key, or a name never used before. */
  lemma ApplyGives(s: State, step: Step, t: State, kind: Kind, id: int)
    requires ModelOk(s) && Next(s, step, t) && IsApply(s, step) && id in IdsOf(s.reconciliation.source, kind)
    ensures id in t.keying.keys.Of(kind) && id !in t.keying.forceNewIds.Of(kind)
    ensures id in s.keying.keys.Of(kind) && id !in s.keying.forceNewIds.Of(kind) ==>
      t.keying.keys.Of(kind)[id] == s.keying.keys.Of(kind)[id]
    ensures !(id in s.keying.keys.Of(kind) && id !in s.keying.forceNewIds.Of(kind)) ==>
      s.keying.issued <= t.keying.keys.Of(kind)[id] < t.keying.issued
  {
    KeyingStep(s, step, t);
    AssignKeysAssigns(s.keying, s.reconciliation.source);
    hide Next, AssignKeys, IdsOf, ContentOk, AssignedAll;
    var low, high := KindOf(s.keying, s.reconciliation.source, t.keying, kind);
  }

  lemma ApplyDrops(s: State, step: Step, t: State, kind: Kind, id: int)
    requires ModelOk(s) && Next(s, step, t) && IsApply(s, step) && id !in IdsOf(s.reconciliation.source, kind)
    ensures id !in t.keying.keys.Of(kind)
  {
    KeyingStep(s, step, t);
    AssignKeysAssigns(s.keying, s.reconciliation.source);
    hide Next, AssignKeys, IdsOf, ContentOk, AssignedAll;
    var low, high := KindOf(s.keying, s.reconciliation.source, t.keying, kind);
  }

  lemma QuietStep(s: State, step: Step, t: State)
    requires Next(s, step, t) && !IsApply(s, step)
    ensures t.keying == if step.Event? then KeyingAfter(s.keying, step.event) else s.keying
  {
    KeyingStep(s, step, t);
    hide Next, KeyingAfter;
  }

  /** One step: the object goes on keeping its key exactly if the step does not break its incarnation. */
  lemma StepKeeps(s: State, step: Step, t: State, kind: Kind, id: int, key: Name)
    requires ModelOk(s) && Next(s, step, t) && key < s.keying.issued
    ensures Keeps(t.keying, kind, id, key) <==> Keeps(s.keying, kind, id, key) && !Breaks(s, step, kind, id)
    ensures s.keying.issued <= t.keying.issued
  {
    NextDescends(s, step, t);
    if IsApply(s, step) {
      hide Next, ModelOk;
      if id in IdsOf(s.reconciliation.source, kind) { ApplyGives(s, step, t, kind, id); } else { ApplyDrops(s, step, t, kind, id); }
    } else {
      QuietStep(s, step, t);
      hide Next, ModelOk, KeyingAfter, Names, Keeps;
      if step.Event? { EventKeeps(s.keying, step.event, kind, id, key); }
      NoEventNamesNothing(step, kind, id);
    }
  }

  lemma NoEventNamesNothing(step: Step, kind: Kind, id: int)
    ensures !step.Event? ==> !Names(step, kind, id)
  {
  }

  ghost predicate Unbroken(states: seq<State>, steps: seq<Step>, i: nat, j: nat, kind: Kind, id: int)
    requires j <= |steps| && j <= |states|
  {
    forall k :: i <= k < j ==> !Breaks(states[k], steps[k], kind, id)
  }

  lemma UnbrokenPush(states: seq<State>, steps: seq<Step>, i: nat, j: nat, kind: Kind, id: int)
    requires i <= j < |steps| && j < |states|
    ensures Unbroken(states, steps, i, j + 1, kind, id) <==> Unbroken(states, steps, i, j, kind, id) && !Breaks(states[j], steps[j], kind, id)
  {
    hide Breaks;
  }

  /** The object keeps its key exactly as long as nothing breaks its incarnation. */
  lemma {:induction false} KeepsUntilBroken(states: seq<State>, steps: seq<Step>, i: nat, j: nat, kind: Kind, id: int, key: Name)
    requires IsRun(states, steps) && i <= j < |states| && Keeps(states[i].keying, kind, id, key) && key < states[i].keying.issued
    ensures Keeps(states[j].keying, kind, id, key) <==> Unbroken(states, steps, i, j, kind, id)
    ensures states[i].keying.issued <= states[j].keying.issued
    decreases j - i
  {
    hide Next, Keeps, Unbroken, Breaks, ModelOk;
    if i < j {
      KeepsUntilBroken(states, steps, i, j - 1, kind, id, key);
      RunKeepsOk(states, steps, j - 1);
      StepKeeps(states[j - 1], steps[j - 1], states[j], kind, id, key);
      UnbrokenPush(states, steps, i, j - 1, kind, id);
    } else {
      NothingBroken(states, steps, i, kind, id);
    }
  }

  lemma NothingBroken(states: seq<State>, steps: seq<Step>, i: nat, kind: Kind, id: int)
    requires i <= |steps| && i <= |states|
    ensures Unbroken(states, steps, i, i, kind, id)
  {
  }

  /** Whatever key the object would keep was drawn at or after `first`. */
  predicate DrawnSince(k: Keying, kind: Kind, id: int, first: Name) {
    id in k.keys.Of(kind) && id !in k.forceNewIds.Of(kind) ==> k.keys.Of(kind)[id] >= first
  }

  lemma EventDrawn(k: Keying, event: BrowserEvent, kind: Kind, id: int, first: Name)
    requires DrawnSince(k, kind, id, first)
    ensures DrawnSince(KeyingAfter(k, event), kind, id, first)
  {
    if id in KeyingAfter(k, event).keys.Of(kind) { EventOnlyDrops(k, event, kind, id); }
  }

  lemma BreakForgets(s: State, step: Step, t: State, kind: Kind, id: int)
    requires ModelOk(s) && Next(s, step, t) && Breaks(s, step, kind, id)
    ensures DrawnSince(t.keying, kind, id, t.keying.issued)
  {
    if IsApply(s, step) {
      NoEventNamesNothing(step, kind, id);
      hide Next, ModelOk, Names;
      ApplyDrops(s, step, t, kind, id);
    } else {
      QuietStep(s, step, t);
      NoEventNamesNothing(step, kind, id);
      hide Next, ModelOk;
      NamedForgets(s.keying, step, kind, id);
    }
  }

  lemma NamedForgets(k: Keying, step: Step, kind: Kind, id: int)
    requires step.Event? && Names(step, kind, id)
    ensures id !in KeyingAfter(k, step.event).keys.Of(kind)
  {
  }

  lemma StepDrawn(s: State, step: Step, t: State, kind: Kind, id: int, first: Name)
    requires ModelOk(s) && Next(s, step, t) && DrawnSince(s.keying, kind, id, first) && first <= s.keying.issued
    ensures DrawnSince(t.keying, kind, id, first) && first <= t.keying.issued
  {
    NextDescends(s, step, t);
    if IsApply(s, step) {
      hide Next, ModelOk;
      if id in IdsOf(s.reconciliation.source, kind) { ApplyGives(s, step, t, kind, id); } else { ApplyDrops(s, step, t, kind, id); }
    } else {
      QuietStep(s, step, t);
      hide Next, ModelOk, KeyingAfter, DrawnSince;
      if step.Event? { EventDrawn(s.keying, step.event, kind, id, first); }
    }
  }

  lemma {:induction false} DrawnSinceBreak(states: seq<State>, steps: seq<Step>, k: nat, j: nat, kind: Kind, id: int)
    requires IsRun(states, steps) && k < j < |states| && Breaks(states[k], steps[k], kind, id)
    ensures DrawnSince(states[j].keying, kind, id, states[k + 1].keying.issued) && states[k + 1].keying.issued <= states[j].keying.issued
    decreases j - k
  {
    hide Next, ModelOk, DrawnSince, Breaks;
    RunKeepsOk(states, steps, j - 1);
    if k + 1 == j {
      BreakForgets(states[k], steps[k], states[j], kind, id);
    } else {
      DrawnSinceBreak(states, steps, k, j - 1, kind, id);
      StepDrawn(states[j - 1], steps[j - 1], states[j], kind, id, states[k + 1].keying.issued);
    }
  }

  /** Of any two applied reads that show an object, the second finds it under the same key if and only if no
      create, remove or replace event named it and no applied read missed it in between. */
  lemma KeyKeptIffUnbroken(states: seq<State>, steps: seq<Step>, i: nat, j: nat, kind: Kind, id: int)
    requires IsRun(states, steps) && i < j < |steps| && IsApply(states[i], steps[i]) && IsApply(states[j], steps[j])
    requires id in IdsOf(states[i].reconciliation.source, kind) && id in IdsOf(states[j].reconciliation.source, kind)
    ensures id in states[i + 1].keying.keys.Of(kind) && id in states[j + 1].keying.keys.Of(kind)
    ensures states[j + 1].keying.keys.Of(kind)[id] == states[i + 1].keying.keys.Of(kind)[id]
      <==> Unbroken(states, steps, i + 1, j, kind, id)
  {
    hide Next, ModelOk, IdsOf, Breaks, Unbroken;
    RunKeepsOk(states, steps, i);
    RunKeepsOk(states, steps, i + 1);
    RunKeepsOk(states, steps, j);
    ApplyGives(states[i], steps[i], states[i + 1], kind, id);
    ApplyGives(states[j], steps[j], states[j + 1], kind, id);
    var key := states[i + 1].keying.keys.Of(kind)[id];
    IssuedBelow(states[i + 1], kind, id);
    KeepsUntilBroken(states, steps, i + 1, j, kind, id, key);
  }

  /** After an incarnation ended, the object is found under a key that had never been drawn before. */
  lemma KeyFreshAfterBreak(states: seq<State>, steps: seq<Step>, k: nat, j: nat, kind: Kind, id: int)
    requires IsRun(states, steps) && k < j < |steps| && Breaks(states[k], steps[k], kind, id)
    requires IsApply(states[j], steps[j]) && id in IdsOf(states[j].reconciliation.source, kind)
    ensures id in states[j + 1].keying.keys.Of(kind) && states[j + 1].keying.keys.Of(kind)[id] >= states[k + 1].keying.issued
    ensures forall m: nat, other: Kind, otherId: int :: m <= k && otherId in states[m].keying.keys.Of(other) ==>
      states[m].keying.keys.Of(other)[otherId] != states[j + 1].keying.keys.Of(kind)[id]
  {
    hide Next, ModelOk, IdsOf, Breaks, KeysDescend;
    RunKeepsOk(states, steps, j);
    DrawnSinceBreak(states, steps, k, j, kind, id);
    ApplyGives(states[j], steps[j], states[j + 1], kind, id);
    forall m: nat, other: Kind, otherId: int | m <= k && otherId in states[m].keying.keys.Of(other)
      ensures states[m].keying.keys.Of(other)[otherId] < states[k + 1].keying.issued
    {
      RunKeepsOk(states, steps, m);
      IssuedBelow(states[m], other, otherId);
      IssuedGrows(states, steps, m, k + 1);
    }
  }

  lemma IssuedGrows(states: seq<State>, steps: seq<Step>, i: nat, j: nat)
    requires IsRun(states, steps) && i <= j < |states|
    ensures states[i].keying.issued <= states[j].keying.issued
  {
    RunDescends(states, steps, i, j);
    hide IsRun;
  }

  lemma IssuedBelow(s: State, kind: Kind, id: int)
    requires ModelOk(s) && id in s.keying.keys.Of(kind)
    ensures s.keying.keys.Of(kind)[id] < s.keying.issued
  {
    hide KeysApart, ContentOk;
  }

  // ---------------------------------------------------------------- guarded reads

  predicate SameRead(s: State, generation: nat) {
    !s.reconciliation.Idle? && s.reconciliation.generation == generation
  }

  /** Generations count events. */
  lemma {:induction false} GenerationsCount(states: seq<State>, steps: seq<Step>, i: nat, j: nat)
    requires IsRun(states, steps) && i <= j < |states|
    ensures states[i].eventGeneration <= states[j].eventGeneration
    ensures states[i].eventGeneration == states[j].eventGeneration <==> forall k :: i <= k < j ==> !steps[k].Event?
    decreases j - i
  {
    if i < j {
      GenerationsCount(states, steps, i, j - 1);
      assert Next(states[j - 1], steps[j - 1], states[j]);
      hide KeyingAfter, AssignKeys, NextSupport, KeysIssued, IsRun;
    }
  }

  /** A suspended read began when its generation was the current one. */
  lemma {:induction false} ReadStarted(states: seq<State>, steps: seq<Step>, j: nat) returns (i: nat)
    requires IsRun(states, steps) && j < |states| && !states[j].reconciliation.Idle?
    ensures i <= j && states[i].reconciliation == Reading(states[j].reconciliation.generation)
    ensures states[i].eventGeneration == states[j].reconciliation.generation
    ensures forall k :: i <= k <= j ==> SameRead(states[k], states[j].reconciliation.generation)
  {
    i := j;
    if j > 0 {
      var s, t := states[j - 1], states[j];
      assert Next(s, steps[j - 1], t);
      hide KeyingAfter, Applied, KeysIssued, IsRun;
      if SameRead(s, t.reconciliation.generation) && !(t.reconciliation.Reading? && t.reconciliation.generation == t.eventGeneration) {
        i := ReadStarted(states, steps, j - 1);
      } else {
        assert t.reconciliation == Reading(t.eventGeneration);
      }
    }
  }

  /** A read is applied exactly if no event arrived between its start and the end of the drain. */
  lemma AppliedReadIsQuiet(states: seq<State>, steps: seq<Step>, j: nat) returns (i: nat)
    requires IsRun(states, steps) && j < |states| && states[j].reconciliation.Draining?
    ensures i <= j && states[i].reconciliation == Reading(states[j].reconciliation.generation)
    ensures forall k :: i <= k <= j ==> SameRead(states[k], states[j].reconciliation.generation)
    ensures Applies(states[j]) <==> forall k :: i <= k < j ==> !steps[k].Event?
  {
    i := ReadStarted(states, steps, j);
    GenerationsCount(states, steps, i, j);
    hide IsRun;
  }

  /** When the loop has ended by itself, the model reflects a read of the current generation. */
  lemma SettledIsCurrent(states: seq<State>, steps: seq<Step>, j: nat)
    requires IsRun(states, steps) && 0 < j < |states| && steps[j - 1].Resume? && states[j].reconciliation.Idle?
    ensures states[j].records.Some? && states[j].reconciledGeneration == states[j].eventGeneration && IsApply(states[j - 1], steps[j - 1])
  {
    assert Next(states[j - 1], steps[j - 1], states[j]);
    RunKeepsOk(states, steps, j - 1);
    StaleUntilApplied(states, steps, j - 1);
    hide Applied, IsRun, KeysIssued;
  }

  /** While a read is under way it is needed: its generation was not reconciled yet, or there is no model. */
  lemma {:induction false} StaleUntilApplied(states: seq<State>, steps: seq<Step>, j: nat)
    requires IsRun(states, steps) && j < |states|
    ensures var s := states[j];
      !s.reconciliation.Idle? ==> s.records.None? || s.reconciledGeneration < s.reconciliation.generation
  {
    if j > 0 {
      StaleUntilApplied(states, steps, j - 1);
      RunKeepsOk(states, steps, j - 1);
      assert Next(states[j - 1], steps[j - 1], states[j]);
      hide Applied, KeyingAfter, IsRun, KeysIssued, KeysApart, ContentOk;
    }
  }

  // ---------------------------------------------------------------- reads are started, and snapshots are fresh

  /** The model reflects a read of the current generation. */
  predicate Current(s: State) { s.records.Some? && s.reconciledGeneration == s.eventGeneration }

  /** After every event a read is under way, and after every demand, unless the model is current. */
  lemma ReadIsStarted(states: seq<State>, steps: seq<Step>, i: nat)
    requires IsRun(states, steps) && i < |steps|
    ensures steps[i].Event? ==> !states[i + 1].reconciliation.Idle?
    ensures steps[i].Demand? ==> !states[i + 1].reconciliation.Idle? || Current(states[i + 1])
    ensures steps[i].Event? ==> states[i + 1].eventGeneration == states[i].eventGeneration + 1
  {
    assert Next(states[i], steps[i], states[i + 1]);
    RunKeepsOk(states, steps, i);
    hide IsRun, KeyingAfter, Applied, KeysIssued, KeysApart, ContentOk;
  }

  /** A read failed, and nobody has asked for anything since. */
  ghost predicate FailedUnasked(steps: seq<Step>, j: nat)
    requires j <= |steps|
  {
    exists m :: 0 <= m < j && steps[m].ReadFailed? && forall k :: m < k < j ==> !steps[k].Event? && !steps[k].Demand?
  }

  /** When no read is under way the model is current, or a read failed and nobody has asked since. */
  lemma {:induction false} IdleIsCurrent(states: seq<State>, steps: seq<Step>, j: nat)
    requires IsRun(states, steps) && j < |states|
    ensures states[j].reconciliation.Idle? ==> Current(states[j]) || FailedUnasked(steps, j)
  {
    if j > 0 && states[j].reconciliation.Idle? {
      IdleIsCurrent(states, steps, j - 1);
      ReadIsStarted(states, steps, j - 1);
      assert Next(states[j - 1], steps[j - 1], states[j]);
      if steps[j - 1].Resume? { SettledIsCurrent(states, steps, j); }
      if FailedUnasked(steps, j - 1) && !steps[j - 1].Event? && !steps[j - 1].Demand? { StillUnasked(steps, j - 1); }
      hide IsRun, KeyingAfter, Applied, KeysIssued, FailedUnasked;
      if steps[j - 1].ReadFailed? { JustFailed(steps, j - 1); }
    }
  }

  lemma StillUnasked(steps: seq<Step>, j: nat)
    requires j < |steps| && FailedUnasked(steps, j) && !steps[j].Event? && !steps[j].Demand?
    ensures FailedUnasked(steps, j + 1)
  {
    var m :| 0 <= m < j && steps[m].ReadFailed? && forall k :: m < k < j ==> !steps[k].Event? && !steps[k].Demand?;
    assert forall k :: m < k < j + 1 ==> !steps[k].Event? && !steps[k].Demand?;
  }

  lemma JustFailed(steps: seq<Step>, j: nat)
    requires j < |steps| && steps[j].ReadFailed?
    ensures FailedUnasked(steps, j + 1)
  {
  }

  /** Where the content shown came from: the last applied read. */
  lemma {:induction false} LastApplied(states: seq<State>, steps: seq<Step>, l: nat) returns (a: nat)
    requires IsRun(states, steps) && l < |states| && states[l].records.Some?
    ensures a < l && IsApply(states[a], steps[a])
    ensures states[l].records == states[a + 1].records && states[l].support == states[a + 1].support
    ensures states[l].modelRevision == states[a + 1].modelRevision
    ensures states[l].reconciledGeneration == states[a].reconciliation.generation
  {
    assert l > 0;
    assert Next(states[l - 1], steps[l - 1], states[l]);
    if IsApply(states[l - 1], steps[l - 1]) {
      a := l - 1;
      hide Applied, IsRun;
    } else {
      KeepsContent(states[l - 1], steps[l - 1], states[l]);
      hide Next, IsApply;
      a := LastApplied(states, steps, l - 1);
    }
  }

  lemma KeepsContent(s: State, step: Step, t: State)
    requires Next(s, step, t) && !IsApply(s, step)
    ensures t.records == s.records && t.support == s.support && t.modelRevision == s.modelRevision
    ensures t.reconciledGeneration == s.reconciledGeneration
  {
    hide KeyingAfter, Applied, KeysIssued;
  }

  /** The content of a state is that of a read, from its start at state r to its application at step a, and no event
      has arrived since that start. */
  ghost predicate FreshFrom(states: seq<State>, steps: seq<Step>, r: nat, a: nat, l: nat) {
    && r <= a < l < |states| == |steps| + 1 && states[r].reconciliation.Reading? && IsApply(states[a], steps[a])
    && (forall k :: r <= k <= a ==> SameRead(states[k], states[r].reconciliation.generation))
    && (forall k :: r <= k < l ==> !steps[k].Event?)
    && states[l].records == states[a + 1].records && states[l].support == states[a + 1].support
    && states[l].modelRevision == states[a + 1].modelRevision
  }

  lemma CurrentIsFresh(states: seq<State>, steps: seq<Step>, l: nat) returns (r: nat, a: nat)
    requires IsRun(states, steps) && l < |states| && Current(states[l])
    ensures FreshFrom(states, steps, r, a, l)
  {
    a := LastApplied(states, steps, l);
    r := ReadStarted(states, steps, a);
    GenerationsCount(states, steps, r, l);
    hide IsRun, SameRead;
  }

  lemma {:induction false} StaysCurrent(states: seq<State>, steps: seq<Step>, j: nat, l: nat)
    requires IsRun(states, steps) && j <= l < |states| && Current(states[j]) && states[j].reconciliation.Idle?
    requires forall k :: j <= k < l ==> !steps[k].Event?
    ensures Current(states[l]) && states[l].reconciliation.Idle?
    decreases l - j
  {
    if j < l {
      StaysCurrent(states, steps, j, l - 1);
      assert Next(states[l - 1], steps[l - 1], states[l]);
      hide IsRun, KeyingAfter, Applied, KeysIssued;
    }
  }

  /** A snapshot demands a reconciliation (step i), waits until it ends (state j) and reads the model (state l).
      If no read failed meanwhile and no event came after the end, it shows a read begun after the last event. */
  lemma SnapshotIsFresh(states: seq<State>, steps: seq<Step>, i: nat, j: nat, l: nat) returns (r: nat, a: nat)
    requires IsRun(states, steps) && i < j <= l < |states| && steps[i].Demand? && states[j].reconciliation.Idle?
    requires forall k :: i < k < j ==> !steps[k].ReadFailed?
    requires forall k :: j <= k < l ==> !steps[k].Event?
    ensures Current(states[l]) && FreshFrom(states, steps, r, a, l)
  {
    IdleIsCurrent(states, steps, j);
    assert !FailedUnasked(steps, j);
    StaysCurrent(states, steps, j, l);
    hide IsRun, FreshFrom;
    r, a := CurrentIsFresh(states, steps, l);
  }
}

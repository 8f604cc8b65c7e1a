/** Public references: their reconciliation with a baseline, and the tab filter that resolves them. */
module References {
  import opened Wrappers
  import opened Sorting
  import opened Baselines
  import opened Hierarchy
  import opened Snapshots

  datatype ReferenceRecord = ReferenceRecord(chromeId: i32, publicRef: Name)

  type RecordMap = map<string, ReferenceRecord>

  datatype ReferenceRegistry = ReferenceRegistry(windows: RecordMap, groups: RecordMap, tabs: RecordMap)

  const NO_REFERENCES := ReferenceRegistry(map[], map[], map[])

  /** A browser object of one kind: its incarnation key and its Chrome id. */
  datatype Identity = Identity(key: string, id: i32)

  function WindowObjects(b: Baseline): seq<Identity> {
    seq(|b.windows|, i requires 0 <= i < |b.windows| => Identity(b.windows[i].key, b.windows[i].id))
  }

  function GroupObjects(b: Baseline): seq<Identity> {
    seq(|b.groups|, i requires 0 <= i < |b.groups| => Identity(b.groups[i].key, b.groups[i].id))
  }

  function TabObjects(b: Baseline): seq<Identity> {
    seq(|b.tabs|, i requires 0 <= i < |b.tabs| => Identity(b.tabs[i].key, b.tabs[i].id))
  }

  function ObjectKeys(objects: seq<Identity>): set<string> {
    set o | o in objects :: o.key
  }

  ghost predicate KeysDistinct(objects: seq<Identity>) {
    forall i, j :: 0 <= i < j < |objects| ==> objects[i].key != objects[j].key
  }

  // ---------------------------------------------------------------- reconciliation

  /** Some object carries a key that stands for another Chrome id. */
  ghost predicate KeyReused(before: RecordMap, objects: seq<Identity>) {
    exists o :: o in objects && o.key in before && before[o.key].chromeId != o.id
  }

  /** What reconciling leaves: records for exactly the given objects, surviving keys keep their reference,
      and new keys get references first .. next that nothing else has. */
  ghost predicate Reconciled(before: RecordMap, objects: seq<Identity>, after: RecordMap, first: Name, next: Name) {
    && first <= next
    && after.Keys == ObjectKeys(objects)
    && (forall o :: o in objects ==> o.key in after && after[o.key].chromeId == o.id)
    && (forall k :: k in before && k in after ==> after[k] == before[k])
    && (forall k :: k in after && k !in before ==> first <= after[k].publicRef < next)
    && (forall k, m :: k in after && m in after && k !in before && m !in before && after[k].publicRef == after[m].publicRef ==> k == m)
  }

  /** The records of one kind are references below a name, no two of them alike. */
  ghost predicate Issued(records: RecordMap, next: Name) {
    && (forall k :: k in records ==> records[k].publicRef < next)
    && (forall k, m :: k in records && m in records && records[k].publicRef == records[m].publicRef ==> k == m)
  }

  lemma ReconciledIssued(before: RecordMap, objects: seq<Identity>, after: RecordMap, first: Name, next: Name)
    requires Issued(before, first) && Reconciled(before, objects, after, first, next)
    ensures Issued(after, next)
  {
    forall k, m | k in after && m in after && after[k].publicRef == after[m].publicRef ensures k == m {
      if k in before { assert after[k] == before[k]; }
      if m in before { assert after[m] == before[m]; }
    }
  }

  /** The records once the first `done` objects have been looked at. */
  ghost predicate Reconciling(before: RecordMap, objects: seq<Identity>, done: nat, records: RecordMap, first: Name, next: Name)
    requires done <= |objects|
  {
    && first <= next
    && (forall k :: k in records ==> k in ObjectKeys(objects))
    && (forall j :: 0 <= j < |objects| && objects[j].key in before ==> objects[j].key in records)
    && (forall j :: done <= j < |objects| && objects[j].key in records ==> objects[j].key in before)
    && (forall j :: 0 <= j < done ==> objects[j].key in records && records[objects[j].key].chromeId == objects[j].id)
    && (forall k :: k in before && k in records ==> records[k] == before[k])
    && (forall k :: k in records && k !in before ==> first <= records[k].publicRef < next)
    && (forall k, m :: k in records && m in records && k !in before && m !in before && records[k].publicRef == records[m].publicRef ==> k == m)
  }

  lemma ReconcilingStart(before: RecordMap, objects: seq<Identity>, records: RecordMap, first: Name)
    requires records == map k | k in before && k in ObjectKeys(objects) :: before[k]
    ensures Reconciling(before, objects, 0, records, first, first)
  {
    forall j | 0 <= j < |objects| ensures objects[j].key in ObjectKeys(objects) { assert objects[j] in objects; }
    hide ObjectKeys;
  }

  lemma ReconcilingKnown(before: RecordMap, objects: seq<Identity>, done: nat, records: RecordMap, first: Name, next: Name)
    requires done < |objects| && Reconciling(before, objects, done, records, first, next)
    requires objects[done].key in records && records[objects[done].key].chromeId == objects[done].id
    ensures Reconciling(before, objects, done + 1, records, first, next)
  {
    hide ObjectKeys;
  }

  lemma ReconcilingNew(before: RecordMap, objects: seq<Identity>, done: nat, records: RecordMap, first: Name, next: Name)
    requires done < |objects| && Reconciling(before, objects, done, records, first, next) && KeysDistinct(objects)
    requires objects[done].key !in records
    ensures Reconciling(before, objects, done + 1, records[objects[done].key := ReferenceRecord(objects[done].id, next)], first, next + 1)
  {
    assert objects[done] in objects && objects[done].key in ObjectKeys(objects);
    assert objects[done].key !in before;
    hide ObjectKeys;
  }

  lemma ReconcilingDone(before: RecordMap, objects: seq<Identity>, records: RecordMap, first: Name, next: Name)
    requires Reconciling(before, objects, |objects|, records, first, next)
    ensures Reconciled(before, objects, records, first, next) && !KeyReused(before, objects)
  {
    forall o | o in objects ensures o.key in records && records[o.key].chromeId == o.id {
      var j :| 0 <= j < |objects| && objects[j] == o;
    }
  }

  lemma ReuseFound(before: RecordMap, objects: seq<Identity>, done: nat, records: RecordMap, first: Name, next: Name)
    requires done < |objects| && Reconciling(before, objects, done, records, first, next) && KeysDistinct(objects)
    requires objects[done].key in records && records[objects[done].key].chromeId != objects[done].id
    ensures KeyReused(before, objects)
  {
    assert objects[done] in objects;
  }

  method ReconcileKind(before: RecordMap, objects: seq<Identity>, first: Name)
    returns (result: Result<RecordMap, SnapshotError>, next: Name)
    requires KeysDistinct(objects)
    ensures first <= next
    ensures result.Failure? <==> KeyReused(before, objects)
    ensures result.Failure? ==> result.error == InternalError
    ensures result.Success? ==> Reconciled(before, objects, result.value, first, next)
  {
    next := first;
    var keys := ObjectKeys(objects);
    var records := map k | k in before && k in keys :: before[k];
    ReconcilingStart(before, objects, records, first);
    hide ObjectKeys, Reconciling, Reconciled, KeyReused, KeysDistinct;
    for i := 0 to |objects|
      invariant first <= next
      invariant Reconciling(before, objects, i, records, first, next)
    {
      var seen := objects[i];
      if seen.key in records {
        if records[seen.key].chromeId != seen.id {
          ReuseFound(before, objects, i, records, first, next);
          return Failure(InternalError), next;
        }
        ReconcilingKnown(before, objects, i, records, first, next);
      } else {
        ReconcilingNew(before, objects, i, records, first, next);
        records := records[seen.key := ReferenceRecord(seen.id, next)];
        next := next + 1;
      }
    }
    ReconcilingDone(before, objects, records, first, next);
    return Success(records), next;
  }

  function PublicReferences(records: RecordMap): map<string, Name> {
    map k | k in records :: records[k].publicRef
  }

  function SnapshotReferencesOf(registry: ReferenceRegistry): SnapshotReferences {
    SnapshotReferences(PublicReferences(registry.windows), PublicReferences(registry.groups), PublicReferences(registry.tabs))
  }

  ghost predicate RegistryIssued(registry: ReferenceRegistry, next: Name) {
    Issued(registry.windows, next) && Issued(registry.groups, next) && Issued(registry.tabs, next)
  }

  ghost predicate AnyKeyReused(registry: ReferenceRegistry, b: Baseline) {
    || KeyReused(registry.windows, WindowObjects(b))
    || KeyReused(registry.groups, GroupObjects(b))
    || KeyReused(registry.tabs, TabObjects(b))
  }

  /** A registry brought in step with a baseline, with references issued from `first` on. */
  ghost predicate RegistryReconciled(before: ReferenceRegistry, b: Baseline, after: ReferenceRegistry, first: Name, next: Name) {
    exists second, third ::
      && Reconciled(before.windows, WindowObjects(b), after.windows, first, second)
      && Reconciled(before.groups, GroupObjects(b), after.groups, second, third)
      && Reconciled(before.tabs, TabObjects(b), after.tabs, third, next)
  }

  lemma ModelKeysDistinct(b: Baseline)
    requires ValidModel(b)
    ensures KeysDistinct(WindowObjects(b)) && KeysDistinct(GroupObjects(b)) && KeysDistinct(TabObjects(b))
  {
    assert WindowIdentities(b.windows) && GroupIdentities(b.windows, b.groups) && TabIdentities(b, b.tabs);
    hide ValidModel;
  }

  method Reconcile(registry: ReferenceRegistry, b: Baseline, first: Name)
    returns (result: Result<ReferenceRegistry, SnapshotError>, next: Name)
    requires ValidModel(b)
    ensures first <= next
    ensures result.Failure? <==> AnyKeyReused(registry, b)
    ensures result.Failure? ==> result.error == InternalError
    ensures result.Success? ==> RegistryReconciled(registry, b, result.value, first, next)
  {
    ModelKeysDistinct(b);
    hide ValidModel, Reconciled, KeyReused, WindowObjects, GroupObjects, TabObjects, KeysDistinct;
    var windows, second := ReconcileKind(registry.windows, WindowObjects(b), first);
    if windows.Failure? { return Failure(windows.error), second; }
    var groups, third := ReconcileKind(registry.groups, GroupObjects(b), second);
    if groups.Failure? { return Failure(groups.error), third; }
    var tabs, fourth := ReconcileKind(registry.tabs, TabObjects(b), third);
    next := fourth;
    if tabs.Failure? { return Failure(tabs.error), next; }
    return Success(ReferenceRegistry(windows.value, groups.value, tabs.value)), next;
  }

  lemma IssuedLater(records: RecordMap, next: Name, later: Name)
    requires Issued(records, next) && next <= later
    ensures Issued(records, later)
  {
  }

  /** Reconciling keeps references distinct, and covers the baseline it was given. */
  lemma ReconciledCovers(before: ReferenceRegistry, b: Baseline, after: ReferenceRegistry, first: Name, next: Name)
    requires RegistryIssued(before, first) && RegistryReconciled(before, b, after, first, next)
    ensures first <= next && RegistryIssued(after, next)
    ensures ReferencesCover(SnapshotReferencesOf(after), b)
  {
    hide *;
    var second, third := ReconciledKinds(before, b, after, first, next);
    RegistryParts(before, first);
    KindCovers(before.windows, WindowObjects(b), after.windows, first, second, next);
    IssuedLater(before.groups, first, second);
    KindCovers(before.groups, GroupObjects(b), after.groups, second, third, next);
    IssuedLater(before.tabs, first, third);
    KindCovers(before.tabs, TabObjects(b), after.tabs, third, next, next);
    RegistryParts(after, next);
    ObjectsCovered(after, b);
  }

  lemma ReconciledKinds(before: ReferenceRegistry, b: Baseline, after: ReferenceRegistry, first: Name, next: Name)
    returns (second: Name, third: Name)
    requires RegistryReconciled(before, b, after, first, next)
    ensures Reconciled(before.windows, WindowObjects(b), after.windows, first, second)
    ensures Reconciled(before.groups, GroupObjects(b), after.groups, second, third)
    ensures Reconciled(before.tabs, TabObjects(b), after.tabs, third, next)
  {
    hide Reconciled, WindowObjects, GroupObjects, TabObjects;
    second, third :|
      && Reconciled(before.windows, WindowObjects(b), after.windows, first, second)
      && Reconciled(before.groups, GroupObjects(b), after.groups, second, third)
      && Reconciled(before.tabs, TabObjects(b), after.tabs, third, next);
  }

  lemma RegistryParts(registry: ReferenceRegistry, next: Name)
    ensures RegistryIssued(registry, next) <==>
      Issued(registry.windows, next) && Issued(registry.groups, next) && Issued(registry.tabs, next)
  {
    hide Issued;
  }

  lemma ObjectsCovered(after: ReferenceRegistry, b: Baseline)
    requires Injective(PublicReferences(after.windows)) && Injective(PublicReferences(after.groups))
    requires Injective(PublicReferences(after.tabs))
    requires forall o :: o in WindowObjects(b) ==> o.key in PublicReferences(after.windows)
    requires forall o :: o in GroupObjects(b) ==> o.key in PublicReferences(after.groups)
    requires forall o :: o in TabObjects(b) ==> o.key in PublicReferences(after.tabs)
    ensures ReferencesCover(SnapshotReferencesOf(after), b)
  {
    hide Injective, PublicReferences, WindowObjects, GroupObjects, TabObjects;
    forall w | w in b.windows ensures w.key in PublicReferences(after.windows) {
      assert Identity(w.key, w.id) in WindowObjects(b) by { InWindowObjects(b, w); }
    }
    forall g | g in b.groups ensures g.key in PublicReferences(after.groups) {
      assert Identity(g.key, g.id) in GroupObjects(b) by { InGroupObjects(b, g); }
    }
    forall t | t in b.tabs ensures t.key in PublicReferences(after.tabs) {
      assert Identity(t.key, t.id) in TabObjects(b) by { InTabObjects(b, t); }
    }
  }

  lemma KindCovers(before: RecordMap, objects: seq<Identity>, after: RecordMap, first: Name, next: Name, later: Name)
    requires Issued(before, first) && Reconciled(before, objects, after, first, next)
    ensures first <= next && (next <= later ==> Issued(after, later))
    ensures Injective(PublicReferences(after))
    ensures forall o :: o in objects ==> o.key in PublicReferences(after)
  {
    ReconciledIssued(before, objects, after, first, next);
    if next <= later { IssuedLater(after, next, later); }
  }

  lemma InWindowObjects(b: Baseline, w: BaselineWindow)
    requires w in b.windows
    ensures Identity(w.key, w.id) in WindowObjects(b)
  {
    var i :| 0 <= i < |b.windows| && b.windows[i] == w;
    assert WindowObjects(b)[i] == Identity(w.key, w.id);
  }

  lemma InGroupObjects(b: Baseline, g: BaselineGroup)
    requires g in b.groups
    ensures Identity(g.key, g.id) in GroupObjects(b)
  {
    var i :| 0 <= i < |b.groups| && b.groups[i] == g;
    assert GroupObjects(b)[i] == Identity(g.key, g.id);
  }

  lemma InTabObjects(b: Baseline, t: BaselineTab)
    requires t in b.tabs
    ensures Identity(t.key, t.id) in TabObjects(b)
  {
    var i :| 0 <= i < |b.tabs| && b.tabs[i] == t;
    assert TabObjects(b)[i] == Identity(t.key, t.id);
  }

  // ---------------------------------------------------------------- resolving targets

  method Resolve(references: map<string, Name>, requested: Name) returns (r: Result<string, SnapshotError>)
    requires Injective(references)
    ensures r == ResolveRef(references, requested)
  {
    if exists k :: k in references && references[k] == requested {
      var key :| key in references && references[key] == requested;
      return Success(key);
    }
    return Failure(NotFound);
  }

  function Including(keys: set<string>, more: Result<set<string>, SnapshotError>): Result<set<string>, SnapshotError> {
    if more.Failure? then more else Success(keys + more.value)
  }

  lemma IncludingNone(more: Result<set<string>, SnapshotError>)
    ensures Including({}, more) == more
  {
    if more.Success? { assert {} + more.value == more.value; }
  }

  lemma ResolveAllStep(references: map<string, Name>, requested: seq<Name>, i: nat, keys: set<string>)
    requires i < |requested|
    ensures var first := ResolveRef(references, requested[i]);
      Including(keys, ResolveAll(references, requested[i..])) ==
        if first.Failure? then Failure(first.error)
        else Including(keys + {first.value}, ResolveAll(references, requested[i + 1..]))
  {
    var first, rest := ResolveRef(references, requested[i]), ResolveAll(references, requested[i + 1..]);
    assert requested[i..][1..] == requested[i + 1..];
    if first.Success? && rest.Success? {
      assert keys + ({first.value} + rest.value) == keys + {first.value} + rest.value;
    }
  }

  method ResolveTabs(references: map<string, Name>, requested: seq<Name>) returns (r: Result<set<string>, SnapshotError>)
    requires Injective(references)
    ensures r == ResolveAll(references, requested)
  {
    var keys: set<string> := {};
    IncludingNone(ResolveAll(references, requested));
    assert requested[0..] == requested;
    for i := 0 to |requested|
      invariant ResolveAll(references, requested) == Including(keys, ResolveAll(references, requested[i..]))
    {
      var key := Resolve(references, requested[i]);
      ResolveAllStep(references, requested, i, keys);
      if key.Failure? { return Failure(key.error); }
      keys := keys + {key.value};
    }
    return Success(keys);
  }

  method MatchTabs(b: Baseline, references: SnapshotReferences, params: SnapshotParams, textMatches: (string, BaselineTab) -> bool)
    returns (r: Result<seq<string>, SnapshotError>)
    requires ReferencesCover(references, b)
    ensures r == MatchedTabs(b, references, params, textMatches)
  {
    hide MatchedRecords, ResolveAll, ResolveRef;
    var windowKey: Option<string>, groupKey: Option<string>, tabKeys: Option<set<string>> := None, None, None;
    if params.windowRef.Some? {
      var found := Resolve(references.windows, params.windowRef.value);
      if found.Failure? { return Failure(found.error); }
      windowKey := Some(found.value);
    }
    if params.groupRef.Some? {
      var found := Resolve(references.groups, params.groupRef.value);
      if found.Failure? { return Failure(found.error); }
      groupKey := Some(found.value);
    }
    if params.tabRefs.Some? {
      var found := ResolveTabs(references.tabs, params.tabRefs.value);
      if found.Failure? { return Failure(found.error); }
      tabKeys := Some(found.value);
    }
    var matched := MatchedRecords(b, tab => Selects(params, windowKey, groupKey, tabKeys, textMatches, tab));
    return Success(KeysOf(matched));
  }

  // ---------------------------------------------------------------- what a filter means to its caller

  predicate RefersTo(references: map<string, Name>, key: string, wanted: Name) {
    key in references && references[key] == wanted
  }

  /** The filter in the caller's terms: targets are references, everything else is read off the tab. */
  predicate Wanted(references: SnapshotReferences, params: SnapshotParams, textMatches: (string, BaselineTab) -> bool, t: BaselineTab) {
    && (params.windowRef.Some? ==> RefersTo(references.windows, t.windowKey, params.windowRef.value))
    && (params.groupRef.Some? ==> t.groupKey.Some? && RefersTo(references.groups, t.groupKey.value, params.groupRef.value))
    && (params.tabRefs.Some? ==> t.key in references.tabs && references.tabs[t.key] in params.tabRefs.value)
    && (params.active.Some? ==> t.active == params.active.value)
    && (params.pinned.Some? ==> t.pinned == params.pinned.value)
    && (params.discarded.Some? ==> t.discarded == params.discarded.value)
    && (params.frozen.Some? ==> t.frozen == Some(params.frozen.value))
    && (params.query.Some? ==> textMatches(params.query.value, t))
  }

  ghost predicate Known(references: map<string, Name>, wanted: Name) {
    exists key :: RefersTo(references, key, wanted)
  }

  ghost predicate TargetsKnown(references: SnapshotReferences, params: SnapshotParams) {
    && (params.windowRef.Some? ==> Known(references.windows, params.windowRef.value))
    && (params.groupRef.Some? ==> Known(references.groups, params.groupRef.value))
    && (params.tabRefs.Some? ==> forall r :: r in params.tabRefs.value ==> Known(references.tabs, r))
  }

  lemma ResolveMeans(references: map<string, Name>, wanted: Name)
    requires Injective(references)
    ensures ResolveRef(references, wanted).Success? <==> Known(references, wanted)
    ensures ResolveRef(references, wanted).Success? ==>
      forall key :: key == ResolveRef(references, wanted).value <==> RefersTo(references, key, wanted)
  {
    if ResolveRef(references, wanted).Success? {
      assert RefersTo(references, ResolveRef(references, wanted).value, wanted);
    }
    if key :| RefersTo(references, key, wanted) { assert key in references; }
  }

  lemma {:induction false} ResolveAllMeans(references: map<string, Name>, wanted: seq<Name>)
    requires Injective(references)
    ensures ResolveAll(references, wanted).Success? <==> forall r :: r in wanted ==> Known(references, r)
    ensures ResolveAll(references, wanted).Success? ==>
      forall key :: key in ResolveAll(references, wanted).value <==> key in references && references[key] in wanted
  {
    if wanted != [] {
      ResolveMeans(references, wanted[0]);
      ResolveAllMeans(references, wanted[1..]);
      assert wanted == [wanted[0]] + wanted[1..];
      hide ResolveRef, Known;
    }
  }

  /** Matching fails exactly if a target is unknown; otherwise it lists exactly the wanted tabs. */
  lemma MatchedMeansWanted(
    b: Baseline, references: SnapshotReferences, params: SnapshotParams, textMatches: (string, BaselineTab) -> bool)
    requires ValidModel(b) && ReferencesCover(references, b)
    ensures MatchedTabs(b, references, params, textMatches).Success? <==> TargetsKnown(references, params)
    ensures MatchedTabs(b, references, params, textMatches).Success? ==> forall t :: t in b.tabs ==>
      (t.key in MatchedTabs(b, references, params, textMatches).value <==> Wanted(references, params, textMatches, t))
  {
    if params.windowRef.Some? { ResolveMeans(references.windows, params.windowRef.value); }
    if params.groupRef.Some? { ResolveMeans(references.groups, params.groupRef.value); }
    if params.tabRefs.Some? { ResolveAllMeans(references.tabs, params.tabRefs.value); }
    hide ResolveRef, ResolveAll, Known, MatchedRecords, ValidModel;
    if MatchedTabs(b, references, params, textMatches).Success? {
      var window := if params.windowRef.None? then None else Some(ResolveRef(references.windows, params.windowRef.value).value);
      var group := if params.groupRef.None? then None else Some(ResolveRef(references.groups, params.groupRef.value).value);
      var tabs := if params.tabRefs.None? then None else Some(ResolveAll(references.tabs, params.tabRefs.value).value);
      var selected := (tab: BaselineTab) => Selects(params, window, group, tabs, textMatches, tab);
      assert MatchedTabs(b, references, params, textMatches)
        == Success(KeysOf(MatchedRecords(b, tab => Selects(params, window, group, tabs, textMatches, tab))));
      MatchedKeys(b, selected);
      forall t | t in b.tabs
        ensures t.key in MatchedTabs(b, references, params, textMatches).value <==> Wanted(references, params, textMatches, t)
      {
        SelectsWanted(b, references, params, window, group, tabs, textMatches, t);
      }
    }
  }

  lemma MatchedKeys(b: Baseline, selected: BaselineTab -> bool)
    requires ValidModel(b)
    ensures forall t :: t in b.tabs ==> (t.key in KeysOf(MatchedRecords(b, selected)) <==> selected(t))
  {
    MatchedAreSelected(b, selected);
    var records := MatchedRecords(b, selected);
    hide MatchedRecords, ValidModel, StrictlyOrdered;
    forall t | t in b.tabs ensures t.key in KeysOf(records) <==> selected(t) {
      if selected(t) {
        var i :| 0 <= i < |records| && records[i] == t;
        assert KeysOf(records)[i] == t.key;
      }
      if t.key in KeysOf(records) {
        var i :| 0 <= i < |records| && KeysOf(records)[i] == t.key;
        assert records[i] in records;
        SameKeySameTab(b, records[i], t);
      }
    }
  }

  lemma SelectsWanted(
    b: Baseline, references: SnapshotReferences, params: SnapshotParams, window: Option<string>, group: Option<string>,
    tabs: Option<set<string>>, textMatches: (string, BaselineTab) -> bool, t: BaselineTab)
    requires ReferencesCover(references, b) && t in b.tabs
    requires window.Some? <==> params.windowRef.Some?
    requires group.Some? <==> params.groupRef.Some?
    requires tabs.Some? <==> params.tabRefs.Some?
    requires window.Some? ==> forall key :: key == window.value <==> RefersTo(references.windows, key, params.windowRef.value)
    requires group.Some? ==> forall key :: key == group.value <==> RefersTo(references.groups, key, params.groupRef.value)
    requires tabs.Some? ==> forall key :: key in tabs.value <==> key in references.tabs && references.tabs[key] in params.tabRefs.value
    ensures Selects(params, window, group, tabs, textMatches, t) <==> Wanted(references, params, textMatches, t)
  {
  }
}

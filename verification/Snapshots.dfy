/** Which tabs a snapshot lists, in which order, and the references it lists them under. */
module Snapshots {
  import opened Wrappers
  import opened Sorting
  import opened Baselines
  import opened Hierarchy

  datatype SnapshotDetail = Counts | Compact | Full

  datatype SnapshotError =
    | InvalidArgument | NotFound | HandleExpired | CapabilityUnavailable | CapabilityDisabled | ResultTooLarge | InternalError

  datatype SnapshotReferences = SnapshotReferences(
    windows: map<string, Name>, groups: map<string, Name>, tabs: map<string, Name>)

  datatype SnapshotParams = SnapshotParams(
    windowRef: Option<Name>, groupRef: Option<Name>, tabRefs: Option<seq<Name>>,
    active: Option<bool>, pinned: Option<bool>, discarded: Option<bool>, frozen: Option<bool>,
    query: Option<string>, detail: Option<SnapshotDetail>, limit: Option<nat>)

  // ---------------------------------------------------------------- lookups by key

  function FindWindow(windows: seq<BaselineWindow>, key: string): Option<BaselineWindow> {
    if windows == [] then None
    else if windows[0].key == key then Some(windows[0]) else FindWindow(windows[1..], key)
  }

  function FindGroup(groups: seq<BaselineGroup>, key: string): Option<BaselineGroup> {
    if groups == [] then None
    else if groups[0].key == key then Some(groups[0]) else FindGroup(groups[1..], key)
  }

  function FindTab(tabs: seq<BaselineTab>, key: string): Option<BaselineTab> {
    if tabs == [] then None
    else if tabs[0].key == key then Some(tabs[0]) else FindTab(tabs[1..], key)
  }

  lemma {:induction false} FindWindowFinds(windows: seq<BaselineWindow>, key: string)
    ensures FindWindow(windows, key).Some? ==>
      FindWindow(windows, key).value in windows && FindWindow(windows, key).value.key == key
    ensures (exists w :: w in windows && w.key == key) ==> FindWindow(windows, key).Some?
  {
    if windows != [] { FindWindowFinds(windows[1..], key); }
  }

  lemma {:induction false} FindGroupFinds(groups: seq<BaselineGroup>, key: string)
    ensures FindGroup(groups, key).Some? ==>
      FindGroup(groups, key).value in groups && FindGroup(groups, key).value.key == key
    ensures (exists g :: g in groups && g.key == key) ==> FindGroup(groups, key).Some?
  {
    if groups != [] { FindGroupFinds(groups[1..], key); }
  }

  lemma {:induction false} FindTabFinds(tabs: seq<BaselineTab>, key: string)
    ensures FindTab(tabs, key).Some? ==> FindTab(tabs, key).value in tabs && FindTab(tabs, key).value.key == key
    ensures (exists t :: t in tabs && t.key == key) ==> FindTab(tabs, key).Some?
  {
    if tabs != [] { FindTabFinds(tabs[1..], key); }
  }

  lemma SameKeySameTab(b: Baseline, t: BaselineTab, u: BaselineTab)
    requires ValidModel(b) && t in b.tabs && u in b.tabs && t.key == u.key
    ensures t == u
  {
    var i :| 0 <= i < |b.tabs| && b.tabs[i] == t;
    var j :| 0 <= j < |b.tabs| && b.tabs[j] == u;
  }

  lemma SameKeySameGroup(b: Baseline, g: BaselineGroup, h: BaselineGroup)
    requires ValidModel(b) && g in b.groups && h in b.groups && g.key == h.key
    ensures g == h
  {
    var i :| 0 <= i < |b.groups| && b.groups[i] == g;
    var j :| 0 <= j < |b.groups| && b.groups[j] == h;
  }

  lemma SameIdSameWindow(b: Baseline, v: BaselineWindow, w: BaselineWindow)
    requires ValidModel(b) && v in b.windows && w in b.windows && (v.id == w.id || v.key == w.key)
    ensures v == w
  {
    var i :| 0 <= i < |b.windows| && b.windows[i] == v;
    var j :| 0 <= j < |b.windows| && b.windows[j] == w;
  }

  /** The record behind a key of a tab of the model. */
  function TabFor(b: Baseline, key: string): BaselineTab
    requires FindTab(b.tabs, key).Some?
  {
    FindTab(b.tabs, key).value
  }

  /** After acceptance every map index is in bounds: each tab finds itself, its window and its group. */
  lemma LookupsInBounds(b: Baseline, t: BaselineTab)
    requires ValidModel(b) && t in b.tabs
    ensures FindTab(b.tabs, t.key) == Some(t)
    ensures FindWindow(b.windows, t.windowKey).Some? && FindWindow(b.windows, t.windowKey).value in b.windows
    ensures FindWindow(b.windows, t.windowKey).value.key == t.windowKey
    ensures t.groupKey.Some? ==>
      && FindGroup(b.groups, t.groupKey.value).Some? && FindGroup(b.groups, t.groupKey.value).value in b.groups
      && FindGroup(b.groups, t.groupKey.value).value.key == t.groupKey.value
      && FindGroup(b.groups, t.groupKey.value).value.windowKey == t.windowKey
    ensures t.openerKey.Some? ==> FindTab(b.tabs, t.openerKey.value).Some?
  {
    FindTabFinds(b.tabs, t.key);
    SameKeySameTab(b, t, FindTab(b.tabs, t.key).value);
    FindWindowFinds(b.windows, t.windowKey);
    assert KnownWindow(b, t.windowKey) && KnownGroup(b, t) && KnownOpener(b, t);
    if t.groupKey.Some? {
      FindGroupFinds(b.groups, t.groupKey.value);
      var g :| g in b.groups && g.key == t.groupKey.value && g.windowKey == t.windowKey;
      SameKeySameGroup(b, g, FindGroup(b.groups, t.groupKey.value).value);
    }
    if t.openerKey.Some? { FindTabFinds(b.tabs, t.openerKey.value); }
  }

  // ---------------------------------------------------------------- references

  ghost predicate Injective(references: map<string, Name>) {
    forall k, m :: k in references && m in references && references[k] == references[m] ==> k == m
  }

  ghost predicate ReferencesCover(references: SnapshotReferences, b: Baseline) {
    && Injective(references.windows) && Injective(references.groups) && Injective(references.tabs)
    && (forall w :: w in b.windows ==> w.key in references.windows)
    && (forall g :: g in b.groups ==> g.key in references.groups)
    && (forall t :: t in b.tabs ==> t.key in references.tabs)
  }

  /** resolve_ref: the first key found under a reference. */
  ghost function ResolveRef(references: map<string, Name>, requested: Name): (r: Result<string, SnapshotError>)
    ensures r.Success? ==> r.value in references && references[r.value] == requested
    ensures r.Failure? <==> forall k :: k in references ==> references[k] != requested
    ensures r.Failure? ==> r.error == NotFound
  {
    if exists k :: k in references && references[k] == requested then
      var k :| k in references && references[k] == requested;
      Success(k)
    else Failure(NotFound)
  }

  ghost function ResolveAll(references: map<string, Name>, requested: seq<Name>): (r: Result<set<string>, SnapshotError>)
    ensures r.Success? ==> forall k :: k in r.value ==> k in references && references[k] in requested
    ensures r.Success? && Injective(references) ==> forall k :: k in references && references[k] in requested ==> k in r.value
  {
    if requested == [] then Success({})
    else
      var first := ResolveRef(references, requested[0]);
      var rest := ResolveAll(references, requested[1..]);
      if first.Failure? then Failure(first.error)
      else if rest.Failure? then rest
      else Success({first.value} + rest.value)
  }

  // ---------------------------------------------------------------- filter and order

  function Filter(tabs: seq<BaselineTab>, selected: BaselineTab -> bool): seq<BaselineTab> {
    if tabs == [] then []
    else if selected(tabs[0]) then [tabs[0]] + Filter(tabs[1..], selected)
    else Filter(tabs[1..], selected)
  }

  predicate Allows<T(==)>(wanted: Option<T>, value: T) { wanted.None? || wanted.value == value }

  /** The tab filter, with the targets resolved to keys.  Matching the query text is left abstract. */
  predicate Selects(
    params: SnapshotParams, windowKey: Option<string>, groupKey: Option<string>, tabKeys: Option<set<string>>,
    textMatches: (string, BaselineTab) -> bool, tab: BaselineTab)
  {
    && Allows(windowKey, tab.windowKey)
    && (groupKey.None? || tab.groupKey == groupKey)
    && (tabKeys.None? || tab.key in tabKeys.value)
    && Allows(params.active, tab.active)
    && Allows(params.pinned, tab.pinned)
    && Allows(params.discarded, tab.discarded)
    && (params.frozen.None? || tab.frozen == params.frozen)
    && (params.query.None? || textMatches(params.query.value, tab))
  }

  function WindowFor(b: Baseline, tab: BaselineTab): BaselineWindow {
    var found := FindWindow(b.windows, tab.windowKey);
    if found.Some? then found.value
    else BaselineWindow(tab.windowKey, 0, false, None, None, None, None, None, None, None)
  }

  /** Focused windows first, then by Chrome window id, then by strip position. */
  predicate TabLeq(b: Baseline, left: BaselineTab, right: BaselineTab) {
    var l, r := WindowFor(b, left), WindowFor(b, right);
    if l.focused != r.focused then l.focused
    else if l.id != r.id then l.id < r.id
    else left.index <= right.index
  }

  function OrderOf(b: Baseline): (BaselineTab, BaselineTab) -> bool {
    (left, right) => TabLeq(b, left, right)
  }

  function MatchedRecords(b: Baseline, selected: BaselineTab -> bool): seq<BaselineTab> {
    Sort(Filter(b.tabs, selected), OrderOf(b))
  }

  function KeysOf(tabs: seq<BaselineTab>): seq<string> {
    seq(|tabs|, i requires 0 <= i < |tabs| => tabs[i].key)
  }

  ghost function MatchedTabs(
    b: Baseline, references: SnapshotReferences, params: SnapshotParams, textMatches: (string, BaselineTab) -> bool)
    : Result<seq<string>, SnapshotError>
  {
    var window := if params.windowRef.None? then Success(None) else
      var r := ResolveRef(references.windows, params.windowRef.value);
      if r.Failure? then Failure(r.error) else Success(Some(r.value));
    if window.Failure? then Failure(window.error) else
    var group := if params.groupRef.None? then Success(None) else
      var r := ResolveRef(references.groups, params.groupRef.value);
      if r.Failure? then Failure(r.error) else Success(Some(r.value));
    if group.Failure? then Failure(group.error) else
    var tabs := if params.tabRefs.None? then Success(None) else
      var r := ResolveAll(references.tabs, params.tabRefs.value);
      if r.Failure? then Failure(r.error) else Success(Some(r.value));
    if tabs.Failure? then Failure(tabs.error) else
    Success(KeysOf(MatchedRecords(b, tab => Selects(params, window.value, group.value, tabs.value, textMatches, tab))))
  }

  /** Strictly in order, so also without repetition. */
  ghost predicate StrictlyOrdered(b: Baseline, tabs: seq<BaselineTab>) {
    forall i, j :: 0 <= i < j < |tabs| ==> TabLeq(b, tabs[i], tabs[j]) && !TabLeq(b, tabs[j], tabs[i])
  }

  ghost predicate FromModel(b: Baseline, tabs: seq<BaselineTab>) {
    forall i :: 0 <= i < |tabs| ==> tabs[i] in b.tabs
  }

  lemma OrderIsTotal(b: Baseline)
    ensures TotalPreorder(OrderOf(b))
  {
  }

  /** Two tabs of a valid model that compare equal are the same tab. */
  lemma OrderIsStrict(b: Baseline, l: BaselineTab, r: BaselineTab)
    requires ValidModel(b) && l in b.tabs && r in b.tabs && TabLeq(b, l, r) && TabLeq(b, r, l)
    ensures l == r
  {
    LookupsInBounds(b, l);
    LookupsInBounds(b, r);
    SameIdSameWindow(b, WindowFor(b, l), WindowFor(b, r));
    var i :| 0 <= i < |b.tabs| && b.tabs[i] == l;
    var j :| 0 <= j < |b.tabs| && b.tabs[j] == r;
  }

  lemma {:induction false} FilterSelects(tabs: seq<BaselineTab>, selected: BaselineTab -> bool)
    ensures forall t :: t in Filter(tabs, selected) <==> t in tabs && selected(t)
  {
    if tabs != [] {
      FilterSelects(tabs[1..], selected);
      assert tabs == [tabs[0]] + tabs[1..];
    }
  }

  ghost predicate AllDistinct(tabs: seq<BaselineTab>) {
    forall i, j :: 0 <= i < j < |tabs| ==> tabs[i] != tabs[j]
  }

  lemma {:induction false} FilterDistinct(tabs: seq<BaselineTab>, selected: BaselineTab -> bool)
    requires AllDistinct(tabs)
    ensures AllDistinct(Filter(tabs, selected))
  {
    if tabs != [] {
      FilterDistinct(tabs[1..], selected);
      FilterSelects(tabs[1..], selected);
      assert tabs[0] !in tabs[1..];
      if selected(tabs[0]) { ConsDistinct(tabs[0], Filter(tabs[1..], selected)); }
    }
  }

  lemma ConsDistinct(t: BaselineTab, rest: seq<BaselineTab>)
    requires AllDistinct(rest) && t !in rest
    ensures AllDistinct([t] + rest)
  {
  }

  /** The matched tabs are exactly the selected ones, each once, in strict order. */
  lemma MatchedAreSelected(b: Baseline, selected: BaselineTab -> bool)
    requires ValidModel(b)
    ensures forall t :: t in MatchedRecords(b, selected) <==> t in b.tabs && selected(t)
    ensures StrictlyOrdered(b, MatchedRecords(b, selected)) && FromModel(b, MatchedRecords(b, selected))
  {
    var chosen, sorted := Filter(b.tabs, selected), MatchedRecords(b, selected);
    FilterSelects(b.tabs, selected);
    assert AllDistinct(b.tabs);
    FilterDistinct(b.tabs, selected);
    OrderIsTotal(b);
    SortSorts(chosen, OrderOf(b));
    SortKeepsElements(chosen, OrderOf(b));
    SortKeepsDistinct(chosen, OrderOf(b));
    hide Filter, Sort, TabLeq, ValidModel;
    assert FromModel(b, sorted) by {
      forall i | 0 <= i < |sorted| ensures sorted[i] in b.tabs { assert sorted[i] in sorted; }
    }
    forall i, j | 0 <= i < j < |sorted| ensures TabLeq(b, sorted[i], sorted[j]) && !TabLeq(b, sorted[j], sorted[i]) {
      assert OrderOf(b)(sorted[i], sorted[j]);
      if TabLeq(b, sorted[j], sorted[i]) { OrderIsStrict(b, sorted[i], sorted[j]); }
    }
  }

  // ---------------------------------------------------------------- runs of windows and groups

  /** Between two matched tabs of one window there are only tabs of that window. */
  lemma WindowRun(b: Baseline, tabs: seq<BaselineTab>, i: nat, j: nat, k: nat)
    requires ValidModel(b) && StrictlyOrdered(b, tabs) && FromModel(b, tabs) && i < j < k < |tabs|
    requires tabs[i].windowKey == tabs[k].windowKey
    ensures tabs[j].windowKey == tabs[k].windowKey
  {
    LookupsInBounds(b, tabs[i]);
    LookupsInBounds(b, tabs[j]);
    LookupsInBounds(b, tabs[k]);
    assert TabLeq(b, tabs[i], tabs[j]) && TabLeq(b, tabs[j], tabs[k]);
    SameIdSameWindow(b, WindowFor(b, tabs[j]), WindowFor(b, tabs[k]));
  }

  /** Filtering out tabs cannot split a group: between two matched tabs of a group there are only its tabs. */
  lemma GroupRun(b: Baseline, tabs: seq<BaselineTab>, i: nat, k: nat)
    requires ValidModel(b) && StrictlyOrdered(b, tabs) && FromModel(b, tabs) && i < k < |tabs|
    requires tabs[i].groupKey.Some? && tabs[i].groupKey == tabs[k].groupKey
    ensures tabs[i].windowKey == tabs[k].windowKey
    ensures forall j :: i < j < k ==> tabs[j].groupKey == tabs[k].groupKey && tabs[j].windowKey == tabs[k].windowKey
  {
    LookupsInBounds(b, tabs[i]);
    LookupsInBounds(b, tabs[k]);
    forall j | i < j < k
      ensures tabs[j].groupKey == tabs[k].groupKey && tabs[j].windowKey == tabs[k].windowKey
    {
      WindowRun(b, tabs, i, j, k);
      LookupsInBounds(b, tabs[j]);
      assert TabLeq(b, tabs[i], tabs[j]) && !TabLeq(b, tabs[j], tabs[i]);
      assert TabLeq(b, tabs[j], tabs[k]) && !TabLeq(b, tabs[k], tabs[j]);
      assert tabs[i].index < tabs[j].index < tabs[k].index;
      assert tabs[i] in b.tabs && tabs[j] in b.tabs && tabs[k] in b.tabs;
    }
  }
}

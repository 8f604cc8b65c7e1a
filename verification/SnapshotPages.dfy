/** Retained snapshots, their cursors and their hierarchical pages. */
module SnapshotPages {
  import opened Wrappers
  import opened Baselines
  import opened Hierarchy
  import opened Snapshots
  import opened Counting

  const DEFAULT_LIMIT: nat := 100
  const MAX_CURSOR_RECORDS: nat := 10_000
  const MAX_RESULT_BYTES: nat := 4 * 1024 * 1024
  const USIZE_MAX: nat := 0xFFFF_FFFF_FFFF_FFFF

  function SaturatingAdd(a: nat, b: nat): nat {
    if a + b > USIZE_MAX then USIZE_MAX else a + b
  }

  function Min(a: nat, b: nat): nat { if a < b then a else b }

  datatype WindowInfo = WindowInfo(
    focused: bool, partial: bool,
    top: Option<i32>, left: Option<i32>, width: Option<i32>, height: Option<i32>,
    windowType: Option<string>, state: Option<string>, alwaysOnTop: Option<bool>)

  datatype GroupInfo = GroupInfo(
    title: Option<string>, color: string, partial: bool, collapsed: Option<bool>, shared: Option<bool>)

  datatype SnapshotTab = SnapshotTab(
    reference: Name, title: Option<string>, url: Option<string>,
    active: bool, pinned: bool, discarded: bool, frozen: Option<bool>,
    pendingUrl: Option<string>, highlighted: Option<bool>, audible: Option<bool>, muted: Option<bool>,
    loading: Option<bool>, autoDiscardable: Option<bool>, lastAccessed: Option<real>,
    openerRef: Option<Name>, favIconUrl: Option<string>)

  type PageWindow = WindowNode<WindowInfo, GroupInfo, SnapshotTab>
  type PageItem = Item<GroupInfo, SnapshotTab>
  type PageEntry = Entry<WindowInfo, GroupInfo, SnapshotTab>

  datatype SnapshotPage = SnapshotPage(
    snapshotRef: Name, capturedAt: string, totalMatched: nat, windows: seq<PageWindow>, nextCursor: Option<Name>)

  datatype StoredSnapshot = StoredSnapshot(
    snapshotRef: Name, baseline: Baseline, references: SnapshotReferences, matchedKeys: seq<string>,
    detail: SnapshotDetail, limit: nat, cursors: map<Name, nat>, cursorByOffset: map<nat, Name>)

  // ---------------------------------------------------------------- what a snapshot guarantees

  ghost predicate KeysFound(s: StoredSnapshot) {
    forall i :: 0 <= i < |s.matchedKeys| ==> FindTab(s.baseline.tabs, s.matchedKeys[i]).Some?
  }

  /** The matched tabs, in order. */
  ghost function Records(s: StoredSnapshot): seq<BaselineTab>
    requires KeysFound(s)
  {
    seq(|s.matchedKeys|, i requires 0 <= i < |s.matchedKeys| => TabFor(s.baseline, s.matchedKeys[i]))
  }

  /** What validation, reconciliation and sorting leave behind for the renderer. */
  ghost predicate StoredOk(s: StoredSnapshot) {
    && ValidModel(s.baseline)
    && ReferencesCover(s.references, s.baseline)
    && KeysFound(s)
    && StrictlyOrdered(s.baseline, Records(s)) && FromModel(s.baseline, Records(s))
    && 1 <= s.limit && |s.matchedKeys| <= USIZE_MAX
  }

  /** Every lookup the renderer makes for a tab is in bounds. */
  ghost predicate Resolves(s: StoredSnapshot, tab: BaselineTab) {
    && tab.key in s.references.tabs && tab.windowKey in s.references.windows
    && FindWindow(s.baseline.windows, tab.windowKey).Some?
    && (tab.groupKey.Some? ==>
          && tab.groupKey.value in s.references.groups
          && FindGroup(s.baseline.groups, tab.groupKey.value).Some?)
    && (tab.openerKey.Some? ==> tab.openerKey.value in s.references.tabs)
  }

  ghost predicate AllResolve(s: StoredSnapshot) {
    KeysFound(s) && forall i :: 0 <= i < |Records(s)| ==> Resolves(s, Records(s)[i])
  }

  lemma RecordsResolve(s: StoredSnapshot)
    requires StoredOk(s)
    ensures AllResolve(s)
  {
    var records := Records(s);
    hide ValidModel, Records, StrictlyOrdered, FindTab, FindWindow, FindGroup, TabFor;
    forall i | 0 <= i < |records| ensures Resolves(s, records[i]) {
      var tab := records[i];
      LookupsInBounds(s.baseline, tab);
      if tab.openerKey.Some? { FindTabFinds(s.baseline.tabs, tab.openerKey.value); }
    }
  }

  /** A matched key is that of its record, and no key is matched twice. */
  lemma KeysDistinct(s: StoredSnapshot)
    requires StoredOk(s)
    ensures forall i :: 0 <= i < |s.matchedKeys| ==> Records(s)[i].key == s.matchedKeys[i]
    ensures NoRepeats(s.matchedKeys)
  {
    hide ValidModel, ReferencesCover, FindTab, TabLeq;
    forall i | 0 <= i < |s.matchedKeys| ensures Records(s)[i].key == s.matchedKeys[i] {
      FindTabFinds(s.baseline.tabs, s.matchedKeys[i]);
    }
  }

  // ---------------------------------------------------------------- projections

  function Full<X>(detail: SnapshotDetail, value: Option<X>): Option<X> {
    if detail.Full? then value else None
  }

  function NonEmpty(text: Option<string>): Option<string> {
    if text == Some("") then None else text
  }

  function ProjectTab(s: StoredSnapshot, tab: BaselineTab): SnapshotTab
    requires Resolves(s, tab)
  {
    var d := s.detail;
    SnapshotTab(
      s.references.tabs[tab.key], NonEmpty(tab.title), NonEmpty(tab.url),
      tab.active, tab.pinned, tab.discarded,
      if d.Full? || tab.frozen == Some(true) then tab.frozen else None,
      Full(d, NonEmpty(tab.pendingUrl)), Full(d, Some(tab.highlighted)), Full(d, tab.audible), Full(d, tab.muted),
      Full(d, if tab.status.Some? then Some(tab.status.value == "loading") else None),
      Full(d, tab.autoDiscardable), Full(d, tab.lastAccessed),
      Full(d, if tab.openerKey.Some? then Some(s.references.tabs[tab.openerKey.value]) else None),
      Full(d, NonEmpty(tab.favIconUrl)))
  }

  function ShowWindow(s: StoredSnapshot, windowKey: string, partial: bool): Labelled<WindowInfo>
    requires windowKey in s.references.windows && FindWindow(s.baseline.windows, windowKey).Some?
  {
    var w, d := FindWindow(s.baseline.windows, windowKey).value, s.detail;
    Labelled(s.references.windows[windowKey],
      WindowInfo(w.focused, partial, Full(d, w.top), Full(d, w.left), Full(d, w.width), Full(d, w.height),
        Full(d, w.windowType), Full(d, w.state), Full(d, w.alwaysOnTop)))
  }

  function ShowGroup(s: StoredSnapshot, groupKey: string, partial: bool): Labelled<GroupInfo>
    requires groupKey in s.references.groups && FindGroup(s.baseline.groups, groupKey).Some?
  {
    var g, d := FindGroup(s.baseline.groups, groupKey).value, s.detail;
    Labelled(s.references.groups[groupKey],
      GroupInfo(NonEmpty(g.title), g.color, partial, Full(d, Some(g.collapsed)), Full(d, g.shared)))
  }

  // ---------------------------------------------------------------- the page that is meant

  /** Some matched tab of the window is on another page than matched tabs lo .. hi. */
  ghost predicate WindowGoesOn(s: StoredSnapshot, lo: nat, hi: nat, windowKey: string)
    requires KeysFound(s)
  {
    exists i :: 0 <= i < |Records(s)| && !(lo <= i < hi) && Records(s)[i].windowKey == windowKey
  }

  ghost predicate GroupGoesOn(s: StoredSnapshot, lo: nat, hi: nat, groupKey: string)
    requires KeysFound(s)
  {
    exists i :: 0 <= i < |Records(s)| && !(lo <= i < hi) && Records(s)[i].groupKey == Some(groupKey)
  }

  ghost function EntryOf(s: StoredSnapshot, lo: nat, hi: nat, tab: BaselineTab): PageEntry
    requires KeysFound(s) && Resolves(s, tab)
  {
    Entry(
      ShowWindow(s, tab.windowKey, WindowGoesOn(s, lo, hi, tab.windowKey)),
      if tab.groupKey.None? then None
      else Some(ShowGroup(s, tab.groupKey.value, GroupGoesOn(s, lo, hi, tab.groupKey.value))),
      ProjectTab(s, tab))
  }

  /** The first n entries of the page of matched tabs lo .. hi. */
  ghost function Entries(s: StoredSnapshot, lo: nat, hi: nat, n: nat): (entries: seq<PageEntry>)
    requires AllResolve(s) && lo + n <= hi <= |s.matchedKeys|
    ensures |entries| == n
    ensures forall i :: 0 <= i < n ==> entries[i] == EntryOf(s, lo, hi, Records(s)[lo + i])
  {
    seq(n, i requires 0 <= i < n => EntryOf(s, lo, hi, Records(s)[lo + i]))
  }

  function PageEnd(s: StoredSnapshot, offset: nat): nat {
    Min(SaturatingAdd(offset, s.limit), |s.matchedKeys|)
  }

  function NextCursor(s: StoredSnapshot, offset: nat): Option<Name> {
    var end := PageEnd(s, offset);
    if end < |s.matchedKeys| && end in s.cursorByOffset then Some(s.cursorByOffset[end]) else None
  }

  ghost function PageEntries(s: StoredSnapshot, offset: nat): seq<PageEntry>
    requires AllResolve(s) && offset <= PageEnd(s, offset)
  {
    Entries(s, offset, PageEnd(s, offset), PageEnd(s, offset) - offset)
  }

  /** The page at an offset: its tabs with their headers, regrouped. */
  ghost function PageOf(s: StoredSnapshot, offset: nat): SnapshotPage
    requires AllResolve(s) && offset <= PageEnd(s, offset)
  {
    SnapshotPage(s.snapshotRef, s.baseline.capturedAt, |s.matchedKeys|, Regroup(PageEntries(s, offset)), NextCursor(s, offset))
  }

  // ---------------------------------------------------------------- counting decides `partial`

  function MatchedInWindow(windowKey: string, keys: set<string>): BaselineTab -> bool {
    (t: BaselineTab) => t.windowKey == windowKey && t.key in keys
  }

  function MatchedInGroup(groupKey: string, keys: set<string>): BaselineTab -> bool {
    (t: BaselineTab) => t.groupKey == Some(groupKey) && t.key in keys
  }

  function KeyInWindow(b: Baseline, windowKey: string): string -> bool {
    (key: string) => FindTab(b.tabs, key).Some? && FindTab(b.tabs, key).value.windowKey == windowKey
  }

  function KeySet(keys: seq<string>): set<string> {
    set k | k in keys
  }

  lemma ModelTabsDistinct(b: Baseline)
    requires ValidModel(b)
    ensures NoRepeats(b.tabs)
  {
    assert TabIdentities(b, b.tabs);
  }

  /** A matched key with its position and its record. */
  lemma MatchedKey(s: StoredSnapshot, t: BaselineTab) returns (i: nat)
    requires StoredOk(s) && t in s.baseline.tabs && t.key in s.matchedKeys
    ensures i < |s.matchedKeys| && s.matchedKeys[i] == t.key && Records(s)[i] == t
  {
    i :| 0 <= i < |s.matchedKeys| && s.matchedKeys[i] == t.key;
    LookupsInBounds(s.baseline, t);
  }

  lemma OnPage(s: StoredSnapshot, lo: nat, hi: nat, i: nat)
    requires StoredOk(s) && lo <= hi <= |s.matchedKeys| && i < |s.matchedKeys|
    ensures s.matchedKeys[i] in KeySet(s.matchedKeys[lo..hi]) <==> lo <= i < hi
  {
    KeysDistinct(s);
    hide StoredOk, Records;
    if lo <= i < hi { assert s.matchedKeys[lo..hi][i - lo] == s.matchedKeys[i]; }
  }

  /** The keys of a window on a page are as many as its tabs on the page. */
  lemma PageKeysInWindow(s: StoredSnapshot, lo: nat, hi: nat, windowKey: string)
    requires StoredOk(s) && lo <= hi <= |s.matchedKeys|
    ensures CountIf(s.matchedKeys[lo..hi], KeyInWindow(s.baseline, windowKey))
      == |Chosen(s.baseline.tabs, MatchedInWindow(windowKey, KeySet(s.matchedKeys[lo..hi])))|
  {
    var keys := s.matchedKeys[lo..hi];
    var b := s.baseline;
    KeysDistinct(s);
    CountIsCardinality(keys, KeyInWindow(b, windowKey));
    var tabs := Chosen(b.tabs, MatchedInWindow(windowKey, KeySet(keys)));
    var image := Chosen(keys, KeyInWindow(b, windowKey));
    forall t, u | t in tabs && u in tabs && t.key == u.key ensures t == u { SameKeySameTab(b, t, u); }
    forall t | t in tabs ensures t.key in image { LookupsInBounds(b, t); }
    forall key | key in image ensures exists t :: t in tabs && t.key == key {
      FindTabFinds(b.tabs, key);
      assert FindTab(b.tabs, key).value in tabs;
    }
    hide StoredOk, Chosen, KeyInWindow, CountIf;
    ImageCardinality(tabs, (t: BaselineTab) => t.key, image);
  }

  /** What is missing from a page of a window is what lies on other pages. */
  lemma WindowSets(s: StoredSnapshot, lo: nat, hi: nat, windowKey: string, part: set<BaselineTab>, whole: set<BaselineTab>)
    requires StoredOk(s) && lo <= hi <= |s.matchedKeys|
    requires part == Chosen(s.baseline.tabs, MatchedInWindow(windowKey, KeySet(s.matchedKeys[lo..hi])))
    requires whole == Chosen(s.baseline.tabs, MatchedInWindow(windowKey, KeySet(s.matchedKeys)))
    ensures part <= whole
    ensures (exists t :: t in whole && t !in part) <==> WindowGoesOn(s, lo, hi, windowKey)
  {
    hide ValidModel, ReferencesCover, StrictlyOrdered;
    if WindowGoesOn(s, lo, hi, windowKey) {
      var i: nat :| i < |Records(s)| && !(lo <= i < hi) && Records(s)[i].windowKey == windowKey;
      KeysDistinct(s);
      OnPage(s, lo, hi, i);
      assert Records(s)[i] in whole && Records(s)[i] !in part;
    }
    if t :| t in whole && t !in part {
      var i := MatchedKey(s, t);
      OnPage(s, lo, hi, i);
      assert Records(s)[i].windowKey == windowKey && !(lo <= i < hi);
    }
  }

  /** The renderer compares counts; what they decide is whether the window goes on elsewhere. */
  lemma WindowCounts(s: StoredSnapshot, lo: nat, hi: nat, windowKey: string)
    requires StoredOk(s) && lo <= hi <= |s.matchedKeys|
    ensures
      CountIf(s.matchedKeys[lo..hi], KeyInWindow(s.baseline, windowKey))
        < CountIf(s.baseline.tabs, MatchedInWindow(windowKey, KeySet(s.matchedKeys)))
      <==> WindowGoesOn(s, lo, hi, windowKey)
  {
    var b, page := s.baseline, KeySet(s.matchedKeys[lo..hi]);
    var part := Chosen(b.tabs, MatchedInWindow(windowKey, page));
    var whole := Chosen(b.tabs, MatchedInWindow(windowKey, KeySet(s.matchedKeys)));
    PageKeysInWindow(s, lo, hi, windowKey);
    ModelTabsDistinct(b);
    CountIsCardinality(b.tabs, MatchedInWindow(windowKey, KeySet(s.matchedKeys)));
    WindowSets(s, lo, hi, windowKey, part, whole);
    hide CountIf, StoredOk, WindowGoesOn, Chosen;
    FewerIffMissing(part, whole);
  }

  /** What is missing from a page of a group is what lies on other pages. */
  lemma GroupSets(s: StoredSnapshot, lo: nat, hi: nat, groupKey: string, part: set<BaselineTab>, whole: set<BaselineTab>)
    requires StoredOk(s) && lo <= hi <= |s.matchedKeys|
    requires part == Chosen(s.baseline.tabs, MatchedInGroup(groupKey, KeySet(s.matchedKeys[lo..hi])))
    requires whole == Chosen(s.baseline.tabs, MatchedInGroup(groupKey, KeySet(s.matchedKeys)))
    ensures part <= whole
    ensures (exists t :: t in whole && t !in part) <==> GroupGoesOn(s, lo, hi, groupKey)
  {
    hide ValidModel, ReferencesCover, StrictlyOrdered;
    if GroupGoesOn(s, lo, hi, groupKey) {
      var i: nat :| i < |Records(s)| && !(lo <= i < hi) && Records(s)[i].groupKey == Some(groupKey);
      KeysDistinct(s);
      OnPage(s, lo, hi, i);
      assert Records(s)[i] in whole && Records(s)[i] !in part;
    }
    if t :| t in whole && t !in part {
      var i := MatchedKey(s, t);
      OnPage(s, lo, hi, i);
      assert Records(s)[i].groupKey == Some(groupKey) && !(lo <= i < hi);
    }
  }

  lemma GroupCounts(s: StoredSnapshot, lo: nat, hi: nat, groupKey: string)
    requires StoredOk(s) && lo <= hi <= |s.matchedKeys|
    ensures
      CountIf(s.baseline.tabs, MatchedInGroup(groupKey, KeySet(s.matchedKeys[lo..hi])))
        < CountIf(s.baseline.tabs, MatchedInGroup(groupKey, KeySet(s.matchedKeys)))
      <==> GroupGoesOn(s, lo, hi, groupKey)
  {
    var b, page := s.baseline, KeySet(s.matchedKeys[lo..hi]);
    var part := Chosen(b.tabs, MatchedInGroup(groupKey, page));
    var whole := Chosen(b.tabs, MatchedInGroup(groupKey, KeySet(s.matchedKeys)));
    ModelTabsDistinct(b);
    CountIsCardinality(b.tabs, MatchedInGroup(groupKey, page));
    CountIsCardinality(b.tabs, MatchedInGroup(groupKey, KeySet(s.matchedKeys)));
    GroupSets(s, lo, hi, groupKey, part, whole);
    hide CountIf, StoredOk, GroupGoesOn, Chosen;
    FewerIffMissing(part, whole);
  }
}

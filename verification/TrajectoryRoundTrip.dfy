/** Page to baseline to page: the same nesting, order and compact fields, under fresh references. */
module TrajectoryRoundTrip {
  import opened Wrappers
  import opened Sorting
  import opened Baselines
  import opened Hierarchy
  import opened Snapshots
  import opened SnapshotPages
  import opened SnapshotTheorems
  import opened TrajectoryMeasure
  import opened TrajectoryLayout
  import opened TrajectoryBaseline
  import R = Runtime
  import Steps = BrokerRuntimes
  import S = SnapshotCounts

  // ---------------------------------------------------------------- hierarchies without their references

  function BareLabel<L>(header: Labelled<L>): Labelled<L> { Labelled(0, header.info) }

  function BareTab(tab: SnapshotTab): SnapshotTab { tab.(reference := 0) }

  function BareTabs(tabs: seq<SnapshotTab>): seq<SnapshotTab> {
    seq(|tabs|, i requires 0 <= i < |tabs| => BareTab(tabs[i]))
  }

  function BareItem(item: PageItem): PageItem {
    match item
    case GroupItem(header, tabs) => GroupItem(BareLabel(header), BareTabs(tabs))
    case TabItem(tab) => TabItem(BareTab(tab))
  }

  function BareItems(items: seq<PageItem>): seq<PageItem> {
    seq(|items|, i requires 0 <= i < |items| => BareItem(items[i]))
  }

  function BareNode(node: PageWindow): PageWindow { WindowNode(BareLabel(node.header), BareItems(node.items)) }

  function BareWindows(windows: seq<PageWindow>): seq<PageWindow> {
    seq(|windows|, i requires 0 <= i < |windows| => BareNode(windows[i]))
  }

  function BareEntry(e: PageEntry): PageEntry {
    Entry(BareLabel(e.window), if e.group.Some? then Some(BareLabel(e.group.value)) else None, BareTab(e.tab))
  }

  lemma BareItemsPush(items: seq<PageItem>, item: PageItem)
    ensures BareItems(items + [item]) == BareItems(items) + [BareItem(item)]
  {
  }

  lemma BareWindowsPush(windows: seq<PageWindow>, node: PageWindow)
    ensures BareWindows(windows + [node]) == BareWindows(windows) + [BareNode(node)]
  {
  }

  lemma BareEnds(a: seq<PageWindow>, b: seq<PageWindow>)
    requires BareWindows(a) == BareWindows(b)
    ensures |a| == |b|
    ensures a != [] ==> BareWindows(Front(a)) == BareWindows(Front(b)) && BareNode(Last(a)) == BareNode(Last(b))
  {
    assert |BareWindows(a)| == |BareWindows(b)|;
    if a != [] {
      assert BareWindows(a)[|a| - 1] == BareWindows(b)[|b| - 1];
      forall i | 0 <= i < |a| - 1 ensures BareNode(a[i]) == BareNode(b[i]) { assert BareWindows(a)[i] == BareWindows(b)[i]; }
    }
  }

  lemma BareItemEnds(a: seq<PageItem>, b: seq<PageItem>)
    requires BareItems(a) == BareItems(b)
    ensures |a| == |b|
    ensures a != [] ==> BareItems(Front(a)) == BareItems(Front(b)) && BareItem(Last(a)) == BareItem(Last(b))
  {
    assert |BareItems(a)| == |BareItems(b)|;
    if a != [] {
      assert BareItems(a)[|a| - 1] == BareItems(b)[|b| - 1];
      forall i | 0 <= i < |a| - 1 ensures BareItem(a[i]) == BareItem(b[i]) { assert BareItems(a)[i] == BareItems(b)[i]; }
    }
  }

  lemma BareTabsPush(tabs: seq<SnapshotTab>, tab: SnapshotTab)
    ensures BareTabs(tabs + [tab]) == BareTabs(tabs) + [BareTab(tab)]
  {
  }

  /** Adding like tabs in the same way to like item lists gives like item lists. */
  lemma AddItemAlike(a: seq<PageItem>, b: seq<PageItem>, d: PageEntry, e: PageEntry)
    requires BareItems(a) == BareItems(b) && BareEntry(d) == BareEntry(e)
    requires JoinsGroup(a, d.group) <==> JoinsGroup(b, e.group)
    ensures BareItems(AddItem(a, d.group, d.tab)) == BareItems(AddItem(b, e.group, e.tab))
  {
    BareItemEnds(a, b);
    if JoinsGroup(a, d.group) {
      BareTabsPush(Last(a).tabs, d.tab);
      BareTabsPush(Last(b).tabs, e.tab);
      BareItemsPush(Front(a), GroupItem(Last(a).group, Last(a).tabs + [d.tab]));
      BareItemsPush(Front(b), GroupItem(Last(b).group, Last(b).tabs + [e.tab]));
    } else {
      BareItemsPush(a, if d.group.None? then TabItem(d.tab) else GroupItem(d.group.value, [d.tab]));
      BareItemsPush(b, if e.group.None? then TabItem(e.tab) else GroupItem(e.group.value, [e.tab]));
      assert BareTabs([d.tab]) == [BareTab(d.tab)] && BareTabs([e.tab]) == [BareTab(e.tab)];
    }
    hide Front, Last, BareItems, BareTabs;
  }

  lemma AddEntryAlike(a: seq<PageWindow>, b: seq<PageWindow>, d: PageEntry, e: PageEntry)
    requires BareWindows(a) == BareWindows(b) && BareEntry(d) == BareEntry(e)
    requires JoinsWindow(a, d.window) <==> JoinsWindow(b, e.window)
    requires JoinsLast(a, d) <==> JoinsLast(b, e)
    ensures BareWindows(AddEntry(a, d)) == BareWindows(AddEntry(b, e))
  {
    BareEnds(a, b);
    hide JoinsGroup, AddItem, BareItems, BareWindows;
    if JoinsWindow(a, d.window) {
      AddItemAlike(Last(a).items, Last(b).items, d, e);
      BareWindowsPush(Front(a), WindowNode(Last(a).header, AddItem(Last(a).items, d.group, d.tab)));
      BareWindowsPush(Front(b), WindowNode(Last(b).header, AddItem(Last(b).items, e.group, e.tab)));
    } else {
      NothingJoins(d, e);
      AddItemAlike([], [], d, e);
      BareWindowsPush(a, WindowNode(d.window, AddItem([], d.group, d.tab)));
      BareWindowsPush(b, WindowNode(e.window, AddItem([], e.group, e.tab)));
    }
    hide Front, Last;
  }

  lemma NothingJoins(d: PageEntry, e: PageEntry)
    ensures !JoinsGroup<GroupInfo, SnapshotTab>([], d.group) && !JoinsGroup<GroupInfo, SnapshotTab>([], e.group)
  {
  }

  // ---------------------------------------------------------------- lists of like entries regroup alike

  ghost predicate Alike(a: seq<PageEntry>, b: seq<PageEntry>, k: nat)
    requires k < |a| == |b|
  {
    && BareEntry(a[k]) == BareEntry(b[k])
    && (k > 0 ==>
          && (InWindow(a[k - 1], a[k]) <==> InWindow(b[k - 1], b[k]))
          && (InGroup(a[k - 1], a[k]) <==> InGroup(b[k - 1], b[k])))
  }

  ghost predicate AllAlike(a: seq<PageEntry>, b: seq<PageEntry>) {
    |a| == |b| && forall k :: 0 <= k < |a| ==> Alike(a, b, k)
  }

  lemma {:induction false} RegroupEndsLike(flat: seq<PageEntry>)
    ensures EndsLike(Regroup(flat), flat)
  {
    if flat != [] {
      EndsLikeStep(Regroup(Front(flat)), Front(flat), Last(flat));
      Popped(flat);
    }
  }

  lemma AlikeFront(a: seq<PageEntry>, b: seq<PageEntry>)
    requires AllAlike(a, b) && a != []
    ensures AllAlike(Front(a), Front(b))
    ensures BareEntry(Last(a)) == BareEntry(Last(b))
    ensures Front(a) != [] <==> Front(b) != []
    ensures Front(a) != [] ==>
      && (InWindow(Last(Front(a)), Last(a)) <==> InWindow(Last(Front(b)), Last(b)))
      && (InGroup(Last(Front(a)), Last(a)) <==> InGroup(Last(Front(b)), Last(b)))
  {
    assert Alike(a, b, |a| - 1);
    forall k | 0 <= k < |a| - 1 ensures Alike(Front(a), Front(b), k) { assert Alike(a, b, k); }
  }

  /** What a hierarchy looks like depends only on what its entries look like and which neighbours belong together. */
  lemma {:induction false} RegroupAlike(a: seq<PageEntry>, b: seq<PageEntry>)
    requires AllAlike(a, b)
    ensures BareWindows(Regroup(a)) == BareWindows(Regroup(b))
  {
    if a != [] {
      AlikeFront(a, b);
      RegroupAlike(Front(a), Front(b));
      RegroupEndsLike(Front(a));
      RegroupEndsLike(Front(b));
      EndsLikeJoins(Regroup(Front(a)), Front(a), Last(a));
      EndsLikeJoins(Regroup(Front(b)), Front(b), Last(b));
      hide Front, Last, BareEntry, BareWindows, AddEntry, EndsLike, JoinsLast, JoinsWindow, InWindow, InGroup;
      AddEntryAlike(Regroup(Front(a)), Regroup(Front(b)), Last(a), Last(b));
    }
  }

  // ---------------------------------------------------------------- what a complete compact page shows

  /** A compact snapshot, without frozen and shared support, whose first page holds every match. */
  ghost predicate OnePage(s: StoredSnapshot) {
    && StoredOk(s) && AllResolve(s) && s.detail == SnapshotDetail.Compact
    && !s.baseline.supportsFrozenTabs && !s.baseline.supportsSharedTabGroups
    && |s.matchedKeys| <= s.limit && |s.matchedKeys| < 0x7FFF_FFFF && 0 <= PageEnd(s, 0)
  }

  lemma WholePage(s: StoredSnapshot)
    requires OnePage(s)
    ensures PageEnd(s, 0) == |s.matchedKeys| && PageEntries(s, 0) == Entries(s, 0, |s.matchedKeys|, |s.matchedKeys|)
    ensures |PageEntries(s, 0)| == |s.matchedKeys| == |Records(s)|
  {
    hide *;
    SizesOf(s);
    PageWindows(s, 0);
  }

  lemma SizesOf(s: StoredSnapshot)
    requires OnePage(s)
    ensures |s.matchedKeys| <= USIZE_MAX && PageEnd(s, 0) == |s.matchedKeys| && |Records(s)| == |s.matchedKeys|
    ensures AllResolve(s) && StoredOk(s)
  {
    hide StoredOk, AllResolve;
  }

  const PLAIN_WINDOW := WindowInfo(false, false, None, None, None, None, None, None, None)

  /** What an entry of such a page shows of its tab. */
  lemma CompactEntry(s: StoredSnapshot, k: nat)
    requires OnePage(s) && k < |s.matchedKeys|
    ensures |PageEntries(s, 0)| == |s.matchedKeys| && KeysFound(s) && |Records(s)| == |s.matchedKeys|
    ensures var e, t := PageEntries(s, 0)[k], Records(s)[k];
      && Resolves(s, t) && t in s.baseline.tabs
      && e.window == Labelled(s.references.windows[t.windowKey], PLAIN_WINDOW.(focused := FindWindow(s.baseline.windows, t.windowKey).value.focused))
      && (e.group.Some? <==> t.groupKey.Some?)
      && (t.groupKey.Some? ==>
            var g := FindGroup(s.baseline.groups, t.groupKey.value).value;
            e.group.value == Labelled(s.references.groups[t.groupKey.value], GroupInfo(NonEmpty(g.title), g.color, false, None, None)))
      && e.tab == SnapshotTab(s.references.tabs[t.key], NonEmpty(t.title), NonEmpty(t.url), t.active, t.pinned, t.discarded,
           None, None, None, None, None, None, None, None, None, None)
  {
    WholePage(s);
    StoredParts(s);
    var t := Records(s)[k];
    RecordResolves(s, k);
    NoFrozen(s, t);
    hide StoredOk, AllResolve, Records, FindWindow, FindGroup, ValidModel, ReferencesCover, StrictlyOrdered, PageEntries;
    assert PageEntries(s, 0)[k] == EntryOf(s, 0, |s.matchedKeys|, Records(s)[0 + k]);
    assert !WindowGoesOn(s, 0, |s.matchedKeys|, t.windowKey);
    assert t.groupKey.Some? ==> !GroupGoesOn(s, 0, |s.matchedKeys|, t.groupKey.value);
  }

  lemma NoFrozen(s: StoredSnapshot, t: BaselineTab)
    requires ValidModel(s.baseline) && !s.baseline.supportsFrozenTabs && t in s.baseline.tabs
    ensures t.frozen.None?
  {
    assert SupportMatches(s.baseline);
    hide ValidModel;
  }

  // ---------------------------------------------------------------- the page, numbered

  lemma {:induction false} FewWindows(entries: seq<PageEntry>)
    ensures |EntryWindows(entries)| <= |entries| && |EntryGroups(entries)| <= |entries|
  {
    if entries == [] {
      assert EntryWindows(entries) == {} && EntryGroups(entries) == {};
    } else {
      FewWindows(Front(entries));
      Popped(entries);
      EntrySets(Front(entries), Last(entries));
    }
  }

  lemma PageIsSmall(s: StoredSnapshot)
    requires OnePage(s)
    ensures var l := PlaceAll(PageOf(s, 0).windows);
      Small(l) && Distinct(HeaderRefs(l.windows)) && Distinct(PlacedGroupRefs(l.groups))
  {
    var windows, entries := PageOf(s, 0).windows, PageEntries(s, 0);
    WholePage(s);
    SizesOf(s);
    PageHierarchy(s, 0);
    PlaceAllHeaders(windows);
    PlaceAllMirrors(windows);
    FewWindows(entries);
    hide OnePage, PageOf, PageEntries, PlaceAll, Flatten, WindowRefs, GroupRefs, EntryWindows, EntryGroups, LayoutOk, Canonical;
    S.DistinctLength(WindowRefs(windows), EntryWindows(entries));
    S.DistinctLength(GroupRefs(windows), EntryGroups(entries));
    assert |HeaderRefs(PlaceAll(windows).windows)| == |PlaceAll(windows).windows|;
    assert |PlacedGroupRefs(PlaceAll(windows).groups)| == |PlaceAll(windows).groups|;
  }

  /** The numbering of such a page mirrors it, lists each of its windows and groups once, and fits 32 bits. */
  ghost predicate Numbers(l: Layout, entries: seq<PageEntry>) {
    && LayoutOk(l) && Follows(l, entries) && Small(l)
    && Distinct(HeaderRefs(l.windows)) && Distinct(PlacedGroupRefs(l.groups)) && Lists(PlacedGroupRefs(l.groups), EntryGroups(entries))
  }

  lemma PageIsNumbered(s: StoredSnapshot)
    requires OnePage(s)
    ensures Numbers(PlaceAll(PageOf(s, 0).windows), PageEntries(s, 0))
  {
    hide *;
    SizesOf(s);
    WholePage(s);
    PageIsSmall(s);
    PageHierarchy(s, 0);
    PlaceAllMirrors(PageOf(s, 0).windows);
    PlaceAllHeaders(PageOf(s, 0).windows);
    OnceParts(PageOf(s, 0).windows, PageEntries(s, 0));
    NumbersIs(PlaceAll(PageOf(s, 0).windows), PageEntries(s, 0));
  }

  lemma OnceParts(windows: seq<PageWindow>, entries: seq<PageEntry>)
    requires OnceEach(windows, entries)
    ensures Lists(GroupRefs(windows), EntryGroups(entries))
  {
  }

  lemma NumbersIs(l: Layout, entries: seq<PageEntry>)
    requires LayoutOk(l) && Follows(l, entries) && Small(l)
    requires Distinct(HeaderRefs(l.windows)) && Distinct(PlacedGroupRefs(l.groups)) && Lists(PlacedGroupRefs(l.groups), EntryGroups(entries))
    ensures Numbers(l, entries)
  {
  }

  lemma RefsApart(l: Layout, i: nat, j: nat)
    requires Distinct(HeaderRefs(l.windows)) && i < |l.windows| && j < |l.windows|
    ensures l.windows[i].reference == l.windows[j].reference <==> i == j
  {
    assert HeaderRefs(l.windows)[i] == l.windows[i].reference && HeaderRefs(l.windows)[j] == l.windows[j].reference;
  }

  lemma GroupRefsApart(l: Layout, i: nat, j: nat)
    requires Distinct(PlacedGroupRefs(l.groups)) && i < |l.groups| && j < |l.groups|
    ensures l.groups[i].header.reference == l.groups[j].header.reference <==> i == j
  {
    assert PlacedGroupRefs(l.groups)[i] == l.groups[i].header.reference && PlacedGroupRefs(l.groups)[j] == l.groups[j].header.reference;
  }

  /** Every group that was numbered is shown by some entry. */
  lemma GroupShown(l: Layout, entries: seq<PageEntry>, g: nat) returns (k: nat)
    requires Numbers(l, entries) && g < |l.groups|
    ensures k < |entries| && entries[k].group == Some(l.groups[g].header)
  {
    var refs := PlacedGroupRefs(l.groups);
    assert refs[g] in EntryGroups(entries);
    var e :| e in entries && e.group.Some? && e.group.value.reference == refs[g];
    k :| 0 <= k < |entries| && entries[k] == e;
    assert TabFollows(l, entries, k);
    var h := l.tabs[k].group.value;
    assert refs[h] == refs[g];
    GroupRefsApart(l, h, g);
  }

  lemma NumberedNoSharing(s: StoredSnapshot, l: Layout)
    requires OnePage(s) && Numbers(l, PageEntries(s, 0))
    ensures NoSharing(l)
  {
    hide StoredOk, AllResolve, Numbers, PageEntries, Records, FindWindow, FindGroup;
    forall g | 0 <= g < |l.groups| ensures l.groups[g].header.info.shared.None? {
      var k := GroupShown(l, PageEntries(s, 0), g);
      assert |PageEntries(s, 0)| == |s.matchedKeys| by { WholePage(s); }
      CompactEntry(s, k);
    }
  }

  lemma FocusOf(s: StoredSnapshot, k: nat)
    requires OnePage(s) && k < |s.matchedKeys|
    ensures |PageEntries(s, 0)| == |s.matchedKeys| && KeysFound(s) && |Records(s)| == |s.matchedKeys|
    ensures PageEntries(s, 0)[k].window.info.focused == WindowFor(s.baseline, Records(s)[k]).focused
  {
    CompactEntry(s, k);
    hide OnePage, PageEntries, Records, FindGroup;
  }

  lemma NumberedFocusFirst(s: StoredSnapshot, l: Layout)
    requires OnePage(s) && Numbers(l, PageEntries(s, 0))
    ensures FocusFirst(l)
  {
    var entries := PageEntries(s, 0);
    WholePage(s);
    StoredParts(s);
    assert Follows(l, entries);
    hide OnePage, Numbers, PageEntries, Records, WindowFor, ValidModel, ReferencesCover, LayoutOk, Small;
    forall i, j | 0 <= i < j < |l.tabs| && l.tabs[j].window < |l.windows| && l.windows[l.tabs[j].window].info.focused
      ensures l.tabs[i].window < |l.windows| && l.windows[l.tabs[i].window].info.focused
    {
      assert TabFollows(l, entries, i) && TabFollows(l, entries, j);
      FocusOf(s, i);
      FocusOf(s, j);
      assert TabLeq(s.baseline, Records(s)[i], Records(s)[j]);
    }
  }

  /** A page that holds everything can be turned into a baseline, which passes validation. */
  lemma PageMakesValidBaseline(s: StoredSnapshot)
    requires OnePage(s) && !IsBlank(s.baseline.capturedAt)
    ensures var page := PageOf(s, 0);
      ValidBaseline(NativeBaseline(PlaceAll(page.windows), Some(page.capturedAt)), SYNTHETIC_BROWSER)
  {
    var l := PlaceAll(PageOf(s, 0).windows);
    PageIsNumbered(s);
    NumberedNoSharing(s, l);
    assert PageOf(s, 0).capturedAt == s.baseline.capturedAt by { CapturedAtShown(s); }
    hide OnePage, PageOf, PlaceAll, NoSharing, LayoutOk, Follows;
    NativeIsValid(l, Some(s.baseline.capturedAt));
  }

  lemma CapturedAtShown(s: StoredSnapshot)
    requires OnePage(s)
    ensures PageOf(s, 0).capturedAt == s.baseline.capturedAt
  {
  }

  // ---------------------------------------------------------------- rendering the baseline again

  /** Every tab of the baseline made from the page is found where it was numbered. */
  lemma FoundAgain(l: Layout, b: Baseline, k: nat)
    requires LayoutOk(l) && ValidModel(b) && b.windows == NativeWindows(l) && b.groups == NativeGroups(l) && b.tabs == NativeTabs(l) && k < |l.tabs|
    ensures var p := l.tabs[k];
      && p.window < |l.windows| && FindWindow(b.windows, WindowKey(p.window)) == Some(NativeWindow(l.windows[p.window], p.window))
      && (p.group.Some? ==>
            && p.group.value < |l.groups|
            && FindGroup(b.groups, GroupKey(p.group.value)) == Some(NativeGroup(l.groups[p.group.value], p.group.value)))
  {
    var p := l.tabs[k];
    assert TabPlaced(l, k);
    LookupsInBounds(b, b.tabs[k]);
    hide LayoutOk, ValidModel, WindowKey, GroupKey, TabKey, FindTab;
    assert b.windows[p.window] in b.windows;
    SameIdSameWindow(b, FindWindow(b.windows, WindowKey(p.window)).value, b.windows[p.window]);
    if p.group.Some? {
      assert b.groups[p.group.value] in b.groups;
      SameKeySameGroup(b, FindGroup(b.groups, GroupKey(p.group.value)).value, b.groups[p.group.value]);
    }
  }

  /** `again` is a rendering of the baseline made from the page of `s`. */
  ghost predicate RendersAgain(s: StoredSnapshot, again: StoredSnapshot, l: Layout) {
    && OnePage(s) && OnePage(again) && Numbers(l, PageEntries(s, 0))
    && again.baseline.windows == NativeWindows(l) && again.baseline.groups == NativeGroups(l) && again.baseline.tabs == NativeTabs(l)
    && Records(again) == again.baseline.tabs
  }

  lemma AgainParts(s: StoredSnapshot, again: StoredSnapshot, l: Layout)
    requires RendersAgain(s, again, l)
    ensures OnePage(s) && OnePage(again) && Numbers(l, PageEntries(s, 0))
    ensures ValidModel(again.baseline) && ReferencesCover(again.references, again.baseline) && KeysFound(again)
    ensures |PageEntries(s, 0)| == |PageEntries(again, 0)| == |l.tabs| == |s.matchedKeys| == |again.matchedKeys|
  {
    WholePage(s);
    WholePage(again);
    StoredParts(again);
    hide OnePage, PageEntries, ValidModel, ReferencesCover, LayoutOk, Small;
  }

  /** Entry k of the second page shows the window, group and tab that were numbered. */
  lemma ShownAgain(again: StoredSnapshot, l: Layout, k: nat)
    requires OnePage(again) && LayoutOk(l) && Records(again) == again.baseline.tabs && k < |l.tabs| == |PageEntries(again, 0)| == |again.matchedKeys|
    requires again.baseline.windows == NativeWindows(l) && again.baseline.groups == NativeGroups(l) && again.baseline.tabs == NativeTabs(l)
    ensures var e, p := PageEntries(again, 0)[k], l.tabs[k];
      && p.window < |l.windows| && WindowKey(p.window) in again.references.windows
      && e.window == Labelled(again.references.windows[WindowKey(p.window)], PLAIN_WINDOW.(focused := l.windows[p.window].info.focused))
      && (e.group.Some? <==> p.group.Some?)
      && (p.group.Some? ==>
            && p.group.value < |l.groups| && GroupKey(p.group.value) in again.references.groups
            && var g := l.groups[p.group.value].header.info;
               e.group.value == Labelled(again.references.groups[GroupKey(p.group.value)], GroupInfo(NonEmpty(g.title), g.color, false, None, None)))
      && BareTab(e.tab) == SnapshotTab(0, NonEmpty(p.tab.title), NonEmpty(p.tab.url), p.tab.active, p.tab.pinned, p.tab.discarded,
           None, None, None, None, None, None, None, None, None, None)
  {
    StoredParts(again);
    FoundAgain(l, again.baseline, k);
    CompactEntry(again, k);
    assert Records(again)[k] == NativeTab(l.tabs[k], k);
    hide OnePage, PageEntries, Records, FindWindow, FindGroup, ValidModel, ReferencesCover, LayoutOk, NativeWindows, NativeGroups, NativeTabs, StoredOk, AllResolve;
    hide WindowKey, GroupKey, TabKey;
  }

  /** Entry k of the first page shows the window, group and tab that were numbered. */
  lemma ShownFirst(s: StoredSnapshot, l: Layout, k: nat)
    requires OnePage(s) && Numbers(l, PageEntries(s, 0)) && k < |l.tabs| == |PageEntries(s, 0)| == |s.matchedKeys|
    ensures var d, p := PageEntries(s, 0)[k], l.tabs[k];
      && p.window < |l.windows| && d.window == l.windows[p.window]
      && d.window.info == PLAIN_WINDOW.(focused := d.window.info.focused)
      && (d.group.Some? <==> p.group.Some?)
      && (p.group.Some? ==>
            && p.group.value < |l.groups| && d.group.value == l.groups[p.group.value].header
            && var g := d.group.value.info; g == GroupInfo(NonEmpty(g.title), g.color, false, None, None))
      && d.tab == p.tab
      && BareTab(d.tab) == SnapshotTab(0, NonEmpty(p.tab.title), NonEmpty(p.tab.url), p.tab.active, p.tab.pinned, p.tab.discarded,
           None, None, None, None, None, None, None, None, None, None)
  {
    assert TabFollows(l, PageEntries(s, 0), k);
    CompactEntry(s, k);
    hide OnePage, Numbers, PageEntries, Records, FindWindow, FindGroup, StoredOk, AllResolve, LayoutOk;
  }

  lemma EntryAgain(s: StoredSnapshot, again: StoredSnapshot, l: Layout, k: nat)
    requires RendersAgain(s, again, l) && k < |l.tabs| == |PageEntries(s, 0)| == |PageEntries(again, 0)|
    ensures var d, e, p := PageEntries(s, 0)[k], PageEntries(again, 0)[k], l.tabs[k];
      && BareEntry(d) == BareEntry(e)
      && p.window < |l.windows| && d.window.reference == l.windows[p.window].reference
      && WindowKey(p.window) in again.references.windows && e.window.reference == again.references.windows[WindowKey(p.window)]
      && (d.group.Some? <==> p.group.Some?) && (e.group.Some? <==> p.group.Some?)
      && (p.group.Some? ==>
            && p.group.value < |l.groups| && d.group.value.reference == l.groups[p.group.value].header.reference
            && GroupKey(p.group.value) in again.references.groups
            && e.group.value.reference == again.references.groups[GroupKey(p.group.value)])
  {
    AgainParts(s, again, l);
    assert LayoutOk(l) && OnePage(again) && OnePage(s);
    hide RendersAgain, OnePage, Numbers, PageEntries, Records, LayoutOk, NativeWindows, NativeGroups, NativeTabs, WindowKey, GroupKey, NonEmpty, ValidModel, ReferencesCover;
    ShownFirst(s, l, k);
    ShownAgain(again, l, k);
  }

  /** How one numbered tab appears on the first page and on the second. */
  ghost predicate ShownTwice(l: Layout, references: SnapshotReferences, p: Placed, d: PageEntry, e: PageEntry) {
    && p.window < |l.windows| && d.window.reference == l.windows[p.window].reference
    && WindowKey(p.window) in references.windows && e.window.reference == references.windows[WindowKey(p.window)]
    && (d.group.Some? <==> p.group.Some?) && (e.group.Some? <==> p.group.Some?)
    && (p.group.Some? ==>
          && p.group.value < |l.groups| && d.group.value.reference == l.groups[p.group.value].header.reference
          && GroupKey(p.group.value) in references.groups
          && e.group.value.reference == references.groups[GroupKey(p.group.value)])
  }

  /** Both pages tell the same neighbours apart: each by references that no two windows or groups share. */
  lemma NeighboursAlike(l: Layout, references: SnapshotReferences, p: Placed, q: Placed, d: PageEntry, e: PageEntry, f: PageEntry, g: PageEntry)
    requires ShownTwice(l, references, p, d, f) && ShownTwice(l, references, q, e, g)
    requires Injective(references.windows) && Injective(references.groups)
    requires Distinct(HeaderRefs(l.windows)) && Distinct(PlacedGroupRefs(l.groups))
    ensures (InWindow(d, e) <==> InWindow(f, g)) && (InGroup(d, e) <==> InGroup(f, g))
  {
    KeysDiffer(p.window, q.window);
    RefsApart(l, p.window, q.window);
    if p.group.Some? && q.group.Some? {
      KeysDiffer(p.group.value, q.group.value);
      GroupRefsApart(l, p.group.value, q.group.value);
    }
    hide WindowKey, GroupKey, TabKey, HeaderRefs, PlacedGroupRefs, Distinct;
  }

  lemma RefsInjective(references: SnapshotReferences, b: Baseline)
    requires ReferencesCover(references, b)
    ensures Injective(references.windows) && Injective(references.groups)
  {
    hide Injective;
  }

  lemma NumbersDistinct(l: Layout, entries: seq<PageEntry>)
    requires Numbers(l, entries)
    ensures Distinct(HeaderRefs(l.windows)) && Distinct(PlacedGroupRefs(l.groups))
  {
    hide LayoutOk, Follows, Distinct;
  }

  lemma NeighboursAgain(s: StoredSnapshot, again: StoredSnapshot, l: Layout, k: nat)
    requires RendersAgain(s, again, l) && 0 < k < |l.tabs| == |PageEntries(s, 0)| == |PageEntries(again, 0)|
    ensures InWindow(PageEntries(s, 0)[k - 1], PageEntries(s, 0)[k]) <==> InWindow(PageEntries(again, 0)[k - 1], PageEntries(again, 0)[k])
    ensures InGroup(PageEntries(s, 0)[k - 1], PageEntries(s, 0)[k]) <==> InGroup(PageEntries(again, 0)[k - 1], PageEntries(again, 0)[k])
  {
    hide *;
    AgainParts(s, again, l);
    SizesOf(s);
    SizesOf(again);
    EntryTwice(s, again, l, k - 1);
    EntryTwice(s, again, l, k);
    RefsInjective(again.references, again.baseline);
    NumbersDistinct(l, PageEntries(s, 0));
    NeighboursAlike(l, again.references, l.tabs[k - 1], l.tabs[k],
      PageEntries(s, 0)[k - 1], PageEntries(s, 0)[k], PageEntries(again, 0)[k - 1], PageEntries(again, 0)[k]);
  }

  lemma EntryTwice(s: StoredSnapshot, again: StoredSnapshot, l: Layout, k: nat)
    requires RendersAgain(s, again, l) && k < |l.tabs| == |PageEntries(s, 0)| == |PageEntries(again, 0)|
    ensures ShownTwice(l, again.references, l.tabs[k], PageEntries(s, 0)[k], PageEntries(again, 0)[k])
  {
    EntryAgain(s, again, l, k);
    hide RendersAgain, PageEntries, WindowKey, GroupKey, OnePage, Numbers, BareEntry;
  }

  lemma RendersAlike(s: StoredSnapshot, again: StoredSnapshot, l: Layout)
    requires RendersAgain(s, again, l)
    ensures BareWindows(PageOf(again, 0).windows) == BareWindows(PageOf(s, 0).windows)
  {
    AgainParts(s, again, l);
    SizesOf(s);
    SizesOf(again);
    PageWindows(s, 0);
    PageWindows(again, 0);
    hide RendersAgain, OnePage, PageEntries, PageOf, BareWindows, Regroup, BareEntry, InWindow, InGroup, StoredOk, AllResolve;
    var a, b := PageEntries(s, 0), PageEntries(again, 0);
    forall k | 0 <= k < |a| ensures Alike(a, b, k) {
      EntryAgain(s, again, l, k);
      if k > 0 { NeighboursAgain(s, again, l, k); }
    }
    RegroupAlike(a, b);
  }

  // ---------------------------------------------------------------- the round trip

  const NO_FILTER := SnapshotParams(None, None, None, None, None, None, None, None, None, None)

  lemma {:induction false} FilterAll(tabs: seq<BaselineTab>, selected: BaselineTab -> bool)
    requires forall t :: t in tabs ==> selected(t)
    ensures Filter(tabs, selected) == tabs
  {
    if tabs != [] {
      FilterAll(tabs[1..], selected);
      assert tabs == [tabs[0]] + tabs[1..];
    }
  }

  /** Without a filter every tab of a baseline in snapshot order is matched, in that order. */
  lemma UnfilteredMatches(b: Baseline, references: SnapshotReferences, limit: nat, textMatches: (string, BaselineTab) -> bool)
    requires StrictlyOrdered(b, b.tabs)
    ensures MatchedTabs(b, references, NO_FILTER.(limit := Some(limit)), textMatches) == Success(KeysOf(b.tabs))
  {
    var params := NO_FILTER.(limit := Some(limit));
    var selected := (tab: BaselineTab) => Selects(params, None, None, None, textMatches, tab);
    FilterAll(b.tabs, selected);
    assert SortedBy(b.tabs, OrderOf(b));
    SortOfSorted(b.tabs, OrderOf(b));
    assert MatchedRecords(b, selected) == b.tabs;
    hide TabLeq, Filter, Sort, KeysOf;
    assert MatchedTabs(b, references, params, textMatches)
      == Success(KeysOf(MatchedRecords(b, tab => Selects(params, None, None, None, textMatches, tab))));
  }

  /** The baseline of a numbered page, captured unfiltered: everything matches, in order, on one page again. */
  lemma CaptureAgain(l: Layout, b: Baseline, references: SnapshotReferences, limit: nat, snapshotRef: Name, textMatches: (string, BaselineTab) -> bool)
    returns (again: StoredSnapshot)
    requires LayoutOk(l) && Small(l) && FocusFirst(l) && ValidModel(b) && ReferencesCover(references, b)
    requires b.windows == NativeWindows(l) && b.tabs == NativeTabs(l) && !b.supportsFrozenTabs && !b.supportsSharedTabGroups
    requires 1 <= limit <= R.MAX_LIMIT && |l.tabs| <= limit
    ensures again == R.StoredFor(b, references, KeysOf(b.tabs), NO_FILTER.(limit := Some(limit)), snapshotRef)
    ensures MatchedTabs(b, references, NO_FILTER.(limit := Some(limit)), textMatches) == Success(KeysOf(b.tabs))
    ensures OnePage(again) && Records(again) == b.tabs
  {
    var params := NO_FILTER.(limit := Some(limit));
    assert R.ParamsValid(params);
    again := R.StoredFor(b, references, KeysOf(b.tabs), params, snapshotRef);
    assert |again.matchedKeys| == |l.tabs| && again.limit == limit && again.detail == SnapshotDetail.Compact && again.baseline == b;
    hide *;
    NativeInOrder(l, b);
    UnfilteredMatches(b, references, limit, textMatches);
    Steps.BuiltIsOk(again, b, references, params, textMatches, KeysOf(b.tabs), snapshotRef);
    Steps.RecordsAre(again, b.tabs);
    AgainIsOnePage(again);
  }

  /** Building a baseline from a complete compact page and rendering it again, unfiltered, under any covering
      references, gives the same nesting, order and compact fields. */
  lemma RoundTrip(s: StoredSnapshot, references: SnapshotReferences, snapshotRef: Name, textMatches: (string, BaselineTab) -> bool)
    returns (b: Baseline, again: StoredSnapshot)
    requires OnePage(s) && s.limit <= R.MAX_LIMIT && !IsBlank(s.baseline.capturedAt)
    requires ReferencesCover(references, NativeBaseline(PlaceAll(PageOf(s, 0).windows), Some(s.baseline.capturedAt)))
    ensures b == NativeBaseline(PlaceAll(PageOf(s, 0).windows), Some(PageOf(s, 0).capturedAt)) && ValidBaseline(b, SYNTHETIC_BROWSER)
    ensures again == R.StoredFor(b, references, KeysOf(b.tabs), NO_FILTER.(limit := Some(s.limit)), snapshotRef)
    ensures MatchedTabs(b, references, NO_FILTER.(limit := Some(s.limit)), textMatches) == Success(KeysOf(b.tabs))
    ensures OnePage(again) && BareWindows(PageOf(again, 0).windows) == BareWindows(PageOf(s, 0).windows)
    ensures PageOf(again, 0).capturedAt == PageOf(s, 0).capturedAt && PageOf(again, 0).totalMatched == PageOf(s, 0).totalMatched
  {
    hide *;
    SizesOf(s);
    var l := PlaceAll(PageOf(s, 0).windows);
    CapturedAtShown(s);
    PageMakesValidBaseline(s);
    PageIsNumbered(s);
    NumberedFocusFirst(s, l);
    WholePage(s);
    LimitsOf(s);
    NumbersParts(l, PageEntries(s, 0));
    b := NativeBaseline(l, Some(s.baseline.capturedAt));
    NativeParts(l, Some(s.baseline.capturedAt));
    again := CaptureAgain(l, b, references, s.limit, snapshotRef, textMatches);
    AgainOf(s, b, references, snapshotRef);
    RendersAgainIs(s, again, l);
    RendersAlike(s, again, l);
    CapturedAtShown(again);
    CapturedAtOf(l, b, s.baseline.capturedAt);
    AgainParts(s, again, l);
    TotalShown(s);
    TotalShown(again);
  }

  lemma CapturedAtOf(l: Layout, b: Baseline, capturedAt: string)
    requires b == NativeBaseline(l, Some(capturedAt))
    ensures b.capturedAt == capturedAt
  {
  }

  lemma TotalShown(s: StoredSnapshot)
    requires OnePage(s)
    ensures PageOf(s, 0).totalMatched == |s.matchedKeys|
  {
    hide StoredOk, AllResolve, PageEntries, Regroup, NextCursor;
  }

  /** Rendered in full detail, the baseline made from a page gives back every field the page shows that the tool
      carries over; texts a page shows are never empty. */
  lemma FullFieldsReturn(again: StoredSnapshot, l: Layout, lo: nat, hi: nat, k: nat)
    requires LayoutOk(l) && k < |l.tabs| && KeysFound(again) && ValidModel(again.baseline) && again.detail == SnapshotDetail.Full
    requires again.baseline.windows == NativeWindows(l) && again.baseline.groups == NativeGroups(l) && again.baseline.tabs == NativeTabs(l)
    requires Resolves(again, NativeTabs(l)[k])
    ensures var e, p := EntryOf(again, lo, hi, NativeTabs(l)[k]), l.tabs[k];
      && e.tab.title == NonEmpty(p.tab.title) && e.tab.url == NonEmpty(p.tab.url) && e.tab.pendingUrl == NonEmpty(p.tab.pendingUrl)
      && e.tab.favIconUrl == NonEmpty(p.tab.favIconUrl)
      && (e.tab.active, e.tab.pinned, e.tab.discarded) == (p.tab.active, p.tab.pinned, p.tab.discarded)
      && (e.tab.audible, e.tab.autoDiscardable, e.tab.lastAccessed) == (p.tab.audible, p.tab.autoDiscardable, p.tab.lastAccessed)
      && p.window < |l.windows| && e.window.info == l.windows[p.window].info.(partial := e.window.info.partial)
      && (e.group.Some? <==> p.group.Some?)
      && (p.group.Some? ==>
            && p.group.value < |l.groups|
            && var g, h := e.group.value.info, l.groups[p.group.value].header.info;
               g.title == NonEmpty(h.title) && g.color == h.color && g.shared == h.shared && g.collapsed == Some(h.collapsed == Some(true)))
  {
    FoundAgain(l, again.baseline, k);
    hide FindWindow, FindGroup, ValidModel, LayoutOk, WindowKey, GroupKey, TabKey, WindowGoesOn, GroupGoesOn, KeysFound;
  }

  lemma NativeParts(l: Layout, capturedAt: Option<string>)
    ensures var b := NativeBaseline(l, capturedAt);
      && b.windows == NativeWindows(l) && b.groups == NativeGroups(l) && b.tabs == NativeTabs(l)
      && !b.supportsFrozenTabs && !b.supportsSharedTabGroups
      && (ValidBaseline(b, SYNTHETIC_BROWSER) ==> ValidModel(b))
  {
    hide ValidModel, NativeWindows, NativeGroups, NativeTabs;
  }

  lemma AgainOf(s: StoredSnapshot, b: Baseline, references: SnapshotReferences, snapshotRef: Name)
    ensures R.StoredFor(b, references, KeysOf(b.tabs), NO_FILTER.(limit := Some(s.limit)), snapshotRef).baseline == b
  {
  }

  lemma RendersAgainIs(s: StoredSnapshot, again: StoredSnapshot, l: Layout)
    requires OnePage(s) && OnePage(again) && Numbers(l, PageEntries(s, 0))
    requires again.baseline.windows == NativeWindows(l) && again.baseline.groups == NativeGroups(l) && again.baseline.tabs == NativeTabs(l)
    requires Records(again) == again.baseline.tabs
    ensures RendersAgain(s, again, l)
  {
    hide OnePage, Numbers, PageEntries, Records, NativeWindows, NativeGroups, NativeTabs;
  }

  lemma LimitsOf(s: StoredSnapshot)
    requires OnePage(s)
    ensures 1 <= s.limit && |s.matchedKeys| <= s.limit
  {
  }

  lemma NumbersParts(l: Layout, entries: seq<PageEntry>)
    requires Numbers(l, entries)
    ensures LayoutOk(l) && Small(l) && |l.tabs| == |entries|
  {
  }

  lemma AgainIsOnePage(again: StoredSnapshot)
    requires StoredOk(again) && AllResolve(again) && again.detail == SnapshotDetail.Compact
    requires !again.baseline.supportsFrozenTabs && !again.baseline.supportsSharedTabGroups
    requires |again.matchedKeys| <= again.limit <= R.MAX_LIMIT
    ensures OnePage(again)
  {
    hide StoredOk, AllResolve;
  }
}

/** The measuring tool's way back: a native baseline made up from one snapshot page. */
module TrajectoryMeasure {
  import opened Wrappers
  import Decimal
  import opened Baselines
  import opened Hierarchy
  import opened SnapshotPages

  const SYNTHETIC_BROWSER: string := "browser_synthetic_v1"
  const DEFAULT_CAPTURED_AT: string := "2030-01-01T00:00:00Z"

  // ---------------------------------------------------------------- numbering the objects of a page

  /** A tab with the numbers of its window and group, and its place in the strip of its window. */
  datatype Placed = Placed(tab: SnapshotTab, window: nat, group: Option<nat>, index: nat)

  datatype PlacedGroup = PlacedGroup(header: Labelled<GroupInfo>, window: nat)

  datatype Layout = Layout(windows: seq<Labelled<WindowInfo>>, groups: seq<PlacedGroup>, tabs: seq<Placed>)

  const EMPTY_LAYOUT := Layout([], [], [])

  function PlaceTab(l: Layout, start: nat, group: Option<nat>, tab: SnapshotTab): Layout
    requires l.windows != [] && start <= |l.tabs|
  {
    l.(tabs := l.tabs + [Placed(tab, |l.windows| - 1, group, |l.tabs| - start)])
  }

  function PlaceTabs(l: Layout, start: nat, group: Option<nat>, tabs: seq<SnapshotTab>): (n: Layout)
    requires l.windows != [] && start <= |l.tabs|
    ensures n.windows == l.windows && n.groups == l.groups && |n.tabs| == |l.tabs| + |tabs|
  {
    if tabs == [] then l else PlaceTab(PlaceTabs(l, start, group, Front(tabs)), start, group, Last(tabs))
  }

  function OpenGroup(l: Layout, header: Labelled<GroupInfo>): Layout
    requires l.windows != []
  {
    l.(groups := l.groups + [PlacedGroup(header, |l.windows| - 1)])
  }

  function PlaceItem(l: Layout, start: nat, item: PageItem): (n: Layout)
    requires l.windows != [] && start <= |l.tabs|
    ensures n.windows == l.windows && |n.tabs| >= |l.tabs|
  {
    match item
    case GroupItem(header, tabs) => PlaceTabs(OpenGroup(l, header), start, Some(|l.groups|), tabs)
    case TabItem(tab) => PlaceTab(l, start, None, tab)
  }

  function PlaceItems(l: Layout, start: nat, items: seq<PageItem>): (n: Layout)
    requires l.windows != [] && start <= |l.tabs|
    ensures n.windows == l.windows && |n.tabs| >= |l.tabs|
  {
    if items == [] then l else PlaceItem(PlaceItems(l, start, Front(items)), start, Last(items))
  }

  function PlaceWindow(l: Layout, node: PageWindow): Layout {
    PlaceItems(l.(windows := l.windows + [node.header]), |l.tabs|, node.items)
  }

  function PlaceAll(windows: seq<PageWindow>): Layout {
    if windows == [] then EMPTY_LAYOUT else PlaceWindow(PlaceAll(Front(windows)), Last(windows))
  }

  // ---------------------------------------------------------------- the baseline of a numbering

  /** Ids are counted from one; beyond 32 bits the broker could not read them. */
  function AsI32(n: nat): i32 {
    if n < 0x8000_0000 then n as i32 else 0x7FFF_FFFF
  }

  function WindowKey(n: nat): string { "window-key-" + Decimal.Numeral(n + 1) }

  function GroupKey(n: nat): string { "group-key-" + Decimal.Numeral(n + 1) }

  function TabKey(n: nat): string { "tab-key-" + Decimal.Numeral(n + 1) }

  function NativeWindow(header: Labelled<WindowInfo>, n: nat): BaselineWindow {
    var w := header.info;
    BaselineWindow(WindowKey(n), AsI32(n + 1), w.focused, w.top, w.left, w.width, w.height, w.windowType, w.state, w.alwaysOnTop)
  }

  function NativeGroup(group: PlacedGroup, n: nat): BaselineGroup {
    var g := group.header.info;
    BaselineGroup(GroupKey(n), AsI32(n + 1), WindowKey(group.window), g.title, g.color, g.collapsed == Some(true), g.shared)
  }

  function NativeTab(p: Placed, n: nat): BaselineTab {
    BaselineTab(
      TabKey(n), AsI32(n + 1), WindowKey(p.window), if p.group.Some? then Some(GroupKey(p.group.value)) else None, AsI32(p.index),
      p.tab.title, p.tab.url, p.tab.pendingUrl, p.tab.active, false, p.tab.pinned, p.tab.audible, None, None,
      p.tab.discarded, None, p.tab.autoDiscardable, p.tab.lastAccessed, None, p.tab.favIconUrl)
  }

  function NativeWindows(l: Layout): seq<BaselineWindow> {
    seq(|l.windows|, i requires 0 <= i < |l.windows| => NativeWindow(l.windows[i], i))
  }

  function NativeGroups(l: Layout): seq<BaselineGroup> {
    seq(|l.groups|, i requires 0 <= i < |l.groups| => NativeGroup(l.groups[i], i))
  }

  function NativeTabs(l: Layout): seq<BaselineTab> {
    seq(|l.tabs|, i requires 0 <= i < |l.tabs| => NativeTab(l.tabs[i], i))
  }

  function NativeBaseline(l: Layout, capturedAt: Option<string>): Baseline {
    Baseline(SYNTHETIC_BROWSER, 1, if capturedAt.Some? then capturedAt.value else DEFAULT_CAPTURED_AT, false, false,
      NativeWindows(l), NativeGroups(l), NativeTabs(l))
  }

  // ---------------------------------------------------------------- the nested loops

  /** What the loops have built so far is the baseline of the numbering so far. */
  ghost predicate Built(l: Layout, windows: seq<BaselineWindow>, groups: seq<BaselineGroup>, tabs: seq<BaselineTab>) {
    windows == NativeWindows(l) && groups == NativeGroups(l) && tabs == NativeTabs(l)
  }

  lemma BuiltTab(l: Layout, windows: seq<BaselineWindow>, groups: seq<BaselineGroup>, tabs: seq<BaselineTab>, start: nat, group: Option<nat>, tab: SnapshotTab)
    requires Built(l, windows, groups, tabs) && l.windows != [] && start <= |l.tabs|
    ensures Built(PlaceTab(l, start, group, tab), windows, groups,
      tabs + [NativeTab(Placed(tab, |l.windows| - 1, group, |l.tabs| - start), |tabs|)])
  {
  }

  lemma BuiltGroup(l: Layout, windows: seq<BaselineWindow>, groups: seq<BaselineGroup>, tabs: seq<BaselineTab>, header: Labelled<GroupInfo>)
    requires Built(l, windows, groups, tabs) && l.windows != []
    ensures Built(OpenGroup(l, header), windows, groups + [NativeGroup(PlacedGroup(header, |l.windows| - 1), |groups|)], tabs)
  {
  }

  lemma BuiltWindow(l: Layout, windows: seq<BaselineWindow>, groups: seq<BaselineGroup>, tabs: seq<BaselineTab>, header: Labelled<WindowInfo>)
    requires Built(l, windows, groups, tabs)
    ensures Built(l.(windows := l.windows + [header]), windows + [NativeWindow(header, |windows|)], groups, tabs)
  {
  }

  lemma UpTo<X>(s: seq<X>, i: nat)
    requires i < |s|
    ensures Front(s[..i + 1]) == s[..i] && Last(s[..i + 1]) == s[i]
  {
  }

  /** native_snapshot_baseline: counters number windows, groups and tabs as the page lists them. */
  method NativeSnapshotBaseline(page: seq<PageWindow>, capturedAt: Option<string>) returns (b: Baseline)
    ensures b == NativeBaseline(PlaceAll(page), capturedAt)
  {
    var windows: seq<BaselineWindow>, groups: seq<BaselineGroup>, tabs: seq<BaselineTab> := [], [], [];
    var nextGroupId, nextTabId := 1, 1;
    ghost var l := EMPTY_LAYOUT;
    for i := 0 to |page|
      invariant l == PlaceAll(page[..i]) && Built(l, windows, groups, tabs) && |windows| == i
      invariant nextGroupId == |groups| + 1 && nextTabId == |tabs| + 1
    {
      UpTo(page, i);
      BuiltWindow(l, windows, groups, tabs, page[i].header);
      ghost var begun := l.(windows := l.windows + [page[i].header]);
      windows := windows + [NativeWindow(page[i].header, i)];
      l, groups, tabs, nextGroupId, nextTabId := AddWindowItems(page[i].items, i, begun, windows, groups, tabs, nextGroupId, nextTabId);
    }
    assert page[..|page|] == page;
    b := Baseline(SYNTHETIC_BROWSER, 1, if capturedAt.Some? then capturedAt.value else DEFAULT_CAPTURED_AT, false, false, windows, groups, tabs);
  }

  /** The tabs of one group, counted on in its window's strip. */
  method AddGroupTabs(
    members: seq<SnapshotTab>, window: nat, group: nat, ghost base: Layout, ghost start: nat,
    ghost windows: seq<BaselineWindow>, ghost groups: seq<BaselineGroup>, tabs0: seq<BaselineTab>, tabId0: nat, tabIndex0: nat)
    returns (ghost l: Layout, tabs: seq<BaselineTab>, nextTabId: nat, tabIndex: nat)
    requires Built(base, windows, groups, tabs0) && |base.windows| == window + 1 && start <= |base.tabs|
    requires tabId0 == |tabs0| + 1 && tabIndex0 == |base.tabs| - start
    ensures l == PlaceTabs(base, start, Some(group), members) && Built(l, windows, groups, tabs)
    ensures nextTabId == |tabs| + 1 && tabIndex == |l.tabs| - start
  {
    l, tabs, nextTabId, tabIndex := base, tabs0, tabId0, tabIndex0;
    hide Built;
    for j := 0 to |members|
      invariant l == PlaceTabs(base, start, Some(group), members[..j]) && Built(l, windows, groups, tabs)
      invariant nextTabId == |tabs| + 1 && tabIndex == |l.tabs| - start && |l.windows| == window + 1
    {
      UpTo(members, j);
      BuiltSizes(l, windows, groups, tabs);
      BuiltTab(l, windows, groups, tabs, start, Some(group), members[j]);
      tabs := tabs + [NativeTab(Placed(members[j], window, Some(group), tabIndex), nextTabId - 1)];
      nextTabId, tabIndex := nextTabId + 1, tabIndex + 1;
      l := PlaceTab(l, start, Some(group), members[j]);
    }
    assert members[..|members|] == members;
  }

  /** The items of one window, with its own strip counter. */
  method AddWindowItems(
    items: seq<PageItem>, window: nat, ghost begun: Layout, windows: seq<BaselineWindow>, groups0: seq<BaselineGroup>, tabs0: seq<BaselineTab>,
    groupId0: nat, tabId0: nat)
    returns (ghost l: Layout, groups: seq<BaselineGroup>, tabs: seq<BaselineTab>, nextGroupId: nat, nextTabId: nat)
    requires Built(begun, windows, groups0, tabs0) && |windows| == window + 1 == |begun.windows|
    requires groupId0 == |groups0| + 1 && tabId0 == |tabs0| + 1
    ensures l == PlaceItems(begun, |begun.tabs|, items) && Built(l, windows, groups, tabs)
    ensures nextGroupId == |groups| + 1 && nextTabId == |tabs| + 1
  {
    l, groups, tabs, nextGroupId, nextTabId := begun, groups0, tabs0, groupId0, tabId0;
    var tabIndex := 0;
    ghost var start := |begun.tabs|;
    for i := 0 to |items|
      invariant l == PlaceItems(begun, start, items[..i]) && Built(l, windows, groups, tabs)
      invariant start <= |l.tabs| && tabIndex == |l.tabs| - start
      invariant nextGroupId == |groups| + 1 && nextTabId == |tabs| + 1 && |l.windows| == window + 1
    {
      UpTo(items, i);
      ghost var before := l;
      hide PlaceItems, Built;
      BuiltSizes(l, windows, groups, tabs);
      match items[i] {
        case TabItem(tab) =>
          BuiltTab(l, windows, groups, tabs, start, None, tab);
          tabs := tabs + [NativeTab(Placed(tab, window, None, tabIndex), nextTabId - 1)];
          nextTabId, tabIndex := nextTabId + 1, tabIndex + 1;
          l := PlaceTab(l, start, None, tab);
        case GroupItem(header, members) =>
          var group := nextGroupId - 1;
          nextGroupId := nextGroupId + 1;
          BuiltGroup(l, windows, groups, tabs, header);
          groups := groups + [NativeGroup(PlacedGroup(header, window), group)];
          l, tabs, nextTabId, tabIndex := AddGroupTabs(members, window, group, OpenGroup(l, header), start, windows, groups, tabs, nextTabId, tabIndex);
      }
      assert l == PlaceItem(before, start, items[i]);
      PlacedOneMore(begun, start, items, i);
    }
    assert items[..|items|] == items;
  }

  lemma BuiltSizes(l: Layout, windows: seq<BaselineWindow>, groups: seq<BaselineGroup>, tabs: seq<BaselineTab>)
    requires Built(l, windows, groups, tabs)
    ensures |windows| == |l.windows| && |groups| == |l.groups| && |tabs| == |l.tabs|
  {
  }

  lemma PlacedOneMore(l: Layout, start: nat, items: seq<PageItem>, i: nat)
    requires l.windows != [] && start <= |l.tabs| && i < |items|
    ensures PlaceItems(l, start, items[..i + 1]) == PlaceItem(PlaceItems(l, start, items[..i]), start, items[i])
  {
    UpTo(items, i);
  }
}

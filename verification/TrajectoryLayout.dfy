/** The numbering of a page mirrors the page, and the baseline made from it is valid. */
module TrajectoryLayout {
  import opened Wrappers
  import Decimal
  import opened Baselines
  import opened Hierarchy
  import opened SnapshotPages
  import opened TrajectoryMeasure

  // ---------------------------------------------------------------- the numbering mirrors the entries

  /** Windows are numbered in order, strips count up from zero, and a group's tabs come in one stretch. */
  ghost predicate TabPlaced(l: Layout, k: nat)
    requires k < |l.tabs|
  {
    var p := l.tabs[k];
    && p.window < |l.windows|
    && (if k > 0 && l.tabs[k - 1].window == p.window then p.index == l.tabs[k - 1].index + 1 else p.index == 0)
    && (k > 0 ==> l.tabs[k - 1].window <= p.window)
    && (p.group.Some? ==>
          && p.group.value < |l.groups| && l.groups[p.group.value].window == p.window
          && ((exists m :: 0 <= m < k && l.tabs[m].group == p.group) ==> l.tabs[k - 1].group == p.group))
  }

  ghost predicate LayoutOk(l: Layout) {
    && (forall k :: 0 <= k < |l.tabs| ==> TabPlaced(l, k))
    && (forall g :: 0 <= g < |l.groups| ==> l.groups[g].window < |l.windows|)
  }

  ghost predicate TabFollows(l: Layout, entries: seq<PageEntry>, k: nat)
    requires k < |l.tabs| && k < |entries|
  {
    var p, e := l.tabs[k], entries[k];
    && p.tab == e.tab && p.window < |l.windows| && l.windows[p.window] == e.window
    && (p.group.Some? <==> e.group.Some?)
    && (p.group.Some? ==> p.group.value < |l.groups| && l.groups[p.group.value].header == e.group.value)
  }

  ghost predicate Follows(l: Layout, entries: seq<PageEntry>) {
    |l.tabs| == |entries| && forall k :: 0 <= k < |entries| ==> TabFollows(l, entries, k)
  }

  /** The tabs from `start` on are those of the last window. */
  ghost predicate WindowStart(l: Layout, start: nat) {
    && l.windows != [] && start <= |l.tabs|
    && (forall k :: 0 <= k < start ==> l.tabs[k].window < |l.windows| - 1)
    && (forall k :: start <= k < |l.tabs| ==> l.tabs[k].window == |l.windows| - 1 && l.tabs[k].index == k - start)
  }

  ghost predicate Mirrors(l: Layout, start: nat, entries: seq<PageEntry>) {
    LayoutOk(l) && WindowStart(l, start) && Follows(l, entries)
  }

  /** The group, if any, is the last one opened, in the last window, and only the last tabs have it. */
  ghost predicate GroupOpen(l: Layout, group: Option<nat>, header: Option<Labelled<GroupInfo>>) {
    && (group.Some? <==> header.Some?)
    && (group.Some? ==>
          && l.windows != [] && group.value < |l.groups| && l.groups[group.value] == PlacedGroup(header.value, |l.windows| - 1)
          && ((exists m :: 0 <= m < |l.tabs| && l.tabs[m].group == group) ==> l.tabs[|l.tabs| - 1].group == group))
  }

  lemma PlaceTabMirrors(l: Layout, start: nat, entries: seq<PageEntry>, group: Option<nat>, entry: PageEntry)
    requires Mirrors(l, start, entries) && GroupOpen(l, group, entry.group) && entry.window == l.windows[|l.windows| - 1]
    ensures Mirrors(PlaceTab(l, start, group, entry.tab), start, entries + [entry])
    ensures GroupOpen(PlaceTab(l, start, group, entry.tab), group, entry.group)
  {
    var n := PlaceTab(l, start, group, entry.tab);
    forall k | 0 <= k < |n.tabs| ensures TabPlaced(n, k) && TabFollows(n, entries + [entry], k) {
      if k < |l.tabs| {
        assert TabPlaced(l, k) && TabFollows(l, entries, k);
        OldTabPlaced(l, n, k);
      }
    }
  }

  /** More tabs, windows or groups do not disturb a tab that is placed. */
  lemma OldTabPlaced(l: Layout, n: Layout, k: nat)
    requires k < |l.tabs| && TabPlaced(l, k) && l.tabs <= n.tabs && l.windows <= n.windows && l.groups <= n.groups
    ensures TabPlaced(n, k)
  {
  }

  lemma {:induction false} PlaceTabsMirrors(
    l: Layout, start: nat, entries: seq<PageEntry>, group: nat, window: Labelled<WindowInfo>, header: Labelled<GroupInfo>, tabs: seq<SnapshotTab>)
    requires Mirrors(l, start, entries) && GroupOpen(l, Some(group), Some(header)) && window == l.windows[|l.windows| - 1]
    ensures var n, all := PlaceTabs(l, start, Some(group), tabs), entries + FlattenGroup(window, header, tabs);
      Mirrors(n, start, all) && GroupOpen(n, Some(group), Some(header))
  {
    if tabs == [] {
      assert entries + FlattenGroup<WindowInfo, GroupInfo, SnapshotTab>(window, header, []) == entries;
    } else {
      PlaceTabsMirrors(l, start, entries, group, window, header, Front(tabs));
      var front := entries + FlattenGroup(window, header, Front(tabs));
      var entry := Entry(window, Some(header), Last(tabs));
      assert entries + FlattenGroup(window, header, tabs) == front + [entry];
      hide Mirrors, GroupOpen, Front, Last;
      PlaceTabMirrors(PlaceTabs(l, start, Some(group), Front(tabs)), start, front, Some(group), entry);
    }
  }

  lemma OpenGroupMirrors(l: Layout, start: nat, entries: seq<PageEntry>, header: Labelled<GroupInfo>)
    requires Mirrors(l, start, entries)
    ensures Mirrors(OpenGroup(l, header), start, entries) && GroupOpen(OpenGroup(l, header), Some(|l.groups|), Some(header))
  {
    var n := OpenGroup(l, header);
    forall k | 0 <= k < |n.tabs| ensures TabPlaced(n, k) && TabFollows(n, entries, k) {
      assert TabPlaced(l, k) && TabFollows(l, entries, k);
      OldTabPlaced(l, n, k);
    }
    assert forall m :: 0 <= m < |l.tabs| ==> TabPlaced(l, m) && l.tabs[m].group != Some(|l.groups|);
  }

  lemma PlaceItemMirrors(l: Layout, start: nat, entries: seq<PageEntry>, window: Labelled<WindowInfo>, item: PageItem)
    requires Mirrors(l, start, entries) && window == l.windows[|l.windows| - 1]
    ensures Mirrors(PlaceItem(l, start, item), start, entries + FlattenItem(window, item))
  {
    hide Mirrors, GroupOpen;
    match item
    case GroupItem(header, tabs) =>
      OpenGroupMirrors(l, start, entries, header);
      PlaceTabsMirrors(OpenGroup(l, header), start, entries, |l.groups|, window, header, tabs);
    case TabItem(tab) =>
      NoGroupOpen(l);
      PlaceTabMirrors(l, start, entries, None, Entry(window, None, tab));
  }

  lemma NoGroupOpen(l: Layout)
    ensures GroupOpen(l, None, None)
  {
  }

  lemma {:induction false} PlaceItemsMirrors(l: Layout, start: nat, entries: seq<PageEntry>, window: Labelled<WindowInfo>, items: seq<PageItem>)
    requires Mirrors(l, start, entries) && window == l.windows[|l.windows| - 1]
    ensures Mirrors(PlaceItems(l, start, items), start, entries + FlattenItems(window, items))
  {
    if items == [] {
      assert entries + FlattenItems<WindowInfo, GroupInfo, SnapshotTab>(window, []) == entries;
    } else {
      PlaceItemsMirrors(l, start, entries, window, Front(items));
      assert entries + FlattenItems(window, items) == entries + FlattenItems(window, Front(items)) + FlattenItem(window, Last(items));
      hide Mirrors, Front, Last, FlattenItem, PlaceItem;
      PlaceItemMirrors(PlaceItems(l, start, Front(items)), start, entries + FlattenItems(window, Front(items)), window, Last(items));
    }
  }

  lemma OpenWindowMirrors(l: Layout, entries: seq<PageEntry>, header: Labelled<WindowInfo>)
    requires LayoutOk(l) && Follows(l, entries)
    ensures Mirrors(l.(windows := l.windows + [header]), |l.tabs|, entries)
  {
    var n := l.(windows := l.windows + [header]);
    forall k | 0 <= k < |n.tabs| ensures TabPlaced(n, k) && TabFollows(n, entries, k) {
      assert TabPlaced(l, k) && TabFollows(l, entries, k);
      OldTabPlaced(l, n, k);
    }
    assert forall m :: 0 <= m < |l.tabs| ==> TabPlaced(l, m) && l.tabs[m].window < |l.windows|;
  }

  /** Numbering a page mirrors the flat list of its tabs. */
  lemma {:induction false} PlaceAllMirrors(windows: seq<PageWindow>)
    ensures LayoutOk(PlaceAll(windows)) && Follows(PlaceAll(windows), Flatten(windows))
  {
    if windows != [] {
      PlaceAllMirrors(Front(windows));
      var l, entries, node := PlaceAll(Front(windows)), Flatten(Front(windows)), Last(windows);
      OpenWindowMirrors(l, entries, node.header);
      hide LayoutOk, Follows, PlaceItems, FlattenItems, Front, Last;
      PlaceItemsMirrors(l.(windows := l.windows + [node.header]), |l.tabs|, entries, node.header, node.items);
      MirrorsParts(PlaceWindow(l, node), |l.tabs|, entries + FlattenItems(node.header, node.items));
    }
  }

  lemma MirrorsParts(l: Layout, start: nat, entries: seq<PageEntry>)
    requires Mirrors(l, start, entries)
    ensures LayoutOk(l) && Follows(l, entries)
  {
  }

  // ---------------------------------------------------------------- headers are numbered as listed

  function HeaderRefs(headers: seq<Labelled<WindowInfo>>): seq<Name> {
    seq(|headers|, i requires 0 <= i < |headers| => headers[i].reference)
  }

  function PlacedGroupRefs(groups: seq<PlacedGroup>): seq<Name> {
    seq(|groups|, i requires 0 <= i < |groups| => groups[i].header.reference)
  }

  lemma PlaceItemGroups(l: Layout, start: nat, item: PageItem)
    requires l.windows != [] && start <= |l.tabs|
    ensures PlacedGroupRefs(PlaceItem(l, start, item).groups)
      == PlacedGroupRefs(l.groups) + if item.GroupItem? then [item.group.reference] else []
  {
    if item.TabItem? { assert PlacedGroupRefs(l.groups) + [] == PlacedGroupRefs(l.groups); }
  }

  lemma {:induction false} PlaceItemsGroups(l: Layout, start: nat, items: seq<PageItem>)
    requires l.windows != [] && start <= |l.tabs|
    ensures PlacedGroupRefs(PlaceItems(l, start, items).groups) == PlacedGroupRefs(l.groups) + ItemGroupRefs(items)
  {
    if items == [] {
      assert PlacedGroupRefs(l.groups) + [] == PlacedGroupRefs(l.groups);
    } else {
      PlaceItemsGroups(l, start, Front(items));
      PlaceItemGroups(PlaceItems(l, start, Front(items)), start, Last(items));
      hide PlacedGroupRefs, PlaceItem, Front, Last;
    }
  }

  lemma {:induction false} PlaceAllHeaders(windows: seq<PageWindow>)
    ensures HeaderRefs(PlaceAll(windows).windows) == WindowRefs(windows)
    ensures PlacedGroupRefs(PlaceAll(windows).groups) == GroupRefs(windows)
  {
    if windows != [] {
      PlaceAllHeaders(Front(windows));
      var l, node := PlaceAll(Front(windows)), Last(windows);
      PlaceItemsGroups(l.(windows := l.windows + [node.header]), |l.tabs|, node.items);
      assert HeaderRefs(l.windows + [node.header]) == HeaderRefs(l.windows) + [node.header.reference];
      hide PlacedGroupRefs, PlaceItems, Front, Last;
    }
  }

  // ---------------------------------------------------------------- keys

  lemma NumeralsDiffer(a: nat, b: nat)
    requires Decimal.Numeral(a) == Decimal.Numeral(b)
    ensures a == b
  {
    Decimal.NumeralStandsFor(a);
    Decimal.NumeralStandsFor(b);
  }

  /** Keys are not empty, tell numbers apart and tell kinds apart. */
  lemma KeysDiffer(a: nat, b: nat)
    ensures WindowKey(a) != "" && GroupKey(a) != "" && TabKey(a) != ""
    ensures WindowKey(a) == WindowKey(b) ==> a == b
    ensures GroupKey(a) == GroupKey(b) ==> a == b
    ensures TabKey(a) == TabKey(b) ==> a == b
    ensures WindowKey(a) != GroupKey(b) && WindowKey(a) != TabKey(b) && GroupKey(a) != TabKey(b)
  {
    var x, y := Decimal.Numeral(a + 1), Decimal.Numeral(b + 1);
    assert WindowKey(a)[11..] == x && WindowKey(b)[11..] == y;
    assert GroupKey(a)[10..] == x && GroupKey(b)[10..] == y;
    assert TabKey(a)[8..] == x && TabKey(b)[8..] == y;
    assert WindowKey(a)[0] == 'w' && GroupKey(a)[0] == 'g' && GroupKey(b)[0] == 'g' && TabKey(b)[0] == 't';
    if x == y { NumeralsDiffer(a + 1, b + 1); }
  }
}

/** What readers of snapshot pages can rely on: one hierarchy per page, and pages that partition the result. */
module SnapshotTheorems {
  import opened Wrappers
  import opened Baselines
  import opened Hierarchy
  import opened Snapshots
  import opened Counting
  import opened SnapshotPages
  import opened SnapshotRenderer

  lemma StoredParts(s: StoredSnapshot)
    requires StoredOk(s)
    ensures ValidModel(s.baseline) && ReferencesCover(s.references, s.baseline) && KeysFound(s)
    ensures StrictlyOrdered(s.baseline, Records(s)) && FromModel(s.baseline, Records(s))
    ensures |Records(s)| == |s.matchedKeys| <= USIZE_MAX && 1 <= s.limit
  {
    hide ValidModel, ReferencesCover, StrictlyOrdered, FromModel, FindTab;
  }

  // ---------------------------------------------------------------- one hierarchy per page

  /** Equal references come from equal keys, so they carry equal headers. */
  lemma EntriesAgree(s: StoredSnapshot, lo: nat, hi: nat, n: nat)
    requires StoredOk(s) && AllResolve(s) && lo + n <= hi <= |s.matchedKeys|
    ensures HeadersAgree(Entries(s, lo, hi, n))
  {
    hide *;
    StoredParts(s);
    var entries := Entries(s, lo, hi, n);
    forall i, j | 0 <= i < |entries| && 0 <= j < |entries| ensures SameHeaders(entries[i], entries[j]) {
      RecordResolves(s, lo + i);
      RecordResolves(s, lo + j);
      TwoEntriesAgree(s, lo, hi, Records(s)[lo + i], Records(s)[lo + j]);
    }
    PairwiseAgree(entries);
  }

  lemma PairwiseAgree(entries: seq<PageEntry>)
    requires forall i, j :: 0 <= i < |entries| && 0 <= j < |entries| ==> SameHeaders(entries[i], entries[j])
    ensures HeadersAgree(entries)
  {
    hide SameHeaders;
  }

  lemma TwoEntriesAgree(s: StoredSnapshot, lo: nat, hi: nat, t: BaselineTab, u: BaselineTab)
    requires KeysFound(s) && ReferencesCover(s.references, s.baseline) && Resolves(s, t) && Resolves(s, u)
    ensures SameHeaders(EntryOf(s, lo, hi, t), EntryOf(s, lo, hi, u))
    ensures InWindow(EntryOf(s, lo, hi, t), EntryOf(s, lo, hi, u)) <==> t.windowKey == u.windowKey
    ensures InGroup(EntryOf(s, lo, hi, t), EntryOf(s, lo, hi, u)) <==> t.groupKey.Some? && t.groupKey == u.groupKey
  {
    hide Records, FindTab, FindGroup, FindWindow, WindowGoesOn, GroupGoesOn, ProjectTab;
  }

  /** A matched tab that shares window or group with an earlier one shares it with the one just before. */
  lemma LikeThePrevious(s: StoredSnapshot, i: nat, k: nat)
    requires StoredOk(s) && i < k < |Records(s)|
    ensures Records(s)[i].windowKey == Records(s)[k].windowKey ==> Records(s)[k - 1].windowKey == Records(s)[k].windowKey
    ensures Records(s)[i].groupKey.Some? && Records(s)[i].groupKey == Records(s)[k].groupKey ==>
      Records(s)[k - 1].groupKey == Records(s)[k].groupKey && Records(s)[k - 1].windowKey == Records(s)[k].windowKey
  {
    hide *;
    StoredParts(s);
    var records := Records(s);
    if i < k - 1 {
      if records[i].windowKey == records[k].windowKey { WindowRun(s.baseline, records, i, k - 1, k); }
      if records[i].groupKey.Some? && records[i].groupKey == records[k].groupKey { GroupRun(s.baseline, records, i, k); }
    } else if records[i].groupKey.Some? && records[i].groupKey == records[k].groupKey {
      GroupRun(s.baseline, records, i, k);
    }
  }

  lemma ContiguousPush(front: seq<PageEntry>, last: PageEntry)
    requires Contiguous(front)
    requires forall a :: a in front && InWindow(a, last) ==> InWindow(Last(front), last)
    requires forall a :: a in front && InGroup(a, last) ==> InGroup(Last(front), last) && InWindow(Last(front), last)
    ensures Contiguous(front + [last])
  {
    Pushed(front, last);
    hide Front, Last;
  }

  lemma LastIs(s: seq<PageEntry>)
    requires s != []
    ensures Last(s) == s[|s| - 1]
  {
  }

  lemma NothingContiguous(entries: seq<PageEntry>)
    requires entries == []
    ensures Contiguous(entries)
  {
  }

  lemma {:induction false} EntriesContiguous(s: StoredSnapshot, lo: nat, hi: nat, n: nat)
    requires StoredOk(s) && AllResolve(s) && lo + n <= hi <= |s.matchedKeys|
    ensures Contiguous(Entries(s, lo, hi, n))
  {
    hide *;
    if n == 0 {
      NothingContiguous(Entries(s, lo, hi, n));
    } else {
      EntriesContiguous(s, lo, hi, n - 1);
      RecordResolves(s, lo + n - 1);
      var front, last := Entries(s, lo, hi, n - 1), EntryOf(s, lo, hi, Records(s)[lo + n - 1]);
      assert Entries(s, lo, hi, n) == front + [last];
      forall a | a in front
        ensures InWindow(a, last) ==> InWindow(Last(front), last)
        ensures InGroup(a, last) ==> InGroup(Last(front), last) && InWindow(Last(front), last)
      {
        var i :| 0 <= i < n - 1 && front[i] == a;
        EntryLikePrevious(s, lo, hi, i, n - 1);
        LastIs(front);
      }
      ContiguousPush(front, last);
    }
  }

  lemma RecordResolves(s: StoredSnapshot, i: nat)
    requires AllResolve(s) && i < |s.matchedKeys|
    ensures KeysFound(s) && |Records(s)| == |s.matchedKeys| && Resolves(s, Records(s)[i])
  {
    hide Resolves;
  }

  lemma EntryLikePrevious(s: StoredSnapshot, lo: nat, hi: nat, i: nat, k: nat)
    requires StoredOk(s) && AllResolve(s) && i < k && lo + k < hi <= |s.matchedKeys|
    ensures
      var a, before, last := EntryOf(s, lo, hi, Records(s)[lo + i]), EntryOf(s, lo, hi, Records(s)[lo + k - 1]), EntryOf(s, lo, hi, Records(s)[lo + k]);
      && (InWindow(a, last) ==> InWindow(before, last))
      && (InGroup(a, last) ==> InGroup(before, last) && InWindow(before, last))
  {
    hide *;
    StoredParts(s);
    LikeThePrevious(s, lo + i, lo + k);
    RecordResolves(s, lo + i);
    RecordResolves(s, lo + k - 1);
    RecordResolves(s, lo + k);
    var t, u, v := Records(s)[lo + i], Records(s)[lo + k - 1], Records(s)[lo + k];
    TwoEntriesAgree(s, lo, hi, t, v);
    TwoEntriesAgree(s, lo, hi, u, v);
  }

  /** Every page of a retained snapshot has one hierarchy: flattening gives its tabs back in order, each of
      their windows and groups heads exactly one node, and nothing else that is canonical flattens to them. */
  lemma PageHierarchy(s: StoredSnapshot, offset: nat)
    requires StoredOk(s) && AllResolve(s) && offset <= |s.matchedKeys|
    ensures offset <= PageEnd(s, offset)
    ensures Flatten(PageOf(s, offset).windows) == PageEntries(s, offset)
    ensures OnceEach(PageOf(s, offset).windows, PageEntries(s, offset))
    ensures Canonical(PageOf(s, offset).windows)
    ensures forall other: seq<PageWindow> ::
      Canonical(other) && Flatten(other) == PageEntries(s, offset) ==> other == PageOf(s, offset).windows
  {
    hide *;
    StoredParts(s);
    PageWindows(s, offset);
    var entries, windows := PageEntries(s, offset), PageOf(s, offset).windows;
    EntriesAgree(s, offset, PageEnd(s, offset), PageEnd(s, offset) - offset);
    EntriesContiguous(s, offset, PageEnd(s, offset), PageEnd(s, offset) - offset);
    RegroupFlattens(entries);
    RegroupCanonical(entries);
    RegroupOnce(entries);
    forall other: seq<PageWindow> | Canonical(other) && Flatten(other) == entries ensures other == windows {
      HierarchyUnique(other, windows);
    }
  }

  lemma PageWindows(s: StoredSnapshot, offset: nat)
    requires AllResolve(s) && offset <= |s.matchedKeys| <= USIZE_MAX
    ensures offset <= PageEnd(s, offset) <= |s.matchedKeys|
    ensures PageEntries(s, offset) == Entries(s, offset, PageEnd(s, offset), PageEnd(s, offset) - offset)
    ensures PageOf(s, offset).windows == Regroup(PageEntries(s, offset))
  {
    hide Regroup, Entries;
  }

  // ---------------------------------------------------------------- what headers say

  lemma {:induction false} GroupHeadersShown<W, G, T>(window: Labelled<W>, items: seq<Item<G, T>>, item: Item<G, T>)
    requires CanonicalItems(items) && item in items
    ensures exists e :: e in FlattenItems(window, items) && e.window == window && (item.GroupItem? ==> e.group == Some(item.group))
  {
    Popped(items);
    if item == Last(items) {
      var own := FlattenItem(window, item);
      assert own != [] && own[|own| - 1] in FlattenItems(window, items);
      assert item.GroupItem? ==> own[|own| - 1].group == Some(item.group);
      assert own[|own| - 1].window == window;
    } else {
      GroupHeadersShown(window, Front(items), item);
    }
  }

  /** Every window header of a canonical hierarchy, and every group header in it, is that of some entry. */
  lemma {:induction false} HeadersShown<W, G, T>(windows: seq<WindowNode<W, G, T>>, node: WindowNode<W, G, T>, item: Item<G, T>)
    requires Canonical(windows) && node in windows && item in node.items
    ensures exists e :: e in Flatten(windows) && e.window == node.header && (item.GroupItem? ==> e.group == Some(item.group))
  {
    Popped(windows);
    if node == Last(windows) {
      GroupHeadersShown(node.header, node.items, item);
    } else {
      HeadersShown(Front(windows), node, item);
    }
  }

  lemma {:induction false} NodesHaveItems<W, G, T>(windows: seq<WindowNode<W, G, T>>, node: WindowNode<W, G, T>)
    requires Canonical(windows) && node in windows
    ensures node.items != []
  {
    Popped(windows);
    if node != Last(windows) { NodesHaveItems(Front(windows), node); }
  }

  /** The window a header stands for, marked partial exactly if a matched tab of it is on another page. */
  ghost predicate WindowTold(s: StoredSnapshot, lo: nat, hi: nat, header: Labelled<WindowInfo>, windowKey: string)
    requires KeysFound(s)
  {
    && windowKey in s.references.windows && s.references.windows[windowKey] == header.reference
    && FindWindow(s.baseline.windows, windowKey).Some?
    && header.info.focused == FindWindow(s.baseline.windows, windowKey).value.focused
    && (header.info.partial <==> WindowGoesOn(s, lo, hi, windowKey))
  }

  ghost predicate GroupTold(s: StoredSnapshot, lo: nat, hi: nat, header: Labelled<GroupInfo>, groupKey: string)
    requires KeysFound(s)
  {
    && groupKey in s.references.groups && s.references.groups[groupKey] == header.reference
    && FindGroup(s.baseline.groups, groupKey).Some?
    && header.info.color == FindGroup(s.baseline.groups, groupKey).value.color
    && (header.info.partial <==> GroupGoesOn(s, lo, hi, groupKey))
  }

  /** `partial` tells the truth on every page, for every window and every group shown. */
  lemma PartialTellsTheTruth(s: StoredSnapshot, offset: nat, node: PageWindow, item: PageItem)
    requires StoredOk(s) && AllResolve(s) && offset <= |s.matchedKeys|
    requires offset <= PageEnd(s, offset) && node in PageOf(s, offset).windows
    ensures node.items != []
    ensures exists windowKey :: WindowTold(s, offset, PageEnd(s, offset), node.header, windowKey)
    ensures item in node.items && item.GroupItem? ==>
      exists groupKey :: GroupTold(s, offset, PageEnd(s, offset), item.group, groupKey)
  {
    var windows, entries := PageOf(s, offset).windows, PageEntries(s, offset);
    PageHierarchy(s, offset);
    NodesHaveItems(windows, node);
    hide *;
    var shown := if item in node.items then item else node.items[0];
    HeadersShown(windows, node, shown);
    var e :| e in entries && e.window == node.header && (shown.GroupItem? ==> e.group == Some(shown.group));
    var tab := EntryTab(s, offset, e);
    EntryTold(s, offset, PageEnd(s, offset), tab);
  }

  /** An entry of a page is that of some matched tab. */
  lemma EntryTab(s: StoredSnapshot, offset: nat, e: PageEntry) returns (tab: BaselineTab)
    requires AllResolve(s) && offset <= PageEnd(s, offset) && e in PageEntries(s, offset)
    ensures Resolves(s, tab) && e == EntryOf(s, offset, PageEnd(s, offset), tab)
    ensures e.group.Some? <==> tab.groupKey.Some?
  {
    var entries := PageEntries(s, offset);
    var i :| 0 <= i < |entries| && entries[i] == e;
    tab := Records(s)[offset + i];
    assert Resolves(s, tab);
    hide Records, Resolves, ProjectTab, ShowGroup, ShowWindow, Entries;
  }

  lemma EntryTold(s: StoredSnapshot, lo: nat, hi: nat, tab: BaselineTab)
    requires KeysFound(s) && Resolves(s, tab)
    ensures WindowTold(s, lo, hi, EntryOf(s, lo, hi, tab).window, tab.windowKey)
    ensures tab.groupKey.Some? ==> GroupTold(s, lo, hi, EntryOf(s, lo, hi, tab).group.value, tab.groupKey.value)
  {
  }

  /** Full detail shows every recorded field of window, group and tab; compact detail shows none but the
      identifying ones, and `frozen` only if it is true.  Empty texts are never shown. */
  lemma DetailLevels(s: StoredSnapshot, lo: nat, hi: nat, t: BaselineTab)
    requires KeysFound(s) && Resolves(s, t)
    ensures var e, w := EntryOf(s, lo, hi, t), FindWindow(s.baseline.windows, t.windowKey).value;
      var full, shown, i := s.detail.Full?, e.tab, e.window.info;
      && (i.top, i.left, i.width, i.height) == (if full then (w.top, w.left, w.width, w.height) else (None, None, None, None))
      && (i.windowType, i.state, i.alwaysOnTop) == (if full then (w.windowType, w.state, w.alwaysOnTop) else (None, None, None))
      && (shown.active, shown.pinned, shown.discarded) == (t.active, t.pinned, t.discarded)
      && (shown.audible, shown.muted, shown.autoDiscardable) == (if full then (t.audible, t.muted, t.autoDiscardable) else (None, None, None))
      && shown.lastAccessed == (if full then t.lastAccessed else None)
      && (shown.frozen.Some? ==> shown.frozen == t.frozen) && (t.frozen == Some(true) ==> shown.frozen == t.frozen)
      && (shown.frozen == Some(false) <==> full && t.frozen == Some(false))
      && (shown.loading.Some? <==> full && t.status.Some?) && (shown.loading == Some(true) <==> full && t.status == Some("loading"))
      && (shown.openerRef.Some? <==> full && t.openerKey.Some?)
      && (shown.openerRef.Some? ==> shown.openerRef.value == s.references.tabs[t.openerKey.value])
      && shown.highlighted == (if full then Some(t.highlighted) else None)
    ensures var e := EntryOf(s, lo, hi, t);
      && (e.tab.title.Some? ==> e.tab.title == t.title && e.tab.title.value != "") && (e.tab.title.None? ==> t.title in {None, Some("")})
      && (e.tab.url.Some? ==> e.tab.url == t.url && e.tab.url.value != "") && (e.tab.url.None? ==> t.url in {None, Some("")})
      && (e.tab.pendingUrl.Some? <==> s.detail.Full? && t.pendingUrl !in {None, Some("")})
      && (e.tab.pendingUrl.Some? ==> e.tab.pendingUrl == t.pendingUrl)
      && (e.tab.favIconUrl.Some? <==> s.detail.Full? && t.favIconUrl !in {None, Some("")})
      && (e.tab.favIconUrl.Some? ==> e.tab.favIconUrl == t.favIconUrl)
    ensures t.groupKey.Some? ==>
      var shown, g := EntryOf(s, lo, hi, t).group.value.info, FindGroup(s.baseline.groups, t.groupKey.value).value;
      && (shown.collapsed, shown.shared) == (if s.detail.Full? then (Some(g.collapsed), g.shared) else (None, None))
      && shown.color == g.color && (shown.title.Some? <==> g.title !in {None, Some("")})
      && (shown.title.Some? ==> shown.title == g.title)
  {
  }

  // ---------------------------------------------------------------- following the cursors

  ghost predicate CursorsRetained(s: StoredSnapshot) {
    exists first, next :: CursorsOk(s, first, next)
  }

  lemma NextPage(s: StoredSnapshot, offset: nat)
    requires CursorsRetained(s) && |s.matchedKeys| <= USIZE_MAX
    requires offset <= |s.matchedKeys| && PageStart(offset, s.limit)
    ensures NextCursor(s, offset).Some? <==> PageEnd(s, offset) < |s.matchedKeys|
    ensures NextCursor(s, offset).Some? ==>
      && NextCursor(s, offset).value in s.cursors && s.cursors[NextCursor(s, offset).value] == PageEnd(s, offset)
      && PageEnd(s, offset) == offset + s.limit && PageStart(PageEnd(s, offset), s.limit)
  {
    var first, next :| CursorsOk(s, first, next);
    if PageEnd(s, offset) < |s.matchedKeys| {
      assert PageEnd(s, offset) == offset + s.limit;
      StartPlusLimit(offset, s.limit);
    }
  }

  lemma StartPlusLimit(offset: nat, limit: nat)
    requires limit >= 1 && PageStart(offset, limit)
    ensures PageStart(offset + limit, limit)
  {
    var q := offset / limit;
    assert offset == q * limit;
    MultipleRemainder(q + 1, limit);
    assert (q + 1) * limit == offset + limit;
  }

  /** The pages a reader sees who follows nextCursor from a page start. */
  ghost function Chain(s: StoredSnapshot, offset: nat): seq<SnapshotPage>
    requires AllResolve(s) && CursorsRetained(s) && |s.matchedKeys| <= USIZE_MAX
    requires offset <= |s.matchedKeys| && PageStart(offset, s.limit) && offset <= PageEnd(s, offset)
    decreases |s.matchedKeys| - offset
  {
    var page := PageOf(s, offset);
    NextPage(s, offset);
    if page.nextCursor.None? then [page] else [page] + Chain(s, s.cursors[page.nextCursor.value])
  }

  ghost function TabRefs(entries: seq<PageEntry>): seq<Name> {
    seq(|entries|, i requires 0 <= i < |entries| => entries[i].tab.reference)
  }

  ghost function ChainTabs(pages: seq<SnapshotPage>): seq<Name> {
    if pages == [] then [] else TabRefs(Flatten(pages[0].windows)) + ChainTabs(pages[1..])
  }

  ghost function MatchedRefs(s: StoredSnapshot): seq<Name>
    requires AllResolve(s)
  {
    seq(|s.matchedKeys|, i requires 0 <= i < |s.matchedKeys| => s.references.tabs[Records(s)[i].key])
  }

  lemma EntryRef(s: StoredSnapshot, offset: nat, i: nat)
    requires AllResolve(s) && offset <= PageEnd(s, offset) && offset + i < PageEnd(s, offset)
    ensures PageEntries(s, offset)[i].tab.reference == MatchedRefs(s)[offset + i]
  {
    assert Resolves(s, Records(s)[offset + i]);
    hide ShowWindow, ShowGroup, WindowGoesOn, GroupGoesOn, Records;
  }

  lemma PageRefs(s: StoredSnapshot, offset: nat)
    requires StoredOk(s) && AllResolve(s) && offset <= |s.matchedKeys| && offset <= PageEnd(s, offset)
    ensures TabRefs(Flatten(PageOf(s, offset).windows)) == MatchedRefs(s)[offset..PageEnd(s, offset)]
  {
    hide *;
    PageHierarchy(s, offset);
    var entries, refs := PageEntries(s, offset), MatchedRefs(s);
    PageLength(s, offset);
    forall i | 0 <= i < |entries| ensures entries[i].tab.reference == refs[offset + i] {
      EntryRef(s, offset, i);
    }
    RefsAre(entries, refs[offset..PageEnd(s, offset)]);
  }

  lemma PageLength(s: StoredSnapshot, offset: nat)
    requires AllResolve(s) && offset <= PageEnd(s, offset)
    ensures |PageEntries(s, offset)| == PageEnd(s, offset) - offset && PageEnd(s, offset) <= |s.matchedKeys|
    ensures |MatchedRefs(s)| == |s.matchedKeys|
  {
  }

  lemma RefsAre(entries: seq<PageEntry>, refs: seq<Name>)
    requires |entries| == |refs| && forall i :: 0 <= i < |entries| ==> entries[i].tab.reference == refs[i]
    ensures TabRefs(entries) == refs
  {
  }

  lemma CountStep(left: nat, limit: nat)
    requires limit >= 1
    ensures left <= limit ==> CursorCount(left, limit) == 0
    ensures left > limit ==> CursorCount(left, limit) == CursorCount(left - limit, limit) + 1
  {
    if left > limit {
      var q := (left - 1 - limit) / limit;
      assert left - 1 == (q + 1) * limit + (left - 1 - limit) % limit by {
        assert (q + 1) * limit == q * limit + limit;
      }
      QuotientAtLeast(q + 1, limit, left - 1);
      QuotientAtMost(q + 2, limit, left) by { assert (q + 2) * limit == (q + 1) * limit + limit; }
    }
  }

  lemma ChainUnfolds(s: StoredSnapshot, offset: nat)
    requires AllResolve(s) && CursorsRetained(s) && |s.matchedKeys| <= USIZE_MAX
    requires offset <= |s.matchedKeys| && PageStart(offset, s.limit) && offset <= PageEnd(s, offset)
    ensures PageEnd(s, offset) >= |s.matchedKeys| ==> Chain(s, offset) == [PageOf(s, offset)]
    ensures PageEnd(s, offset) < |s.matchedKeys| ==>
      && PageStart(PageEnd(s, offset), s.limit) && offset < PageEnd(s, offset) <= PageEnd(s, PageEnd(s, offset))
      && PageEnd(s, offset) == offset + s.limit
      && Chain(s, offset) == [PageOf(s, offset)] + Chain(s, PageEnd(s, offset))
  {
    NextPage(s, offset);
    hide AllResolve, PageEntries, Regroup, PageStart;
  }

  lemma ChainTabsCons(page: SnapshotPage, rest: seq<SnapshotPage>)
    ensures ChainTabs([page] + rest) == TabRefs(Flatten(page.windows)) + ChainTabs(rest)
  {
    assert ([page] + rest)[1..] == rest;
    hide Flatten, TabRefs;
  }

  lemma LastPage(s: StoredSnapshot, offset: nat)
    requires |s.matchedKeys| <= USIZE_MAX && offset <= |s.matchedKeys|
    ensures PageEnd(s, offset) < |s.matchedKeys| <==> |s.matchedKeys| - offset > s.limit
    ensures ChainTabs([]) == []
  {
  }

  lemma {:induction false} ChainFrom(s: StoredSnapshot, offset: nat)
    requires StoredOk(s) && AllResolve(s) && CursorsRetained(s)
    requires offset <= |s.matchedKeys| && PageStart(offset, s.limit) && offset <= PageEnd(s, offset)
    ensures ChainTabs(Chain(s, offset)) == MatchedRefs(s)[offset..]
    ensures |Chain(s, offset)| == CursorCount(|s.matchedKeys| - offset, s.limit) + 1
    decreases |s.matchedKeys| - offset
  {
    hide *;
    StoredParts(s);
    PageLength(s, offset);
    var page, end, length := PageOf(s, offset), PageEnd(s, offset), |s.matchedKeys|;
    LastPage(s, offset);
    ChainUnfolds(s, offset);
    PageRefs(s, offset);
    CountStep(length - offset, s.limit);
    if end >= length {
      ChainTabsCons(page, []);
      assert [page] + [] == [page];
    } else {
      ChainFrom(s, end);
      ChainTabsCons(page, Chain(s, end));
      assert length - end == (length - offset) - s.limit;
    }
  }

  /** What every page of one snapshot says about the whole: whose it is, when it was taken, how many tabs matched. */
  ghost predicate TellsOf(s: StoredSnapshot, page: SnapshotPage) {
    page.totalMatched == |s.matchedKeys| && page.snapshotRef == s.snapshotRef && page.capturedAt == s.baseline.capturedAt
  }

  /** All pages but the last are full. */
  ghost predicate PagesFull(pages: seq<SnapshotPage>, limit: nat) {
    && (forall i :: 0 <= i < |pages| ==> |Flatten(pages[i].windows)| <= limit)
    && (forall i :: 0 <= i < |pages| - 1 ==> |Flatten(pages[i].windows)| == limit)
  }

  lemma PageTells(s: StoredSnapshot, offset: nat)
    requires StoredOk(s) && AllResolve(s) && offset <= |s.matchedKeys| && offset <= PageEnd(s, offset)
    ensures TellsOf(s, PageOf(s, offset))
    ensures |Flatten(PageOf(s, offset).windows)| == PageEnd(s, offset) - offset <= s.limit
  {
    PageHierarchy(s, offset);
    PageLength(s, offset);
    hide StoredOk, AllResolve, Regroup, PageEntries, Flatten, NextCursor;
  }

  lemma PagesFullCons(page: SnapshotPage, rest: seq<SnapshotPage>, limit: nat)
    requires PagesFull(rest, limit) && |Flatten(page.windows)| <= limit && (rest == [] || |Flatten(page.windows)| == limit)
    ensures PagesFull([page] + rest, limit)
  {
    hide Flatten;
  }

  lemma {:induction false} ChainTells(s: StoredSnapshot, offset: nat)
    requires StoredOk(s) && AllResolve(s) && CursorsRetained(s)
    requires offset <= |s.matchedKeys| && PageStart(offset, s.limit) && offset <= PageEnd(s, offset)
    ensures forall page :: page in Chain(s, offset) ==> TellsOf(s, page)
    ensures PagesFull(Chain(s, offset), s.limit)
    decreases |s.matchedKeys| - offset
  {
    hide *;
    StoredParts(s);
    PageLength(s, offset);
    ChainUnfolds(s, offset);
    PageTells(s, offset);
    LastPage(s, offset);
    var page := PageOf(s, offset);
    if PageEnd(s, offset) >= |s.matchedKeys| {
      NoPages(s.limit);
      PagesFullCons(page, [], s.limit);
      assert [page] + [] == [page];
    } else {
      ChainTells(s, PageEnd(s, offset));
      PagesFullCons(page, Chain(s, PageEnd(s, offset)), s.limit);
    }
  }

  lemma NoPages(limit: nat)
    ensures PagesFull([], limit)
  {
  }

  /** Following nextCursor from the first page visits every matched tab exactly once, in sorted order, in
      one page more than there are cursors; every page but the last is full, and each tells how many tabs matched. */
  lemma CursorChainPartitions(s: StoredSnapshot)
    requires StoredOk(s) && AllResolve(s) && CursorsRetained(s) && PageStart(0, s.limit) && 0 <= PageEnd(s, 0)
    ensures ChainTabs(Chain(s, 0)) == MatchedRefs(s)
    ensures NoRepeats(MatchedRefs(s))
    ensures |Chain(s, 0)| == CursorCount(|s.matchedKeys|, s.limit) + 1
    ensures PagesFull(Chain(s, 0), s.limit)
    ensures forall page :: page in Chain(s, 0) ==> TellsOf(s, page) && page.totalMatched == |ChainTabs(Chain(s, 0))|
  {
    hide *;
    StoredParts(s);
    RefsDistinct(s);
    PageLength(s, 0);
    ChainFrom(s, 0);
    ChainTells(s, 0);
    assert MatchedRefs(s)[0..] == MatchedRefs(s);
    forall page | page in Chain(s, 0) ensures page.totalMatched == |MatchedRefs(s)| { TotalIs(s, page); }
  }

  lemma TotalIs(s: StoredSnapshot, page: SnapshotPage)
    requires TellsOf(s, page)
    ensures page.totalMatched == |s.matchedKeys|
  {
  }

  lemma RefsDistinct(s: StoredSnapshot)
    requires StoredOk(s) && AllResolve(s)
    ensures NoRepeats(MatchedRefs(s))
  {
    KeysDistinct(s);
    assert Injective(s.references.tabs);
    hide StoredOk, Records, ReferencesCover, Resolves;
  }
}

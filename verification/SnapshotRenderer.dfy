/** The page renderer and the cursor table, proved against the pages that are meant. */
module SnapshotRenderer {
  import opened Wrappers
  import opened Baselines
  import opened Hierarchy
  import opened Snapshots
  import opened Counting
  import opened SnapshotPages

  /** Opening a window that is not the last one, then adding the item, is adding the entry. */
  lemma AddInNewWindow(windows: seq<PageWindow>, entry: PageEntry)
    requires !JoinsWindow(windows, entry.window)
    ensures Front(windows + [WindowNode(entry.window, [])]) == windows
    ensures Last(windows + [WindowNode(entry.window, [])]) == WindowNode(entry.window, [])
    ensures AddEntry(windows, entry) == windows + [WindowNode(entry.window, AddItem([], entry.group, entry.tab))]
  {
  }

  /** The renderer's last window is that of its last tab; references tell windows apart. */
  ghost predicate CurrentWindow(s: StoredSnapshot, windows: seq<PageWindow>, current: Option<string>) {
    match current
    case None => windows == []
    case Some(key) => windows != [] && key in s.references.windows && Last(windows).header.reference == s.references.windows[key]
  }

  lemma CurrentDecides(s: StoredSnapshot, windows: seq<PageWindow>, current: Option<string>, lo: nat, hi: nat, tab: BaselineTab)
    requires StoredOk(s) && Resolves(s, tab) && CurrentWindow(s, windows, current)
    ensures JoinsWindow(windows, EntryOf(s, lo, hi, tab).window) <==> current == Some(tab.windowKey)
  {
    hide Last;
  }

  lemma CurrentAfter(s: StoredSnapshot, windows: seq<PageWindow>, lo: nat, hi: nat, tab: BaselineTab)
    requires KeysFound(s) && Resolves(s, tab)
    ensures CurrentWindow(s, AddEntry(windows, EntryOf(s, lo, hi, tab)), Some(tab.windowKey))
  {
    var entry := EntryOf(s, lo, hi, tab);
    EndsLikeStep(windows, [], entry);
    Pushed([], entry);
    assert [] + [entry] == [entry];
  }

  lemma NextEntry(s: StoredSnapshot, lo: nat, hi: nat, n: nat)
    requires AllResolve(s) && lo + n < hi <= |s.matchedKeys|
    ensures Regroup(Entries(s, lo, hi, n + 1))
      == AddEntry(Regroup(Entries(s, lo, hi, n)), EntryOf(s, lo, hi, Records(s)[lo + n]))
  {
    var entry := EntryOf(s, lo, hi, Records(s)[lo + n]);
    assert Entries(s, lo, hi, n + 1) == Entries(s, lo, hi, n) + [entry];
    RegroupSnoc(Entries(s, lo, hi, n), entry);
  }

  /** The item list of the last window once a tab is added. */
  method AddTab(s: StoredSnapshot, lo: nat, hi: nat, tab: BaselineTab, items: seq<PageItem>)
    returns (after: seq<PageItem>)
    requires StoredOk(s) && Resolves(s, tab) && lo <= hi <= |s.matchedKeys|
    ensures after == AddItem(items, EntryOf(s, lo, hi, tab).group, EntryOf(s, lo, hi, tab).tab)
  {
    hide ValidModel, ReferencesCover, StrictlyOrdered, Records, GroupGoesOn, WindowGoesOn;
    var outputTab := ProjectTab(s, tab);
    if tab.groupKey.Some? {
      var groupKey := tab.groupKey.value;
      var groupRef := s.references.groups[groupKey];
      if items != [] && Last(items).GroupItem? && Last(items).group.reference == groupRef {
        after := Front(items) + [GroupItem(Last(items).group, Last(items).tabs + [outputTab])];
      } else {
        var matchingInGroup := CountIf(s.baseline.tabs, MatchedInGroup(groupKey, KeySet(s.matchedKeys)));
        var pageInGroup := CountIf(s.baseline.tabs, MatchedInGroup(groupKey, KeySet(s.matchedKeys[lo..hi])));
        GroupCounts(s, lo, hi, groupKey);
        after := items + [GroupItem(ShowGroup(s, groupKey, pageInGroup < matchingInGroup), [outputTab])];
      }
    } else {
      after := items + [TabItem(outputTab)];
    }
  }

  /** The header pushed for a window that begins on the page. */
  method OpenWindow(s: StoredSnapshot, lo: nat, hi: nat, tab: BaselineTab) returns (header: Labelled<WindowInfo>)
    requires StoredOk(s) && Resolves(s, tab) && lo <= hi <= |s.matchedKeys|
    ensures header == EntryOf(s, lo, hi, tab).window
  {
    hide ValidModel, ReferencesCover, StrictlyOrdered, Records, GroupGoesOn, WindowGoesOn;
    var matchingInWindow := CountIf(s.baseline.tabs, MatchedInWindow(tab.windowKey, KeySet(s.matchedKeys)));
    var pageInWindow := CountIf(s.matchedKeys[lo..hi], KeyInWindow(s.baseline, tab.windowKey));
    WindowCounts(s, lo, hi, tab.windowKey);
    header := ShowWindow(s, tab.windowKey, pageInWindow < matchingInWindow);
  }

  lemma EmptyPage(s: StoredSnapshot, lo: nat, hi: nat)
    requires AllResolve(s) && lo <= hi <= |s.matchedKeys|
    ensures Regroup(Entries(s, lo, hi, 0)) == [] && CurrentWindow(s, [], None)
  {
  }

  lemma JoinLast(windows: seq<PageWindow>, entry: PageEntry)
    requires JoinsWindow(windows, entry.window)
    ensures windows != []
    ensures AddEntry(windows, entry)
      == Front(windows) + [WindowNode(Last(windows).header, AddItem(Last(windows).items, entry.group, entry.tab))]
  {
  }

  /** The lookups that would end in a missing reference are all in bounds, so those arms are dead. */
  method RenderPage(s: StoredSnapshot, offset: nat, size: SnapshotPage -> nat)
    returns (r: Result<SnapshotPage, SnapshotError>)
    requires StoredOk(s) && AllResolve(s) && offset <= |s.matchedKeys|
    ensures offset <= PageEnd(s, offset)
    ensures r == if size(PageOf(s, offset)) > MAX_RESULT_BYTES then Failure(ResultTooLarge) else Success(PageOf(s, offset))
  {
    hide ValidModel, ReferencesCover, StrictlyOrdered, EntryOf, AddEntry, AddItem, Regroup, Entries, CurrentWindow;
    hide Resolves, JoinsWindow;
    var end := PageEnd(s, offset);
    var pageKeys := s.matchedKeys[offset..end];
    var windows: seq<PageWindow> := [];
    var currentWindowKey: Option<string> := None;
    EmptyPage(s, offset, end);
    for i := 0 to |pageKeys|
      invariant windows == Regroup(Entries(s, offset, end, i))
      invariant CurrentWindow(s, windows, currentWindowKey)
    {
      var tab := TabFor(s.baseline, pageKeys[i]);
      assert tab == Records(s)[offset + i];
      ghost var entry := EntryOf(s, offset, end, tab);
      ghost var before := windows;
      CurrentDecides(s, windows, currentWindowKey, offset, end, tab);
      NextEntry(s, offset, end, i);
      CurrentAfter(s, windows, offset, end, tab);
      if currentWindowKey != Some(tab.windowKey) {
        currentWindowKey := Some(tab.windowKey);
        var header := OpenWindow(s, offset, end, tab);
        AddInNewWindow(windows, entry);
        windows := windows + [WindowNode(header, [])];
      } else {
        JoinLast(windows, entry);
      }
      var window := Last(windows);
      var items := AddTab(s, offset, end, tab, window.items);
      windows := Front(windows) + [WindowNode(window.header, items)];
    }
    var page := SnapshotPage(s.snapshotRef, s.baseline.capturedAt, |s.matchedKeys|, windows, NextCursor(s, offset));
    if size(page) > MAX_RESULT_BYTES { return Failure(ResultTooLarge); }
    return Success(page);
  }

  // ---------------------------------------------------------------- cursors

  function CursorCount(length: nat, limit: nat): nat
    requires limit >= 1
  {
    (if length == 0 then 0 else length - 1) / limit
  }

  /** An offset at which a page starts. */
  predicate PageStart(offset: nat, limit: nat)
    requires limit >= 1
  {
    offset % limit == 0
  }

  /** The cursor tables for the page starts below an offset: one cursor each, of names first .. next. */
  ghost predicate CursorsBelow(s: StoredSnapshot, offset: nat, first: Name, next: Name) {
    && 1 <= s.limit && first <= next
    && (forall n :: n in s.cursorByOffset <==> 0 < n < offset && n < |s.matchedKeys| && PageStart(n, s.limit))
    && (forall c :: c in s.cursors <==> first <= c < next)
    && (forall n :: n in s.cursorByOffset ==> s.cursorByOffset[n] in s.cursors && s.cursors[s.cursorByOffset[n]] == n)
    && (forall c :: c in s.cursors ==> s.cursors[c] in s.cursorByOffset && s.cursorByOffset[s.cursors[c]] == c)
  }

  /** Exactly the starts of later pages have a cursor, and the two tables are inverse. */
  ghost predicate CursorsOk(s: StoredSnapshot, first: Name, next: Name) {
    CursorsBelow(s, |s.matchedKeys|, first, next)
  }

  lemma NextMultiple(n: nat, limit: nat, length: nat)
    requires limit >= 1 && n >= 1 && n * limit < length
    ensures PageStart(n * limit, limit) && n * limit + limit == (n + 1) * limit
    ensures forall m: nat :: n * limit < m < (n + 1) * limit ==> !PageStart(m, limit)
    ensures n <= CursorCount(length, limit)
  {
    MultipleRemainder(n, limit);
    forall m: nat | n * limit < m < (n + 1) * limit ensures !PageStart(m, limit) {
      BetweenMultiples(n, limit, m);
    }
    QuotientAtLeast(n, limit, length - 1);
  }

  lemma MultipleRemainder(n: nat, limit: nat)
    requires limit >= 1
    ensures (n * limit) % limit == 0
  {
    var m := n * limit;
    var q := m / limit;
    assert m == q * limit + m % limit;
    if q < n { MultiplyMonotone(q + 1, n, limit); } else { MultiplyMonotone(n, q, limit); }
  }

  lemma BetweenMultiples(n: nat, limit: nat, m: nat)
    requires limit >= 1 && n * limit < m < (n + 1) * limit
    ensures m % limit != 0
  {
    var q := m / limit;
    assert m == q * limit + m % limit;
    if m % limit == 0 {
      if q <= n { MultiplyMonotone(q, n, limit); } else { MultiplyMonotone(n + 1, q, limit); }
    }
  }

  lemma MultiplyMonotone(a: nat, b: nat, c: nat)
    requires a <= b
    ensures a * c <= b * c
  {
  }

  lemma QuotientAtLeast(n: nat, limit: nat, m: nat)
    requires limit >= 1 && n * limit <= m
    ensures n <= m / limit
  {
    var q := m / limit;
    assert m == q * limit + m % limit;
    if q + 1 <= n { MultiplyMonotone(q + 1, n, limit); }
  }

  lemma QuotientAtMost(n: nat, limit: nat, length: nat)
    requires limit >= 1 && n * limit >= length
    ensures length > 0 ==> CursorCount(length, limit) < n
  {
    if length > 0 {
      var q := (length - 1) / limit;
      assert length - 1 == q * limit + (length - 1) % limit;
      if q >= n { MultiplyMonotone(n, q, limit); }
    }
  }

  lemma CursorAdded(s: StoredSnapshot, offset: nat, first: Name, next: Name, after: nat)
    requires CursorsBelow(s, offset, first, next) && 0 < offset < |s.matchedKeys| && PageStart(offset, s.limit)
    requires offset < after && forall m: nat :: offset < m < after && m < |s.matchedKeys| ==> !PageStart(m, s.limit)
    ensures CursorsBelow(s.(cursors := s.cursors[next := offset], cursorByOffset := s.cursorByOffset[offset := next]), after, first, next + 1)
  {
    hide PageStart;
  }

  /** Issues one cursor for every later page: as many as were checked against the limit before. */
  method PrepareCursors(snapshot: StoredSnapshot, supply: Name) returns (s: StoredSnapshot, next: Name)
    requires 1 <= snapshot.limit && |snapshot.matchedKeys| <= USIZE_MAX
    requires snapshot.cursors == map[] && snapshot.cursorByOffset == map[]
    ensures CursorsOk(s, supply, next)
    ensures s == snapshot.(cursors := s.cursors, cursorByOffset := s.cursorByOffset)
    ensures next == supply + CursorCount(|s.matchedKeys|, s.limit)
  {
    s, next := snapshot, supply;
    var offset := s.limit;
    ghost var n: nat := 1;
    FirstMultiple(s.limit);
    assert CursorsBelow(s, offset, supply, next);
    assert AtPage(offset, n, s.limit, |s.matchedKeys|);
    hide *;
    while offset < |s.matchedKeys|
      invariant s == snapshot.(cursors := s.cursors, cursorByOffset := s.cursorByOffset)
      invariant n >= 1 && next == supply + (n - 1)
      invariant AtPage(offset, n, s.limit, |s.matchedKeys|)
      invariant CursorsBelow(s, offset, supply, next)
    {
      PageAfter(offset, n, s.limit, |s.matchedKeys|);
      CursorAdded(s, offset, supply, next, SaturatingAdd(offset, s.limit));
      var cursor := next;
      next := next + 1;
      s := s.(cursors := s.cursors[cursor := offset], cursorByOffset := s.cursorByOffset[offset := cursor]);
      offset := SaturatingAdd(offset, s.limit);
      n := n + 1;
    }
    PagesCounted(offset, n, s.limit, |s.matchedKeys|);
    CursorsBeyond(s, offset, supply, next);
  }

  /** The loop of PrepareCursors stands at the start of page n, or past the end. */
  ghost predicate AtPage(offset: nat, n: nat, limit: nat, length: nat)
    requires limit >= 1
  {
    && 1 <= n && (offset == n * limit || (offset == USIZE_MAX && n * limit >= length))
    && (n == 1 || n - 1 <= CursorCount(length, limit))
  }

  lemma PageAfter(offset: nat, n: nat, limit: nat, length: nat)
    requires 1 <= limit && AtPage(offset, n, limit, length) && offset < length <= USIZE_MAX
    ensures 0 < offset < SaturatingAdd(offset, limit) && PageStart(offset, limit)
    ensures forall m: nat :: offset < m < SaturatingAdd(offset, limit) && m < length ==> !PageStart(m, limit)
    ensures AtPage(SaturatingAdd(offset, limit), n + 1, limit, length)
  {
    hide PageStart, CursorCount;
    NextMultiple(n, limit, length);
  }

  lemma PagesCounted(offset: nat, n: nat, limit: nat, length: nat)
    requires 1 <= limit && AtPage(offset, n, limit, length) && length <= offset && length <= USIZE_MAX
    ensures n - 1 == CursorCount(length, limit)
  {
    hide PageStart, CursorCount;
    CountOfNothing(limit);
    if length > 0 { QuotientAtMost(n, limit, length); }
    OnePage(length, limit);
  }

  lemma OnePage(length: nat, limit: nat)
    requires 1 <= limit
    ensures length <= limit ==> CursorCount(length, limit) == 0
  {
  }

  lemma CursorsBeyond(s: StoredSnapshot, offset: nat, first: Name, next: Name)
    requires CursorsBelow(s, offset, first, next) && offset >= |s.matchedKeys|
    ensures CursorsOk(s, first, next)
  {
    hide PageStart;
  }

  lemma CountOfNothing(limit: nat)
    requires limit >= 1
    ensures CursorCount(0, limit) == 0
  {
  }

  lemma FirstMultiple(limit: nat)
    requires limit >= 1
    ensures forall m: nat :: 0 < m < limit ==> !PageStart(m, limit)
  {
  }
}

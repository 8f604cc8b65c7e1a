/** Complete browser baselines as the extension reports them, and their validation. */
module Baselines {
  import opened Wrappers
  import opened Sorting

  newtype i32 = x: int | -0x8000_0000 <= x < 0x8000_0000

  datatype BaselineWindow = BaselineWindow(
    key: string, id: i32, focused: bool,
    top: Option<i32>, left: Option<i32>, width: Option<i32>, height: Option<i32>,
    windowType: Option<string>, state: Option<string>, alwaysOnTop: Option<bool>)

  datatype BaselineGroup = BaselineGroup(
    key: string, id: i32, windowKey: string,
    title: Option<string>, color: string, collapsed: bool, shared: Option<bool>)

  datatype BaselineTab = BaselineTab(
    key: string, id: i32, windowKey: string, groupKey: Option<string>, index: i32,
    title: Option<string>, url: Option<string>, pendingUrl: Option<string>,
    active: bool, highlighted: bool, pinned: bool,
    audible: Option<bool>, muted: Option<bool>, status: Option<string>,
    discarded: bool, frozen: Option<bool>, autoDiscardable: Option<bool>, lastAccessed: Option<real>,
    openerKey: Option<string>, favIconUrl: Option<string>)

  datatype Baseline = Baseline(
    browserInstanceId: string, modelRevision: nat, capturedAt: string,
    supportsFrozenTabs: bool, supportsSharedTabGroups: bool,
    windows: seq<BaselineWindow>, groups: seq<BaselineGroup>, tabs: seq<BaselineTab>)

  datatype BaselineError =
    | WrongBrowser | MissingCapturedAt | ZeroRevision
    | WindowIdentity | GroupIdentity | GroupWindow
    | TabIdentity | TabIndex | TabWindow | TabGroup
    | IndexGap | SplitGroup | UnknownOpener
    | FrozenSupport | SharedSupport

  // ---------------------------------------------------------------- declarative validity

  /** Unicode White_Space, as str::trim uses it. */
  predicate IsWhitespace(c: char) {
    || '\U{0009}' <= c <= '\U{000D}' || c in {'\U{0020}', '\U{0085}', '\U{00A0}', '\U{1680}'}
    || '\U{2000}' <= c <= '\U{200A}' || c in {'\U{2028}', '\U{2029}', '\U{202F}', '\U{205F}', '\U{3000}'}
  }

  predicate IsBlank(text: string) {
    forall i :: 0 <= i < |text| ==> IsWhitespace(text[i])
  }

  ghost predicate WindowIdentities(windows: seq<BaselineWindow>) {
    && (forall i :: 0 <= i < |windows| ==> windows[i].key != "")
    && (forall i, j :: 0 <= i < j < |windows| ==> windows[i].key != windows[j].key && windows[i].id != windows[j].id)
  }

  ghost predicate GroupIdentities(windows: seq<BaselineWindow>, groups: seq<BaselineGroup>) {
    && (forall i :: 0 <= i < |groups| ==> groups[i].key != "")
    && (forall i, j :: 0 <= i < j < |groups| ==> groups[i].key != groups[j].key && groups[i].id != groups[j].id)
    && (forall g, w :: g in groups && w in windows ==> g.key != w.key)
  }

  ghost predicate TabIdentities(b: Baseline, tabs: seq<BaselineTab>) {
    && (forall i :: 0 <= i < |tabs| ==> tabs[i].key != "")
    && (forall i, j :: 0 <= i < j < |tabs| ==> tabs[i].key != tabs[j].key && tabs[i].id != tabs[j].id)
    && (forall t, w :: t in tabs && w in b.windows ==> t.key != w.key)
    && (forall t, g :: t in tabs && g in b.groups ==> t.key != g.key)
  }

  /** No two tabs share a strip position. */
  ghost predicate PositionsDistinct(tabs: seq<BaselineTab>) {
    && (forall i :: 0 <= i < |tabs| ==> tabs[i].index >= 0)
    && (forall i, j :: 0 <= i < j < |tabs| ==> tabs[i].windowKey != tabs[j].windowKey || tabs[i].index != tabs[j].index)
  }

  ghost predicate KnownWindow(b: Baseline, key: string) {
    exists w :: w in b.windows && w.key == key
  }

  /** The group exists, in the window of the tab. */
  ghost predicate KnownGroup(b: Baseline, tab: BaselineTab) {
    tab.groupKey.Some? ==> exists g :: g in b.groups && g.key == tab.groupKey.value && g.windowKey == tab.windowKey
  }

  ghost predicate KnownOpener(b: Baseline, tab: BaselineTab) {
    tab.openerKey.Some? ==> exists t :: t in b.tabs && t.key == tab.openerKey.value
  }

  /** The tabs of one window, as reported. */
  function TabsOf(tabs: seq<BaselineTab>, windowKey: string): seq<BaselineTab> {
    if tabs == [] then []
    else if tabs[0].windowKey == windowKey then [tabs[0]] + TabsOf(tabs[1..], windowKey)
    else TabsOf(tabs[1..], windowKey)
  }

  ghost predicate HasPosition(tabs: seq<BaselineTab>, n: int) {
    exists t :: t in tabs && t.index as int == n
  }

  /** The strip positions of a window are exactly 0 .. n-1. */
  ghost predicate IndexesExact(tabs: seq<BaselineTab>, windowKey: string) {
    var mine := TabsOf(tabs, windowKey);
    forall n :: HasPosition(mine, n) <==> 0 <= n < |mine|
  }

  /** Between two tabs of a group, in strip order, there are only tabs of that group. */
  ghost predicate GroupsContiguous(tabs: seq<BaselineTab>) {
    forall a, b, c ::
      && a in tabs && b in tabs && c in tabs
      && a.windowKey == b.windowKey == c.windowKey && a.index < b.index < c.index
      && a.groupKey.Some? && a.groupKey == c.groupKey
      ==> b.groupKey == a.groupKey
  }

  ghost predicate SupportMatches(b: Baseline) {
    && (forall t :: t in b.tabs ==> t.frozen.Some? == b.supportsFrozenTabs)
    && (forall g :: g in b.groups ==> g.shared.Some? == b.supportsSharedTabGroups)
  }

  ghost predicate ValidBaseline(b: Baseline, browserInstanceId: string) {
    && b.browserInstanceId == browserInstanceId
    && !IsBlank(b.capturedAt)
    && b.modelRevision >= 1
    && ValidModel(b)
  }

  ghost predicate ValidModel(b: Baseline) {
    && WindowIdentities(b.windows)
    && GroupIdentities(b.windows, b.groups)
    && (forall g :: g in b.groups ==> KnownWindow(b, g.windowKey))
    && TabIdentities(b, b.tabs)
    && PositionsDistinct(b.tabs)
    && (forall t :: t in b.tabs ==> KnownWindow(b, t.windowKey) && KnownGroup(b, t))
    && (forall w :: w in b.windows ==> IndexesExact(b.tabs, w.key))
    && GroupsContiguous(b.tabs)
    && (forall t :: t in b.tabs ==> KnownOpener(b, t))
    && SupportMatches(b)
  }

  /** In a valid model a key names one object, of whatever kind, and an id one object of its kind. */
  lemma NamesApart(b: Baseline)
    requires ValidModel(b)
    ensures forall v, w :: v in b.windows && w in b.windows && (v.key == w.key || v.id == w.id) ==> v == w
    ensures forall g, h :: g in b.groups && h in b.groups && (g.key == h.key || g.id == h.id) ==> g == h
    ensures forall t, u :: t in b.tabs && u in b.tabs && (t.key == u.key || t.id == u.id) ==> t == u
    ensures forall t, u :: t in b.tabs && u in b.tabs && t.windowKey == u.windowKey && t.index == u.index ==> t == u
    ensures forall w, g, t :: w in b.windows && g in b.groups && t in b.tabs ==>
      w.key != g.key && w.key != t.key && g.key != t.key && w.key != "" && g.key != "" && t.key != ""
  {
    hide GroupsContiguous, SupportMatches, KnownWindow, KnownGroup, KnownOpener, IndexesExact;
  }

  // ---------------------------------------------------------------- one window strip

  predicate IndexLeq(a: BaselineTab, b: BaselineTab) { a.index <= b.index }

  /** The wrapping cast `as i32` of a position. */
  function AsI32(n: nat): i32 {
    var low := n % 0x1_0000_0000;
    if low < 0x8000_0000 then low as i32 else (low - 0x1_0000_0000) as i32
  }

  function Strip(tabs: seq<BaselineTab>, windowKey: string): seq<BaselineTab> {
    Sort(TabsOf(tabs, windowKey), IndexLeq)
  }

  lemma {:induction false} TabsOfElements(tabs: seq<BaselineTab>, windowKey: string)
    ensures forall t :: t in TabsOf(tabs, windowKey) <==> t in tabs && t.windowKey == windowKey
  {
    if tabs != [] {
      TabsOfElements(tabs[1..], windowKey);
      assert tabs == [tabs[0]] + tabs[1..];
    }
  }

  ghost predicate IndexesDistinct(tabs: seq<BaselineTab>) {
    forall i, j :: 0 <= i < j < |tabs| ==> tabs[i].index != tabs[j].index
  }

  ghost predicate Ascends(strip: seq<BaselineTab>) {
    forall i, j :: 0 <= i < j < |strip| ==> strip[i].index < strip[j].index
  }

  lemma {:induction false} TabsOfDistinct(tabs: seq<BaselineTab>, windowKey: string)
    requires PositionsDistinct(tabs)
    ensures IndexesDistinct(TabsOf(tabs, windowKey))
  {
    if tabs != [] {
      TabsOfDistinct(tabs[1..], windowKey);
      TabsOfElements(tabs[1..], windowKey);
      var mine, rest := TabsOf(tabs, windowKey), TabsOf(tabs[1..], windowKey);
      if tabs[0].windowKey == windowKey {
        forall i, j | 0 <= i < j < |mine| ensures mine[i].index != mine[j].index {
          assert mine[j] == rest[j - 1] && rest[j - 1] in rest;
          var k :| 0 <= k < |tabs| - 1 && tabs[1..][k] == rest[j - 1];
          assert tabs[k + 1] == rest[j - 1];
          assert rest[j - 1].windowKey == windowKey;
          assert mine[j] == tabs[k + 1];
          if i > 0 {
            assert mine[i] == rest[i - 1] && rest[i - 1].index != rest[j - 1].index;
          } else {
            assert mine[0] == tabs[0];
          }
        }
      }
    }
  }

  /** In strip order the positions ascend strictly, so the n-th position is at least n. */
  lemma StripAscends(tabs: seq<BaselineTab>, windowKey: string)
    requires PositionsDistinct(tabs)
    ensures var strip := Strip(tabs, windowKey);
      && |strip| == |TabsOf(tabs, windowKey)|
      && (forall t :: t in strip <==> t in tabs && t.windowKey == windowKey)
      && Ascends(strip)
      && (forall n :: 0 <= n < |strip| ==> strip[n].index as int >= n && AsI32(n) as int == n)
  {
    var mine, strip := TabsOf(tabs, windowKey), Strip(tabs, windowKey);
    TabsOfElements(tabs, windowKey);
    TabsOfDistinct(tabs, windowKey);
    assert TotalPreorder(IndexLeq);
    SortSorts(mine, IndexLeq);
    SortKeepsElements(mine, IndexLeq);
    IndexesStayDistinct(mine, strip);
    hide TabsOf, Sort;
    forall i, j | 0 <= i < j < |strip| ensures strip[i].index < strip[j].index {
      assert IndexLeq(strip[i], strip[j]);
    }
    forall n | 0 <= n < |strip| ensures strip[n].index >= 0 {
      assert strip[n] in strip && strip[n] in tabs;
    }
    AscendingFromZero(strip);
    forall n | 0 <= n < |strip| ensures AsI32(n) as int == n {
      assert strip[n].index as int >= n;
      CastExact(n);
    }
  }

  lemma CastExact(n: nat)
    requires n < 0x8000_0000
    ensures AsI32(n) as int == n
  {
  }

  lemma IndexesStayDistinct(mine: seq<BaselineTab>, strip: seq<BaselineTab>)
    requires multiset(mine) == multiset(strip)
    requires IndexesDistinct(mine)
    ensures IndexesDistinct(strip)
  {
    DistinctByCount(mine, strip);
    forall i, j | 0 <= i < j < |strip| ensures strip[i].index != strip[j].index {
      assert strip[i] in multiset(mine) && strip[j] in multiset(mine);
      assert strip[i] in mine && strip[j] in mine && strip[i] != strip[j];
    }
  }

  lemma {:induction false} AscendingFromZero(strip: seq<BaselineTab>)
    requires Ascends(strip)
    requires forall n :: 0 <= n < |strip| ==> strip[n].index >= 0
    ensures forall n :: 0 <= n < |strip| ==> strip[n].index as int >= n
  {
    if strip != [] {
      var last := |strip| - 1;
      var front := strip[..last];
      assert forall n :: 0 <= n < |front| ==> front[n] == strip[n] && strip[n].index >= 0;
      AscendingFromZero(strip[..last]);
      if last > 0 { assert strip[last - 1].index < strip[last].index; }
    }
  }

  /** The scan over a strip compares positions with a counter: that is exactness. */
  lemma ExactIffCounted(tabs: seq<BaselineTab>, windowKey: string)
    requires PositionsDistinct(tabs)
    ensures var strip := Strip(tabs, windowKey);
      IndexesExact(tabs, windowKey) <==> forall n :: 0 <= n < |strip| ==> strip[n].index == AsI32(n)
  {
    var mine, strip := TabsOf(tabs, windowKey), Strip(tabs, windowKey);
    StripAscends(tabs, windowKey);
    TabsOfElements(tabs, windowKey);
    assert forall t :: t in mine <==> t in strip;
    if IndexesExact(tabs, windowKey) {
      forall n | 0 <= n < |strip| ensures strip[n].index as int < |strip| {
        assert strip[n] in mine && HasPosition(mine, strip[n].index as int);
      }
      ExactIsCounted(strip);
    }
    if forall n :: 0 <= n < |strip| ==> strip[n].index == AsI32(n) {
      forall n ensures HasPosition(mine, n) <==> 0 <= n < |mine| {
        if 0 <= n < |mine| {
          assert strip[n] in mine && strip[n].index as int == n;
        }
        if HasPosition(mine, n) {
          var t :| t in mine && t.index as int == n;
          var m :| 0 <= m < |strip| && strip[m] == t;
        }
      }
    }
  }

  lemma {:induction false} ExactIsCounted(strip: seq<BaselineTab>)
    requires Ascends(strip)
    requires forall n :: 0 <= n < |strip| ==> n <= strip[n].index as int < |strip|
    ensures forall n :: 0 <= n < |strip| ==> strip[n].index as int == n
  {
    if strip != [] {
      var last := |strip| - 1;
      forall n | 0 <= n < last ensures strip[..last][n] == strip[n] && strip[n].index as int < last {
        assert strip[n].index < strip[last].index;
      }
      ExactIsCounted(strip[..last]);
      assert forall n :: 0 <= n < last ==> strip[n] == strip[..last][n];
    }
  }

  /** Contiguity read off a strip: no group comes back after another group or an ungrouped tab. */
  ghost predicate StripContiguous(strip: seq<BaselineTab>) {
    forall i, j, k :: 0 <= i < j < k < |strip| && strip[i].groupKey.Some? && strip[i].groupKey == strip[k].groupKey
      ==> strip[j].groupKey == strip[i].groupKey
  }

  lemma ContiguousInStrip(tabs: seq<BaselineTab>, key: string)
    requires PositionsDistinct(tabs)
    ensures GroupsContiguous(tabs) ==> StripContiguous(Strip(tabs, key))
  {
    StripAscends(tabs, key);
    var strip := Strip(tabs, key);
    hide Strip;
    if GroupsContiguous(tabs) {
      forall i, j, k | 0 <= i < j < k < |strip| && strip[i].groupKey.Some? && strip[i].groupKey == strip[k].groupKey
        ensures strip[j].groupKey == strip[i].groupKey
      {
        assert strip[i] in strip && strip[j] in strip && strip[k] in strip;
      }
    }
  }

  lemma ContiguousByStrips(tabs: seq<BaselineTab>)
    requires PositionsDistinct(tabs)
    requires forall t :: t in tabs ==> StripContiguous(Strip(tabs, t.windowKey))
    ensures GroupsContiguous(tabs)
  {
    forall a, b, c |
      && a in tabs && b in tabs && c in tabs
      && a.windowKey == b.windowKey == c.windowKey && a.index < b.index < c.index
      && a.groupKey.Some? && a.groupKey == c.groupKey
      ensures b.groupKey == a.groupKey
    {
      StripAscends(tabs, a.windowKey);
      ContiguousAt(Strip(tabs, a.windowKey), a, b, c);
    }
  }

  lemma ContiguousAt(strip: seq<BaselineTab>, a: BaselineTab, b: BaselineTab, c: BaselineTab)
    requires Ascends(strip)
    requires StripContiguous(strip) && a in strip && b in strip && c in strip
    requires a.index < b.index < c.index && a.groupKey.Some? && a.groupKey == c.groupKey
    ensures b.groupKey == a.groupKey
  {
    var i :| 0 <= i < |strip| && strip[i] == a;
    var j :| 0 <= j < |strip| && strip[j] == b;
    var k :| 0 <= k < |strip| && strip[k] == c;
    StripOrder(strip, i, j);
    StripOrder(strip, j, k);
  }

  lemma StripOrder(strip: seq<BaselineTab>, i: nat, j: nat)
    requires i < |strip| && j < |strip| && strip[i].index < strip[j].index && Ascends(strip)
    ensures i < j
  {
  }

  // ---------------------------------------------------------------- the scans

  ghost function WindowKeys(windows: seq<BaselineWindow>): set<string> { set w | w in windows :: w.key }
  ghost function WindowIds(windows: seq<BaselineWindow>): set<i32> { set w | w in windows :: w.id }
  ghost function GroupKeys(groups: seq<BaselineGroup>): set<string> { set g | g in groups :: g.key }
  ghost function GroupIds(groups: seq<BaselineGroup>): set<i32> { set g | g in groups :: g.id }
  ghost function TabKeys(tabs: seq<BaselineTab>): set<string> { set t | t in tabs :: t.key }
  ghost function TabIds(tabs: seq<BaselineTab>): set<i32> { set t | t in tabs :: t.id }
  ghost function Positions(tabs: seq<BaselineTab>): set<(string, i32)> { set t | t in tabs :: (t.windowKey, t.index) }

  lemma WindowIdentitiesStep(windows: seq<BaselineWindow>, w: BaselineWindow)
    ensures WindowIdentities(windows + [w]) <==>
      WindowIdentities(windows) && w.key != "" && w.key !in WindowKeys(windows) && w.id !in WindowIds(windows)
    ensures WindowKeys(windows + [w]) == WindowKeys(windows) + {w.key}
    ensures WindowIds(windows + [w]) == WindowIds(windows) + {w.id}
  {
    var all := windows + [w];
    assert all[|windows|] == w && forall i :: 0 <= i < |windows| ==> all[i] == windows[i];
    assert forall x :: x in all <==> x in windows || x == w;
  }

  lemma GroupIdentitiesStep(windows: seq<BaselineWindow>, groups: seq<BaselineGroup>, g: BaselineGroup)
    ensures GroupIdentities(windows, groups + [g]) <==>
      && GroupIdentities(windows, groups) && g.key != ""
      && g.key !in WindowKeys(windows) && g.key !in GroupKeys(groups) && g.id !in GroupIds(groups)
    ensures GroupKeys(groups + [g]) == GroupKeys(groups) + {g.key}
    ensures GroupIds(groups + [g]) == GroupIds(groups) + {g.id}
  {
    var all := groups + [g];
    assert all[|groups|] == g && forall i :: 0 <= i < |groups| ==> all[i] == groups[i];
    assert forall x :: x in all <==> x in groups || x == g;
  }

  lemma TabIdentitiesStep(b: Baseline, tabs: seq<BaselineTab>, t: BaselineTab)
    ensures TabIdentities(b, tabs + [t]) <==>
      && TabIdentities(b, tabs) && t.key != ""
      && t.key !in WindowKeys(b.windows) && t.key !in GroupKeys(b.groups)
      && t.key !in TabKeys(tabs) && t.id !in TabIds(tabs)
    ensures TabKeys(tabs + [t]) == TabKeys(tabs) + {t.key}
    ensures TabIds(tabs + [t]) == TabIds(tabs) + {t.id}
  {
    var all := tabs + [t];
    assert all[|tabs|] == t && forall i :: 0 <= i < |tabs| ==> all[i] == tabs[i];
    assert forall x :: x in all <==> x in tabs || x == t;
  }

  lemma PositionsStep(tabs: seq<BaselineTab>, t: BaselineTab)
    ensures PositionsDistinct(tabs + [t]) <==>
      PositionsDistinct(tabs) && t.index >= 0 && (t.windowKey, t.index) !in Positions(tabs)
    ensures Positions(tabs + [t]) == Positions(tabs) + {(t.windowKey, t.index)}
  {
    var all := tabs + [t];
    assert all[|tabs|] == t && forall i :: 0 <= i < |tabs| ==> all[i] == tabs[i];
    assert forall x :: x in all <==> x in tabs || x == t;
  }

  /** A prefix of a valid identity list is valid. */
  lemma IdentityPrefixes(b: Baseline, i: nat)
    ensures i <= |b.windows| && WindowIdentities(b.windows) ==> WindowIdentities(b.windows[..i])
    ensures i <= |b.groups| && GroupIdentities(b.windows, b.groups) ==> GroupIdentities(b.windows, b.groups[..i])
    ensures i <= |b.tabs| && TabIdentities(b, b.tabs) ==> TabIdentities(b, b.tabs[..i])
    ensures i <= |b.tabs| && PositionsDistinct(b.tabs) ==> PositionsDistinct(b.tabs[..i])
  {
  }

  method CheckWindows(b: Baseline) returns (ok: bool, keys: set<string>)
    ensures ok <==> WindowIdentities(b.windows)
    ensures ok ==> keys == WindowKeys(b.windows)
  {
    var ids: set<i32> := {};
    keys := {};
    for i := 0 to |b.windows|
      invariant WindowIdentities(b.windows[..i])
      invariant keys == WindowKeys(b.windows[..i]) && ids == WindowIds(b.windows[..i])
    {
      var window := b.windows[i];
      assert b.windows[..i + 1] == b.windows[..i] + [window];
      WindowIdentitiesStep(b.windows[..i], window);
      if window.key == "" || window.key in keys || window.id in ids {
        IdentityPrefixes(b, i + 1);
        return false, {};
      }
      keys, ids := keys + {window.key}, ids + {window.id};
    }
    assert b.windows[..|b.windows|] == b.windows;
    ok := true;
  }

  ghost predicate GroupWindowsOf(groups: seq<BaselineGroup>, groupWindows: map<string, string>) {
    && groupWindows.Keys == GroupKeys(groups)
    && forall g :: g in groups ==> groupWindows[g.key] == g.windowKey
  }

  ghost predicate GroupsKnown(b: Baseline, groups: seq<BaselineGroup>) {
    forall g :: g in groups ==> KnownWindow(b, g.windowKey)
  }

  lemma KnownWindowIsKey(b: Baseline, key: string)
    ensures KnownWindow(b, key) <==> key in WindowKeys(b.windows)
  {
  }

  lemma GroupsKnownStep(b: Baseline, groups: seq<BaselineGroup>, g: BaselineGroup)
    ensures GroupsKnown(b, groups + [g]) <==> GroupsKnown(b, groups) && KnownWindow(b, g.windowKey)
  {
    hide KnownWindow;
    assert forall x :: x in groups + [g] <==> x in groups || x == g;
  }

  lemma GroupWindowsStep(groups: seq<BaselineGroup>, groupWindows: map<string, string>, g: BaselineGroup)
    requires GroupWindowsOf(groups, groupWindows)
    ensures groupWindows.Keys == GroupKeys(groups)
    ensures g.key !in groupWindows && GroupKeys(groups + [g]) == GroupKeys(groups) + {g.key} ==>
      GroupWindowsOf(groups + [g], groupWindows[g.key := g.windowKey])
  {
    assert forall x :: x in groups + [g] <==> x in groups || x == g;
  }

  lemma NoGroupsYet(b: Baseline)
    ensures GroupIdentities(b.windows, []) && GroupsKnown(b, []) && GroupWindowsOf([], map[]) && GroupIds([]) == {}
  {
  }

  lemma GroupKnown(b: Baseline, i: nat)
    requires i < |b.groups|
    ensures GroupsKnown(b, b.groups) ==> KnownWindow(b, b.groups[i].windowKey)
  {
    hide KnownWindow;
    assert b.groups[i] in b.groups;
  }

  method CheckGroups(b: Baseline, windowKeys: set<string>)
    returns (error: Option<BaselineError>, groupWindows: map<string, string>)
    requires windowKeys == WindowKeys(b.windows)
    ensures error.None? <==> GroupIdentities(b.windows, b.groups) && GroupsKnown(b, b.groups)
    ensures error.None? ==> GroupWindowsOf(b.groups, groupWindows)
  {
    hide *;
    var ids: set<i32> := {};
    groupWindows := map[];
    NoGroupsYet(b);
    assert b.groups[..0] == [];
    for i := 0 to |b.groups|
      invariant GroupIdentities(b.windows, b.groups[..i]) && GroupsKnown(b, b.groups[..i])
      invariant GroupWindowsOf(b.groups[..i], groupWindows) && ids == GroupIds(b.groups[..i])
    {
      var group := b.groups[i];
      assert b.groups[..i + 1] == b.groups[..i] + [group];
      GroupIdentitiesStep(b.windows, b.groups[..i], group);
      GroupsKnownStep(b, b.groups[..i], group);
      GroupWindowsStep(b.groups[..i], groupWindows, group);
      KnownWindowIsKey(b, group.windowKey);
      if group.key == "" || group.key in windowKeys || group.key in groupWindows || group.id in ids {
        IdentityPrefixes(b, i + 1);
        return Some(GroupIdentity), map[];
      }
      if group.windowKey !in windowKeys {
        GroupKnown(b, i);
        return Some(GroupWindow), map[];
      }
      groupWindows, ids := groupWindows[group.key := group.windowKey], ids + {group.id};
    }
    assert b.groups[..|b.groups|] == b.groups;
    error := None;
  }

  ghost predicate TabsPlaced(b: Baseline, tabs: seq<BaselineTab>) {
    forall t :: t in tabs ==> KnownWindow(b, t.windowKey) && KnownGroup(b, t)
  }

  /** The lookup of a tab's group in the map built from the groups. */
  lemma GroupLookup(b: Baseline, groupWindows: map<string, string>, tab: BaselineTab)
    requires GroupIdentities(b.windows, b.groups) && GroupWindowsOf(b.groups, groupWindows)
    ensures KnownGroup(b, tab) <==>
      (tab.groupKey.Some? ==> tab.groupKey.value in groupWindows && groupWindows[tab.groupKey.value] == tab.windowKey)
  {
    if tab.groupKey.Some? && tab.groupKey.value in groupWindows {
      var g :| g in b.groups && g.key == tab.groupKey.value;
    }
  }

  lemma TabsPlacedStep(b: Baseline, tabs: seq<BaselineTab>, t: BaselineTab)
    ensures TabsPlaced(b, tabs + [t]) <==> TabsPlaced(b, tabs) && KnownWindow(b, t.windowKey) && KnownGroup(b, t)
  {
    hide KnownWindow, KnownGroup;
    assert forall x :: x in tabs + [t] <==> x in tabs || x == t;
  }

  lemma NoTabsYet(b: Baseline)
    ensures TabIdentities(b, []) && PositionsDistinct([]) && TabsPlaced(b, []) && TabKeys([]) == {} && TabIds([]) == {} && Positions([]) == {}
  {
  }

  lemma TabIsPlaced(b: Baseline, i: nat)
    requires i < |b.tabs|
    ensures TabsPlaced(b, b.tabs) ==> KnownWindow(b, b.tabs[i].windowKey) && KnownGroup(b, b.tabs[i])
  {
    hide KnownWindow, KnownGroup;
    assert b.tabs[i] in b.tabs;
  }

  lemma GroupWindowsKeys(groups: seq<BaselineGroup>, groupWindows: map<string, string>)
    requires GroupWindowsOf(groups, groupWindows)
    ensures groupWindows.Keys == GroupKeys(groups)
  {
  }

  method CheckTabs(b: Baseline, windowKeys: set<string>, groupWindows: map<string, string>)
    returns (error: Option<BaselineError>, tabKeys: set<string>)
    requires windowKeys == WindowKeys(b.windows)
    requires GroupIdentities(b.windows, b.groups) && GroupWindowsOf(b.groups, groupWindows)
    ensures error.None? <==> TabIdentities(b, b.tabs) && PositionsDistinct(b.tabs) && TabsPlaced(b, b.tabs)
    ensures error.None? ==> tabKeys == TabKeys(b.tabs)
  {
    hide *;
    var ids: set<i32>, positions: set<(string, i32)> := {}, {};
    tabKeys := {};
    NoTabsYet(b);
    GroupWindowsKeys(b.groups, groupWindows);
    assert b.tabs[..0] == [];
    for i := 0 to |b.tabs|
      invariant TabIdentities(b, b.tabs[..i]) && PositionsDistinct(b.tabs[..i]) && TabsPlaced(b, b.tabs[..i])
      invariant tabKeys == TabKeys(b.tabs[..i]) && ids == TabIds(b.tabs[..i]) && positions == Positions(b.tabs[..i])
    {
      var tab := b.tabs[i];
      assert b.tabs[..i + 1] == b.tabs[..i] + [tab];
      TabIdentitiesStep(b, b.tabs[..i], tab);
      PositionsStep(b.tabs[..i], tab);
      TabsPlacedStep(b, b.tabs[..i], tab);
      KnownWindowIsKey(b, tab.windowKey);
      GroupLookup(b, groupWindows, tab);
      if tab.key == "" || tab.key in windowKeys || tab.key in groupWindows || tab.key in tabKeys || tab.id in ids {
        IdentityPrefixes(b, i + 1);
        return Some(TabIdentity), {};
      }
      if tab.index < 0 || (tab.windowKey, tab.index) in positions {
        IdentityPrefixes(b, i + 1);
        return Some(TabIndex), {};
      }
      if tab.windowKey !in windowKeys {
        TabIsPlaced(b, i);
        return Some(TabWindow), {};
      }
      if tab.groupKey.Some?
         && (tab.groupKey.value !in groupWindows || groupWindows[tab.groupKey.value] != tab.windowKey) {
        TabIsPlaced(b, i);
        return Some(TabGroup), {};
      }
      tabKeys, ids, positions := tabKeys + {tab.key}, ids + {tab.id}, positions + {(tab.windowKey, tab.index)};
    }
    assert b.tabs[..|b.tabs|] == b.tabs;
    error := None;
  }

  ghost predicate Seen(strip: seq<BaselineTab>, n: nat, group: string)
    requires n <= |strip|
  {
    exists i :: 0 <= i < n && strip[i].groupKey == Some(group)
  }

  /** Adding a tab keeps a strip contiguous unless its group was seen and left. */
  lemma StripContiguousStep(strip: seq<BaselineTab>, n: nat)
    requires n < |strip|
    ensures StripContiguous(strip[..n + 1]) <==>
      StripContiguous(strip[..n])
      && !(n > 0 && strip[n].groupKey.Some? && strip[n].groupKey != strip[n - 1].groupKey
           && Seen(strip, n, strip[n].groupKey.value))
  {
    var before, after := strip[..n], strip[..n + 1];
    assert forall i :: 0 <= i < n ==> before[i] == after[i] == strip[i];
    assert after[n] == strip[n];
    if n > 0 && strip[n].groupKey.Some? && strip[n].groupKey != strip[n - 1].groupKey
       && Seen(strip, n, strip[n].groupKey.value) {
      var i :| 0 <= i < n && strip[i].groupKey == Some(strip[n].groupKey.value);
      assert after[i].groupKey == after[n].groupKey && after[n - 1].groupKey != after[i].groupKey;
    } else if StripContiguous(before) {
      forall i, j, k | 0 <= i < j < k < |after| && after[i].groupKey.Some? && after[i].groupKey == after[k].groupKey
        ensures after[j].groupKey == after[i].groupKey
      {
        assert Seen(strip, n, after[i].groupKey.value);
        assert k == n ==> before[i].groupKey == before[n - 1].groupKey;
        assert k == n && j < n - 1 ==> before[j].groupKey == before[i].groupKey;
      }
    }
  }

  lemma StripPrefix(strip: seq<BaselineTab>, n: nat)
    requires n <= |strip|
    ensures StripContiguous(strip) ==> StripContiguous(strip[..n])
  {
  }

  /** Where the scan stands before tab n: in group `current`, having left the groups in `closed`. */
  ghost predicate ScanStands(strip: seq<BaselineTab>, n: nat, closed: set<string>, current: Option<string>)
    requires n <= |strip|
  {
    && current == (if n == 0 then None else strip[n - 1].groupKey)
    && forall g :: g in closed <==> Seen(strip, n, g) && current != Some(g)
  }

  function Leave(closed: set<string>, current: Option<string>, next: Option<string>): set<string> {
    if next != current && current.Some? then closed + {current.value} else closed
  }

  lemma SeenStep(strip: seq<BaselineTab>, n: nat)
    requires n < |strip|
    ensures forall g :: Seen(strip, n + 1, g) <==> Seen(strip, n, g) || strip[n].groupKey == Some(g)
    ensures n > 0 && strip[n - 1].groupKey.Some? ==> Seen(strip, n, strip[n - 1].groupKey.value)
  {
  }

  /** A group reopens exactly if the tab's group was seen and left; otherwise the scan goes on. */
  lemma ScanStep(strip: seq<BaselineTab>, n: nat, closed: set<string>, current: Option<string>)
    requires n < |strip| && ScanStands(strip, n, closed, current)
    ensures var next, left := strip[n].groupKey, Leave(closed, current, strip[n].groupKey);
      && (next.Some? && next != current && next.value in left <==>
            n > 0 && next.Some? && next != strip[n - 1].groupKey && Seen(strip, n, next.value))
      && (!(next.Some? && next != current && next.value in left) ==> ScanStands(strip, n + 1, left, next))
  {
    SeenStep(strip, n);
    assert n == 0 ==> forall g :: !Seen(strip, n, g);
    hide Seen;
  }

  /** The scan over one strip: positions count up, and no closed group reopens. */
  method CheckStrip(strip: seq<BaselineTab>) returns (error: Option<BaselineError>)
    ensures error.None? <==>
      (forall n :: 0 <= n < |strip| ==> strip[n].index == AsI32(n)) && StripContiguous(strip)
  {
    var closed: set<string> := {};
    var current: Option<string> := None;
    assert ScanStands(strip, 0, closed, current) && StripContiguous(strip[..0]);
    hide AsI32, StripContiguous, ScanStands, Seen;
    for n := 0 to |strip|
      invariant forall m :: 0 <= m < n ==> strip[m].index == AsI32(m)
      invariant ScanStands(strip, n, closed, current)
      invariant StripContiguous(strip[..n])
    {
      var tab := strip[n];
      if tab.index != AsI32(n) {
        return Some(IndexGap);
      }
      StripContiguousStep(strip, n);
      ScanStep(strip, n, closed, current);
      var next := tab.groupKey;
      if next != current {
        if current.Some? {
          closed := closed + {current.value};
        }
        if next.Some? && next.value in closed {
          StripPrefix(strip, n + 1);
          return Some(SplitGroup);
        }
        current := next;
      }
    }
    assert strip[..|strip|] == strip;
    error := None;
  }

  method CheckStrips(b: Baseline, windowKeys: set<string>) returns (error: Option<BaselineError>)
    requires windowKeys == WindowKeys(b.windows) && PositionsDistinct(b.tabs) && TabsPlaced(b, b.tabs)
    ensures error.None? <==> (forall w :: w in b.windows ==> IndexesExact(b.tabs, w.key)) && GroupsContiguous(b.tabs)
  {
    var unseen := windowKeys;
    while unseen != {}
      invariant unseen <= windowKeys
      invariant forall key :: key in windowKeys - unseen ==>
        IndexesExact(b.tabs, key) && StripContiguous(Strip(b.tabs, key))
    {
      var key :| key in unseen;
      error := CheckStrip(Strip(b.tabs, key));
      ExactIffCounted(b.tabs, key);
      if error.Some? {
        ContiguousInStrip(b.tabs, key);
        return;
      }
      unseen := unseen - {key};
    }
    forall t | t in b.tabs ensures StripContiguous(Strip(b.tabs, t.windowKey)) {
      KnownWindowIsKey(b, t.windowKey);
    }
    ContiguousByStrips(b.tabs);
    error := None;
  }

  method CheckOpeners(b: Baseline, tabKeys: set<string>) returns (ok: bool)
    requires tabKeys == TabKeys(b.tabs)
    ensures ok <==> forall t :: t in b.tabs ==> KnownOpener(b, t)
  {
    for i := 0 to |b.tabs|
      invariant forall t :: t in b.tabs[..i] ==> KnownOpener(b, t)
    {
      if b.tabs[i].openerKey.Some? && b.tabs[i].openerKey.value !in tabKeys {
        assert !KnownOpener(b, b.tabs[i]);
        return false;
      }
    }
    ok := true;
  }

  /** Validation is sound and complete: it accepts exactly the baselines of the declarative form. */
  method Validate(b: Baseline, browserInstanceId: string) returns (error: Option<BaselineError>)
    ensures error.None? <==> ValidBaseline(b, browserInstanceId)
  {
    if b.browserInstanceId != browserInstanceId {
      return Some(WrongBrowser);
    }
    if IsBlank(b.capturedAt) {
      return Some(MissingCapturedAt);
    }
    if b.modelRevision == 0 {
      return Some(ZeroRevision);
    }
    var ok, windowKeys := CheckWindows(b);
    if !ok {
      return Some(WindowIdentity);
    }
    var groupWindows: map<string, string>;
    error, groupWindows := CheckGroups(b, windowKeys);
    if error.Some? {
      return;
    }
    var tabKeys: set<string>;
    error, tabKeys := CheckTabs(b, windowKeys, groupWindows);
    if error.Some? {
      return;
    }
    error := CheckStrips(b, windowKeys);
    if error.Some? {
      return;
    }
    ok := CheckOpeners(b, tabKeys);
    if !ok {
      return Some(UnknownOpener);
    }
    if exists t :: t in b.tabs && t.frozen.Some? != b.supportsFrozenTabs {
      return Some(FrozenSupport);
    }
    if exists g :: g in b.groups && g.shared.Some? != b.supportsSharedTabGroups {
      return Some(SharedSupport);
    }
    return None;
  }
}

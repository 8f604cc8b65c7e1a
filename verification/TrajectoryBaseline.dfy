/** A baseline made from a numbered page is valid, and lists its tabs in snapshot order. */
module TrajectoryBaseline {
  import opened Wrappers
  import opened Baselines
  import opened Hierarchy
  import opened Snapshots
  import opened SnapshotPages
  import opened TrajectoryMeasure
  import opened TrajectoryLayout

  /** Few enough objects for 32-bit ids. */
  predicate Small(l: Layout) {
    |l.windows| < 0x7FFF_FFFF && |l.groups| < 0x7FFF_FFFF && |l.tabs| < 0x7FFF_FFFF
  }

  ghost predicate NoSharing(l: Layout) {
    forall g :: 0 <= g < |l.groups| ==> l.groups[g].header.info.shared.None?
  }

  lemma IdentitiesDiffer(l: Layout, b: Baseline)
    requires Small(l) && b.windows == NativeWindows(l) && b.groups == NativeGroups(l) && b.tabs == NativeTabs(l)
    ensures WindowIdentities(b.windows) && GroupIdentities(b.windows, b.groups) && TabIdentities(b, b.tabs)
  {
    forall i, j | 0 <= i < |l.windows| && 0 <= j < |l.windows| ensures b.windows[i].key != "" && (b.windows[i].key == b.windows[j].key ==> i == j) {
      KeysDiffer(i, j);
    }
    forall i, j | 0 <= i < |l.groups| && 0 <= j < |l.groups| ensures b.groups[i].key != "" && (b.groups[i].key == b.groups[j].key ==> i == j) {
      KeysDiffer(i, j);
    }
    forall i, j | 0 <= i < |l.tabs| && 0 <= j < |l.tabs| ensures b.tabs[i].key != "" && (b.tabs[i].key == b.tabs[j].key ==> i == j) {
      KeysDiffer(i, j);
    }
    KindsDiffer(l, b);
  }

  lemma WindowNumber(l: Layout, w: BaselineWindow) returns (n: nat)
    requires w in NativeWindows(l)
    ensures w.key == WindowKey(n)
  {
    n :| 0 <= n < |NativeWindows(l)| && NativeWindows(l)[n] == w;
    hide WindowKey;
  }

  lemma GroupNumber(l: Layout, g: BaselineGroup) returns (n: nat)
    requires g in NativeGroups(l)
    ensures g.key == GroupKey(n)
  {
    n :| 0 <= n < |NativeGroups(l)| && NativeGroups(l)[n] == g;
    hide GroupKey;
  }

  lemma TabNumber(l: Layout, t: BaselineTab) returns (n: nat)
    requires t in NativeTabs(l)
    ensures t.key == TabKey(n)
  {
    n :| 0 <= n < |NativeTabs(l)| && NativeTabs(l)[n] == t;
    hide TabKey;
  }

  lemma KindsDiffer(l: Layout, b: Baseline)
    requires b.windows == NativeWindows(l) && b.groups == NativeGroups(l) && b.tabs == NativeTabs(l)
    ensures forall g, w :: g in b.groups && w in b.windows ==> g.key != w.key
    ensures forall t, w :: t in b.tabs && w in b.windows ==> t.key != w.key
    ensures forall t, g :: t in b.tabs && g in b.groups ==> t.key != g.key
  {
    hide *;
    forall g, w | g in b.groups && w in b.windows ensures g.key != w.key {
      var i := GroupNumber(l, g);
      var j := WindowNumber(l, w);
      KeysDiffer(j, i);
    }
    forall t, w | t in b.tabs && w in b.windows ensures t.key != w.key {
      var i := TabNumber(l, t);
      var j := WindowNumber(l, w);
      KeysDiffer(j, i);
    }
    forall t, g | t in b.tabs && g in b.groups ensures t.key != g.key {
      var i := TabNumber(l, t);
      var j := GroupNumber(l, g);
      KeysDiffer(j, i);
    }
  }

  // ---------------------------------------------------------------- strips

  /** Two tabs of one window: everything between is of that window, and positions count up. */
  lemma {:induction false} StripGrows(l: Layout, i: nat, j: nat)
    requires LayoutOk(l) && i <= j < |l.tabs| && l.tabs[i].window == l.tabs[j].window
    ensures l.tabs[j].index == l.tabs[i].index + (j - i)
    decreases j
  {
    if i < j {
      assert TabPlaced(l, j);
      WindowsAscend(l, i, j - 1);
      StripGrows(l, i, j - 1);
    }
  }

  lemma {:induction false} WindowsAscend(l: Layout, i: nat, j: nat)
    requires LayoutOk(l) && i <= j < |l.tabs|
    ensures l.tabs[i].window <= l.tabs[j].window
    decreases j
  {
    if i < j {
      assert TabPlaced(l, j);
      WindowsAscend(l, i, j - 1);
    }
  }

  lemma {:induction false} IndexBounded(l: Layout, k: nat)
    requires LayoutOk(l) && k < |l.tabs|
    ensures l.tabs[k].index <= k
    decreases k
  {
    assert TabPlaced(l, k);
    if k > 0 { IndexBounded(l, k - 1); }
  }

  /** Between two tabs of a group there are only tabs of that group. */
  lemma {:induction false} GroupStretch(l: Layout, i: nat, j: nat, k: nat)
    requires LayoutOk(l) && i < j < k < |l.tabs| && l.tabs[i].group.Some? && l.tabs[i].group == l.tabs[k].group
    ensures l.tabs[j].group == l.tabs[k].group
    decreases k
  {
    assert TabPlaced(l, k);
    if j < k - 1 { GroupStretch(l, i, j, k - 1); }
  }

  lemma {:induction false} TabsOfPush(tabs: seq<BaselineTab>, t: BaselineTab, windowKey: string)
    ensures TabsOf(tabs + [t], windowKey) == if t.windowKey == windowKey then TabsOf(tabs, windowKey) + [t] else TabsOf(tabs, windowKey)
  {
    if tabs == [] {
      assert [] + [t] == [t];
      assert [t][1..] == [];
    } else {
      TabsOfPush(tabs[1..], t, windowKey);
      assert (tabs + [t])[1..] == tabs[1..] + [t];
    }
  }

  ghost predicate Exact(mine: seq<BaselineTab>) {
    forall n :: HasPosition(mine, n) <==> 0 <= n < |mine|
  }

  lemma ExactPush(mine: seq<BaselineTab>, t: BaselineTab)
    requires Exact(mine) && t.index as int == |mine|
    ensures Exact(mine + [t])
  {
    forall n ensures HasPosition(mine + [t], n) <==> 0 <= n < |mine| + 1 {
      assert HasPosition(mine, n) <==> 0 <= n < |mine|;
      if HasPosition(mine, n) {
        var u :| u in mine && u.index as int == n;
        assert u in mine + [t];
      }
      if n == |mine| { assert t in mine + [t]; }
    }
  }

  /** What is known of a strip when the tabs up to k are listed. */
  ghost predicate StripKnown(l: Layout, k: nat, w: nat, mine: seq<BaselineTab>)
    requires k <= |l.tabs|
  {
    && Exact(mine)
    && (k == 0 || l.tabs[k - 1].window < w ==> mine == [])
    && (k > 0 && l.tabs[k - 1].window == w ==> |mine| == l.tabs[k - 1].index + 1)
  }

  lemma StripStep(l: Layout, k: nat, w: nat, mine: seq<BaselineTab>)
    requires LayoutOk(l) && Small(l) && k < |l.tabs| && StripKnown(l, k, w, mine)
    ensures StripKnown(l, k + 1, w, if l.tabs[k].window == w then mine + [NativeTab(l.tabs[k], k)] else mine)
  {
    assert TabPlaced(l, k);
    IndexBounded(l, k);
    hide Exact, LayoutOk, TabPlaced, WindowKey, GroupKey, TabKey;
    if l.tabs[k].window == w { ExactPush(mine, NativeTab(l.tabs[k], k)); }
  }

  lemma NoStrip(l: Layout, w: nat)
    ensures StripKnown(l, 0, w, [])
  {
  }

  /** The strip of one window, as far as the tabs have been listed. */
  lemma {:induction false} StripSoFar(l: Layout, k: nat, w: nat)
    requires LayoutOk(l) && Small(l) && k <= |l.tabs|
    ensures k <= |NativeTabs(l)| && StripKnown(l, k, w, TabsOf(NativeTabs(l)[..k], WindowKey(w)))
    decreases k
  {
    hide *;
    if k == 0 {
      NoTabs(l, w);
      NoStrip(l, w);
    } else {
      StripSoFar(l, k - 1, w);
      var before, t := NativeTabs(l)[..k - 1], NativeTab(l.tabs[k - 1], k - 1);
      OneMoreTab(l, k);
      TabsOfPush(before, t, WindowKey(w));
      KeysDiffer(l.tabs[k - 1].window, w);
      StripStep(l, k - 1, w, TabsOf(before, WindowKey(w)));
    }
  }

  lemma NoTabs(l: Layout, w: nat)
    ensures TabsOf(NativeTabs(l)[..0], WindowKey(w)) == []
  {
  }

  lemma OneMoreTab(l: Layout, k: nat)
    requires 0 < k <= |l.tabs|
    ensures |NativeTabs(l)| == |l.tabs|
    ensures NativeTabs(l)[..k] == NativeTabs(l)[..k - 1] + [NativeTab(l.tabs[k - 1], k - 1)]
    ensures NativeTab(l.tabs[k - 1], k - 1).windowKey == WindowKey(l.tabs[k - 1].window)
  {
    hide WindowKey, GroupKey, TabKey;
    assert NativeTabs(l)[k - 1] == NativeTab(l.tabs[k - 1], k - 1);
  }

  lemma StripsExact(l: Layout, w: nat)
    requires LayoutOk(l) && Small(l)
    ensures IndexesExact(NativeTabs(l), WindowKey(w))
  {
    StripSoFar(l, |l.tabs|, w);
    assert NativeTabs(l)[..|l.tabs|] == NativeTabs(l);
  }

  lemma PositionsDiffer(l: Layout)
    requires LayoutOk(l) && Small(l)
    ensures PositionsDistinct(NativeTabs(l))
  {
    var tabs := NativeTabs(l);
    forall i, j | 0 <= i < j < |tabs| ensures tabs[i].windowKey != tabs[j].windowKey || tabs[i].index != tabs[j].index {
      KeysDiffer(l.tabs[i].window, l.tabs[j].window);
      IndexBounded(l, i);
      IndexBounded(l, j);
      if l.tabs[i].window == l.tabs[j].window { StripGrows(l, i, j); }
    }
  }

  /** Positions in one strip are ordered as the tabs are listed. */
  lemma StripOrder(l: Layout, i: nat, j: nat)
    requires LayoutOk(l) && Small(l) && i < |l.tabs| && j < |l.tabs|
    requires NativeTabs(l)[i].windowKey == NativeTabs(l)[j].windowKey && NativeTabs(l)[i].index < NativeTabs(l)[j].index
    ensures i < j
  {
    KeysDiffer(l.tabs[i].window, l.tabs[j].window);
    IndexBounded(l, i);
    IndexBounded(l, j);
    if j <= i { StripGrows(l, j, i); }
  }

  lemma GroupsStayTogether(l: Layout)
    requires LayoutOk(l) && Small(l)
    ensures GroupsContiguous(NativeTabs(l))
  {
    hide *;
    var tabs := NativeTabs(l);
    forall a, b, c | a in tabs && b in tabs && c in tabs ensures BetweenIsGrouped(a, b, c) {
      var i: nat :| i < |tabs| && tabs[i] == a;
      var j: nat :| j < |tabs| && tabs[j] == b;
      var k: nat :| k < |tabs| && tabs[k] == c;
      StretchIsGrouped(l, i, j, k);
    }
    FromTriples(tabs);
  }

  /** b stands between two tabs of a group only as a tab of that group. */
  ghost predicate BetweenIsGrouped(a: BaselineTab, b: BaselineTab, c: BaselineTab) {
    a.windowKey == b.windowKey == c.windowKey && a.index < b.index < c.index && a.groupKey.Some? && a.groupKey == c.groupKey ==>
      b.groupKey == a.groupKey
  }

  lemma StretchIsGrouped(l: Layout, i: nat, j: nat, k: nat)
    requires LayoutOk(l) && Small(l) && i < |NativeTabs(l)| && j < |NativeTabs(l)| && k < |NativeTabs(l)|
    ensures BetweenIsGrouped(NativeTabs(l)[i], NativeTabs(l)[j], NativeTabs(l)[k])
  {
    var a, b, c := NativeTabs(l)[i], NativeTabs(l)[j], NativeTabs(l)[k];
    assert a.groupKey == c.groupKey && a.groupKey.Some? ==> l.tabs[i].group.Some? && l.tabs[k].group.Some?;
    hide LayoutOk, Small;
    if a.windowKey == b.windowKey == c.windowKey && a.index < b.index < c.index && a.groupKey.Some? && a.groupKey == c.groupKey {
      StripOrder(l, i, j);
      StripOrder(l, j, k);
      KeysDiffer(l.tabs[i].group.value, l.tabs[k].group.value);
      GroupStretch(l, i, j, k);
    }
  }

  lemma FromTriples(tabs: seq<BaselineTab>)
    requires forall a, b, c :: a in tabs && b in tabs && c in tabs ==> BetweenIsGrouped(a, b, c)
    ensures GroupsContiguous(tabs)
  {
    forall a, b, c |
      && a in tabs && b in tabs && c in tabs
      && a.windowKey == b.windowKey == c.windowKey && a.index < b.index < c.index
      && a.groupKey.Some? && a.groupKey == c.groupKey
      ensures b.groupKey == a.groupKey
    {
      assert BetweenIsGrouped(a, b, c);
    }
  }

  lemma ReferencesKnown(l: Layout, b: Baseline)
    requires LayoutOk(l) && b.windows == NativeWindows(l) && b.groups == NativeGroups(l) && b.tabs == NativeTabs(l)
    ensures forall g :: g in b.groups ==> KnownWindow(b, g.windowKey)
    ensures forall t :: t in b.tabs ==> KnownWindow(b, t.windowKey) && KnownGroup(b, t) && KnownOpener(b, t)
  {
    forall g | g in b.groups ensures KnownWindow(b, g.windowKey) {
      var i: nat :| i < |b.groups| && b.groups[i] == g;
      assert b.windows[l.groups[i].window] in b.windows;
    }
    forall t | t in b.tabs ensures KnownWindow(b, t.windowKey) && KnownGroup(b, t) && KnownOpener(b, t) {
      var i: nat :| i < |b.tabs| && b.tabs[i] == t;
      assert TabPlaced(l, i);
      assert b.windows[l.tabs[i].window] in b.windows;
      if t.groupKey.Some? { assert b.groups[l.tabs[i].group.value] in b.groups; }
    }
  }

  lemma StripsOfWindows(l: Layout, b: Baseline)
    requires LayoutOk(l) && Small(l) && b.windows == NativeWindows(l) && b.tabs == NativeTabs(l)
    ensures forall w :: w in b.windows ==> IndexesExact(b.tabs, w.key)
  {
    hide LayoutOk, Small, NativeTabs, IndexesExact;
    forall w | w in b.windows ensures IndexesExact(b.tabs, w.key) {
      var i: nat :| i < |b.windows| && b.windows[i] == w;
      StripsExact(l, i);
    }
  }

  lemma NothingSupported(l: Layout, b: Baseline)
    requires NoSharing(l) && b.groups == NativeGroups(l) && b.tabs == NativeTabs(l) && !b.supportsFrozenTabs && !b.supportsSharedTabGroups
    ensures SupportMatches(b)
  {
    forall g | g in b.groups ensures g.shared.None? {
      var i: nat :| i < |b.groups| && b.groups[i] == g;
    }
  }

  /** The baseline made from a compact page passes validation. */
  lemma NativeIsValid(l: Layout, capturedAt: Option<string>)
    requires LayoutOk(l) && Small(l) && NoSharing(l) && (capturedAt.Some? ==> !IsBlank(capturedAt.value))
    ensures ValidBaseline(NativeBaseline(l, capturedAt), SYNTHETIC_BROWSER)
  {
    var b := NativeBaseline(l, capturedAt);
    assert !IsBlank(DEFAULT_CAPTURED_AT) by { assert !IsWhitespace(DEFAULT_CAPTURED_AT[0]); }
    hide LayoutOk, Small, NoSharing, NativeWindows, NativeGroups, NativeTabs, IsBlank, IsWhitespace;
    hide WindowIdentities, GroupIdentities, TabIdentities, PositionsDistinct, IndexesExact, GroupsContiguous, KnownWindow, KnownGroup, KnownOpener, SupportMatches;
    IdentitiesDiffer(l, b);
    ReferencesKnown(l, b);
    PositionsDiffer(l);
    GroupsStayTogether(l);
    StripsOfWindows(l, b);
    NothingSupported(l, b);
  }

  // ---------------------------------------------------------------- order

  /** Windows with the focus come first, as on every page. */
  ghost predicate FocusFirst(l: Layout) {
    forall i, j :: 0 <= i < j < |l.tabs| && l.tabs[j].window < |l.windows| && l.windows[l.tabs[j].window].info.focused ==>
      l.tabs[i].window < |l.windows| && l.windows[l.tabs[i].window].info.focused
  }

  lemma WindowOfTab(l: Layout, b: Baseline, k: nat)
    requires LayoutOk(l) && ValidModel(b) && b.windows == NativeWindows(l) && b.tabs == NativeTabs(l) && k < |l.tabs|
    ensures l.tabs[k].window < |l.windows| && WindowFor(b, b.tabs[k]) == b.windows[l.tabs[k].window]
  {
    assert TabPlaced(l, k);
    LookupsInBounds(b, b.tabs[k]);
    var w := b.windows[l.tabs[k].window];
    assert w in b.windows && w.key == b.tabs[k].windowKey;
    SameIdSameWindow(b, WindowFor(b, b.tabs[k]), w);
  }

  /** The tabs are listed in the order a snapshot lists them in. */
  lemma NativeInOrder(l: Layout, b: Baseline)
    requires LayoutOk(l) && Small(l) && FocusFirst(l) && ValidModel(b) && b.windows == NativeWindows(l) && b.tabs == NativeTabs(l)
    ensures StrictlyOrdered(b, b.tabs) && FromModel(b, b.tabs)
  {
    hide ValidModel, LayoutOk, WindowFor;
    forall i, j | 0 <= i < j < |b.tabs| ensures TabLeq(b, b.tabs[i], b.tabs[j]) && !TabLeq(b, b.tabs[j], b.tabs[i]) {
      WindowOfTab(l, b, i);
      WindowOfTab(l, b, j);
      WindowsAscend(l, i, j);
      IndexBounded(l, i);
      IndexBounded(l, j);
      if l.tabs[i].window == l.tabs[j].window { StripGrows(l, i, j); }
    }
  }
}

/** The counts detail level, and its agreement with the pages. */
module SnapshotCounts {
  import opened Wrappers
  import opened Baselines
  import opened Hierarchy
  import opened Snapshots
  import opened Counting
  import opened SnapshotPages
  import opened SnapshotTheorems

  datatype SnapshotCounts = SnapshotCounts(windowCount: nat, groupCount: nat, tabCount: nat, discardedTabCount: nat)

  function WindowKeys(tabs: seq<BaselineTab>): set<string> {
    set t | t in tabs :: t.windowKey
  }

  function GroupKeys(tabs: seq<BaselineTab>): set<string> {
    set t | t in tabs && t.groupKey.Some? :: t.groupKey.value
  }

  function Counts(b: Baseline, matched: seq<string>): SnapshotCounts {
    var tabs := Filter(b.tabs, (t: BaselineTab) => t.key in KeySet(matched));
    SnapshotCounts(|WindowKeys(tabs)|, |GroupKeys(tabs)|, |tabs|, CountIf(tabs, (t: BaselineTab) => t.discarded))
  }

  /** What a reader can count on a page. */
  ghost function CountsOnPage(page: SnapshotPage): SnapshotCounts {
    var entries := Flatten(page.windows);
    SnapshotCounts(
      |WindowRefs(page.windows)|, |GroupRefs(page.windows)|, |entries|,
      CountIf(entries, (e: PageEntry) => e.tab.discarded))
  }

  lemma {:induction false} DistinctLength(names: seq<Name>, all: set<Name>)
    requires Distinct(names) && Lists(names, all)
    ensures |names| == |all|
  {
    if names == [] {
      assert all == {};
    } else {
      assert names == [names[0]] + names[1..];
      DistinctLength(names[1..], all - {names[0]});
    }
  }

  lemma {:induction false} CountAll<X>(s: seq<X>, p: X -> bool)
    requires forall x :: x in s ==> p(x)
    ensures CountIf(s, p) == |s|
  {
    if s != [] { CountAll(s[1..], p); }
  }

  lemma {:induction false} CountEqually<X, Y>(s: seq<X>, p: X -> bool, t: seq<Y>, q: Y -> bool)
    requires |s| == |t| && forall i :: 0 <= i < |s| ==> p(s[i]) == q(t[i])
    ensures CountIf(s, p) == CountIf(t, q)
  {
    if s != [] { CountEqually(s[1..], p, t[1..], q); }
  }

  /** Two lists of the same elements, neither with repetitions, count alike. */
  lemma SameElementsCountAlike<X(!new)>(s: seq<X>, t: seq<X>, p: X -> bool)
    requires NoRepeats(s) && NoRepeats(t) && forall x :: x in s <==> x in t
    ensures CountIf(s, p) == CountIf(t, p) && |s| == |t|
  {
    CountIsCardinality(s, p);
    CountIsCardinality(t, p);
    assert Chosen(s, p) == Chosen(t, p);
    var all := (x: X) => true;
    CountIsCardinality(s, all);
    CountIsCardinality(t, all);
    assert Chosen(s, all) == Chosen(t, all);
    CountAll(s, all);
    CountAll(t, all);
  }

  /** The tabs counted are the matched ones. */
  lemma CountedAreMatched(s: StoredSnapshot, tabs: seq<BaselineTab>)
    requires StoredOk(s) && tabs == Filter(s.baseline.tabs, (t: BaselineTab) => t.key in KeySet(s.matchedKeys))
    ensures NoRepeats(tabs) && NoRepeats(Records(s))
    ensures forall t :: t in tabs <==> t in Records(s)
  {
    hide *;
    StoredParts(s);
    var b, selected := s.baseline, (t: BaselineTab) => t.key in KeySet(s.matchedKeys);
    FilterSelects(b.tabs, selected);
    TabsNeverRepeat(b);
    FilterDistinct(b.tabs, selected);
    SameDistinct(tabs);
    RecordsNeverRepeat(s);
    forall t ensures t in tabs <==> t in Records(s) { MatchedIffRecord(s, t); }
  }

  lemma SameDistinct(tabs: seq<BaselineTab>)
    requires AllDistinct(tabs)
    ensures NoRepeats(tabs)
  {
  }

  lemma TabsNeverRepeat(b: Baseline)
    requires ValidModel(b)
    ensures AllDistinct(b.tabs)
  {
    ModelTabsDistinct(b);
    hide ValidModel;
  }

  lemma RecordsNeverRepeat(s: StoredSnapshot)
    requires StoredOk(s)
    ensures NoRepeats(Records(s))
  {
    KeysDistinct(s);
    hide StoredOk, Records;
  }

  lemma MatchedIffRecord(s: StoredSnapshot, t: BaselineTab)
    requires StoredOk(s)
    ensures t in Records(s) <==> t in s.baseline.tabs && t.key in KeySet(s.matchedKeys)
  {
    StoredParts(s);
    KeysDistinct(s);
    hide StoredOk, Records, ValidModel, ReferencesCover, StrictlyOrdered;
    if t in s.baseline.tabs && t.key in KeySet(s.matchedKeys) {
      var i := MatchedKey(s, t);
    }
    if t in Records(s) {
      var i :| 0 <= i < |Records(s)| && Records(s)[i] == t;
      assert s.matchedKeys[i] == t.key;
    }
  }

  function ReferenceOf(references: map<string, Name>): string -> Name {
    (key: string) => if key in references then references[key] else 0
  }

  lemma EntrySetsAreImages(s: StoredSnapshot, tabs: seq<BaselineTab>)
    requires StoredOk(s) && AllResolve(s) && forall t :: t in tabs <==> t in Records(s)
    ensures var entries := Entries(s, 0, |s.matchedKeys|, |s.matchedKeys|);
      |EntryWindows(entries)| == |WindowKeys(tabs)| && |EntryGroups(entries)| == |GroupKeys(tabs)|
  {
    hide *;
    StoredParts(s);
    var n := |s.matchedKeys|;
    var entries := Entries(s, 0, n, n);
    forall i | 0 <= i < n ensures Records(s)[i] in tabs && EntryHeads(s, entries[i], Records(s)[i]) {
      RecordResolves(s, i);
      ThisEntry(s, i);
    }
    forall t | t in tabs ensures exists i :: 0 <= i < n && Records(s)[i] == t { assert t in Records(s); }
    WindowImage(s, entries, Records(s), tabs);
    GroupImage(s, entries, Records(s), tabs);
  }

  ghost predicate EntryHeads(s: StoredSnapshot, e: PageEntry, t: BaselineTab) {
    && t.windowKey in s.references.windows && e.window.reference == s.references.windows[t.windowKey]
    && (e.group.Some? <==> t.groupKey.Some?)
    && (t.groupKey.Some? ==>
          t.groupKey.value in s.references.groups && e.group.value.reference == s.references.groups[t.groupKey.value])
  }

  lemma ThisEntry(s: StoredSnapshot, i: nat)
    requires AllResolve(s) && i < |s.matchedKeys| && Resolves(s, Records(s)[i])
    ensures Entries(s, 0, |s.matchedKeys|, |s.matchedKeys|)[i] == EntryOf(s, 0, |s.matchedKeys|, Records(s)[i])
    ensures EntryHeads(s, Entries(s, 0, |s.matchedKeys|, |s.matchedKeys|)[i], Records(s)[i])
    ensures Entries(s, 0, |s.matchedKeys|, |s.matchedKeys|)[i].tab.discarded == Records(s)[i].discarded
  {
    var t := Records(s)[i];
    assert Entries(s, 0, |s.matchedKeys|, |s.matchedKeys|)[i] == EntryOf(s, 0, |s.matchedKeys|, Records(s)[0 + i]);
    hide Records, WindowGoesOn, GroupGoesOn;
  }

  lemma WindowImage(s: StoredSnapshot, entries: seq<PageEntry>, records: seq<BaselineTab>, tabs: seq<BaselineTab>)
    requires ReferencesCover(s.references, s.baseline) && |entries| == |records|
    requires forall i :: 0 <= i < |records| ==> records[i] in tabs && EntryHeads(s, entries[i], records[i])
    requires forall t :: t in tabs ==> exists i :: 0 <= i < |records| && records[i] == t
    ensures |EntryWindows(entries)| == |WindowKeys(tabs)|
  {
    var refs := s.references.windows;
    assert Injective(refs);
    forall key | key in WindowKeys(tabs) ensures key in refs && refs[key] in EntryWindows(entries) {
      var t :| t in tabs && t.windowKey == key;
      var i :| 0 <= i < |records| && records[i] == t;
      assert EntryHeads(s, entries[i], records[i]) && entries[i] in entries;
    }
    forall name | name in EntryWindows(entries) ensures exists key :: key in WindowKeys(tabs) && ReferenceOf(refs)(key) == name {
      var e :| e in entries && e.window.reference == name;
      var i :| 0 <= i < |entries| && entries[i] == e;
      assert EntryHeads(s, entries[i], records[i]) && records[i].windowKey in WindowKeys(tabs);
      assert ReferenceOf(refs)(records[i].windowKey) == name;
    }
    ImageCardinality(WindowKeys(tabs), ReferenceOf(refs), EntryWindows(entries));
  }

  lemma GroupImage(s: StoredSnapshot, entries: seq<PageEntry>, records: seq<BaselineTab>, tabs: seq<BaselineTab>)
    requires ReferencesCover(s.references, s.baseline) && |entries| == |records|
    requires forall i :: 0 <= i < |records| ==> records[i] in tabs && EntryHeads(s, entries[i], records[i])
    requires forall t :: t in tabs ==> exists i :: 0 <= i < |records| && records[i] == t
    ensures |EntryGroups(entries)| == |GroupKeys(tabs)|
  {
    var refs := s.references.groups;
    assert Injective(refs);
    forall key | key in GroupKeys(tabs) ensures key in refs && refs[key] in EntryGroups(entries) {
      var t :| t in tabs && t.groupKey.Some? && t.groupKey.value == key;
      var i :| 0 <= i < |records| && records[i] == t;
      assert EntryHeads(s, entries[i], records[i]) && entries[i] in entries;
    }
    forall name | name in EntryGroups(entries) ensures exists key :: key in GroupKeys(tabs) && ReferenceOf(refs)(key) == name {
      var e :| e in entries && e.group.Some? && e.group.value.reference == name;
      var i :| 0 <= i < |entries| && entries[i] == e;
      assert EntryHeads(s, entries[i], records[i]) && records[i].groupKey.value in GroupKeys(tabs);
      assert ReferenceOf(refs)(records[i].groupKey.value) == name;
    }
    ImageCardinality(GroupKeys(tabs), ReferenceOf(refs), EntryGroups(entries));
  }

  /** The counts are what a reader would count on a page that holds every matched tab. */
  lemma CountsAgreeWithPage(s: StoredSnapshot)
    requires StoredOk(s) && AllResolve(s) && |s.matchedKeys| <= s.limit && 0 <= PageEnd(s, 0)
    ensures CountsOnPage(PageOf(s, 0)) == Counts(s.baseline, s.matchedKeys)
  {
    var tabs := Filter(s.baseline.tabs, (t: BaselineTab) => t.key in KeySet(s.matchedKeys));
    CountedAreMatched(s, tabs);
    StoredParts(s);
    assert PageEnd(s, 0) == |s.matchedKeys|;
    PageHierarchy(s, 0);
    hide StoredOk, AllResolve, Records, Filter, Regroup, Flatten, CountIf, Entries, WindowKeys, GroupKeys, ValidModel, Canonical;
    hide PageOf, StrictlyOrdered, ReferencesCover;
    PageWindows(s, 0);
    var page, entries := PageOf(s, 0), PageEntries(s, 0);
    DistinctLength(WindowRefs(page.windows), EntryWindows(entries));
    DistinctLength(GroupRefs(page.windows), EntryGroups(entries));
    EntrySetsAreImages(s, tabs);
    var gone := (t: BaselineTab) => t.discarded;
    SameElementsCountAlike(tabs, Records(s), gone);
    forall i | 0 <= i < |entries| ensures gone(Records(s)[i]) == entries[i].tab.discarded {
      RecordResolves(s, i);
      ThisEntry(s, i);
    }
    CountEqually(Records(s), gone, entries, (e: PageEntry) => e.tab.discarded);
  }
}

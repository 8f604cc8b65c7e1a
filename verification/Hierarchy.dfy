/** The window/group/tab hierarchy of a snapshot page, and the flat list it stands for. */
module Hierarchy {
  import opened Wrappers

  /** The n-th name issued: references and cursors are random and never repeat. */
  type Name = nat

  /** A window or group: its public reference and whatever else is shown of it. */
  datatype Labelled<+L> = Labelled(reference: Name, info: L)

  datatype Item<+G, +T> = GroupItem(group: Labelled<G>, tabs: seq<T>) | TabItem(tab: T)

  datatype WindowNode<+W, +G, +T> = WindowNode(header: Labelled<W>, items: seq<Item<G, T>>)

  /** One tab with the headers it is listed under. */
  datatype Entry<+W, +G, +T> = Entry(window: Labelled<W>, group: Option<Labelled<G>>, tab: T)

  // ---------------------------------------------------------------- lists that grow at the end

  function Last<X>(s: seq<X>): X
    requires s != []
  {
    s[|s| - 1]
  }

  function Front<X>(s: seq<X>): seq<X>
    requires s != []
  {
    s[..|s| - 1]
  }

  lemma Pushed<X>(front: seq<X>, x: X)
    ensures front + [x] != [] && Front(front + [x]) == front && Last(front + [x]) == x
  {
  }

  lemma Popped<X>(s: seq<X>)
    requires s != []
    ensures s == Front(s) + [Last(s)]
  {
  }

  // ---------------------------------------------------------------- flattening

  function FlattenGroup<W, G, T>(window: Labelled<W>, group: Labelled<G>, tabs: seq<T>): seq<Entry<W, G, T>> {
    if tabs == [] then [] else FlattenGroup(window, group, Front(tabs)) + [Entry(window, Some(group), Last(tabs))]
  }

  function FlattenItem<W, G, T>(window: Labelled<W>, item: Item<G, T>): seq<Entry<W, G, T>> {
    match item
    case GroupItem(group, tabs) => FlattenGroup(window, group, tabs)
    case TabItem(tab) => [Entry(window, None, tab)]
  }

  function FlattenItems<W, G, T>(window: Labelled<W>, items: seq<Item<G, T>>): seq<Entry<W, G, T>> {
    if items == [] then [] else FlattenItems(window, Front(items)) + FlattenItem(window, Last(items))
  }

  function Flatten<W, G, T>(windows: seq<WindowNode<W, G, T>>): seq<Entry<W, G, T>> {
    if windows == [] then [] else Flatten(Front(windows)) + FlattenItems(Last(windows).header, Last(windows).items)
  }

  // ---------------------------------------------------------------- regrouping

  predicate JoinsGroup<G, T>(items: seq<Item<G, T>>, group: Option<Labelled<G>>) {
    group.Some? && items != [] && Last(items).GroupItem? && Last(items).group.reference == group.value.reference
  }

  /** A tab joins the last item of a window if that is its group, or becomes a new item. */
  function AddItem<G, T>(items: seq<Item<G, T>>, group: Option<Labelled<G>>, tab: T): seq<Item<G, T>> {
    if JoinsGroup(items, group) then Front(items) + [GroupItem(Last(items).group, Last(items).tabs + [tab])]
    else items + [if group.None? then TabItem(tab) else GroupItem(group.value, [tab])]
  }

  predicate JoinsWindow<W, G, T>(windows: seq<WindowNode<W, G, T>>, window: Labelled<W>) {
    windows != [] && Last(windows).header.reference == window.reference
  }

  /** A tab joins the last window if that is its window, or opens a new one. */
  function AddEntry<W, G, T>(windows: seq<WindowNode<W, G, T>>, entry: Entry<W, G, T>): seq<WindowNode<W, G, T>> {
    if JoinsWindow(windows, entry.window)
    then Front(windows) + [WindowNode(Last(windows).header, AddItem(Last(windows).items, entry.group, entry.tab))]
    else windows + [WindowNode(entry.window, AddItem([], entry.group, entry.tab))]
  }

  function Regroup<W, G, T>(flat: seq<Entry<W, G, T>>): seq<WindowNode<W, G, T>> {
    if flat == [] then [] else AddEntry(Regroup(Front(flat)), Last(flat))
  }

  /** Nothing empty, and no two neighbours that should be one. */
  predicate CanonicalItems<G, T>(items: seq<Item<G, T>>) {
    items != [] ==>
      && CanonicalItems(Front(items))
      && (Last(items).GroupItem? ==> Last(items).tabs != [] && !JoinsGroup(Front(items), Some(Last(items).group)))
  }

  predicate Canonical<W, G, T>(windows: seq<WindowNode<W, G, T>>) {
    windows != [] ==>
      && Canonical(Front(windows))
      && Last(windows).items != [] && CanonicalItems(Last(windows).items)
      && !JoinsWindow(Front(windows), Last(windows).header)
  }

  // ---------------------------------------------------------------- nothing is lost

  ghost predicate SameHeaders<W, G, T>(a: Entry<W, G, T>, b: Entry<W, G, T>) {
    && (a.window.reference == b.window.reference ==> a.window == b.window)
    && (a.group.Some? && b.group.Some? && a.group.value.reference == b.group.value.reference ==> a.group == b.group)
  }

  /** References determine headers. */
  ghost predicate HeadersAgree<W, G, T>(flat: seq<Entry<W, G, T>>) {
    forall a, b :: a in flat && b in flat ==> SameHeaders(a, b)
  }

  /** The last window and item of a regrouped list carry headers found in the list. */
  ghost predicate EndsIn<W, G, T>(windows: seq<WindowNode<W, G, T>>, flat: seq<Entry<W, G, T>>) {
    if flat == [] then windows == []
    else
      && windows != [] && Last(windows).items != []
      && Last(windows).header.reference == Last(flat).window.reference
      && (exists a :: a in flat && a.window == Last(windows).header)
      && (Last(flat).group.Some? <==> Last(Last(windows).items).GroupItem?)
      && (Last(flat).group.Some? ==>
            && Last(Last(windows).items).group.reference == Last(flat).group.value.reference
            && exists a :: a in flat && a.group == Some(Last(Last(windows).items).group))
  }

  lemma AddItemFlattens<W, G, T>(window: Labelled<W>, items: seq<Item<G, T>>, group: Option<Labelled<G>>, tab: T)
    requires JoinsGroup(items, group) ==> Last(items).group == group.value
    ensures FlattenItems(window, AddItem(items, group, tab)) == FlattenItems(window, items) + [Entry(window, group, tab)]
  {
    if JoinsGroup(items, group) {
      var tabs := Last(items).tabs;
      Pushed(tabs, tab);
      Pushed(Front(items), GroupItem(Last(items).group, tabs + [tab]));
      hide Front, Last;
      assert FlattenGroup(window, group.value, tabs + [tab])
          == FlattenGroup(window, group.value, tabs) + [Entry(window, group, tab)];
    } else {
      Pushed(items, if group.None? then TabItem(tab) else GroupItem(group.value, [tab]));
      Pushed<T>([], tab);
      hide Front, Last;
      assert [] + [tab] == [tab];
      assert group.Some? ==> FlattenGroup<W, G, T>(window, group.value, []) == [];
    }
  }

  lemma AddEntryFlattens<W, G, T>(windows: seq<WindowNode<W, G, T>>, entry: Entry<W, G, T>)
    requires JoinsWindow(windows, entry.window) ==> Last(windows).header == entry.window
    requires JoinsWindow(windows, entry.window) && JoinsGroup(Last(windows).items, entry.group) ==>
      Last(Last(windows).items).group == entry.group.value
    ensures Flatten(AddEntry(windows, entry)) == Flatten(windows) + [entry]
  {
    assert !JoinsGroup<G, T>([], entry.group);
    hide AddItem, JoinsGroup;
    if JoinsWindow(windows, entry.window) {
      AddItemFlattens(entry.window, Last(windows).items, entry.group, entry.tab);
      Pushed(Front(windows), WindowNode(Last(windows).header, AddItem(Last(windows).items, entry.group, entry.tab)));
      hide Front, Last, FlattenItems;
    } else {
      AddItemFlattens(entry.window, [], entry.group, entry.tab);
      Pushed(windows, WindowNode(entry.window, AddItem([], entry.group, entry.tab)));
      assert FlattenItems<W, G, T>(entry.window, []) == [];
      hide Front, Last, FlattenItems;
    }
  }

  lemma AddItemEnds<G, T>(items: seq<Item<G, T>>, group: Option<Labelled<G>>, tab: T)
    ensures var after := AddItem(items, group, tab);
      && after != [] && (group.Some? <==> Last(after).GroupItem?)
      && (group.Some? ==>
            && Last(after).group.reference == group.value.reference
            && (Last(after).group == group.value || (JoinsGroup(items, group) && Last(after).group == Last(items).group)))
  {
    if JoinsGroup(items, group) {
      Pushed(Front(items), GroupItem(Last(items).group, Last(items).tabs + [tab]));
    } else {
      Pushed(items, if group.None? then TabItem(tab) else GroupItem(group.value, [tab]));
    }
    hide Front, Last;
  }

  /** One more entry keeps the ends of the regrouped list in step with the list. */
  lemma EndsInStep<W, G, T>(windows: seq<WindowNode<W, G, T>>, flat: seq<Entry<W, G, T>>, entry: Entry<W, G, T>)
    requires EndsIn(windows, flat)
    ensures EndsIn(AddEntry(windows, entry), flat + [entry])
  {
    Pushed(flat, entry);
    assert entry in flat + [entry];
    assert forall a :: a in flat ==> a in flat + [entry];
    if JoinsWindow(windows, entry.window) {
      var items := Last(windows).items;
      AddItemEnds(items, entry.group, entry.tab);
      Pushed(Front(windows), WindowNode(Last(windows).header, AddItem(items, entry.group, entry.tab)));
      hide Front, Last, AddItem;
    } else {
      AddItemEnds([], entry.group, entry.tab);
      Pushed(windows, WindowNode(entry.window, AddItem([], entry.group, entry.tab)));
      hide Front, Last, AddItem;
    }
  }

  lemma AgreePrefix<W, G, T>(front: seq<Entry<W, G, T>>, entry: Entry<W, G, T>)
    requires HeadersAgree(front + [entry])
    ensures HeadersAgree(front)
    ensures forall a :: a in front ==> SameHeaders(a, entry)
  {
    assert forall a :: a in front ==> a in front + [entry];
    assert entry in front + [entry];
  }

  /** Regrouping loses nothing: flattening gives the entries back, in order. */
  lemma {:induction false} RegroupFlattens<W, G, T>(flat: seq<Entry<W, G, T>>)
    requires HeadersAgree(flat)
    ensures Flatten(Regroup(flat)) == flat
    ensures EndsIn(Regroup(flat), flat)
  {
    if flat != [] {
      var front, entry := Front(flat), Last(flat);
      Popped(flat);
      AgreePrefix(front, entry);
      RegroupFlattens(front);
      EndsInStep(Regroup(front), front, entry);
      LastHeadersAgree(Regroup(front), front, entry);
      hide Front, Last, HeadersAgree, Flatten, AddEntry, EndsIn;
      AddEntryFlattens(Regroup(front), entry);
    }
  }

  lemma LastHeadersAgree<W, G, T>(windows: seq<WindowNode<W, G, T>>, flat: seq<Entry<W, G, T>>, entry: Entry<W, G, T>)
    requires EndsIn(windows, flat) && forall a :: a in flat ==> SameHeaders(a, entry)
    ensures JoinsWindow(windows, entry.window) ==> Last(windows).header == entry.window
    ensures JoinsWindow(windows, entry.window) && JoinsGroup(Last(windows).items, entry.group) ==>
      Last(Last(windows).items).group == entry.group.value
  {
    hide Front, Last;
  }

  lemma AddItemCanonical<G, T>(items: seq<Item<G, T>>, group: Option<Labelled<G>>, tab: T)
    requires CanonicalItems(items)
    ensures CanonicalItems(AddItem(items, group, tab)) && AddItem(items, group, tab) != []
  {
    if JoinsGroup(items, group) {
      Pushed(Front(items), GroupItem(Last(items).group, Last(items).tabs + [tab]));
      hide Front, Last;
    } else {
      Pushed(items, if group.None? then TabItem(tab) else GroupItem(group.value, [tab]));
      hide Front, Last;
    }
  }

  lemma AddEntryCanonical<W, G, T>(windows: seq<WindowNode<W, G, T>>, entry: Entry<W, G, T>)
    requires Canonical(windows)
    ensures Canonical(AddEntry(windows, entry))
  {
    if JoinsWindow(windows, entry.window) {
      AddItemCanonical(Last(windows).items, entry.group, entry.tab);
      Pushed(Front(windows), WindowNode(Last(windows).header, AddItem(Last(windows).items, entry.group, entry.tab)));
      hide Front, Last, AddItem, CanonicalItems;
    } else {
      AddItemCanonical([], entry.group, entry.tab);
      Pushed(windows, WindowNode(entry.window, AddItem([], entry.group, entry.tab)));
      hide Front, Last, AddItem, CanonicalItems;
    }
  }

  /** Regrouping gives a canonical hierarchy. */
  lemma {:induction false} RegroupCanonical<W, G, T>(flat: seq<Entry<W, G, T>>)
    ensures Canonical(Regroup(flat))
  {
    if flat != [] {
      RegroupCanonical(Front(flat));
      AddEntryCanonical(Regroup(Front(flat)), Last(flat));
    }
  }

  // ---------------------------------------------------------------- uniqueness

  lemma RegroupSnoc<W, G, T>(flat: seq<Entry<W, G, T>>, entry: Entry<W, G, T>)
    ensures Regroup(flat + [entry]) == AddEntry(Regroup(flat), entry)
  {
    Pushed(flat, entry);
  }

  lemma AddLast<G, T>(front: seq<Item<G, T>>, group: Labelled<G>, tabs: seq<T>, tab: T)
    requires tabs != []
    ensures AddItem(front + [GroupItem(group, tabs)], Some(group), tab) == front + [GroupItem(group, tabs + [tab])]
  {
    Pushed(front, GroupItem(group, tabs));
    hide Front, Last;
  }

  /** Regrouping a group's tabs under its window builds that group as the last item. */
  lemma {:induction false} RegroupOfGroup<W, G, T>(
    before: seq<Entry<W, G, T>>, windows: seq<WindowNode<W, G, T>>, window: Labelled<W>,
    front: seq<Item<G, T>>, group: Labelled<G>, tabs: seq<T>)
    requires tabs != [] && !JoinsGroup(front, Some(group))
    requires Regroup(before) == windows + (if front == [] then [] else [WindowNode(window, front)])
    requires !JoinsWindow(windows, window)
    ensures Regroup(before + FlattenGroup(window, group, tabs)) == windows + [WindowNode(window, front + [GroupItem(group, tabs)])]
  {
    var rest, tab := Front(tabs), Last(tabs);
    var entry := Entry(window, Some(group), tab);
    Popped(tabs);
    var done := before + FlattenGroup(window, group, rest);
    assert before + FlattenGroup(window, group, tabs) == done + [entry];
    RegroupSnoc(done, entry);
    if rest == [] {
      assert done == before;
      assert rest + [tab] == [tab];
      if front == [] {
        assert windows + [] == windows;
        assert front + [GroupItem(group, [tab])] == [] + [GroupItem(group, [tab])];
      } else {
        Pushed(windows, WindowNode(window, front));
      }
      hide Front, Last, Regroup, FlattenGroup;
    } else {
      RegroupOfGroup(before, windows, window, front, group, rest);
      AddLast(front, group, rest, tab);
      Pushed(windows, WindowNode(window, front + [GroupItem(group, rest)]));
      hide Front, Last, Regroup, FlattenGroup, AddItem;
    }
  }

  /** Regrouping an ungrouped tab adds it as the last item. */
  lemma RegroupOfTab<W, G, T>(
    before: seq<Entry<W, G, T>>, windows: seq<WindowNode<W, G, T>>, window: Labelled<W>, front: seq<Item<G, T>>, tab: T)
    requires Regroup(before) == windows + (if front == [] then [] else [WindowNode(window, front)])
    requires !JoinsWindow(windows, window)
    ensures Regroup(before + [Entry(window, None, tab)]) == windows + [WindowNode(window, front + [TabItem(tab)])]
  {
    RegroupSnoc(before, Entry(window, None, tab));
    if front == [] {
      assert windows + [] == windows;
      assert front + [Item<G, T>.TabItem(tab)] == [] + [TabItem(tab)];
    } else {
      Pushed(windows, WindowNode(window, front));
    }
    hide Front, Last, Regroup;
  }

  function SoFar<W, G, T>(windows: seq<WindowNode<W, G, T>>, window: Labelled<W>, items: seq<Item<G, T>>): seq<WindowNode<W, G, T>> {
    windows + if items == [] then [] else [WindowNode(window, items)]
  }

  lemma RegroupOfItem<W, G, T>(
    before: seq<Entry<W, G, T>>, windows: seq<WindowNode<W, G, T>>, window: Labelled<W>, front: seq<Item<G, T>>, item: Item<G, T>)
    requires item.GroupItem? ==> item.tabs != [] && !JoinsGroup(front, Some(item.group))
    requires Regroup(before) == SoFar(windows, window, front) && !JoinsWindow(windows, window)
    ensures Regroup(before + FlattenItem(window, item)) == SoFar(windows, window, front + [item])
  {
    hide Regroup, FlattenGroup, JoinsWindow, JoinsGroup;
    if item.GroupItem? {
      RegroupOfGroup(before, windows, window, front, item.group, item.tabs);
    } else {
      RegroupOfTab(before, windows, window, front, item.tab);
    }
  }

  /** Regrouping a window's items builds that window. */
  lemma {:induction false} RegroupOfItems<W, G, T>(
    before: seq<Entry<W, G, T>>, windows: seq<WindowNode<W, G, T>>, window: Labelled<W>, items: seq<Item<G, T>>)
    requires CanonicalItems(items) && Regroup(before) == windows && !JoinsWindow(windows, window)
    ensures Regroup(before + FlattenItems(window, items)) == SoFar(windows, window, items)
  {
    hide Regroup, JoinsWindow, JoinsGroup, FlattenItem, AddItem, AddEntry;
    if items == [] {
      assert before + FlattenItems(window, items) == before;
      assert SoFar(windows, window, items) == windows;
    } else {
      hide SoFar;
      var front, item := Front(items), Last(items);
      RegroupOfItems(before, windows, window, front);
      Popped(items);
      ItemsStep(before, window, items);
      hide Front, Last, FlattenItems;
      RegroupOfItem(before + FlattenItems(window, front), windows, window, front, item);
    }
  }

  lemma ItemsStep<W, G, T>(before: seq<Entry<W, G, T>>, window: Labelled<W>, items: seq<Item<G, T>>)
    requires items != []
    ensures before + FlattenItems(window, items)
      == (before + FlattenItems(window, Front(items))) + FlattenItem(window, Last(items))
  {
  }

  /** Every canonical hierarchy is what regrouping its entries gives. */
  lemma {:induction false} RegroupOfFlatten<W, G, T>(windows: seq<WindowNode<W, G, T>>)
    requires Canonical(windows)
    ensures Regroup(Flatten(windows)) == windows
  {
    if windows != [] {
      RegroupOfFlatten(Front(windows));
      RegroupOfItems(Flatten(Front(windows)), Front(windows), Last(windows).header, Last(windows).items);
      Popped(windows);
    }
  }

  /** The hierarchy is unique: two canonical ones with the same tabs in the same order are equal. */
  lemma HierarchyUnique<W, G, T>(a: seq<WindowNode<W, G, T>>, b: seq<WindowNode<W, G, T>>)
    requires Canonical(a) && Canonical(b) && Flatten(a) == Flatten(b)
    ensures a == b
  {
    RegroupOfFlatten(a);
    RegroupOfFlatten(b);
  }

  // ---------------------------------------------------------------- each window and group once

  predicate InGroup<W, G, T>(a: Entry<W, G, T>, b: Entry<W, G, T>) {
    a.group.Some? && b.group.Some? && a.group.value.reference == b.group.value.reference
  }

  ghost predicate InWindow<W, G, T>(a: Entry<W, G, T>, b: Entry<W, G, T>) {
    a.window.reference == b.window.reference
  }

  /** Windows and groups each occupy one stretch of the list, and a group lies in one window:
      an entry like an earlier one is like the entry just before it. */
  ghost predicate Contiguous<W, G, T>(flat: seq<Entry<W, G, T>>) {
    flat != [] ==>
      && Contiguous(Front(flat))
      && (forall a :: a in Front(flat) && InWindow(a, Last(flat)) ==> InWindow(Last(Front(flat)), Last(flat)))
      && (forall a :: a in Front(flat) && InGroup(a, Last(flat)) ==>
            InGroup(Last(Front(flat)), Last(flat)) && InWindow(Last(Front(flat)), Last(flat)))
  }

  function WindowRefs<W, G, T>(windows: seq<WindowNode<W, G, T>>): seq<Name> {
    if windows == [] then [] else WindowRefs(Front(windows)) + [Last(windows).header.reference]
  }

  function ItemGroupRefs<G, T>(items: seq<Item<G, T>>): seq<Name> {
    if items == [] then []
    else ItemGroupRefs(Front(items)) + if Last(items).GroupItem? then [Last(items).group.reference] else []
  }

  function GroupRefs<W, G, T>(windows: seq<WindowNode<W, G, T>>): seq<Name> {
    if windows == [] then [] else GroupRefs(Front(windows)) + ItemGroupRefs(Last(windows).items)
  }

  ghost predicate Distinct(names: seq<Name>) {
    forall i, j :: 0 <= i < j < |names| ==> names[i] != names[j]
  }

  /** The names of a list are exactly a set. */
  ghost predicate Lists(names: seq<Name>, all: set<Name>) {
    forall name :: name in names <==> name in all
  }

  ghost function EntryWindows<W, G, T>(flat: seq<Entry<W, G, T>>): set<Name> {
    set e | e in flat :: e.window.reference
  }

  ghost function EntryGroups<W, G, T>(flat: seq<Entry<W, G, T>>): set<Name> {
    set e | e in flat && e.group.Some? :: e.group.value.reference
  }

  lemma EntrySets<W, G, T>(front: seq<Entry<W, G, T>>, entry: Entry<W, G, T>)
    ensures EntryWindows(front + [entry]) == EntryWindows(front) + {entry.window.reference}
    ensures EntryGroups(front + [entry])
      == EntryGroups(front) + (if entry.group.Some? then {entry.group.value.reference} else {})
  {
    assert forall e :: e in front + [entry] <==> e in front || e == entry;
  }

  lemma AddItemGroupRefs<G, T>(items: seq<Item<G, T>>, group: Option<Labelled<G>>, tab: T)
    ensures ItemGroupRefs(AddItem(items, group, tab)) ==
      ItemGroupRefs(items) + if group.None? || JoinsGroup(items, group) then [] else [group.value.reference]
  {
    if JoinsGroup(items, group) {
      Pushed(Front(items), GroupItem(Last(items).group, Last(items).tabs + [tab]));
    } else {
      Pushed(items, if group.None? then TabItem(tab) else GroupItem(group.value, [tab]));
    }
    hide Front, Last;
  }

  /** Whether an entry joins the last item of the whole hierarchy. */
  predicate JoinsLast<W, G, T>(windows: seq<WindowNode<W, G, T>>, entry: Entry<W, G, T>) {
    JoinsWindow(windows, entry.window) && JoinsGroup(Last(windows).items, entry.group)
  }

  lemma AddEntryWindowRefs<W, G, T>(windows: seq<WindowNode<W, G, T>>, entry: Entry<W, G, T>)
    ensures WindowRefs(AddEntry(windows, entry)) ==
      WindowRefs(windows) + if JoinsWindow(windows, entry.window) then [] else [entry.window.reference]
  {
    if JoinsWindow(windows, entry.window) {
      Pushed(Front(windows), WindowNode(Last(windows).header, AddItem(Last(windows).items, entry.group, entry.tab)));
    } else {
      Pushed(windows, WindowNode(entry.window, AddItem([], entry.group, entry.tab)));
    }
    hide Front, Last, AddItem;
  }

  lemma PushGroupRefs<W, G, T>(front: seq<WindowNode<W, G, T>>, node: WindowNode<W, G, T>)
    ensures GroupRefs(front + [node]) == GroupRefs(front) + ItemGroupRefs(node.items)
  {
    Pushed(front, node);
  }

  lemma JoinWindowGroupRefs<W, G, T>(windows: seq<WindowNode<W, G, T>>, entry: Entry<W, G, T>)
    requires JoinsWindow(windows, entry.window)
    ensures GroupRefs(AddEntry(windows, entry)) ==
      GroupRefs(windows) + if entry.group.None? || JoinsGroup(Last(windows).items, entry.group) then [] else [entry.group.value.reference]
  {
    var items := Last(windows).items;
    AddItemGroupRefs(items, entry.group, entry.tab);
    PushGroupRefs(Front(windows), WindowNode(Last(windows).header, AddItem(items, entry.group, entry.tab)));
    hide Front, Last, AddItem, ItemGroupRefs, JoinsGroup;
  }

  lemma NewWindowGroupRefs<W, G, T>(windows: seq<WindowNode<W, G, T>>, entry: Entry<W, G, T>)
    requires !JoinsWindow(windows, entry.window)
    ensures GroupRefs(AddEntry(windows, entry)) ==
      GroupRefs(windows) + if entry.group.None? then [] else [entry.group.value.reference]
  {
    assert !JoinsGroup<G, T>([], entry.group) && ItemGroupRefs<G, T>([]) == [];
    AddItemGroupRefs([], entry.group, entry.tab);
    PushGroupRefs(windows, WindowNode(entry.window, AddItem([], entry.group, entry.tab)));
    hide Front, Last, AddItem, ItemGroupRefs, JoinsGroup, GroupRefs;
  }

  lemma AddEntryGroupRefs<W, G, T>(windows: seq<WindowNode<W, G, T>>, entry: Entry<W, G, T>)
    ensures GroupRefs(AddEntry(windows, entry)) ==
      GroupRefs(windows) + if entry.group.None? || JoinsLast(windows, entry) then [] else [entry.group.value.reference]
  {
    if JoinsWindow(windows, entry.window) {
      JoinWindowGroupRefs(windows, entry);
    } else {
      NewWindowGroupRefs(windows, entry);
    }
    hide Front, Last, AddEntry, JoinsGroup, GroupRefs;
  }

  lemma DistinctPush(names: seq<Name>, all: set<Name>, more: seq<Name>, added: set<Name>)
    requires Distinct(names) && Lists(names, all)
    requires (more == [] && added <= all) || (|more| == 1 && added == {more[0]} && more[0] !in all)
    ensures Distinct(names + more) && Lists(names + more, all + added)
  {
    assert forall name :: name in names + more <==> name in names || name in more;
    if more != [] { assert more[0] !in names; }
  }

  lemma SeenBefore<W, G, T>(front: seq<Entry<W, G, T>>, entry: Entry<W, G, T>)
    requires Contiguous(front + [entry])
    ensures Contiguous(front)
    ensures entry.window.reference in EntryWindows(front) <==> front != [] && InWindow(Last(front), entry)
    ensures entry.group.Some? ==>
      (entry.group.value.reference in EntryGroups(front) <==>
        front != [] && InGroup(Last(front), entry) && InWindow(Last(front), entry))
  {
    Pushed(front, entry);
    if front != [] { assert Last(front) in front; }
    hide Front, Last;
    if entry.window.reference in EntryWindows(front) {
      var a :| a in front && a.window.reference == entry.window.reference;
      assert InWindow(a, entry);
    }
    if entry.group.Some? && entry.group.value.reference in EntryGroups(front) {
      var a :| a in front && a.group.Some? && a.group.value.reference == entry.group.value.reference;
      assert InGroup(a, entry);
    }
  }

  ghost predicate OnceEach<W, G, T>(windows: seq<WindowNode<W, G, T>>, flat: seq<Entry<W, G, T>>) {
    && Distinct(WindowRefs(windows)) && Lists(WindowRefs(windows), EntryWindows(flat))
    && Distinct(GroupRefs(windows)) && Lists(GroupRefs(windows), EntryGroups(flat))
  }

  lemma OnceEachStep<W, G, T>(windows: seq<WindowNode<W, G, T>>, front: seq<Entry<W, G, T>>, entry: Entry<W, G, T>)
    requires OnceEach(windows, front) && EndsLike(windows, front) && Contiguous(front + [entry])
    ensures OnceEach(AddEntry(windows, entry), front + [entry])
  {
    SeenBefore(front, entry);
    EntrySets(front, entry);
    AddEntryWindowRefs(windows, entry);
    AddEntryGroupRefs(windows, entry);
    EndsLikeJoins(windows, front, entry);
    hide Front, Last, AddEntry, EntryWindows, EntryGroups, Contiguous, EndsLike, JoinsLast, JoinsWindow, WindowRefs, GroupRefs;
    hide Distinct, Lists, InGroup, InWindow;
    DistinctPush(WindowRefs(windows), EntryWindows(front),
      if JoinsWindow(windows, entry.window) then [] else [entry.window.reference], {entry.window.reference});
    DistinctPush(GroupRefs(windows), EntryGroups(front),
      if entry.group.None? || JoinsLast(windows, entry) then [] else [entry.group.value.reference],
      if entry.group.Some? then {entry.group.value.reference} else {});
  }

  /** Over a contiguous list every window and every group appears exactly once. */
  lemma {:induction false} RegroupOnce<W, G, T>(flat: seq<Entry<W, G, T>>)
    requires Contiguous(flat)
    ensures OnceEach(Regroup(flat), flat) && EndsLike(Regroup(flat), flat)
  {
    if flat != [] {
      var front, entry := Front(flat), Last(flat);
      RegroupOnce(front);
      Popped(flat);
      hide Front, Last, OnceEach, EndsLike, AddEntry;
      OnceEachStep(Regroup(front), front, entry);
      EndsLikeStep(Regroup(front), front, entry);
    }
  }

  /** The last window and item of a regrouped list are those of its last entry. */
  ghost predicate EndsLike<W, G, T>(windows: seq<WindowNode<W, G, T>>, flat: seq<Entry<W, G, T>>) {
    if flat == [] then windows == []
    else
      && windows != [] && Last(windows).items != []
      && Last(windows).header.reference == Last(flat).window.reference
      && (Last(flat).group.Some? <==> Last(Last(windows).items).GroupItem?)
      && (Last(flat).group.Some? ==> Last(Last(windows).items).group.reference == Last(flat).group.value.reference)
  }

  lemma EndsLikeStep<W, G, T>(windows: seq<WindowNode<W, G, T>>, flat: seq<Entry<W, G, T>>, entry: Entry<W, G, T>)
    ensures EndsLike(AddEntry(windows, entry), flat + [entry])
  {
    Pushed(flat, entry);
    if JoinsWindow(windows, entry.window) {
      AddItemEnds(Last(windows).items, entry.group, entry.tab);
      Pushed(Front(windows), WindowNode(Last(windows).header, AddItem(Last(windows).items, entry.group, entry.tab)));
    } else {
      AddItemEnds([], entry.group, entry.tab);
      Pushed(windows, WindowNode(entry.window, AddItem([], entry.group, entry.tab)));
    }
    hide Front, Last, AddItem;
  }

  lemma EndsLikeJoins<W, G, T>(windows: seq<WindowNode<W, G, T>>, flat: seq<Entry<W, G, T>>, entry: Entry<W, G, T>)
    requires EndsLike(windows, flat)
    ensures JoinsWindow(windows, entry.window) <==> flat != [] && InWindow(Last(flat), entry)
    ensures JoinsLast(windows, entry) <==> flat != [] && InWindow(Last(flat), entry) && InGroup(Last(flat), entry)
  {
    hide Front, Last;
  }
}

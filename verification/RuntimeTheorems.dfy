/** What holds over every history of the runtime: bounds, reference identity, immutable replay and lifetime. */
module RuntimeTheorems {
  import opened Wrappers
  import opened Baselines
  import opened Hierarchy
  import opened Snapshots
  import opened SnapshotPages
  import opened References
  import opened Retention
  import opened Runtime
  import Steps = BrokerRuntimes

  datatype RuntimeEvent =
    | Connect(browser: ConnectedBrowser)
    | ApplyCapabilities(changed: CapabilitiesChanged, implemented: bool, applied: Result<bool, string>)
    | Clear
    | Capture(input: CaptureInput, output: Result<ToolOutput, SnapshotError>)
    | Continue(now: nat, cursor: Name, page: Result<SnapshotPage, SnapshotError>)

  ghost predicate Next(e: Encoding, v: RuntimeState, event: RuntimeEvent, w: RuntimeState) {
    match event
    case Connect(browser) => w == Cleared(v).(connected := Some(browser))
    case ApplyCapabilities(changed, implemented, applied) => CapabilitiesStep(v, changed, implemented, w, applied)
    case Clear => w == Cleared(v).(connected := None)
    case Capture(input, output) => CaptureStep(e, v, input, w, output)
    case Continue(now, cursor, page) => ContinueStep(e, v, now, cursor, w, page)
  }

  /** A history from a fresh broker: events[i] leads from states[i] to states[i + 1]. */
  ghost predicate IsHistory(e: Encoding, states: seq<RuntimeState>, events: seq<RuntimeEvent>) {
    && |states| == |events| + 1 && states[0] == INITIAL_STATE
    && forall i :: 0 <= i < |events| ==> Next(e, states[i], events[i], states[i + 1])
  }

  lemma HistoryShape(e: Encoding, states: seq<RuntimeState>, events: seq<RuntimeEvent>)
    requires IsHistory(e, states, events)
    ensures |states| == |events| + 1
  {
    hide Next;
  }

  lemma NextAt(e: Encoding, states: seq<RuntimeState>, events: seq<RuntimeEvent>, j: nat)
    requires IsHistory(e, states, events) && j < |events|
    ensures Next(e, states[j], events[j], states[j + 1])
  {
    hide Next;
  }

  // ---------------------------------------------------------------- the invariant over histories

  lemma ClearedOk(e: Encoding, v: RuntimeState, w: RuntimeState)
    requires w.references == NO_REFERENCES && w.records == [] && w.referenceBytes == 0
    ensures RuntimeOk(e, w)
  {
  }

  lemma CapabilitiesKeepOk(e: Encoding, v: RuntimeState, changed: CapabilitiesChanged, implemented: bool, w: RuntimeState, applied: Result<bool, string>)
    requires RuntimeOk(e, v) && CapabilitiesStep(v, changed, implemented, w, applied)
    ensures RuntimeOk(e, w)
  {
    hide RegistryIssued, RecordsOk;
  }

  lemma NextKeepsOk(e: Encoding, v: RuntimeState, event: RuntimeEvent, w: RuntimeState)
    requires RuntimeOk(e, v) && Next(e, v, event, w)
    ensures RuntimeOk(e, w)
  {
    hide RuntimeOk, CaptureStep, CapabilitiesStep, Split;
    match event
    case Connect(_) => ClearedOk(e, v, w);
    case ApplyCapabilities(changed, implemented, applied) => CapabilitiesKeepOk(e, v, changed, implemented, w, applied);
    case Clear => ClearedOk(e, v, w);
    case Capture(input, output) => Steps.CaptureKeepsOk(e, v, input, w, output);
    case Continue(now, _, _) => Steps.ExpiryKeepsOk(e, v, now);
  }

  /** In every reachable state references and snapshots together fit into 32 MiB, and at most 16 snapshots
      of the connected browser are retained. */
  lemma {:induction false} HistoryStaysBounded(e: Encoding, states: seq<RuntimeState>, events: seq<RuntimeEvent>, i: nat)
    requires IsHistory(e, states, events) && i < |states|
    ensures RuntimeOk(e, states[i])
    ensures states[i].referenceBytes + TotalBytes(states[i].records) <= 33_554_432
    ensures |states[i].records| <= 16
    ensures states[i].records != [] ==> states[i].connected.Some?
  {
    hide Next, RuntimeOk;
    if i == 0 {
      ClearedOk(e, states[0], states[0]);
    } else {
      HistoryStaysBounded(e, states, events, i - 1);
      NextKeepsOk(e, states[i - 1], events[i - 1], states[i]);
    }
    Steps.RuntimeParts(e, states[i]);
    if states[i].records != [] { SomeBrowser(e, states[i]); }
  }

  lemma SomeBrowser(e: Encoding, v: RuntimeState)
    requires RuntimeOk(e, v) && v.records != []
    ensures v.connected.Some?
  {
    assert v.records[0] in v.records;
    hide RegistryIssued, RecordsOk;
  }

  // ---------------------------------------------------------------- reference identity

  datatype Kind = Windows | Groups | Tabs

  function OfKind(registry: ReferenceRegistry, kind: Kind): RecordMap {
    match kind
    case Windows => registry.windows
    case Groups => registry.groups
    case Tabs => registry.tabs
  }

  function KindObjects(b: Baseline, kind: Kind): seq<Identity> {
    match kind
    case Windows => WindowObjects(b)
    case Groups => GroupObjects(b)
    case Tabs => TabObjects(b)
  }

  /** Later references are earlier ones, unchanged, or were issued since. */
  ghost predicate Descends(v: RuntimeState, w: RuntimeState, kind: Kind) {
    && v.issued <= w.issued
    && forall k :: k in OfKind(w.references, kind) ==>
         || (k in OfKind(v.references, kind) && OfKind(w.references, kind)[k] == OfKind(v.references, kind)[k])
         || OfKind(w.references, kind)[k].publicRef >= v.issued
  }

  /** A committed capture keeps the reference of every key that is still there, and holds nothing but keys of its baseline. */
  lemma CommittedKeepsReferences(e: Encoding, v: RuntimeState, input: CaptureInput, w: RuntimeState, page: SnapshotPage, kind: Kind)
    requires CaptureStep(e, v, input, w, Success(PageOutput(page)))
    ensures OfKind(w.references, kind).Keys == ObjectKeys(KindObjects(input.baseline, kind))
    ensures forall o :: o in KindObjects(input.baseline, kind) ==>
      o.key in OfKind(w.references, kind) && OfKind(w.references, kind)[o.key].chromeId == o.id
    ensures forall k :: k in OfKind(v.references, kind) && k in OfKind(w.references, kind) ==>
      OfKind(w.references, kind)[k] == OfKind(v.references, kind)[k]
    ensures Descends(v, w, kind)
  {
    hide CaptureRejection, StoredOk, AllResolve, PageOf, ObjectKeys, Inserted, MatchedTabs, RegistryReconciled, KindObjects;
    var s, matched, second, removed, classEvicted, evicted := CommittedParts(e, v, input, w, page);
    assert second < w.issued;
    var low, high := KindReconciled(v.references, input.baseline, w.references, v.issued, second, kind);
    hide SnapshotCommitted, CaptureStep;
  }

  lemma KindReconciled(before: ReferenceRegistry, b: Baseline, after: ReferenceRegistry, first: Name, next: Name, kind: Kind)
    returns (low: Name, high: Name)
    requires RegistryReconciled(before, b, after, first, next)
    ensures Reconciled(OfKind(before, kind), KindObjects(b, kind), OfKind(after, kind), low, high) && first <= low && high <= next
  {
    hide ObjectKeys, WindowObjects, GroupObjects, TabObjects;
    var second: Name, third: Name :|
      && Reconciled(before.windows, WindowObjects(b), after.windows, first, second)
      && Reconciled(before.groups, GroupObjects(b), after.groups, second, third)
      && Reconciled(before.tabs, TabObjects(b), after.tabs, third, next);
    low, high := match kind { case Windows => first case Groups => second case Tabs => third },
                 match kind { case Windows => second case Groups => third case Tabs => next };
  }

  lemma NextDescends(e: Encoding, v: RuntimeState, event: RuntimeEvent, w: RuntimeState, kind: Kind)
    requires Next(e, v, event, w)
    ensures Descends(v, w, kind)
  {
    if event.Capture? && event.output.Success? {
      hide CaptureStep;
      if event.output.value.PageOutput? {
        CommittedKeepsReferences(e, v, event.input, w, event.output.value.page, kind);
      } else {
        CountsKeepReferences(e, v, event.input, w, event.output.value.counts);
      }
    } else {
      OtherStepsKeepReferences(e, v, event, w);
    }
  }

  lemma OtherStepsKeepReferences(e: Encoding, v: RuntimeState, event: RuntimeEvent, w: RuntimeState)
    requires Next(e, v, event, w) && !(event.Capture? && event.output.Success?)
    ensures w.issued >= v.issued && (w.references == v.references || w.references == NO_REFERENCES)
  {
    hide CaptureRejection, Split;
    match event
    case Connect(_) =>
    case ApplyCapabilities(changed, implemented, applied) => assert CapabilitiesStep(v, changed, implemented, w, applied);
    case Clear =>
    case Capture(input, output) => assert Untouched(v, w);
    case Continue(now, cursor, page) => assert ContinueStep(e, v, now, cursor, w, page);
  }

  lemma CountsKeepReferences(e: Encoding, v: RuntimeState, input: CaptureInput, w: RuntimeState, counts: Steps.Totals.SnapshotCounts)
    requires CaptureStep(e, v, input, w, Success(CountsOutput(counts)))
    ensures w.references == v.references && w.records == v.records && v.issued <= w.issued
  {
    hide CaptureRejection, MatchedTabs, RegistryReconciled;
    var registry, matched :|
      && RegistryReconciled(v.references, input.baseline, registry, v.issued, w.issued)
      && MatchedTabs(input.baseline, SnapshotReferencesOf(registry), input.params, e.textMatches) == Success(matched);
    SecondAfter(v, input, registry, w.issued);
  }

  lemma {:induction false} HistoryDescends(e: Encoding, states: seq<RuntimeState>, events: seq<RuntimeEvent>, i: nat, j: nat, kind: Kind)
    requires IsHistory(e, states, events) && i <= j < |states|
    ensures Descends(states[i], states[j], kind)
    decreases j - i
  {
    hide Next;
    if i < j {
      HistoryDescends(e, states, events, i, j - 1, kind);
      NextDescends(e, states[j - 1], events[j - 1], states[j], kind);
    }
  }

  lemma KindIssued(e: Encoding, v: RuntimeState, kind: Kind)
    requires RuntimeOk(e, v)
    ensures Issued(OfKind(v.references, kind), v.issued)
  {
    hide RecordsOk;
  }

  /** For its whole life a public reference denotes one incarnation key and one Chrome id. */
  lemma ReferenceIdentity(e: Encoding, states: seq<RuntimeState>, events: seq<RuntimeEvent>, i: nat, j: nat, kind: Kind, k: string, m: string)
    requires IsHistory(e, states, events) && i <= j < |states|
    requires k in OfKind(states[i].references, kind) && m in OfKind(states[j].references, kind)
    requires OfKind(states[i].references, kind)[k].publicRef == OfKind(states[j].references, kind)[m].publicRef
    ensures k == m && OfKind(states[i].references, kind)[k] == OfKind(states[j].references, kind)[m]
  {
    HistoryStaysBounded(e, states, events, i);
    KindIssued(e, states[i], kind);
    HistoryDescends(e, states, events, i, j, kind);
    hide IsHistory, RuntimeOk, OfKind;
  }

  ghost predicate Denotes(v: RuntimeState, kind: Kind, reference: Name) {
    exists k :: k in OfKind(v.references, kind) && OfKind(v.references, kind)[k].publicRef == reference
  }

  /** A reference that was dropped is never issued again. */
  lemma DroppedNeverReissued(e: Encoding, states: seq<RuntimeState>, events: seq<RuntimeEvent>, i: nat, j: nat, l: nat, kind: Kind, reference: Name)
    requires IsHistory(e, states, events) && i <= j <= l < |states|
    requires Denotes(states[i], kind, reference) && !Denotes(states[j], kind, reference)
    ensures !Denotes(states[l], kind, reference)
  {
    HistoryStaysBounded(e, states, events, i);
    KindIssued(e, states[i], kind);
    HistoryDescends(e, states, events, i, j, kind);
    HistoryDescends(e, states, events, j, l, kind);
    hide IsHistory, RuntimeOk, OfKind;
  }

  // ---------------------------------------------------------------- immutable replay

  /** Later records are earlier ones, unchanged, or hold only cursors issued since. */
  ghost predicate RecordsDescend(v: RuntimeState, w: RuntimeState) {
    && v.issued <= w.issued
    && forall r :: r in w.records ==> r in v.records || forall c :: c in r.value.cursors ==> c >= v.issued
  }

  /** What a committed capture retains: the new snapshot, under names issued by the capture. */
  lemma CommittedRecords(e: Encoding, v: RuntimeState, input: CaptureInput, w: RuntimeState, page: SnapshotPage) returns (added: Retained)
    requires CaptureStep(e, v, input, w, Success(PageOutput(page)))
    ensures added in w.records && added.createdAt == input.now && added.ttl == SNAPSHOT_TTL && v.issued <= added.key
    ensures SnapshotOk(added.value, w.issued) && 0 <= PageEnd(added.value, 0) && page == PageOf(added.value, 0)
    ensures forall r :: r in w.records ==> r == added || (r in v.records && !IsDue(r, input.now))
    ensures forall c :: c in added.value.cursors ==> c >= v.issued
    ensures v.issued <= w.issued
  {
    hide CaptureRejection, StoredOk, AllResolve, PageOf, Inserted, MatchedTabs, RegistryReconciled, IsDue;
    var s, matched, second, removed, classEvicted, evicted := CommittedParts(e, v, input, w, page);
    InsertedAre(e, v, input, w, s, matched, second, removed, classEvicted, evicted);
    SecondAfter(v, input, w.references, second);
    added := RecordOf(CandidateFor(e, s), input.now);
  }

  lemma SecondAfter(v: RuntimeState, input: CaptureInput, registry: ReferenceRegistry, second: Name)
    requires RegistryReconciled(v.references, input.baseline, registry, v.issued, second)
    ensures v.issued <= second
  {
    hide WindowObjects, GroupObjects, TabObjects;
  }

  lemma NextRecordsDescend(e: Encoding, v: RuntimeState, event: RuntimeEvent, w: RuntimeState)
    requires Next(e, v, event, w)
    ensures RecordsDescend(v, w)
  {
    hide CaptureStep, ContinueStep, RecordsDescend;
    if event.Capture? {
      if event.output.Success? && event.output.value.PageOutput? {
        PageRecordsDescend(e, v, event.input, w, event.output.value.page);
      } else {
        OtherCaptureDescends(e, v, event.input, w, event.output);
      }
    } else if event.Continue? {
      ContinueDescends(e, v, event.now, event.cursor, w, event.page);
    } else {
      OthersDescend(e, v, event, w);
    }
  }

  lemma PageRecordsDescend(e: Encoding, v: RuntimeState, input: CaptureInput, w: RuntimeState, page: SnapshotPage)
    requires CaptureStep(e, v, input, w, Success(PageOutput(page)))
    ensures RecordsDescend(v, w)
  {
    hide CaptureStep, SnapshotOk, PageOf, IsDue;
    var added := CommittedRecords(e, v, input, w, page);
  }

  lemma OtherCaptureDescends(e: Encoding, v: RuntimeState, input: CaptureInput, w: RuntimeState, output: Result<ToolOutput, SnapshotError>)
    requires CaptureStep(e, v, input, w, output) && !(output.Success? && output.value.PageOutput?)
    ensures RecordsDescend(v, w)
  {
    if output.Success? { CountsKeepReferences(e, v, input, w, output.value.counts); }
    hide CaptureRejection, DeclinedLate, CountsCommitted;
  }

  lemma ContinueDescends(e: Encoding, v: RuntimeState, now: nat, cursor: Name, w: RuntimeState, page: Result<SnapshotPage, SnapshotError>)
    requires ContinueStep(e, v, now, cursor, w, page)
    ensures RecordsDescend(v, w)
  {
    SplitSelects(v.records, now, false);
    hide Split, IsDue, Rendered, HasCursor;
  }

  lemma OthersDescend(e: Encoding, v: RuntimeState, event: RuntimeEvent, w: RuntimeState)
    requires Next(e, v, event, w) && !event.Capture? && !event.Continue?
    ensures RecordsDescend(v, w)
  {
  }

  lemma {:induction false} HistoryRecordsDescend(e: Encoding, states: seq<RuntimeState>, events: seq<RuntimeEvent>, i: nat, j: nat)
    requires IsHistory(e, states, events) && i <= j < |states|
    ensures RecordsDescend(states[i], states[j])
    decreases j - i
  {
    hide Next;
    if i < j {
      HistoryRecordsDescend(e, states, events, i, j - 1);
      NextRecordsDescend(e, states[j - 1], events[j - 1], states[j]);
    }
  }

  lemma KnownCursor(e: Encoding, v: RuntimeState, r: Retained, cursor: Name)
    requires RuntimeOk(e, v) && HasCursor(v.records, r, cursor)
    ensures cursor < v.issued
  {
    assert RecordOk(r, v.issued);
    hide StoredOk, AllResolve, RegistryIssued;
  }

  lemma OneHolder(e: Encoding, v: RuntimeState, r: Retained, q: Retained, cursor: Name)
    requires RuntimeOk(e, v) && HasCursor(v.records, r, cursor) && HasCursor(v.records, q, cursor)
    ensures r == q
  {
    assert Apart(r, q);
    hide RecordOk, RegistryIssued;
  }

  /** Whoever holds a cursor now is the only one ever to hold it. */
  lemma HolderIsForever(e: Encoding, states: seq<RuntimeState>, events: seq<RuntimeEvent>, i: nat, j: nat, r: Retained, q: Retained, cursor: Name)
    requires IsHistory(e, states, events) && i <= j < |states|
    requires HasCursor(states[i].records, r, cursor) && HasCursor(states[j].records, q, cursor)
    ensures r == q
  {
    HistoryStaysBounded(e, states, events, i);
    HistoryRecordsDescend(e, states, events, i, j);
    hide IsHistory, RuntimeOk;
    KnownCursor(e, states[i], r, cursor);
    assert q in states[i].records;
    OneHolder(e, states[i], r, q, cursor);
  }

  /** What answers a cursor: a record of the state before that is not due, and still there afterwards. */
  lemma Answered(e: Encoding, v: RuntimeState, now: nat, cursor: Name, w: RuntimeState, page: Result<SnapshotPage, SnapshotError>)
    returns (r: Retained)
    requires ContinueStep(e, v, now, cursor, w, page) && page != Failure(HandleExpired)
    ensures HasCursor(v.records, r, cursor) && HasCursor(w.records, r, cursor) && !IsDue(r, now)
    ensures Rendered(e, r.value, r.value.cursors[cursor], page)
  {
    SplitSelects(v.records, now, false);
    hide Split, IsDue, Rendered;
    r :| HasCursor(w.records, r, cursor) && Rendered(e, r.value, r.value.cursors[cursor], page);
  }

  /** Every read of a cursor that is still honoured gives the same result, whatever happened in between. */
  lemma ReplayIsImmutable(e: Encoding, states: seq<RuntimeState>, events: seq<RuntimeEvent>, i: nat, j: nat)
    requires IsHistory(e, states, events) && i <= j < |events|
    requires events[i].Continue? && events[j].Continue? && events[i].cursor == events[j].cursor
    requires events[i].page != Failure(HandleExpired) && events[j].page != Failure(HandleExpired)
    ensures events[i].page == events[j].page
  {
    assert Next(e, states[i], events[i], states[i + 1]) && Next(e, states[j], events[j], states[j + 1]);
    var r := Answered(e, states[i], events[i].now, events[i].cursor, states[i + 1], events[i].page);
    var q := Answered(e, states[j], events[j].now, events[j].cursor, states[j + 1], events[j].page);
    hide IsHistory, Next, PageOf, AllResolve;
    HolderIsForever(e, states, events, i, j, r, q, events[i].cursor);
  }

  // ---------------------------------------------------------------- lifetime

  /** A cursor of a retained snapshot is honoured exactly while the snapshot is retained and less than 120 seconds
      have passed since its capture; then it always gives the page of that snapshot. */
  lemma CursorLifetime(
    e: Encoding, states: seq<RuntimeState>, events: seq<RuntimeEvent>, m: nat, j: nat, record: Retained)
    requires IsHistory(e, states, events) && m <= j < |events|
    requires events[j].Continue? && HasCursor(states[m].records, record, events[j].cursor)
    ensures events[j].page != Failure(HandleExpired) <==>
      record in states[j].records && events[j].now < record.createdAt + 120_000_000_000
    ensures events[j].page != Failure(HandleExpired) ==>
      states[j].connected.Some? && Rendered(e, record.value, record.value.cursors[events[j].cursor], events[j].page)
  {
    hide *;
    HistoryShape(e, states, events);
    var now, cursor := events[j].now, events[j].cursor;
    ContinueOf(e, states, events, j);
    HistoryStaysBounded(e, states, events, j);
    HistoryStaysBounded(e, states, events, m);
    HolderIsIn(states[m].records, record, cursor);
    RecordAge(e, states[m], record, now);
    if events[j].page != Failure(HandleExpired) {
      var q := Answered(e, states[j], now, cursor, states[j + 1], events[j].page);
      HolderIsForever(e, states, events, m, j, record, q, cursor);
      HolderIsIn(states[j].records, q, cursor);
    } else if record in states[j].records && !IsDue(record, now) {
      CursorOfLater(states[m].records, states[j].records, record, cursor);
      HeldIsAnswered(e, states[j], now, cursor, states[j + 1], events[j].page, record);
    }
  }

  lemma ContinueOf(e: Encoding, states: seq<RuntimeState>, events: seq<RuntimeEvent>, j: nat)
    requires IsHistory(e, states, events) && j < |events| && events[j].Continue?
    ensures ContinueStep(e, states[j], events[j].now, events[j].cursor, states[j + 1], events[j].page)
  {
    assert Next(e, states[j], events[j], states[j + 1]);
    hide ContinueStep;
  }

  lemma HolderIsIn(records: seq<Retained>, record: Retained, cursor: Name)
    requires HasCursor(records, record, cursor)
    ensures record in records
  {
  }

  /** A retained snapshot is due from 120 seconds after its capture on. */
  lemma RecordAge(e: Encoding, v: RuntimeState, record: Retained, now: nat)
    requires RuntimeOk(e, v) && record in v.records
    ensures IsDue(record, now) <==> now >= record.createdAt + 120_000_000_000
  {
    assert RecordOk(record, v.issued);
    DueFrom(record, now);
    hide RuntimeOk, IsDue, SnapshotOk;
  }

  lemma CursorOfLater(before: seq<Retained>, after: seq<Retained>, record: Retained, cursor: Name)
    requires HasCursor(before, record, cursor) && record in after
    ensures HasCursor(after, record, cursor)
  {
  }

  /** A live record that holds the cursor makes the read succeed or be refused for size, not expire. */
  lemma HeldIsAnswered(e: Encoding, v: RuntimeState, now: nat, cursor: Name, w: RuntimeState, page: Result<SnapshotPage, SnapshotError>, record: Retained)
    requires ContinueStep(e, v, now, cursor, w, page) && HasCursor(v.records, record, cursor) && !IsDue(record, now)
    ensures page != Failure(HandleExpired)
  {
    SplitSelects(v.records, now, false);
    hide Split, IsDue, Rendered;
    assert HasCursor(w.records, record, cursor);
    NotExpired(e, w, cursor, page);
  }

  lemma NotExpired(e: Encoding, w: RuntimeState, cursor: Name, page: Result<SnapshotPage, SnapshotError>)
    requires exists r :: HasCursor(w.records, r, cursor) && Rendered(e, r.value, r.value.cursors[cursor], page)
    ensures page != Failure(HandleExpired)
  {
    hide PageOf, AllResolve;
  }

  /** The records that remain with a new one: not more than fifteen, and within the bytes left beside the references. */
  ghost predicate Fits(kept: seq<Retained>, referenceBytes: nat, bytes: nat) {
    |kept| < 16 && referenceBytes + TotalBytes(kept) + bytes <= 33_554_432
  }

  lemma {:induction false} SuffixBytes(records: seq<Retained>, n: nat)
    requires n <= |records|
    ensures TotalBytes(records[n..]) <= TotalBytes(records)
  {
    assert records == records[..n] + records[n..];
    TotalBytesAppend(records[..n], records[n..]);
  }

  lemma {:induction false} DropIsSuffix(records: seq<Retained>, n: nat)
    requires n <= |records|
    ensures DropOldest(records, BrowserSnapshotClass, n) == records[n..]
  {
    if n > 0 {
      assert records[0].class_.BrowserSnapshotClass?;
      DropIsSuffix(records[1..], n - 1);
      assert records[1..][n - 1..] == records[n..];
    }
  }

  /** With one class, a capture evicts oldest first and no more than it must: exactly the live records that
      would not fit together with all younger ones, the new snapshot and the new references. */
  lemma EvictsOldestFirst(e: Encoding, v: RuntimeState, input: CaptureInput, w: RuntimeState, page: SnapshotPage) returns (n: nat, added: Retained)
    requires CaptureStep(e, v, input, w, Success(PageOutput(page)))
    ensures n <= |Split(v.records, input.now, false)|
    ensures w.records == Split(v.records, input.now, false)[n..] + [added]
    ensures forall p :: 0 <= p <= |Split(v.records, input.now, false)| ==>
      (p >= n <==> Fits(Split(v.records, input.now, false)[p..], w.referenceBytes, added.retainedBytes))
  {
    hide CaptureRejection, StoredOk, AllResolve, PageOf, MatchedTabs, RegistryReconciled, Built, Split, TotalBytes, DropOldest, OfClass;
    var s, matched, second, removed, classEvicted, evicted := CommittedParts(e, v, input, w, page);
    var live, candidate := Split(v.records, input.now, false), CandidateFor(e, s);
    added := RecordOf(candidate, input.now);
    OneClass(live);
    DropIsSuffix(live, classEvicted);
    n := classEvicted + evicted;
    assert live[classEvicted..][evicted..] == live[n..];
    forall p | 0 <= p <= |live| ensures p >= n <==> Fits(live[p..], w.referenceBytes, added.retainedBytes) {
      if p < classEvicted {
        NoClassRoom(live, candidate, p, classEvicted, w.referenceBytes);
      } else if p < n {
        assert live[classEvicted..][p - classEvicted..] == live[p..];
      } else {
        SuffixBytes(live[n..], p - n);
        assert live[n..][p - n..] == live[p..];
        ClassRoom(live, candidate, p, classEvicted);
      }
    }
  }

  lemma NoClassRoom(live: seq<Retained>, candidate: RetentionCandidate<Name, StoredSnapshot, RetentionClass>, p: nat, n: nat, referenceBytes: nat)
    requires p < n && LeastClassEviction(live, candidate, n) && n <= |live| && candidate.class_ == BrowserSnapshotClass
    requires candidate.policy == RetentionPolicy(SNAPSHOT_TTL, MAX_RETAINED_SNAPSHOTS, MAX_RETAINED_BYTES)
    ensures !Fits(live[p..], referenceBytes, candidate.retainedBytes)
  {
    DropIsSuffix(live, p);
    OneClass(live[p..]);
    hide DropOldest, OfClass, TotalBytes;
    assert !ClassFits(DropOldest(live, candidate.class_, p), candidate);
  }

  lemma ClassRoom(live: seq<Retained>, candidate: RetentionCandidate<Name, StoredSnapshot, RetentionClass>, p: nat, n: nat)
    requires n <= p <= |live| && LeastClassEviction(live, candidate, n) && candidate.class_ == BrowserSnapshotClass
    requires candidate.policy == RetentionPolicy(SNAPSHOT_TTL, MAX_RETAINED_SNAPSHOTS, MAX_RETAINED_BYTES)
    ensures |live[p..]| < MAX_RETAINED_SNAPSHOTS
  {
    DropIsSuffix(live, n);
    OneClass(live[n..]);
    hide DropOldest, OfClass, TotalBytes;
  }

  /** A capture at `now` had no room for the record: it came due, or it would not have fitted together with
      all younger live records, the new snapshot and the new references. */
  ghost predicate NoRoomFor(v: RuntimeState, w: RuntimeState, now: nat, record: Retained) {
    var live := Split(v.records, now, false);
    || IsDue(record, now)
    || exists p :: 0 <= p < |live| && live[p] == record && w.records != []
         && !Fits(live[p..], w.referenceBytes, w.records[|w.records| - 1].retainedBytes)
  }

  lemma EvictedHadNoRoom(e: Encoding, v: RuntimeState, input: CaptureInput, w: RuntimeState, page: SnapshotPage, record: Retained)
    requires CaptureStep(e, v, input, w, Success(PageOutput(page))) && record in v.records && record !in w.records
    ensures NoRoomFor(v, w, input.now, record)
  {
    var n, added := EvictsOldestFirst(e, v, input, w, page);
    SplitSelects(v.records, input.now, false);
    hide CaptureStep, Split, Fits, IsDue, NoRoomFor;
    var live := Split(v.records, input.now, false);
    if IsDue(record, input.now) {
      DueHasNoRoom(v, w, input.now, record);
    } else {
      var p :| 0 <= p < |live| && live[p] == record;
      MissingIsBefore(live, n, p, added);
      EvictedHasNoRoom(v, w, input.now, record, p);
    }
  }

  lemma MissingIsBefore(live: seq<Retained>, n: nat, p: nat, added: Retained)
    requires n <= |live| && p < |live| && live[p] !in live[n..] + [added]
    ensures p < n
  {
    SuffixHolds(live, n, added);
  }

  lemma SuffixHolds(live: seq<Retained>, n: nat, added: Retained)
    requires n <= |live|
    ensures forall q :: n <= q < |live| ==> live[q] in live[n..] + [added]
  {
    forall q | n <= q < |live| ensures live[q] in live[n..] + [added] { assert live[n..][q - n] == live[q]; }
  }

  lemma DueHasNoRoom(v: RuntimeState, w: RuntimeState, now: nat, record: Retained)
    requires IsDue(record, now)
    ensures NoRoomFor(v, w, now, record)
  {
  }

  lemma EvictedHasNoRoom(v: RuntimeState, w: RuntimeState, now: nat, record: Retained, p: nat)
    requires var live := Split(v.records, now, false);
      && p < |live| && live[p] == record && w.records != []
      && !Fits(live[p..], w.referenceBytes, w.records[|w.records| - 1].retainedBytes)
    ensures NoRoomFor(v, w, now, record)
  {
    hide Split, Fits, IsDue;
  }

  /** A retained snapshot leaves only by connect or clear, by coming due, or because a capture had no room for it. */
  lemma RecordLeaves(e: Encoding, v: RuntimeState, event: RuntimeEvent, w: RuntimeState, record: Retained)
    requires Next(e, v, event, w) && record in v.records && record !in w.records
    ensures
      || event.Connect? || event.Clear?
      || (event.Continue? && IsDue(record, event.now))
      || (event.Capture? && event.output.Success? && event.output.value.PageOutput? && NoRoomFor(v, w, event.input.now, record))
  {
    if event.Continue? {
      SplitSelects(v.records, event.now, false);
      hide Split, IsDue;
    } else if event.Capture? && event.output.Success? && event.output.value.PageOutput? {
      hide CaptureStep, NoRoomFor;
      EvictedHadNoRoom(e, v, event.input, w, event.output.value.page, record);
    } else {
      hide CaptureRejection, MatchedTabs, RegistryReconciled;
    }
  }
}

/** The broker's shared state: the connected browser, its references and the retained snapshots. */
module Runtime {
  import opened Wrappers
  import opened Baselines
  import opened Hierarchy
  import opened Snapshots
  import opened SnapshotPages
  import Counting = SnapshotCounts
  import Renderer = SnapshotRenderer
  import Theorems = SnapshotTheorems
  import opened References
  import opened Retention

  const MAX_RETAINED_SNAPSHOTS: nat := 16
  const MAX_RETAINED_BYTES: nat := 32 * 1024 * 1024
  const MAX_BASELINE_BYTES: nat := 32 * 1024 * 1024
  const SNAPSHOT_TTL: nat := 120 * 1_000_000_000
  const MAX_LIMIT: nat := 250
  const MAX_TARGET_TABS: nat := 250
  const MAX_QUERY_BYTES: nat := 4096

  datatype Capabilities = Capabilities(browserSnapshot: bool, frozenTabs: bool, sharedTabGroups: bool)

  datatype ConnectedBrowser = ConnectedBrowser(browserInstanceId: string, capabilityRevision: nat, capabilities: Capabilities)

  datatype CapabilitiesChanged = CapabilitiesChanged(browserInstanceId: string, capabilityRevision: nat, capabilities: Capabilities)

  datatype RetentionClass = BrowserSnapshotClass

  type Retained = RetainedRecord<Name, StoredSnapshot, RetentionClass>

  datatype ToolOutput = CountsOutput(counts: Counting.SnapshotCounts) | PageOutput(page: SnapshotPage)

  /** Serialized sizes and query text matching, which are left abstract. */
  datatype Encoding = Encoding(
    baselineSize: Baseline -> nat, referencesSize: SnapshotReferences -> nat,
    storedSize: StoredSnapshot -> nat, pageSize: SnapshotPage -> nat,
    textMatches: (string, BaselineTab) -> bool)

  datatype RuntimeState = RuntimeState(
    connected: Option<ConnectedBrowser>, references: ReferenceRegistry,
    records: seq<Retained>, referenceBytes: nat,
    latestModelRevision: Option<nat>, latestModelFingerprint: Option<Baseline>, issued: Name)

  const INITIAL_STATE := RuntimeState(None, NO_REFERENCES, [], 0, None, None, 0)

  // ---------------------------------------------------------------- invariant

  /** A retained snapshot is one the renderer can be trusted with, under names already issued. */
  ghost predicate SnapshotOk(s: StoredSnapshot, issued: Name) {
    && StoredOk(s) && AllResolve(s) && Theorems.CursorsRetained(s)
    && s.snapshotRef < issued && forall c :: c in s.cursors ==> c < issued
  }

  ghost predicate RecordOk(record: Retained, issued: Name) {
    SnapshotOk(record.value, issued) && record.key == record.value.snapshotRef && record.ttl == SNAPSHOT_TTL
  }

  /** Two retained records share neither key nor cursor. */
  ghost predicate Apart(r: Retained, q: Retained) {
    (r.key == q.key || exists c :: c in r.value.cursors && c in q.value.cursors) ==> r == q
  }

  ghost predicate RecordsOk(records: seq<Retained>, issued: Name) {
    && (forall r :: r in records ==> RecordOk(r, issued))
    && (forall r, q :: r in records && q in records ==> Apart(r, q))
  }

  /** Retained snapshots are those of the connected browser. */
  ghost predicate SameBrowser(connected: Option<ConnectedBrowser>, records: seq<Retained>) {
    forall r :: r in records ==> connected.Some? && r.value.baseline.browserInstanceId == connected.value.browserInstanceId
  }

  ghost predicate RuntimeOk(e: Encoding, v: RuntimeState) {
    && RegistryIssued(v.references, v.issued)
    && RecordsOk(v.records, v.issued) && SameBrowser(v.connected, v.records)
    && v.referenceBytes + TotalBytes(v.records) <= MAX_RETAINED_BYTES
    && |v.records| <= MAX_RETAINED_SNAPSHOTS
    && (v.referenceBytes == e.referencesSize(SnapshotReferencesOf(v.references))
        || (v.referenceBytes == 0 && v.references == NO_REFERENCES))
  }

  /** clear_retained: references, snapshots, revision and fingerprint go together. */
  function Cleared(v: RuntimeState): RuntimeState {
    RuntimeState(v.connected, NO_REFERENCES, [], 0, None, None, v.issued)
  }

  ghost predicate CapabilitiesStep(
    v: RuntimeState, changed: CapabilitiesChanged, implemented: bool, w: RuntimeState, result: Result<bool, string>)
  {
    var accepted :=
      && v.connected.Some? && v.connected.value.browserInstanceId == changed.browserInstanceId
      && changed.capabilityRevision > v.connected.value.capabilityRevision && implemented;
    && (result == Success(true) <==> accepted)
    && (result == Success(false) <==>
          && v.connected.Some? && v.connected.value.browserInstanceId == changed.browserInstanceId
          && changed.capabilityRevision <= v.connected.value.capabilityRevision)
    && w == if accepted
            then v.(connected := Some(ConnectedBrowser(changed.browserInstanceId, changed.capabilityRevision, changed.capabilities)))
            else v
  }

  // ---------------------------------------------------------------- capture, as a step

  datatype CaptureInput = CaptureInput(now: nat, startInstanceId: string, params: SnapshotParams, baseline: Baseline)

  function Fingerprint(b: Baseline): Baseline { b.(capturedAt := "") }

  predicate ParamsValid(params: SnapshotParams) {
    && (if params.windowRef.Some? then 1 else 0) + (if params.groupRef.Some? then 1 else 0)
         + (if params.tabRefs.Some? then 1 else 0) <= 1
    && (params.tabRefs.Some? ==>
          && 1 <= |params.tabRefs.value| <= MAX_TARGET_TABS
          && forall i, j :: 0 <= i < j < |params.tabRefs.value| ==> params.tabRefs.value[i] != params.tabRefs.value[j])
    && (params.query.Some? ==> !IsBlank(params.query.value) && Utf8Length(params.query.value) <= MAX_QUERY_BYTES)
    && (params.limit.Some? ==> 1 <= params.limit.value <= MAX_LIMIT)
    && (params.detail == Some(SnapshotDetail.Counts) ==> params.limit.None?)
  }

  function Utf8Length(text: string): nat {
    if text == "" then 0
    else (if text[0] < '\U{0080}' then 1 else if text[0] < '\U{0800}' then 2 else if text[0] < '\U{10000}' then 3 else 4)
         + Utf8Length(text[1..])
  }

  /** A model that changed without a new revision. */
  predicate RevisionConflict(v: RuntimeState, b: Baseline) {
    v.latestModelRevision == Some(b.modelRevision) && v.latestModelFingerprint != Some(Fingerprint(b))
  }

  /** Why a baseline is turned away without looking at its keys or the filter, in the order of the checks. */
  ghost function Screening(e: Encoding, v: RuntimeState, input: CaptureInput): Option<SnapshotError> {
    var b := input.baseline;
    if e.baselineSize(b) > MAX_BASELINE_BYTES then Some(ResultTooLarge)
    else if !ValidBaseline(b, input.startInstanceId) then Some(InternalError)
    else if v.connected.None? then Some(CapabilityUnavailable)
    else
      var c := v.connected.value;
      if c.browserInstanceId != b.browserInstanceId then Some(InternalError)
      else if !c.capabilities.browserSnapshot then Some(CapabilityUnavailable)
      else if v.latestModelRevision.Some? && b.modelRevision < v.latestModelRevision.value then Some(InternalError)
      else if RevisionConflict(v, b) then Some(InternalError)
      else if c.capabilities.frozenTabs != b.supportsFrozenTabs || c.capabilities.sharedTabGroups != b.supportsSharedTabGroups then Some(InternalError)
      else if input.params.frozen.Some? && !(c.capabilities.frozenTabs && b.supportsFrozenTabs) then Some(CapabilityUnavailable)
      else None
  }

  /** A reused incarnation key turns a baseline away too. */
  ghost function CaptureRejection(e: Encoding, v: RuntimeState, input: CaptureInput): Option<SnapshotError> {
    var screened := Screening(e, v, input);
    if screened.None? && AnyKeyReused(v.references, input.baseline) then Some(InternalError) else screened
  }

  function StoredFor(b: Baseline, references: SnapshotReferences, matched: seq<string>, params: SnapshotParams, snapshotRef: Name): StoredSnapshot {
    StoredSnapshot(snapshotRef, b, references, matched,
      if params.detail.Some? then params.detail.value else Compact,
      LimitOf(params), map[], map[])
  }

  function LimitOf(params: SnapshotParams): nat {
    if params.limit.Some? then params.limit.value else DEFAULT_LIMIT
  }

  ghost predicate CursorsFit(params: SnapshotParams, matched: seq<string>) {
    LimitOf(params) >= 1 && Renderer.CursorCount(|matched|, LimitOf(params)) <= MAX_CURSOR_RECORDS
  }

  /** The first page may be sent, and the snapshot fits beside the references. */
  ghost predicate SnapshotFits(e: Encoding, s: StoredSnapshot, referenceBytes: nat) {
    && AllResolve(s) && 0 <= PageEnd(s, 0)
    && e.pageSize(PageOf(s, 0)) <= MAX_RESULT_BYTES && referenceBytes + e.storedSize(s) <= MAX_RETAINED_BYTES
  }

  /** Why a baseline that was let in is turned away after all, under the references issued for it: a target is
      unknown; or else the references, the cursors, the page, or references and snapshot together are too large. */
  ghost predicate Declines(e: Encoding, input: CaptureInput, registry: ReferenceRegistry, second: Name, error: SnapshotError) {
    var references := SnapshotReferencesOf(registry);
    if !TargetsKnown(references, input.params) then error == NotFound
    else
      && error == ResultTooLarge
      && (e.referencesSize(references) > MAX_BASELINE_BYTES
          || (input.params.detail != Some(SnapshotDetail.Counts) && PageTooLarge(e, input, references, second)))
  }

  ghost predicate PageTooLarge(e: Encoding, input: CaptureInput, references: SnapshotReferences, second: Name) {
    exists matched ::
      && MatchedTabs(input.baseline, references, input.params, e.textMatches) == Success(matched)
      && (!CursorsFit(input.params, matched)
          || exists s, next ::
               && Built(s, input.baseline, references, matched, input.params, second, next) && StoredOk(s)
               && !SnapshotFits(e, s, e.referencesSize(references)))
  }

  ghost predicate DeclinedLate(e: Encoding, v: RuntimeState, input: CaptureInput, error: SnapshotError) {
    exists registry, second ::
      RegistryReconciled(v.references, input.baseline, registry, v.issued, second) && Declines(e, input, registry, second, error)
  }

  /** The snapshot of a capture: named `first`, its cursors named first + 1 .. next. */
  ghost predicate Built(s: StoredSnapshot, b: Baseline, references: SnapshotReferences, matched: seq<string>, params: SnapshotParams, first: Name, next: Name) {
    && s == StoredFor(b, references, matched, params, first).(cursors := s.cursors, cursorByOffset := s.cursorByOffset)
    && Renderer.CursorsOk(s, first + 1, next)
  }

  function CandidateFor(e: Encoding, s: StoredSnapshot): RetentionCandidate<Name, StoredSnapshot, RetentionClass> {
    RetentionCandidate(s.snapshotRef, BrowserSnapshotClass,
      RetentionPolicy(SNAPSHOT_TTL, MAX_RETAINED_SNAPSHOTS, MAX_RETAINED_BYTES), e.storedSize(s), s)
  }

  /** A failed capture uses up names, and changes nothing else. */
  ghost predicate Untouched(v: RuntimeState, w: RuntimeState) {
    v.issued <= w.issued && w == v.(issued := w.issued)
  }

  /** The counts path takes over revision and fingerprint only: its references are not committed. */
  ghost predicate CountsCommitted(e: Encoding, v: RuntimeState, input: CaptureInput, w: RuntimeState, counts: Counting.SnapshotCounts) {
    exists registry, matched ::
      && RegistryReconciled(v.references, input.baseline, registry, v.issued, w.issued)
      && MatchedTabs(input.baseline, SnapshotReferencesOf(registry), input.params, e.textMatches) == Success(matched)
      && e.referencesSize(SnapshotReferencesOf(registry)) <= MAX_BASELINE_BYTES
      && counts == Counting.Counts(input.baseline, matched)
      && w == v.(latestModelRevision := Some(input.baseline.modelRevision),
                 latestModelFingerprint := Some(Fingerprint(input.baseline)), issued := w.issued)
  }

  ghost predicate SnapshotCommitted(
    e: Encoding, v: RuntimeState, input: CaptureInput, w: RuntimeState, s: StoredSnapshot, matched: seq<string>, second: Name,
    removed: seq<Retained>, classEvicted: nat, evicted: nat)
  {
    var references := SnapshotReferencesOf(w.references);
    && RegistryReconciled(v.references, input.baseline, w.references, v.issued, second)
    && MatchedTabs(input.baseline, references, input.params, e.textMatches) == Success(matched)
    && Built(s, input.baseline, references, matched, input.params, second, w.issued)
    && w.referenceBytes == e.referencesSize(references) <= MAX_BASELINE_BYTES
    && CursorsFit(input.params, matched)
    && Inserted(v.records, input.now, MAX_RETAINED_BYTES, w.referenceBytes, CandidateFor(e, s), w.records, removed, classEvicted, evicted)
    && w.connected == v.connected
    && w.latestModelRevision == Some(input.baseline.modelRevision)
    && w.latestModelFingerprint == Some(Fingerprint(input.baseline))
  }

  ghost predicate CaptureStep(e: Encoding, v: RuntimeState, input: CaptureInput, w: RuntimeState, result: Result<ToolOutput, SnapshotError>) {
    var rejection := CaptureRejection(e, v, input);
    match result
    case Failure(error) =>
      Untouched(v, w) && if rejection.Some? then error == rejection.value else DeclinedLate(e, v, input, error)
    case Success(CountsOutput(counts)) =>
      rejection.None? && input.params.detail == Some(SnapshotDetail.Counts) && CountsCommitted(e, v, input, w, counts)
    case Success(PageOutput(page)) =>
      && rejection.None? && input.params.detail != Some(SnapshotDetail.Counts)
      && exists s, matched, second, removed, classEvicted: nat, evicted: nat ::
           && SnapshotCommitted(e, v, input, w, s, matched, second, removed, classEvicted, evicted)
           && SnapshotOk(s, w.issued) && SnapshotFits(e, s, w.referenceBytes) && page == PageOf(s, 0)
  }

  /** The parts of a committed capture. */
  lemma CommittedParts(e: Encoding, v: RuntimeState, input: CaptureInput, w: RuntimeState, page: SnapshotPage)
    returns (s: StoredSnapshot, matched: seq<string>, second: Name, removed: seq<Retained>, classEvicted: nat, evicted: nat)
    requires CaptureStep(e, v, input, w, Success(PageOutput(page)))
    ensures SnapshotCommitted(e, v, input, w, s, matched, second, removed, classEvicted, evicted)
    ensures SnapshotOk(s, w.issued) && SnapshotFits(e, s, w.referenceBytes) && AllResolve(s) && 0 <= PageEnd(s, 0) && page == PageOf(s, 0)
  {
    hide CaptureRejection, SnapshotCommitted, SnapshotOk, PageOf, AllResolve;
    s, matched, second, removed, classEvicted, evicted :|
      && SnapshotCommitted(e, v, input, w, s, matched, second, removed, classEvicted, evicted)
      && SnapshotOk(s, w.issued) && SnapshotFits(e, s, w.referenceBytes) && page == PageOf(s, 0);
  }

  // ---------------------------------------------------------------- continue, as a step

  ghost predicate HasCursor(records: seq<Retained>, record: Retained, cursor: Name) {
    record in records && cursor in record.value.cursors
  }

  /** The page at an offset, or its refusal for size. */
  ghost predicate Rendered(e: Encoding, s: StoredSnapshot, offset: nat, result: Result<SnapshotPage, SnapshotError>) {
    && AllResolve(s) && offset <= PageEnd(s, offset)
    && result == if e.pageSize(PageOf(s, offset)) > MAX_RESULT_BYTES then Failure(ResultTooLarge) else Success(PageOf(s, offset))
  }

  /** A cursor is found exactly when some retained snapshot that is not due has it. */
  ghost predicate ContinueStep(e: Encoding, v: RuntimeState, now: nat, cursor: Name, w: RuntimeState, result: Result<SnapshotPage, SnapshotError>) {
    && w == v.(records := Split(v.records, now, false))
    && (if exists r :: HasCursor(w.records, r, cursor)
        then exists r :: HasCursor(w.records, r, cursor) && Rendered(e, r.value, r.value.cursors[cursor], result)
        else result == Failure(HandleExpired))
  }

  // ---------------------------------------------------------------- steps keep the invariant

  lemma SnapshotStaysOk(s: StoredSnapshot, issued: Name, later: Name)
    requires SnapshotOk(s, issued) && issued <= later
    ensures SnapshotOk(s, later)
  {
    hide StoredOk, AllResolve;
  }

  lemma RecordsStayOk(records: seq<Retained>, issued: Name, later: Name)
    requires RecordsOk(records, issued) && issued <= later
    ensures RecordsOk(records, later)
  {
    hide SnapshotOk, Apart;
    forall r | r in records ensures RecordOk(r, later) { SnapshotStaysOk(r.value, issued, later); }
  }

  lemma RegistryStaysIssued(registry: ReferenceRegistry, issued: Name, later: Name)
    requires RegistryIssued(registry, issued) && issued <= later
    ensures RegistryIssued(registry, later)
  {
    hide Issued;
    IssuedLater(registry.windows, issued, later);
    IssuedLater(registry.groups, issued, later);
    IssuedLater(registry.tabs, issued, later);
  }

  lemma UntouchedKeepsOk(e: Encoding, v: RuntimeState, w: RuntimeState)
    requires RuntimeOk(e, v) && v.issued <= w.issued
    requires w.connected == v.connected && w.references == v.references && w.records == v.records && w.referenceBytes == v.referenceBytes
    ensures RuntimeOk(e, w)
  {
    hide RecordsOk, RegistryIssued;
    RecordsStayOk(v.records, v.issued, w.issued);
    RegistryStaysIssued(v.references, v.issued, w.issued);
  }

  lemma {:induction false} OneClass(records: seq<Retained>)
    ensures OfClass(records, BrowserSnapshotClass) == records
  {
    if records != [] {
      OneClass(records[1..]);
      assert records[0].class_.BrowserSnapshotClass?;
      assert records == [records[0]] + records[1..];
    }
  }

  /** The new record is apart from every older one: its names are new. */
  lemma NewRecordApart(records: seq<Retained>, issued: Name, added: Retained, later: Name)
    requires RecordsOk(records, issued) && issued <= later && RecordOk(added, later)
    requires issued <= added.key && forall c :: c in added.value.cursors ==> issued <= c
    ensures forall r :: r in records ==> r.key != added.key && !(exists c :: c in r.value.cursors && c in added.value.cursors)
  {
    hide StoredOk, AllResolve, Apart;
    forall r | r in records ensures r.key != added.key && !(exists c :: c in r.value.cursors && c in added.value.cursors) {
      assert RecordOk(r, issued);
    }
  }

  lemma RecordsAfterInsert(before: seq<Retained>, issued: Name, added: Retained, later: Name, after: seq<Retained>)
    requires RecordsOk(before, issued) && issued <= later && RecordOk(added, later)
    requires issued <= added.key && forall c :: c in added.value.cursors ==> issued <= c
    requires forall r :: r in after ==> r in before || r == added
    ensures RecordsOk(after, later)
  {
    NewRecordApart(before, issued, added, later);
    RecordsStayOk(before, issued, later);
    hide RecordOk;
  }

  lemma InsertedAre(e: Encoding, v: RuntimeState, input: CaptureInput, w: RuntimeState, s: StoredSnapshot, matched: seq<string>,
    second: Name, removed: seq<Retained>, classEvicted: nat, evicted: nat)
    requires SnapshotCommitted(e, v, input, w, s, matched, second, removed, classEvicted, evicted)
    ensures w.records != [] && w.records[|w.records| - 1] == RecordOf(CandidateFor(e, s), input.now)
    ensures forall r :: r in w.records ==> (r in v.records && !IsDue(r, input.now)) || r == RecordOf(CandidateFor(e, s), input.now)
    ensures w.referenceBytes + TotalBytes(w.records) <= MAX_RETAINED_BYTES && |w.records| <= MAX_RETAINED_SNAPSHOTS
  {
    hide RegistryReconciled, MatchedTabs, Built, TotalBytes, OfClass, Split, DropOldest, LeastClassEviction, LeastAggregateEviction;
    InsertMeetsLimits(v.records, input.now, MAX_RETAINED_BYTES, w.referenceBytes, CandidateFor(e, s), w.records, removed, classEvicted, evicted);
    OneClass(w.records);
    var last := |w.records| - 1;
    assert w.records[last] == RecordOf(CandidateFor(e, s), input.now);
    hide SnapshotCommitted;
    forall r | r in w.records ensures r in v.records || r == w.records[last] ensures r != w.records[last] ==> !IsDue(r, input.now) {
      var i :| 0 <= i < |w.records| && w.records[i] == r;
      if i != last { DueFrom(w.records[i], input.now); }
    }
  }

  /** A committed capture keeps every part of the invariant. */
  lemma CommitKeepsOk(e: Encoding, v: RuntimeState, input: CaptureInput, w: RuntimeState, s: StoredSnapshot, matched: seq<string>,
    second: Name, removed: seq<Retained>, classEvicted: nat, evicted: nat)
    requires RuntimeOk(e, v) && CaptureRejection(e, v, input).None?
    requires SnapshotCommitted(e, v, input, w, s, matched, second, removed, classEvicted, evicted) && SnapshotOk(s, w.issued)
    ensures RuntimeOk(e, w)
  {
    hide *;
    CommittedNames(e, v, input, w, s, matched, second, removed, classEvicted, evicted);
    InsertedAre(e, v, input, w, s, matched, second, removed, classEvicted, evicted);
    RegistryOfCommit(e, v, input, w, s, matched, second, removed, classEvicted, evicted);
    BrowserOfCommit(e, v, input, w, s, matched, second, removed, classEvicted, evicted);
    OkParts(e, v);
    var added := RecordOf(CandidateFor(e, s), input.now);
    AddedOk(e, s, input.now, w.issued);
    RecordsAfterInsert(v.records, v.issued, added, w.issued, w.records);
    FromParts(e, w);
  }

  lemma OkParts(e: Encoding, v: RuntimeState)
    requires RuntimeOk(e, v)
    ensures RegistryIssued(v.references, v.issued) && RecordsOk(v.records, v.issued) && SameBrowser(v.connected, v.records)
  {
    hide RegistryIssued, RecordsOk, SameBrowser, TotalBytes;
  }

  lemma FromParts(e: Encoding, w: RuntimeState)
    requires RegistryIssued(w.references, w.issued) && RecordsOk(w.records, w.issued) && SameBrowser(w.connected, w.records)
    requires w.referenceBytes + TotalBytes(w.records) <= MAX_RETAINED_BYTES && |w.records| <= MAX_RETAINED_SNAPSHOTS
    requires w.referenceBytes == e.referencesSize(SnapshotReferencesOf(w.references))
    ensures RuntimeOk(e, w)
  {
    hide RegistryIssued, RecordsOk, SameBrowser, TotalBytes;
  }

  lemma AddedOk(e: Encoding, s: StoredSnapshot, now: nat, issued: Name)
    requires SnapshotOk(s, issued)
    ensures var added := RecordOf(CandidateFor(e, s), now);
      RecordOk(added, issued) && added.key == s.snapshotRef && added.value == s
  {
    hide SnapshotOk;
  }

  /** The names of a committed capture follow those of its references. */
  lemma CommittedNames(e: Encoding, v: RuntimeState, input: CaptureInput, w: RuntimeState, s: StoredSnapshot, matched: seq<string>,
    second: Name, removed: seq<Retained>, classEvicted: nat, evicted: nat)
    requires SnapshotCommitted(e, v, input, w, s, matched, second, removed, classEvicted, evicted) && SnapshotOk(s, w.issued)
    ensures RegistryReconciled(v.references, input.baseline, w.references, v.issued, second)
    ensures s.snapshotRef == second < w.issued && forall c :: c in s.cursors ==> second < c
    ensures s.baseline == input.baseline && w.connected == v.connected
    ensures w.referenceBytes == e.referencesSize(SnapshotReferencesOf(w.references))
  {
    hide RegistryReconciled, MatchedTabs, Inserted, CursorsFit, StoredOk, AllResolve;
  }

  lemma RegistryOfCommit(e: Encoding, v: RuntimeState, input: CaptureInput, w: RuntimeState, s: StoredSnapshot, matched: seq<string>,
    second: Name, removed: seq<Retained>, classEvicted: nat, evicted: nat)
    requires RuntimeOk(e, v) && CaptureRejection(e, v, input).None?
    requires SnapshotCommitted(e, v, input, w, s, matched, second, removed, classEvicted, evicted) && SnapshotOk(s, w.issued)
    ensures RegistryIssued(w.references, w.issued) && v.issued <= second && v.issued <= w.issued
  {
    CommittedNames(e, v, input, w, s, matched, second, removed, classEvicted, evicted);
    hide SnapshotCommitted, SnapshotOk, RegistryReconciled, RegistryIssued, RecordsOk, SameBrowser, TotalBytes, ValidBaseline, RevisionConflict;
    ReconciledCovers(v.references, input.baseline, w.references, v.issued, second);
    RegistryStaysIssued(w.references, second, w.issued);
  }

  lemma BrowserOfCommit(e: Encoding, v: RuntimeState, input: CaptureInput, w: RuntimeState, s: StoredSnapshot, matched: seq<string>,
    second: Name, removed: seq<Retained>, classEvicted: nat, evicted: nat)
    requires RuntimeOk(e, v) && CaptureRejection(e, v, input).None?
    requires SnapshotCommitted(e, v, input, w, s, matched, second, removed, classEvicted, evicted) && SnapshotOk(s, w.issued)
    ensures SameBrowser(w.connected, w.records)
  {
    CommittedNames(e, v, input, w, s, matched, second, removed, classEvicted, evicted);
    InsertedAre(e, v, input, w, s, matched, second, removed, classEvicted, evicted);
    hide SnapshotCommitted, SnapshotOk, RegistryReconciled, RegistryIssued, RecordsOk, TotalBytes, ValidBaseline, AnyKeyReused, RevisionConflict;
    assert v.connected.Some? && v.connected.value.browserInstanceId == input.baseline.browserInstanceId;
  }
}

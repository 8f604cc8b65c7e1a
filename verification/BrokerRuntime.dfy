/** The runtime's methods, each the body of one lock section. */
module BrokerRuntimes {
  import opened Wrappers
  import opened Baselines
  import opened Hierarchy
  import opened Snapshots
  import opened SnapshotPages
  import opened References
  import opened Retention
  import opened Runtime
  import Totals = SnapshotCounts
  import Lists = Counting
  import Renderer = SnapshotRenderer
  import Theorems = SnapshotTheorems

  // ---------------------------------------------------------------- what a capture builds

  /** Matched keys are those of selected tabs of the model, in strict order. */
  lemma MatchedInOrder(
    b: Baseline, references: SnapshotReferences, params: SnapshotParams, textMatches: (string, BaselineTab) -> bool,
    matched: seq<string>) returns (records: seq<BaselineTab>)
    requires ValidModel(b) && MatchedTabs(b, references, params, textMatches) == Success(matched)
    ensures matched == KeysOf(records) && StrictlyOrdered(b, records) && FromModel(b, records)
  {
    var window := if params.windowRef.None? then None else Some(ResolveRef(references.windows, params.windowRef.value).value);
    var group := if params.groupRef.None? then None else Some(ResolveRef(references.groups, params.groupRef.value).value);
    var tabs := if params.tabRefs.None? then None else Some(ResolveAll(references.tabs, params.tabRefs.value).value);
    var selected := (tab: BaselineTab) => Selects(params, window, group, tabs, textMatches, tab);
    records := MatchedRecords(b, selected);
    MatchedAreSelected(b, selected);
    assert matched == KeysOf(MatchedRecords(b, tab => Selects(params, window, group, tabs, textMatches, tab)));
  }

  lemma {:induction false} IntegersBetween(lo: int, hi: int, between: set<int>)
    requires lo <= hi && forall n :: n in between ==> lo <= n < hi
    ensures |between| <= hi - lo
    decreases hi - lo
  {
    if lo < hi {
      IntegersBetween(lo, hi - 1, between - {hi - 1});
      assert |between| <= |between - {hi - 1}| + 1;
    } else {
      assert between == {};
    }
  }

  lemma {:induction false} DistinctInRange(ids: seq<int>, lo: int, hi: int)
    requires lo <= hi && forall i :: 0 <= i < |ids| ==> lo <= ids[i] < hi
    requires forall i, j :: 0 <= i < j < |ids| ==> ids[i] != ids[j]
    ensures |ids| <= hi - lo
  {
    Totals.CountAll(ids, (id: int) => true);
    Lists.CountIsCardinality(ids, (id: int) => true);
    IntegersBetween(lo, hi, Lists.Chosen(ids, (id: int) => true));
  }

  lemma OrderedHaveIds(b: Baseline, records: seq<BaselineTab>)
    requires ValidModel(b) && StrictlyOrdered(b, records) && FromModel(b, records)
    ensures forall i, j :: 0 <= i < j < |records| ==> records[i].id != records[j].id
  {
    assert TabIdentities(b, b.tabs);
    hide ValidModel;
    forall i, j | 0 <= i < j < |records| ensures records[i].id != records[j].id {
      var m :| 0 <= m < |b.tabs| && b.tabs[m] == records[i];
      var n :| 0 <= n < |b.tabs| && b.tabs[n] == records[j];
      assert records[i] != records[j];
    }
  }

  /** Chrome ids are 32 bits wide, so a list of matched tabs can be counted in a usize. */
  lemma FewEnough(b: Baseline, records: seq<BaselineTab>)
    requires ValidModel(b) && StrictlyOrdered(b, records) && FromModel(b, records)
    ensures |records| <= 0x1_0000_0000
  {
    OrderedHaveIds(b, records);
    hide ValidModel, StrictlyOrdered, FromModel;
    DistinctInRange(seq(|records|, i requires 0 <= i < |records| => records[i].id as int), -0x8000_0000, 0x8000_0000);
  }

  lemma RecordsAre(s: StoredSnapshot, records: seq<BaselineTab>)
    requires ValidModel(s.baseline) && s.matchedKeys == KeysOf(records) && FromModel(s.baseline, records)
    ensures KeysFound(s) && Records(s) == records
  {
    forall i | 0 <= i < |records| ensures FindTab(s.baseline.tabs, s.matchedKeys[i]) == Some(records[i]) {
      LookupsInBounds(s.baseline, records[i]);
    }
    hide ValidModel, FindTab;
    assert KeysFound(s);
  }

  /** A snapshot built from a validated baseline, reconciled references and matched keys can be rendered. */
  lemma BuiltIsOk(
    s: StoredSnapshot, b: Baseline, references: SnapshotReferences, params: SnapshotParams,
    textMatches: (string, BaselineTab) -> bool, matched: seq<string>, first: Name)
    requires ValidModel(b) && ReferencesCover(references, b) && ParamsValid(params)
    requires MatchedTabs(b, references, params, textMatches) == Success(matched)
    requires s == StoredFor(b, references, matched, params, first).(cursors := s.cursors, cursorByOffset := s.cursorByOffset)
    ensures StoredOk(s) && AllResolve(s)
  {
    var records := MatchedInOrder(b, references, params, textMatches, matched);
    FewEnough(b, records);
    RecordsAre(s, records);
    assert 1 <= s.limit;
    hide ValidModel, ReferencesCover, MatchedTabs, StrictlyOrdered, FromModel, ParamsValid, KeysFound, Records;
    assert StoredOk(s);
    RecordsResolve(s);
  }

  // ---------------------------------------------------------------- steps of the runtime

  lemma InsertFits(records: seq<Retained>, fixedBytes: nat, candidate: RetentionCandidate<Name, StoredSnapshot, RetentionClass>)
    requires forall r :: r in records ==> r.key != candidate.key
    requires candidate.policy == RetentionPolicy(SNAPSHOT_TTL, MAX_RETAINED_SNAPSHOTS, MAX_RETAINED_BYTES)
    requires fixedBytes <= MAX_BASELINE_BYTES && TotalBytes(records) <= MAX_RETAINED_BYTES
    ensures InsertError(records, MAX_RETAINED_BYTES, fixedBytes, candidate)
      == if fixedBytes + candidate.retainedBytes > MAX_RETAINED_BYTES then Some(CapacityExceeded) else None
  {
    assert forall i :: 0 <= i < |records| ==> records[i] in records;
    hide TotalBytes;
  }

  lemma NothingHas(records: seq<Retained>, issued: Name, key: Name)
    requires RecordsOk(records, issued) && issued <= key
    ensures forall r :: r in records ==> r.key != key
  {
    hide StoredOk, AllResolve, Apart;
    forall r | r in records ensures r.key != key { assert RecordOk(r, issued); }
  }

  lemma CaptureKeepsOk(e: Encoding, v: RuntimeState, input: CaptureInput, w: RuntimeState, result: Result<ToolOutput, SnapshotError>)
    requires RuntimeOk(e, v) && CaptureStep(e, v, input, w, result)
    ensures RuntimeOk(e, w)
  {
    hide RuntimeOk, CaptureRejection, SnapshotCommitted, StoredOk, AllResolve, PageOf;
    if result.Failure? {
      UntouchedKeepsOk(e, v, w);
    } else if result.value.CountsOutput? {
      CountsKeepOk(e, v, input, w, result.value.counts);
    } else {
      var s, matched, second, removed, classEvicted, evicted := CommittedParts(e, v, input, w, result.value.page);
      CommitKeepsOk(e, v, input, w, s, matched, second, removed, classEvicted, evicted);
    }
  }

  lemma CountsKeepOk(e: Encoding, v: RuntimeState, input: CaptureInput, w: RuntimeState, counts: Totals.SnapshotCounts)
    requires RuntimeOk(e, v) && CountsCommitted(e, v, input, w, counts)
    ensures RuntimeOk(e, w)
  {
    var registry, matched :|
      && RegistryReconciled(v.references, input.baseline, registry, v.issued, w.issued)
      && MatchedTabs(input.baseline, SnapshotReferencesOf(registry), input.params, e.textMatches) == Success(matched)
      && w == v.(latestModelRevision := Some(input.baseline.modelRevision),
                 latestModelFingerprint := Some(Fingerprint(input.baseline)), issued := w.issued);
    assert RegistryIssued(v.references, v.issued);
    hide RuntimeOk, MatchedTabs;
    ReconciledCovers(v.references, input.baseline, registry, v.issued, w.issued);
    UntouchedKeepsOk(e, v, w);
  }

  lemma ScreenedModel(e: Encoding, v: RuntimeState, input: CaptureInput)
    requires Screening(e, v, input).None?
    ensures ValidModel(input.baseline) && v.connected.Some?
    ensures v.connected.value.browserInstanceId == input.baseline.browserInstanceId
  {
  }

  lemma RuntimeParts(e: Encoding, v: RuntimeState)
    requires RuntimeOk(e, v)
    ensures RegistryIssued(v.references, v.issued) && RecordsOk(v.records, v.issued)
    ensures v.referenceBytes + TotalBytes(v.records) <= MAX_RETAINED_BYTES && |v.records| <= MAX_RETAINED_SNAPSHOTS
  {
  }

  /** The only error of matching is an unknown reference. */
  lemma TargetUnknown(e: Encoding, input: CaptureInput, registry: ReferenceRegistry, second: Name)
    requires ValidModel(input.baseline) && ReferencesCover(SnapshotReferencesOf(registry), input.baseline)
    requires MatchedTabs(input.baseline, SnapshotReferencesOf(registry), input.params, e.textMatches).Failure?
    ensures MatchedTabs(input.baseline, SnapshotReferencesOf(registry), input.params, e.textMatches).error == NotFound
    ensures Declines(e, input, registry, second, NotFound)
  {
    MatchedMeansWanted(input.baseline, SnapshotReferencesOf(registry), input.params, e.textMatches);
    if input.params.tabRefs.Some? { ResolveAllError(SnapshotReferencesOf(registry).tabs, input.params.tabRefs.value); }
    hide ValidModel, ReferencesCover, SnapshotReferencesOf, TargetsKnown, ResolveAll;
  }

  lemma ReferencesTooLarge(e: Encoding, input: CaptureInput, registry: ReferenceRegistry, second: Name)
    requires ValidModel(input.baseline) && ReferencesCover(SnapshotReferencesOf(registry), input.baseline)
    requires MatchedTabs(input.baseline, SnapshotReferencesOf(registry), input.params, e.textMatches).Success?
    requires e.referencesSize(SnapshotReferencesOf(registry)) > MAX_BASELINE_BYTES
    ensures Declines(e, input, registry, second, ResultTooLarge)
  {
    MatchedMeansWanted(input.baseline, SnapshotReferencesOf(registry), input.params, e.textMatches);
    hide ValidModel, ReferencesCover, SnapshotReferencesOf, TargetsKnown, MatchedTabs;
  }

  lemma {:induction false} ResolveAllError(references: map<string, Name>, requested: seq<Name>)
    ensures ResolveAll(references, requested).Failure? ==> ResolveAll(references, requested).error == NotFound
  {
    if requested != [] { ResolveAllError(references, requested[1..]); }
  }

  lemma CaptureFailed(e: Encoding, v: RuntimeState, input: CaptureInput, w: RuntimeState, error: SnapshotError)
    requires RuntimeOk(e, v) && Untouched(v, w)
    requires CaptureRejection(e, v, input) == Some(error) || (CaptureRejection(e, v, input).None? && DeclinedLate(e, v, input, error))
    ensures RuntimeOk(e, w) && CaptureStep(e, v, input, w, Failure(error))
  {
    hide RuntimeOk, CaptureRejection, DeclinedLate;
    UntouchedKeepsOk(e, v, w);
  }

  /** A capture declined under the references it issued. */
  lemma CaptureDeclined(e: Encoding, v: RuntimeState, input: CaptureInput, w: RuntimeState, registry: ReferenceRegistry, second: Name, error: SnapshotError)
    requires RuntimeOk(e, v) && Untouched(v, w) && CaptureRejection(e, v, input).None?
    requires RegistryReconciled(v.references, input.baseline, registry, v.issued, second) && Declines(e, input, registry, second, error)
    ensures RuntimeOk(e, w) && CaptureStep(e, v, input, w, Failure(error))
  {
    hide RuntimeOk, CaptureRejection, RegistryReconciled, Declines;
    assert DeclinedLate(e, v, input, error);
    CaptureFailed(e, v, input, w, error);
  }

  /** What makes a page capture too large, with its targets known. */
  lemma DeclinesPage(e: Encoding, input: CaptureInput, registry: ReferenceRegistry, second: Name, matched: seq<string>)
    requires ValidModel(input.baseline) && ReferencesCover(SnapshotReferencesOf(registry), input.baseline)
    requires input.params.detail != Some(SnapshotDetail.Counts)
    requires MatchedTabs(input.baseline, SnapshotReferencesOf(registry), input.params, e.textMatches) == Success(matched)
    requires TooLarge(e, input, SnapshotReferencesOf(registry), matched, second)
    ensures Declines(e, input, registry, second, ResultTooLarge)
  {
    MatchedMeansWanted(input.baseline, SnapshotReferencesOf(registry), input.params, e.textMatches);
    hide ValidModel, ReferencesCover, MatchedTabs, SnapshotReferencesOf, TargetsKnown;
    assert PageTooLarge(e, input, SnapshotReferencesOf(registry), second);
  }

  ghost predicate TooLarge(e: Encoding, input: CaptureInput, references: SnapshotReferences, matched: seq<string>, second: Name) {
    || !CursorsFit(input.params, matched)
    || exists s, next ::
         && Built(s, input.baseline, references, matched, input.params, second, next) && StoredOk(s)
         && !SnapshotFits(e, s, e.referencesSize(references))
  }

  lemma CaptureCounted(e: Encoding, v: RuntimeState, input: CaptureInput, w: RuntimeState, registry: ReferenceRegistry, matched: seq<string>)
    requires RuntimeOk(e, v) && CaptureRejection(e, v, input).None? && input.params.detail == Some(SnapshotDetail.Counts)
    requires RegistryReconciled(v.references, input.baseline, registry, v.issued, w.issued)
    requires MatchedTabs(input.baseline, SnapshotReferencesOf(registry), input.params, e.textMatches) == Success(matched)
    requires e.referencesSize(SnapshotReferencesOf(registry)) <= MAX_BASELINE_BYTES
    requires w == v.(latestModelRevision := Some(input.baseline.modelRevision),
                     latestModelFingerprint := Some(Fingerprint(input.baseline)), issued := w.issued)
    ensures RuntimeOk(e, w) && CaptureStep(e, v, input, w, Success(CountsOutput(Totals.Counts(input.baseline, matched))))
  {
    hide RuntimeOk, CaptureRejection, RegistryReconciled, MatchedTabs;
    assert CountsCommitted(e, v, input, w, Totals.Counts(input.baseline, matched));
    CountsKeepOk(e, v, input, w, Totals.Counts(input.baseline, matched));
  }

  lemma CaptureRetained(e: Encoding, v: RuntimeState, input: CaptureInput, w: RuntimeState, s: StoredSnapshot, matched: seq<string>,
    second: Name, removed: seq<Retained>, classEvicted: nat, evicted: nat)
    requires RuntimeOk(e, v) && CaptureRejection(e, v, input).None? && input.params.detail != Some(SnapshotDetail.Counts)
    requires SnapshotCommitted(e, v, input, w, s, matched, second, removed, classEvicted, evicted)
    requires SnapshotOk(s, w.issued) && SnapshotFits(e, s, w.referenceBytes)
    ensures RuntimeOk(e, w) && CaptureStep(e, v, input, w, Success(PageOutput(PageOf(s, 0))))
  {
    hide RuntimeOk, CaptureRejection, SnapshotCommitted, StoredOk, AllResolve, PageOf;
    CommitKeepsOk(e, v, input, w, s, matched, second, removed, classEvicted, evicted);
  }

  lemma RejectionIs(e: Encoding, v: RuntimeState, input: CaptureInput)
    ensures Screening(e, v, input).Some? ==> CaptureRejection(e, v, input) == Screening(e, v, input)
    ensures Screening(e, v, input).None? ==>
      CaptureRejection(e, v, input) == if AnyKeyReused(v.references, input.baseline) then Some(InternalError) else None
  {
    hide Screening, AnyKeyReused;
  }

  class BrokerRuntime {
    const encoding: Encoding
    const retention: RetainedStore<Name, StoredSnapshot, RetentionClass>
    var connected: Option<ConnectedBrowser>
    var references: ReferenceRegistry
    var referenceBytes: nat
    var latestModelRevision: Option<nat>
    var latestModelFingerprint: Option<Baseline>
    var issued: Name

    ghost function State(): RuntimeState
      reads this, retention
    {
      RuntimeState(connected, references, retention.records, referenceBytes, latestModelRevision, latestModelFingerprint, issued)
    }

    ghost predicate Valid()
      reads this, retention
    {
      retention.Valid() && retention.aggregateMaxBytes == MAX_RETAINED_BYTES && RuntimeOk(encoding, State())
    }

    constructor (encoding: Encoding)
      ensures Valid() && fresh(retention) && State() == INITIAL_STATE && this.encoding == encoding
    {
      this.encoding := encoding;
      retention := new RetainedStore(MAX_RETAINED_BYTES);
      connected, references, referenceBytes := None, NO_REFERENCES, 0;
      latestModelRevision, latestModelFingerprint, issued := None, None, 0;
    }

    method ClearRetained()
      requires Valid()
      modifies this, retention
      ensures Valid()
      ensures State() == Cleared(old(State()))
    {
      references := NO_REFERENCES;
      retention.Clear();
      referenceBytes := 0;
      latestModelRevision, latestModelFingerprint := None, None;
    }

    method Connect(browser: ConnectedBrowser)
      requires Valid()
      modifies this, retention
      ensures Valid()
      ensures State() == Cleared(old(State())).(connected := Some(browser))
    {
      ClearRetained();
      connected := Some(browser);
    }

    method Clear()
      requires Valid()
      modifies this, retention
      ensures Valid()
      ensures State() == Cleared(old(State())).(connected := None)
    {
      ClearRetained();
      connected := None;
    }

    /** Capabilities only ever move to a higher revision, and nothing retained changes. */
    method ApplyCapabilities(changed: CapabilitiesChanged, implemented: bool) returns (result: Result<bool, string>)
      requires Valid()
      modifies this
      ensures Valid()
      ensures CapabilitiesStep(old(State()), changed, implemented, State(), result)
    {
      if connected.None? {
        return Failure("capabilities_changed arrived before ready");
      }
      var current := connected.value;
      if current.browserInstanceId != changed.browserInstanceId {
        return Failure("capabilities_changed browser identity did not match ready");
      }
      if changed.capabilityRevision <= current.capabilityRevision {
        return Success(false);
      }
      if !implemented {
        return Failure("capability without implementation");
      }
      connected := Some(current.(capabilityRevision := changed.capabilityRevision, capabilities := changed.capabilities));
      return Success(true);
    }

    /** The checks on a baseline before its keys are reconciled. */
    method Screen(input: CaptureInput) returns (rejection: Option<SnapshotError>)
      ensures rejection == Screening(encoding, State(), input)
    {
      hide ValidBaseline;
      var b := input.baseline;
      if encoding.baselineSize(b) > MAX_BASELINE_BYTES { return Some(ResultTooLarge); }
      var invalid := Validate(b, input.startInstanceId);
      if invalid.Some? { return Some(InternalError); }
      if connected.None? { return Some(CapabilityUnavailable); }
      var current := connected.value;
      if current.browserInstanceId != b.browserInstanceId { return Some(InternalError); }
      if !current.capabilities.browserSnapshot { return Some(CapabilityUnavailable); }
      if latestModelRevision.Some? && b.modelRevision < latestModelRevision.value { return Some(InternalError); }
      if latestModelRevision == Some(b.modelRevision) && latestModelFingerprint != Some(Fingerprint(b)) { return Some(InternalError); }
      if current.capabilities.frozenTabs != b.supportsFrozenTabs || current.capabilities.sharedTabGroups != b.supportsSharedTabGroups {
        return Some(InternalError);
      }
      if input.params.frozen.Some? && (!current.capabilities.frozenTabs || !b.supportsFrozenTabs) {
        return Some(CapabilityUnavailable);
      }
      return None;
    }

    method CommitCapture(input: CaptureInput) returns (result: Result<ToolOutput, SnapshotError>)
      requires Valid() && ParamsValid(input.params)
      modifies this, retention
      ensures Valid()
      ensures CaptureStep(encoding, old(State()), input, State(), result)
    {
      hide Screening, ValidBaseline, ValidModel, AnyKeyReused, RegistryReconciled, MatchedTabs, ParamsValid, RuntimeOk, StoredOk;
      hide CaptureStep, CaptureRejection, AllResolve, RegistryIssued, ReferencesCover, RecordsOk, Fingerprint, SnapshotReferencesOf;
      ghost var before := State();
      var rejection := Screen(input);
      RejectionIs(encoding, before, input);
      if rejection.Some? {
        CaptureFailed(encoding, before, input, State(), rejection.value);
        return Failure(rejection.value);
      }
      var b := input.baseline;
      ScreenedModel(encoding, before, input);
      var reconciled, second := Reconcile(references, b, issued);
      issued := second;
      if reconciled.Failure? {
        CaptureFailed(encoding, before, input, State(), reconciled.error);
        return Failure(reconciled.error);
      }
      var nextReferences := SnapshotReferencesOf(reconciled.value);
      RuntimeParts(encoding, before);
      ReconciledCovers(before.references, b, reconciled.value, before.issued, second);
      var matched := MatchTabs(b, nextReferences, input.params, encoding.textMatches);
      if matched.Failure? {
        TargetUnknown(encoding, input, reconciled.value, second);
        CaptureDeclined(encoding, before, input, State(), reconciled.value, second, NotFound);
        return Failure(matched.error);
      }
      var nextBytes := encoding.referencesSize(nextReferences);
      if nextBytes > MAX_BASELINE_BYTES {
        ReferencesTooLarge(encoding, input, reconciled.value, second);
        CaptureDeclined(encoding, before, input, State(), reconciled.value, second, ResultTooLarge);
        return Failure(ResultTooLarge);
      }
      if input.params.detail == Some(SnapshotDetail.Counts) {
        latestModelRevision, latestModelFingerprint := Some(b.modelRevision), Some(Fingerprint(b));
        CaptureCounted(encoding, before, input, State(), reconciled.value, matched.value);
        return Success(CountsOutput(Totals.Counts(b, matched.value)));
      }
      result := Retain(input, before, reconciled.value, matched.value, nextBytes, second);
    }

    /** The snapshot that holds a cursor, if any record does. */
    method SnapshotForCursor(cursor: Name) returns (found: Option<(Retained, nat)>)
      ensures found.None? ==> forall r :: r in retention.records ==> cursor !in r.value.cursors
      ensures found.Some? ==>
        HasCursor(retention.records, found.value.0, cursor) && found.value.0.value.cursors[cursor] == found.value.1
    {
      for i := 0 to |retention.records|
        invariant forall j :: 0 <= j < i ==> cursor !in retention.records[j].value.cursors
      {
        var record := retention.records[i];
        if cursor in record.value.cursors { return Some((record, record.value.cursors[cursor])); }
      }
      return None;
    }

    /** Of the ways to end in an expired handle only the first can be taken: retained snapshots are those of the
        connected browser, and the second lookup by handle finds what the cursor led to. */
    method ContinueSnapshot(now: nat, cursor: Name) returns (result: Result<SnapshotPage, SnapshotError>)
      requires Valid()
      modifies retention
      ensures Valid()
      ensures ContinueStep(encoding, old(State()), now, cursor, State(), result)
    {
      hide PartedByAge;
      ghost var before := State();
      var expired := retention.Expire(now);
      ghost var after := State();
      ExpiryKeepsOk(encoding, before, now);
      SplitTwice(before.records, now);
      hide RuntimeOk, StoredOk, AllResolve, PageOf, Split, SnapshotOk;
      var found := SnapshotForCursor(cursor);
      if found.None? {
        return Failure(HandleExpired);
      }
      var (record, offset) := found.value;
      FoundByHandle(encoding, after, record, record) by { KeyIsReference(encoding, after, record); }
      expired := retention.Expire(now);
      var snapshot := retention.Get(record.value.snapshotRef);
      assert snapshot == Some(record.value) by {
        forall other | other in retention.records && other.key == record.value.snapshotRef ensures other == record {
          FoundByHandle(encoding, after, record, other);
        }
        assert record in retention.records;
      }
      CursorOffset(snapshot.value, issued, cursor);
      result := Renderer.RenderPage(snapshot.value, offset, encoding.pageSize);
      ContinueFound(encoding, before, now, cursor, State(), record, result);
    }

    /** Names the cursors, renders the first page and retains the snapshot; only then is anything committed. */
    method Retain(
      input: CaptureInput, ghost before: RuntimeState, next: ReferenceRegistry, matched: seq<string>, nextBytes: nat, ghost second: Name)
      returns (result: Result<ToolOutput, SnapshotError>)
      requires retention.Valid() && retention.aggregateMaxBytes == MAX_RETAINED_BYTES
      requires RuntimeOk(encoding, before) && State() == before.(issued := second) && ParamsValid(input.params)
      requires input.params.detail != Some(SnapshotDetail.Counts) && CaptureRejection(encoding, before, input).None?
      requires ValidModel(input.baseline) && before.issued <= second && RegistryReconciled(before.references, input.baseline, next, before.issued, second)
      requires ReferencesCover(SnapshotReferencesOf(next), input.baseline)
      requires MatchedTabs(input.baseline, SnapshotReferencesOf(next), input.params, encoding.textMatches) == Success(matched)
      requires nextBytes == encoding.referencesSize(SnapshotReferencesOf(next)) <= MAX_BASELINE_BYTES
      modifies this, retention
      ensures Valid()
      ensures CaptureStep(encoding, before, input, State(), result)
    {
      hide ValidModel, CaptureRejection, RegistryReconciled, MatchedTabs, ParamsValid, RuntimeOk, StoredOk, AllResolve, RecordsOk, ReferencesCover;
      hide Built, Inserted, PageOf, Fingerprint, CaptureStep, SnapshotOk, SnapshotReferencesOf, InsertError, TotalBytes, CandidateFor;
      hide Declines, TooLarge, SnapshotFits, CursorsFit;
      RuntimeParts(encoding, before);
      var built, later := Build(encoding, input, SnapshotReferencesOf(next), matched, issued);
      issued := later;
      if built.Failure? {
        DeclinesPage(encoding, input, next, second, matched);
        CaptureDeclined(encoding, before, input, State(), next, second, ResultTooLarge);
        return Failure(built.error);
      }
      var stored, page := built.value.0, built.value.1;
      CandidateFits(encoding, before, nextBytes, stored);
      var outcome, classEvicted, evicted := retention.Insert(input.now, nextBytes, CandidateFor(encoding, stored));
      if outcome.Failure? {
        NoRoom(encoding, input, SnapshotReferencesOf(next), matched, second, stored, later);
        DeclinesPage(encoding, input, next, second, matched);
        CaptureDeclined(encoding, before, input, State(), next, second, ResultTooLarge);
        return Failure(match outcome.error
          case CapacityExceeded => ResultTooLarge
          case DuplicateKey => InternalError
          case ArithmeticOverflow => InternalError);
      }
      RoomEnough(encoding, stored, nextBytes);
      references, referenceBytes := next, nextBytes;
      latestModelRevision, latestModelFingerprint := Some(input.baseline.modelRevision), Some(Fingerprint(input.baseline));
      CaptureRetained(encoding, before, input, State(), stored, matched, second, outcome.value, classEvicted, evicted);
      return Success(PageOutput(page));
    }
  }

  lemma {:induction false} SplitTwice(records: seq<Retained>, now: nat)
    ensures Split(Split(records, now, false), now, false) == Split(records, now, false)
  {
    if records != [] {
      SplitTwice(records[1..], now);
      if !IsDue(records[0], now) { SplitCons(records[0], Split(records[1..], now, false), now); }
    }
  }

  lemma ExpiryKeepsOk(e: Encoding, v: RuntimeState, now: nat)
    requires RuntimeOk(e, v)
    ensures RuntimeOk(e, v.(records := Split(v.records, now, false)))
  {
    SplitShrinks(v.records, now);
    FewerRecordsOk(v.records, v.issued, now);
    FewerSameBrowser(v.connected, v.records, now);
    hide RecordsOk, RegistryIssued, SameBrowser, Split, TotalBytes, SnapshotReferencesOf;
  }

  lemma FewerSameBrowser(connected: Option<ConnectedBrowser>, records: seq<Retained>, now: nat)
    requires SameBrowser(connected, records)
    ensures SameBrowser(connected, Split(records, now, false))
  {
    SplitSelects(records, now, false);
  }

  lemma FewerRecordsOk(records: seq<Retained>, issued: Name, now: nat)
    requires RecordsOk(records, issued)
    ensures RecordsOk(Split(records, now, false), issued)
  {
    SplitSelects(records, now, false);
    hide SnapshotOk;
  }

  /** A record found by its cursor leads back to itself by its key. */
  lemma FoundByHandle(e: Encoding, v: RuntimeState, record: Retained, other: Retained)
    requires RuntimeOk(e, v) && record in v.records && other in v.records && other.key == record.value.snapshotRef
    ensures other == record && v.connected.Some?
    ensures record.value.baseline.browserInstanceId == v.connected.value.browserInstanceId
    ensures SnapshotOk(record.value, v.issued) && record.key == record.value.snapshotRef
  {
    assert RecordOk(record, v.issued) && RecordOk(other, v.issued);
    assert Apart(record, other);
    hide SnapshotOk, RegistryIssued, TotalBytes;
  }

  lemma KeyIsReference(e: Encoding, v: RuntimeState, record: Retained)
    requires RuntimeOk(e, v) && record in v.records
    ensures record.key == record.value.snapshotRef
  {
    assert RecordOk(record, v.issued);
  }

  lemma CursorOffset(s: StoredSnapshot, issued: Name, cursor: Name)
    requires SnapshotOk(s, issued) && cursor in s.cursors
    ensures StoredOk(s) && AllResolve(s) && s.cursors[cursor] <= |s.matchedKeys|
  {
    var first, next :| Renderer.CursorsOk(s, first, next);
    hide StoredOk, AllResolve;
  }

  lemma ContinueFound(e: Encoding, v: RuntimeState, now: nat, cursor: Name, w: RuntimeState, record: Retained, result: Result<SnapshotPage, SnapshotError>)
    requires w == v.(records := Split(v.records, now, false))
    requires HasCursor(w.records, record, cursor) && Rendered(e, record.value, record.value.cursors[cursor], result)
    ensures ContinueStep(e, v, now, cursor, w, result)
  {
    hide Rendered, Split;
  }

  /** A retained candidate under a new name can only be turned away for its size. */
  lemma CandidateFits(e: Encoding, v: RuntimeState, nextBytes: nat, s: StoredSnapshot)
    requires RuntimeOk(e, v) && v.issued <= s.snapshotRef && nextBytes <= MAX_BASELINE_BYTES
    ensures InsertError(v.records, MAX_RETAINED_BYTES, nextBytes, CandidateFor(e, s))
      == if nextBytes + e.storedSize(s) > MAX_RETAINED_BYTES then Some(CapacityExceeded) else None
  {
    RuntimeParts(e, v);
    hide RecordsOk, RuntimeOk, TotalBytes, InsertError;
    NothingHas(v.records, v.issued, s.snapshotRef);
    InsertFits(v.records, nextBytes, CandidateFor(e, s));
  }

  /** Builds the snapshot, prepares its cursors and renders its first page. */
  method Build(e: Encoding, input: CaptureInput, references: SnapshotReferences, matched: seq<string>, first: Name)
    returns (built: Result<(StoredSnapshot, SnapshotPage), SnapshotError>, next: Name)
    requires ValidModel(input.baseline) && ReferencesCover(references, input.baseline) && ParamsValid(input.params)
    requires MatchedTabs(input.baseline, references, input.params, e.textMatches) == Success(matched)
    ensures first < next
    ensures built.Failure? ==> built.error == ResultTooLarge && TooLarge(e, input, references, matched, first)
    ensures built.Success? ==>
      var s := built.value.0;
      && Built(s, input.baseline, references, matched, input.params, first, next) && CursorsFit(input.params, matched)
      && SnapshotOk(s, next) && StoredOk(s) && AllResolve(s) && 0 <= PageEnd(s, 0) && built.value.1 == PageOf(s, 0)
      && e.pageSize(built.value.1) <= MAX_RESULT_BYTES
      && s.snapshotRef == first
  {
    var b, stored := input.baseline, StoredFor(input.baseline, references, matched, input.params, first);
    BuiltIsOk(stored, b, references, input.params, e.textMatches, matched, first);
    hide ValidModel, MatchedTabs, ParamsValid, StoredOk, AllResolve, ReferencesCover, PageOf, Renderer.CursorsOk, SnapshotOk;
    LimitPositive(stored);
    next := first + 1;
    var cursorCount := Renderer.CursorCount(|stored.matchedKeys|, stored.limit);
    if cursorCount > MAX_CURSOR_RECORDS {
      assert !CursorsFit(input.params, matched);
      return Failure(ResultTooLarge), next;
    }
    stored, next := Renderer.PrepareCursors(stored, next);
    BuiltIsOk(stored, b, references, input.params, e.textMatches, matched, first);
    CursorNames(stored, first, next);
    var page := Renderer.RenderPage(stored, 0, e.pageSize);
    if page.Failure? {
      PageRefused(e, input, references, matched, first, stored, next);
      return Failure(page.error), next;
    }
    return Success((stored, page.value)), next;
  }

  lemma PageRefused(e: Encoding, input: CaptureInput, references: SnapshotReferences, matched: seq<string>, first: Name, s: StoredSnapshot, next: Name)
    requires Built(s, input.baseline, references, matched, input.params, first, next) && StoredOk(s) && AllResolve(s) && 0 <= PageEnd(s, 0)
    requires e.pageSize(PageOf(s, 0)) > MAX_RESULT_BYTES
    ensures TooLarge(e, input, references, matched, first)
  {
    hide Built, StoredOk, AllResolve, PageOf, CursorsFit;
    assert !SnapshotFits(e, s, e.referencesSize(references));
  }

  lemma NoRoom(e: Encoding, input: CaptureInput, references: SnapshotReferences, matched: seq<string>, first: Name, s: StoredSnapshot, next: Name)
    requires Built(s, input.baseline, references, matched, input.params, first, next) && StoredOk(s)
    requires e.referencesSize(references) + e.storedSize(s) > MAX_RETAINED_BYTES
    ensures TooLarge(e, input, references, matched, first)
  {
    hide Built, StoredOk, AllResolve, PageOf, CursorsFit;
    assert !SnapshotFits(e, s, e.referencesSize(references));
  }

  lemma RoomEnough(e: Encoding, s: StoredSnapshot, referenceBytes: nat)
    requires AllResolve(s) && 0 <= PageEnd(s, 0) && e.pageSize(PageOf(s, 0)) <= MAX_RESULT_BYTES
    requires referenceBytes + e.storedSize(s) <= MAX_RETAINED_BYTES
    ensures SnapshotFits(e, s, referenceBytes)
  {
    hide AllResolve, PageOf;
  }

  lemma LimitPositive(s: StoredSnapshot)
    requires StoredOk(s)
    ensures 1 <= s.limit && |s.matchedKeys| <= SnapshotPages.USIZE_MAX
  {
  }

  /** Prepared cursors are retained under the names just issued. */
  lemma CursorNames(s: StoredSnapshot, first: Name, next: Name)
    requires StoredOk(s) && AllResolve(s) && s.snapshotRef == first && Renderer.CursorsOk(s, first + 1, next)
    ensures first < next && SnapshotOk(s, next)
  {
    hide StoredOk, AllResolve;
    assert Theorems.CursorsRetained(s);
  }
}

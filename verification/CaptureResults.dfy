/** What a successful capture answers, how long its cursors live, and what a connection leaves to the next. */
module CaptureResults {
  import opened Wrappers
  import opened Baselines
  import opened Hierarchy
  import opened Snapshots
  import opened SnapshotPages
  import Counts = SnapshotCounts
  import Renderer = SnapshotRenderer
  import Theorems = SnapshotTheorems
  import opened References
  import opened Retention
  import opened Runtime
  import opened RuntimeTheorems
  import opened CaptureTheorems

  // ---------------------------------------------------------------- the first page

  /** The snapshot answers the request: the tabs wanted, under the references of the broker, in the detail and
      with the limit asked for, or in compact detail and a hundred to a page. */
  ghost predicate AnswersRequest(e: Encoding, input: CaptureInput, references: SnapshotReferences, s: StoredSnapshot) {
    && s.baseline == input.baseline && s.references == references
    && s.detail == (if input.params.detail.Some? then input.params.detail.value else Compact)
    && s.limit == (if input.params.limit.Some? then input.params.limit.value else 100)
    && forall t :: t in input.baseline.tabs ==> (t.key in s.matchedKeys <==> Wanted(references, input.params, e.textMatches, t))
  }

  /** A page capture answers its request with the first page of the snapshot it retains, and remembers the
      snapshot as taken at that moment. */
  lemma CapturedPage(e: Encoding, v: RuntimeState, input: CaptureInput, w: RuntimeState, page: SnapshotPage) returns (record: Retained)
    requires RuntimeOk(e, v) && CaptureStep(e, v, input, w, Success(PageOutput(page)))
    ensures record in w.records && record.createdAt == input.now && record.retainedBytes == e.storedSize(record.value)
    ensures var s := record.value;
      && StoredOk(s) && AllResolve(s) && 0 <= PageEnd(s, 0) && Theorems.CursorsRetained(s)
      && AnswersRequest(e, input, SnapshotReferencesOf(w.references), s)
      && page == PageOf(s, 0)
      && page.totalMatched == |s.matchedKeys|
      && |Flatten(page.windows)| == (if |s.matchedKeys| <= s.limit then |s.matchedKeys| else s.limit)
      && (page.nextCursor.Some? <==> |s.matchedKeys| > s.limit)
      && (page.nextCursor.Some? ==> page.nextCursor.value in s.cursors && s.cursors[page.nextCursor.value] == s.limit)
    ensures page.capturedAt == input.baseline.capturedAt
    ensures WithinLimits(e, w, record.value, page)
  {
    var s, matched, second, removed, classEvicted, evicted := CommittedParts(e, v, input, w, page);
    InsertedAre(e, v, input, w, s, matched, second, removed, classEvicted, evicted);
    record := RecordOf(CandidateFor(e, s), input.now);
    RecordOfSnapshot(e, s, input.now);
    AnswersIt(e, v, input, w, s, matched, second, removed, classEvicted, evicted);
    FitsLimits(e, v, input, w, s, matched, second, removed, classEvicted, evicted, page);
    hide CaptureStep, WithinLimits, SnapshotCommitted, AnswersRequest, AllResolve, PageOf, SnapshotReferencesOf, StoredOk, RuntimeOk, CandidateFor, RecordOf;
    SnapshotOkParts(s, w.issued);
    FirstPageOf(s);
    PageTime(s);
  }

  /** References within 32 MiB, together with the snapshot too, at most 10 000 cursors and a page within 4 MiB. */
  ghost predicate WithinLimits(e: Encoding, w: RuntimeState, s: StoredSnapshot, page: SnapshotPage) {
    && e.referencesSize(SnapshotReferencesOf(w.references)) <= 33_554_432
    && e.referencesSize(SnapshotReferencesOf(w.references)) + e.storedSize(s) <= 33_554_432
    && |s.matchedKeys| <= 10_001 * s.limit && e.pageSize(page) <= 4_194_304
  }

  lemma FitsLimits(e: Encoding, v: RuntimeState, input: CaptureInput, w: RuntimeState, s: StoredSnapshot, matched: seq<string>,
    second: Name, removed: seq<Retained>, classEvicted: nat, evicted: nat, page: SnapshotPage)
    requires SnapshotCommitted(e, v, input, w, s, matched, second, removed, classEvicted, evicted)
    requires SnapshotFits(e, s, w.referenceBytes) && page == PageOf(s, 0)
    ensures WithinLimits(e, w, s, page)
  {
    hide Inserted, RegistryReconciled, MatchedTabs, Renderer.CursorsOk, PageOf, AllResolve, SnapshotReferencesOf;
    CountWithin(|matched|, LimitOf(input.params));
  }

  lemma CountWithin(length: nat, limit: nat)
    requires limit >= 1 && Renderer.CursorCount(length, limit) <= 10_000
    ensures length <= 10_001 * limit
  {
    var last := if length == 0 then 0 else length - 1;
    assert last == (last / limit) * limit + last % limit;
    TimesLimit(last / limit, 10_000, limit);
    assert 10_001 * limit == 10_000 * limit + limit;
  }

  lemma PageTime(s: StoredSnapshot)
    requires AllResolve(s) && 0 <= PageEnd(s, 0)
    ensures PageOf(s, 0).capturedAt == s.baseline.capturedAt
  {
  }

  lemma RecordOfSnapshot(e: Encoding, s: StoredSnapshot, now: nat)
    ensures var record := RecordOf(CandidateFor(e, s), now);
      record.value == s && record.createdAt == now && record.retainedBytes == e.storedSize(s)
  {
  }

  lemma SnapshotOkParts(s: StoredSnapshot, issued: Name)
    requires SnapshotOk(s, issued)
    ensures StoredOk(s) && AllResolve(s) && Theorems.CursorsRetained(s)
  {
    hide StoredOk, AllResolve, Theorems.CursorsRetained;
  }

  lemma AnswersIt(e: Encoding, v: RuntimeState, input: CaptureInput, w: RuntimeState, s: StoredSnapshot, matched: seq<string>,
    second: Name, removed: seq<Retained>, classEvicted: nat, evicted: nat)
    requires RuntimeOk(e, v) && SnapshotCommitted(e, v, input, w, s, matched, second, removed, classEvicted, evicted) && SnapshotOk(s, w.issued)
    ensures AnswersRequest(e, input, SnapshotReferencesOf(w.references), s)
  {
    hide Inserted, CursorsFit, RegistryReconciled, MatchedTabs, Renderer.CursorsOk, RuntimeOk;
    CommittedNames(e, v, input, w, s, matched, second, removed, classEvicted, evicted);
    SnapshotOkParts(s, w.issued);
    Theorems.StoredParts(s);
    assert s.references == SnapshotReferencesOf(w.references) && s.matchedKeys == matched;
    MatchedMeansWanted(input.baseline, s.references, input.params, e.textMatches);
    hide Wanted, StoredOk, SnapshotOk, ValidModel, ReferencesCover, AllResolve;
  }

  lemma FirstPageOf(s: StoredSnapshot)
    requires StoredOk(s) && AllResolve(s) && Theorems.CursorsRetained(s) && 0 <= PageEnd(s, 0)
    ensures PageOf(s, 0).totalMatched == |s.matchedKeys|
    ensures |Flatten(PageOf(s, 0).windows)| == (if |s.matchedKeys| <= s.limit then |s.matchedKeys| else s.limit)
    ensures PageOf(s, 0).nextCursor.Some? <==> |s.matchedKeys| > s.limit
    ensures PageOf(s, 0).nextCursor.Some? ==>
      PageOf(s, 0).nextCursor.value in s.cursors && s.cursors[PageOf(s, 0).nextCursor.value] == s.limit
  {
    hide *;
    Theorems.StoredParts(s);
    Theorems.PageTells(s, 0);
    Theorems.TotalIs(s, PageOf(s, 0));
    ZeroStarts(s.limit);
    Theorems.NextPage(s, 0);
    FirstEnd(s);
    NextCursorOf(s);
  }

  lemma ZeroStarts(limit: nat)
    requires limit >= 1
    ensures Renderer.PageStart(0, limit)
  {
  }

  lemma FirstEnd(s: StoredSnapshot)
    requires |s.matchedKeys| <= SnapshotPages.USIZE_MAX
    ensures PageEnd(s, 0) == if |s.matchedKeys| <= s.limit then |s.matchedKeys| else s.limit
  {
  }

  lemma NextCursorOf(s: StoredSnapshot)
    requires AllResolve(s) && 0 <= PageEnd(s, 0)
    ensures PageOf(s, 0).nextCursor == NextCursor(s, 0)
  {
    hide Regroup, PageEntries, NextCursor;
  }

  /** What a captured model shows of frozen tabs and shared groups is what was negotiated with the browser it is of. */
  lemma FeaturesAsNegotiated(e: Encoding, v: RuntimeState, input: CaptureInput, w: RuntimeState, output: ToolOutput)
    requires CaptureStep(e, v, input, w, Success(output))
    ensures v.connected.Some? && v.connected.value.browserInstanceId == input.baseline.browserInstanceId
    ensures var c, b := v.connected.value.capabilities, input.baseline;
      && b.modelRevision >= 1 && c.browserSnapshot
      && (forall t :: t in b.tabs ==> (t.frozen.Some? <==> c.frozenTabs))
      && (forall g :: g in b.groups ==> (g.shared.Some? <==> c.sharedTabGroups))
      && (input.params.frozen.Some? ==> c.frozenTabs)
  {
    SuccessMeansAdmitted(e, v, input, w, Success(output));
    NegotiatedIfAdmitted(e, v, input);
    hide CaptureStep, CaptureRejection;
  }

  lemma NegotiatedIfAdmitted(e: Encoding, v: RuntimeState, input: CaptureInput)
    requires CaptureRejection(e, v, input).None?
    ensures v.connected.Some? && v.connected.value.browserInstanceId == input.baseline.browserInstanceId
    ensures var c, b := v.connected.value.capabilities, input.baseline;
      && b.modelRevision >= 1 && c.browserSnapshot
      && (forall t :: t in b.tabs ==> (t.frozen.Some? <==> c.frozenTabs))
      && (forall g :: g in b.groups ==> (g.shared.Some? <==> c.sharedTabGroups))
      && (input.params.frozen.Some? ==> c.frozenTabs)
  {
    hide AnyKeyReused, RevisionConflict, WindowIdentities, GroupIdentities, TabIdentities, PositionsDistinct, IndexesExact, GroupsContiguous;
    hide KnownWindow, KnownGroup, KnownOpener, IsBlank;
  }

  /** A counts capture answers with the counts of exactly the tabs wanted, under references it does not keep. */
  lemma CapturedCounts(e: Encoding, v: RuntimeState, input: CaptureInput, w: RuntimeState, counts: Counts.SnapshotCounts)
    requires RuntimeOk(e, v) && CaptureStep(e, v, input, w, Success(CountsOutput(counts)))
    ensures w.references == v.references && w.records == v.records && w.referenceBytes == v.referenceBytes && w.connected == v.connected
    ensures exists registry: ReferenceRegistry, matched: seq<string> ::
      && counts == Counts.Counts(input.baseline, matched)
      && e.referencesSize(SnapshotReferencesOf(registry)) <= 33_554_432
      && forall t :: t in input.baseline.tabs ==>
           (t.key in matched <==> Wanted(SnapshotReferencesOf(registry), input.params, e.textMatches, t))
  {
    hide *;
    CountsAdmitted(e, v, input, w, counts);
    CountsKeepRest(e, v, input, w, counts);
    var registry, matched := CountsParts(e, v, input, w, counts);
    OkParts(e, v);
    ReconciledCovers(v.references, input.baseline, registry, v.issued, w.issued);
    MatchedMeansWanted(input.baseline, SnapshotReferencesOf(registry), input.params, e.textMatches);
  }

  lemma CountsKeepRest(e: Encoding, v: RuntimeState, input: CaptureInput, w: RuntimeState, counts: Counts.SnapshotCounts)
    requires CaptureStep(e, v, input, w, Success(CountsOutput(counts)))
    ensures w.references == v.references && w.records == v.records && w.referenceBytes == v.referenceBytes && w.connected == v.connected
  {
    hide CaptureRejection, MatchedTabs, RegistryReconciled, Counts.Counts;
  }

  lemma CountsParts(e: Encoding, v: RuntimeState, input: CaptureInput, w: RuntimeState, counts: Counts.SnapshotCounts)
    returns (registry: ReferenceRegistry, matched: seq<string>)
    requires CaptureStep(e, v, input, w, Success(CountsOutput(counts)))
    ensures RegistryReconciled(v.references, input.baseline, registry, v.issued, w.issued)
    ensures MatchedTabs(input.baseline, SnapshotReferencesOf(registry), input.params, e.textMatches) == Success(matched)
    ensures counts == Counts.Counts(input.baseline, matched) && e.referencesSize(SnapshotReferencesOf(registry)) <= 33_554_432
  {
    hide CaptureRejection, MatchedTabs, RegistryReconciled, Counts.Counts, SnapshotReferencesOf;
    registry, matched :|
      && RegistryReconciled(v.references, input.baseline, registry, v.issued, w.issued)
      && MatchedTabs(input.baseline, SnapshotReferencesOf(registry), input.params, e.textMatches) == Success(matched)
      && e.referencesSize(SnapshotReferencesOf(registry)) <= MAX_BASELINE_BYTES
      && counts == Counts.Counts(input.baseline, matched);
  }

  lemma CountsAdmitted(e: Encoding, v: RuntimeState, input: CaptureInput, w: RuntimeState, counts: Counts.SnapshotCounts)
    requires CaptureStep(e, v, input, w, Success(CountsOutput(counts)))
    ensures ValidModel(input.baseline)
  {
    hide MatchedTabs, RegistryReconciled, Counts.Counts, ValidModel, AnyKeyReused, RevisionConflict;
  }

  // ---------------------------------------------------------------- what is left alone

  /** Connection, references and latest capture are as before, and only snapshots that have come due are gone. */
  ghost predicate OnlyExpired(v: RuntimeState, w: RuntimeState, now: nat) {
    && w == v.(records := w.records)
    && forall r :: r in w.records <==> r in v.records && r.ttl > 0 && now < r.createdAt + r.ttl
  }

  /** Only a page capture that succeeds, a connect and a clear touch references and add snapshots: a capture that
      fails changes nothing, counts change revision and fingerprint alone, a change of capabilities only these, and
      reading a cursor only lets expired snapshots go. */
  lemma WhatEventsLeaveAlone(e: Encoding, v: RuntimeState, event: RuntimeEvent, w: RuntimeState)
    requires Next(e, v, event, w)
    ensures event.Capture? && event.output.Failure? ==> w == v.(issued := w.issued)
    ensures event.Capture? && event.output.Success? && event.output.value.CountsOutput? ==>
      w == v.(issued := w.issued, latestModelRevision := w.latestModelRevision, latestModelFingerprint := w.latestModelFingerprint)
    ensures event.ApplyCapabilities? ==> w == v.(connected := w.connected)
    ensures event.Continue? ==> OnlyExpired(v, w, event.now)
    ensures event.Connect? ==> w == RuntimeState(Some(event.browser), NO_REFERENCES, [], 0, None, None, v.issued)
    ensures event.Clear? ==> w == RuntimeState(None, NO_REFERENCES, [], 0, None, None, v.issued)
  {
    hide CaptureStep, ContinueStep;
    match event
    case Capture(input, output) =>
      if output.Failure? { FailureLeaves(e, v, input, w, output.error); }
      else if output.value.CountsOutput? { CountsLeave(e, v, input, w, output.value.counts); }
    case Continue(now, cursor, page) => ReadLeaves(e, v, now, cursor, w, page);
    case _ =>
  }

  lemma FailureLeaves(e: Encoding, v: RuntimeState, input: CaptureInput, w: RuntimeState, error: SnapshotError)
    requires CaptureStep(e, v, input, w, Failure(error))
    ensures w == v.(issued := w.issued)
  {
    hide CaptureRejection, DeclinedLate;
  }

  lemma CountsLeave(e: Encoding, v: RuntimeState, input: CaptureInput, w: RuntimeState, counts: Counts.SnapshotCounts)
    requires CaptureStep(e, v, input, w, Success(CountsOutput(counts)))
    ensures w == v.(issued := w.issued, latestModelRevision := w.latestModelRevision, latestModelFingerprint := w.latestModelFingerprint)
  {
    hide CaptureRejection, MatchedTabs, RegistryReconciled, Counts.Counts, Fingerprint;
  }

  lemma ReadLeaves(e: Encoding, v: RuntimeState, now: nat, cursor: Name, w: RuntimeState, page: Result<SnapshotPage, SnapshotError>)
    requires ContinueStep(e, v, now, cursor, w, page)
    ensures OnlyExpired(v, w, now)
  {
    SplitSelects(v.records, now, false);
    hide Split, Rendered, HasCursor, IsDue;
    forall r: Retained ensures IsDue(r, now) <==> r.ttl == 0 || now >= r.createdAt + r.ttl { DueFrom(r, now); }
  }

  // ---------------------------------------------------------------- cursors

  /** The next cursor of a captured page gives its page at every time within 120 seconds of the capture, while its
      snapshot is retained, and is expired from then on. */
  lemma CapturedCursorLives(e: Encoding, states: seq<RuntimeState>, events: seq<RuntimeEvent>, i: nat, j: nat)
    requires IsHistory(e, states, events) && i < j < |events|
    requires events[i].Capture? && events[i].output.Success? && events[i].output.value.PageOutput?
    requires events[i].output.value.page.nextCursor.Some?
    requires events[j].Continue? && Some(events[j].cursor) == events[i].output.value.page.nextCursor
    ensures (exists r :: HasCursor(states[j].records, r, events[j].cursor)) ==>
      (events[j].page == Failure(HandleExpired) <==> events[j].now >= events[i].input.now + 120_000_000_000)
    ensures !(exists r :: HasCursor(states[j].records, r, events[j].cursor)) ==> events[j].page == Failure(HandleExpired)
  {
    hide *;
    HistoryShape(e, states, events);
    var cursor := events[j].cursor;
    HistoryStaysBounded(e, states, events, i);
    CaptureOf(e, states, events, i);
    var record := CapturedPage(e, states[i], events[i].input, states[i + 1], events[i].output.value.page);
    Holding(states[i + 1].records, record, cursor);
    CursorLifetime(e, states, events, i + 1, j, record);
    if r :| HasCursor(states[j].records, r, cursor) {
      HolderIsForever(e, states, events, i + 1, j, record, r, cursor);
      HolderIsIn(states[j].records, r, cursor);
    } else if record in states[j].records {
      Holding(states[j].records, record, cursor);
    }
  }

  lemma CaptureOf(e: Encoding, states: seq<RuntimeState>, events: seq<RuntimeEvent>, i: nat)
    requires IsHistory(e, states, events) && i < |events| && events[i].Capture?
    ensures CaptureStep(e, states[i], events[i].input, states[i + 1], events[i].output)
  {
    assert Next(e, states[i], events[i], states[i + 1]);
    hide CaptureStep;
  }

  lemma Holding(records: seq<Retained>, record: Retained, cursor: Name)
    requires record in records && cursor in record.value.cursors
    ensures HasCursor(records, record, cursor)
  {
  }

  // ---------------------------------------------------------------- connections

  /** Nothing of a connection outlives it: after a connect or clear no earlier reference is known and every
      earlier cursor is expired. */
  lemma ConnectionsAreApart(e: Encoding, states: seq<RuntimeState>, events: seq<RuntimeEvent>, i: nat, k: nat, j: nat)
    requires IsHistory(e, states, events) && i <= k < j < |states| && Reconnects(events[k])
    ensures states[k + 1].references == NO_REFERENCES && states[k + 1].records == [] && states[k + 1].referenceBytes == 0
    ensures forall kind, reference :: Denotes(states[i], kind, reference) ==> !Denotes(states[j], kind, reference)
    ensures forall r, cursor :: HasCursor(states[i].records, r, cursor) && j < |events| && events[j].Continue? && events[j].cursor == cursor ==>
      events[j].page == Failure(HandleExpired)
  {
    assert Next(e, states[k], events[k], states[k + 1]);
    forall kind, reference | Denotes(states[i], kind, reference) ensures !Denotes(states[j], kind, reference) {
      DroppedNeverReissued(e, states, events, i, k + 1, j, kind, reference);
    }
    hide IsHistory, Denotes;
    forall r, cursor | HasCursor(states[i].records, r, cursor) && j < |events| && events[j].Continue? && events[j].cursor == cursor
      ensures events[j].page == Failure(HandleExpired)
    {
      CursorLifetime(e, states, events, i, j, r);
      GoneForGood(e, states, events, i, k, j, r, cursor);
    }
  }

  /** A record is not among those kept after the connection ended, and nothing that comes later has its cursors. */
  lemma GoneForGood(e: Encoding, states: seq<RuntimeState>, events: seq<RuntimeEvent>, i: nat, k: nat, j: nat, r: Retained, cursor: Name)
    requires IsHistory(e, states, events) && i <= k < j < |states| && states[k + 1].records == []
    requires HasCursor(states[i].records, r, cursor)
    ensures r !in states[j].records
  {
    HistoryRecordsDescend(e, states, events, k + 1, j);
    HistoryRecordsDescend(e, states, events, i, k + 1);
    HistoryStaysBounded(e, states, events, i);
    KnownCursor(e, states[i], r, cursor);
    hide IsHistory, RuntimeOk;
  }

  predicate Accepts(event: RuntimeEvent) { event.ApplyCapabilities? && event.applied == Success(true) }

  /** The browser as it was connected, or as the last accepted change left it. */
  ghost predicate InForce(current: ConnectedBrowser, events: seq<RuntimeEvent>, c: nat, j: nat)
    requires c < j <= |events| && events[c].Connect?
  {
    && current.browserInstanceId == events[c].browser.browserInstanceId
    && events[c].browser.capabilityRevision <= current.capabilityRevision
    && (forall k :: c < k < j && Accepts(events[k]) ==> events[k].changed.capabilityRevision <= current.capabilityRevision)
    && (current == events[c].browser
        || exists k :: c < k < j && Accepts(events[k])
             && current.capabilityRevision == events[k].changed.capabilityRevision && current.capabilities == events[k].changed.capabilities)
  }

  lemma ChangeStep(v: RuntimeState, changed: CapabilitiesChanged, implemented: bool, w: RuntimeState, result: Result<bool, string>)
    requires CapabilitiesStep(v, changed, implemented, w, result) && v.connected.Some?
    ensures result == Success(true) <==>
      && v.connected.value.browserInstanceId == changed.browserInstanceId && implemented
      && changed.capabilityRevision > v.connected.value.capabilityRevision
    ensures w.connected == if result == Success(true)
      then Some(ConnectedBrowser(changed.browserInstanceId, changed.capabilityRevision, changed.capabilities)) else v.connected
  {
  }

  lemma OtherEventsKeepBrowser(e: Encoding, v: RuntimeState, event: RuntimeEvent, w: RuntimeState)
    requires Next(e, v, event, w) && !Reconnects(event) && !event.ApplyCapabilities?
    ensures w.connected == v.connected
  {
    if event.Capture? && event.output.Success? && event.output.value.PageOutput? {
      hide CaptureStep;
      BrowserAfterCommit(e, v, event.input, w, event.output.value.page);
    } else {
      hide CaptureRejection, DeclinedLate, MatchedTabs, RegistryReconciled;
    }
  }

  lemma BrowserAfterCommit(e: Encoding, v: RuntimeState, input: CaptureInput, w: RuntimeState, page: SnapshotPage)
    requires CaptureStep(e, v, input, w, Success(PageOutput(page)))
    ensures w.connected == v.connected
  {
    var s, matched, second, removed, classEvicted, evicted := CommittedParts(e, v, input, w, page);
    hide CaptureStep, MatchedTabs, RegistryReconciled, Built, Inserted;
  }

  /** While a connection lasts, the capabilities in force are those of the highest revision accepted since it began;
      a change is accepted exactly if it is for this browser, implemented and of a higher revision than all before. */
  lemma {:induction false} CapabilitiesAreNewest(e: Encoding, states: seq<RuntimeState>, events: seq<RuntimeEvent>, c: nat, j: nat)
    requires IsHistory(e, states, events) && c < j < |states| && events[c].Connect?
    requires forall k :: c < k < j ==> !Reconnects(events[k])
    ensures states[j].connected.Some? && InForce(states[j].connected.value, events, c, j)
    ensures j < |events| && events[j].ApplyCapabilities? ==>
      var changed := events[j].changed;
      Accepts(events[j]) <==>
        && events[j].implemented && changed.browserInstanceId == events[c].browser.browserInstanceId
        && changed.capabilityRevision > events[c].browser.capabilityRevision
        && forall k :: c < k < j && Accepts(events[k]) ==> changed.capabilityRevision > events[k].changed.capabilityRevision
    decreases j
  {
    hide *;
    HistoryShape(e, states, events);
    NextAt(e, states, events, j - 1);
    if c < j - 1 {
      CapabilitiesAreNewest(e, states, events, c, j - 1);
      InForceKept(e, states[j - 1], events, c, j - 1, states[j]);
    } else {
      ConnectedInForce(e, states[c], events, c, states[j]);
    }
    if j < |events| && events[j].ApplyCapabilities? {
      NextAt(e, states, events, j);
      AcceptedIf(e, states[j], events, c, j, states[j + 1]);
    }
  }

  lemma ConnectedInForce(e: Encoding, v: RuntimeState, events: seq<RuntimeEvent>, c: nat, w: RuntimeState)
    requires c < |events| && events[c].Connect? && Next(e, v, events[c], w)
    ensures w.connected.Some? && InForce(w.connected.value, events, c, c + 1)
  {
  }

  lemma InForceKept(e: Encoding, v: RuntimeState, events: seq<RuntimeEvent>, c: nat, j: nat, w: RuntimeState)
    requires c < j < |events| && events[c].Connect? && !Reconnects(events[j]) && Next(e, v, events[j], w)
    requires v.connected.Some? && InForce(v.connected.value, events, c, j)
    ensures w.connected.Some? && InForce(w.connected.value, events, c, j + 1)
  {
    if events[j].ApplyCapabilities? {
      ChangeStep(v, events[j].changed, events[j].implemented, w, events[j].applied);
      hide Next, CapabilitiesStep;
      if Accepts(events[j]) { assert c < j < j + 1; } else { InForceLonger(v.connected.value, events, c, j); }
    } else {
      OtherEventsKeepBrowser(e, v, events[j], w);
      hide Next;
      InForceLonger(v.connected.value, events, c, j);
    }
  }

  lemma InForceLonger(current: ConnectedBrowser, events: seq<RuntimeEvent>, c: nat, j: nat)
    requires c < j < |events| && events[c].Connect? && InForce(current, events, c, j) && !Accepts(events[j])
    ensures InForce(current, events, c, j + 1)
  {
    if current != events[c].browser {
      var k :| c < k < j && Accepts(events[k])
        && current.capabilityRevision == events[k].changed.capabilityRevision && current.capabilities == events[k].changed.capabilities;
      assert c < k < j + 1;
    }
  }

  lemma AcceptedIf(e: Encoding, v: RuntimeState, events: seq<RuntimeEvent>, c: nat, j: nat, w: RuntimeState)
    requires c < j < |events| && events[c].Connect? && events[j].ApplyCapabilities? && Next(e, v, events[j], w)
    requires v.connected.Some? && InForce(v.connected.value, events, c, j)
    ensures var changed := events[j].changed;
      Accepts(events[j]) <==>
        && events[j].implemented && changed.browserInstanceId == events[c].browser.browserInstanceId
        && changed.capabilityRevision > events[c].browser.capabilityRevision
        && forall k :: c < k < j && Accepts(events[k]) ==> changed.capabilityRevision > events[k].changed.capabilityRevision
  {
    ChangeStep(v, events[j].changed, events[j].implemented, w, events[j].applied);
    hide Next, CapabilitiesStep;
    var current := v.connected.value;
    if current != events[c].browser {
      var k :| c < k < j && Accepts(events[k])
        && current.capabilityRevision == events[k].changed.capabilityRevision && current.capabilities == events[k].changed.capabilities;
    }
  }
}

/** Which captures succeed, in terms of what was captured before: revisions, capabilities, sizes. */
module CaptureTheorems {
  import opened Wrappers
  import opened Baselines
  import opened Hierarchy
  import opened Snapshots
  import opened SnapshotPages
  import opened References
  import opened Retention
  import Renderer = SnapshotRenderer
  import opened Runtime
  import opened RuntimeTheorems

  predicate Captures(event: RuntimeEvent) { event.Capture? && event.output.Success? }

  predicate Reconnects(event: RuntimeEvent) { event.Connect? || event.Clear? }

  /** Event `start` is the first of a history, or the first after a connect or clear; none lies between it and j. */
  ghost predicate SameConnection(events: seq<RuntimeEvent>, start: nat, j: nat) {
    && start <= j <= |events|
    && (start == 0 || Reconnects(events[start - 1]))
    && forall k :: start <= k < j ==> !Reconnects(events[k])
  }

  /** Equal but for the time of capture. */
  predicate SameModel(b: Baseline, c: Baseline) {
    && b.browserInstanceId == c.browserInstanceId && b.modelRevision == c.modelRevision
    && b.supportsFrozenTabs == c.supportsFrozenTabs && b.supportsSharedTabGroups == c.supportsSharedTabGroups
    && b.windows == c.windows && b.groups == c.groups && b.tabs == c.tabs
  }

  // ---------------------------------------------------------------- the latest revision

  /** A successful capture leaves its own revision and fingerprint, a connect or clear none, anything else keeps them. */
  lemma LatestStep(e: Encoding, v: RuntimeState, event: RuntimeEvent, w: RuntimeState)
    requires Next(e, v, event, w)
    ensures Captures(event) ==>
      w.latestModelRevision == Some(event.input.baseline.modelRevision) && w.latestModelFingerprint == Some(Fingerprint(event.input.baseline))
    ensures Reconnects(event) ==> w.latestModelRevision.None?
    ensures !Captures(event) && !Reconnects(event) ==>
      w.latestModelRevision == v.latestModelRevision && w.latestModelFingerprint == v.latestModelFingerprint
  {
    if event.Capture? && event.output.Success? && event.output.value.PageOutput? {
      hide Fingerprint, CaptureStep;
      LatestAfterCommit(e, v, event.input, w, event.output.value.page);
    } else {
      hide CaptureRejection, DeclinedLate, MatchedTabs, RegistryReconciled, Fingerprint;
    }
  }

  lemma LatestAfterCommit(e: Encoding, v: RuntimeState, input: CaptureInput, w: RuntimeState, page: SnapshotPage)
    requires CaptureStep(e, v, input, w, Success(PageOutput(page)))
    ensures w.latestModelRevision == Some(input.baseline.modelRevision) && w.latestModelFingerprint == Some(Fingerprint(input.baseline))
  {
    var s, matched, second, removed, classEvicted, evicted := CommittedParts(e, v, input, w, page);
    hide CaptureStep, Fingerprint, MatchedTabs, RegistryReconciled, Built, Inserted;
  }

  /** A successful capture passed every check. */
  lemma SuccessMeansAdmitted(e: Encoding, v: RuntimeState, input: CaptureInput, w: RuntimeState, output: Result<ToolOutput, SnapshotError>)
    requires CaptureStep(e, v, input, w, output) && output.Success?
    ensures CaptureRejection(e, v, input).None?
  {
    hide CaptureRejection, MatchedTabs, RegistryReconciled, Built, Inserted, StoredOk, AllResolve, PageOf;
  }

  /** What the broker remembers of the connection is its latest successful capture, and none was above it. */
  ghost predicate LatestIs(v: RuntimeState, events: seq<RuntimeEvent>, start: nat, j: nat)
    requires start <= j <= |events|
  {
    && (v.latestModelRevision.Some? ==> exists k :: start <= k < j && IsLatest(v, events[k]))
    && forall k :: start <= k < j && Captures(events[k]) ==> AtMostLatest(v, events[k])
  }

  predicate IsLatest(v: RuntimeState, event: RuntimeEvent) {
    && Captures(event)
    && v.latestModelRevision == Some(event.input.baseline.modelRevision)
    && v.latestModelFingerprint == Some(Fingerprint(event.input.baseline))
  }

  predicate AtMostLatest(v: RuntimeState, event: RuntimeEvent)
    requires event.Capture?
  {
    && v.latestModelRevision.Some? && event.input.baseline.modelRevision <= v.latestModelRevision.value
    && (event.input.baseline.modelRevision == v.latestModelRevision.value ==> v.latestModelFingerprint == Some(Fingerprint(event.input.baseline)))
  }

  /** What the screening's revision checks mean for the baseline. */
  lemma ScreenedRevision(e: Encoding, v: RuntimeState, input: CaptureInput)
    requires CaptureRejection(e, v, input).None?
    ensures v.latestModelRevision.Some? ==>
      && v.latestModelRevision.value <= input.baseline.modelRevision
      && (v.latestModelRevision.value == input.baseline.modelRevision ==> v.latestModelFingerprint == Some(Fingerprint(input.baseline)))
  {
    hide ValidBaseline, AnyKeyReused, Fingerprint;
  }

  lemma LatestKept(e: Encoding, v: RuntimeState, events: seq<RuntimeEvent>, start: nat, j: nat, w: RuntimeState)
    requires start <= j < |events| && !Reconnects(events[j]) && Next(e, v, events[j], w) && LatestIs(v, events, start, j)
    ensures LatestIs(w, events, start, j + 1)
  {
    LatestStep(e, v, events[j], w);
    hide Next, LatestIs, Fingerprint;
    if Captures(events[j]) {
      CapturedRevision(e, v, events[j], w);
      LatestByCapture(v, events, start, j, w);
    } else {
      LatestUnchanged(v, events, start, j, w);
    }
  }

  lemma CapturedRevision(e: Encoding, v: RuntimeState, event: RuntimeEvent, w: RuntimeState)
    requires Next(e, v, event, w) && Captures(event)
    ensures v.latestModelRevision.Some? ==>
      && v.latestModelRevision.value <= event.input.baseline.modelRevision
      && (v.latestModelRevision.value == event.input.baseline.modelRevision ==> v.latestModelFingerprint == Some(Fingerprint(event.input.baseline)))
  {
    hide CaptureStep, CaptureRejection, Fingerprint;
    SuccessMeansAdmitted(e, v, event.input, w, event.output);
    ScreenedRevision(e, v, event.input);
  }

  lemma LatestByCapture(v: RuntimeState, events: seq<RuntimeEvent>, start: nat, j: nat, w: RuntimeState)
    requires start <= j < |events| && LatestIs(v, events, start, j) && IsLatest(w, events[j])
    requires v.latestModelRevision.Some? ==>
      && v.latestModelRevision.value <= w.latestModelRevision.value
      && (v.latestModelRevision == w.latestModelRevision ==> v.latestModelFingerprint == w.latestModelFingerprint)
    ensures LatestIs(w, events, start, j + 1)
  {
    hide Fingerprint;
    forall k | start <= k < j + 1 && Captures(events[k]) ensures AtMostLatest(w, events[k]) {
      if k < j { assert AtMostLatest(v, events[k]); }
    }
  }

  lemma LatestUnchanged(v: RuntimeState, events: seq<RuntimeEvent>, start: nat, j: nat, w: RuntimeState)
    requires start <= j < |events| && LatestIs(v, events, start, j) && !Captures(events[j])
    requires w.latestModelRevision == v.latestModelRevision && w.latestModelFingerprint == v.latestModelFingerprint
    ensures LatestIs(w, events, start, j + 1)
  {
    hide Fingerprint;
    if w.latestModelRevision.Some? {
      var k :| start <= k < j && IsLatest(v, events[k]);
      assert IsLatest(w, events[k]);
    }
    forall k | start <= k < j + 1 && Captures(events[k]) ensures AtMostLatest(w, events[k]) {
      assert AtMostLatest(v, events[k]);
    }
  }

  lemma NothingLatest(v: RuntimeState, events: seq<RuntimeEvent>, start: nat)
    requires start <= |events| && v.latestModelRevision.None?
    ensures LatestIs(v, events, start, start)
  {
  }

  lemma {:induction false} LatestOfConnection(e: Encoding, states: seq<RuntimeState>, events: seq<RuntimeEvent>, start: nat, j: nat)
    requires IsHistory(e, states, events) && SameConnection(events, start, j)
    ensures LatestIs(states[j], events, start, j)
    decreases j - start
  {
    hide Next, LatestIs;
    if start < j {
      LatestOfConnection(e, states, events, start, j - 1);
      LatestKept(e, states[j - 1], events, start, j - 1, states[j]);
    } else {
      if start > 0 { LatestStep(e, states[start - 1], events[start - 1], states[start]); }
      NothingLatest(states[start], events, start);
    }
  }

  lemma FingerprintIsModel(b: Baseline, c: Baseline)
    ensures Fingerprint(b) == Fingerprint(c) <==> SameModel(b, c)
  {
  }

  /** The revisions that succeed on one connection never go down, and one revision stands for one model. */
  lemma RevisionsAscend(e: Encoding, states: seq<RuntimeState>, events: seq<RuntimeEvent>, i: nat, j: nat)
    requires IsHistory(e, states, events) && i < j < |events| && Captures(events[i]) && Captures(events[j])
    requires forall k :: i < k < j ==> !Reconnects(events[k])
    ensures events[i].input.baseline.modelRevision <= events[j].input.baseline.modelRevision
    ensures events[i].input.baseline.modelRevision == events[j].input.baseline.modelRevision ==>
      SameModel(events[i].input.baseline, events[j].input.baseline)
  {
    var start := StartOf(events, i);
    assert SameConnection(events, start, j);
    LatestOfConnection(e, states, events, start, j);
    assert Next(e, states[j], events[j], states[j + 1]);
    SuccessMeansAdmitted(e, states[j], events[j].input, states[j + 1], events[j].output);
    ScreenedRevision(e, states[j], events[j].input);
    FingerprintIsModel(events[i].input.baseline, events[j].input.baseline);
    hide IsHistory, Next, Fingerprint, CaptureRejection, SameModel;
    assert AtMostLatest(states[j], events[i]);
  }

  /** Where the connection that event i belongs to began. */
  lemma {:induction false} StartOf(events: seq<RuntimeEvent>, i: nat) returns (start: nat)
    requires i <= |events|
    ensures SameConnection(events, start, i)
  {
    if i == 0 || Reconnects(events[i - 1]) {
      start := i;
    } else {
      start := StartOf(events, i - 1);
    }
  }

  // ---------------------------------------------------------------- which captures succeed

  /** The model is newer than everything captured on this connection, or the very one captured last. */
  ghost predicate RevisionFits(events: seq<RuntimeEvent>, start: nat, j: nat, b: Baseline)
    requires start <= j <= |events|
  {
    forall k :: start <= k < j && Captures(events[k]) ==>
      var earlier := events[k].input.baseline;
      earlier.modelRevision <= b.modelRevision && (earlier.modelRevision == b.modelRevision ==> SameModel(earlier, b))
  }

  /** A valid baseline of the browser that is connected, with the capabilities it was negotiated with. */
  ghost predicate Presentable(e: Encoding, v: RuntimeState, input: CaptureInput) {
    var b := input.baseline;
    && e.baselineSize(b) <= 33_554_432
    && ValidBaseline(b, input.startInstanceId)
    && v.connected.Some? && v.connected.value.browserInstanceId == b.browserInstanceId
    && v.connected.value.capabilities == Capabilities(true, b.supportsFrozenTabs, b.supportsSharedTabGroups)
    && (input.params.frozen.Some? ==> b.supportsFrozenTabs)
  }

  /** No object comes back under its key with another Chrome id. */
  ghost predicate KeysStand(registry: ReferenceRegistry, b: Baseline) {
    && (forall w :: w in b.windows && w.key in registry.windows ==> registry.windows[w.key].chromeId == w.id)
    && (forall g :: g in b.groups && g.key in registry.groups ==> registry.groups[g.key].chromeId == g.id)
    && (forall t :: t in b.tabs && t.key in registry.tabs ==> registry.tabs[t.key].chromeId == t.id)
  }

  /** Under whatever references are issued, the targets are known and everything is within its limit. */
  ghost predicate FitsThroughout(e: Encoding, v: RuntimeState, input: CaptureInput) {
    forall registry, second :: RegistryReconciled(v.references, input.baseline, registry, v.issued, second) ==>
      FitsUnder(e, input, SnapshotReferencesOf(registry), second)
  }

  function AskedLimit(params: SnapshotParams): nat {
    if params.limit.Some? then params.limit.value else 100
  }

  ghost predicate FitsUnder(e: Encoding, input: CaptureInput, references: SnapshotReferences, first: Name) {
    && TargetsKnown(references, input.params)
    && e.referencesSize(references) <= 33_554_432
    && (input.params.detail != Some(SnapshotDetail.Counts) ==>
          forall matched ::
            MatchedTabs(input.baseline, references, input.params, e.textMatches) == Success(matched) ==>
            && 1 <= AskedLimit(input.params) && |matched| <= 10_001 * AskedLimit(input.params)
            && forall s, next ::
                 Built(s, input.baseline, references, matched, input.params, first, next) && StoredOk(s) ==>
                 && AllResolve(s) && 0 <= PageEnd(s, 0)
                 && e.pageSize(PageOf(s, 0)) <= 4_194_304
                 && e.referencesSize(references) + e.storedSize(s) <= 33_554_432)
  }

  lemma ReuseMeans(registry: ReferenceRegistry, b: Baseline)
    ensures AnyKeyReused(registry, b) <==> !KeysStand(registry, b)
  {
    forall w | w in b.windows ensures Identity(w.key, w.id) in WindowObjects(b) { InWindowObjects(b, w); }
    forall g | g in b.groups ensures Identity(g.key, g.id) in GroupObjects(b) { InGroupObjects(b, g); }
    forall t | t in b.tabs ensures Identity(t.key, t.id) in TabObjects(b) { InTabObjects(b, t); }
    if KeysStand(registry, b) {
      forall o | o in WindowObjects(b) && o.key in registry.windows ensures registry.windows[o.key].chromeId == o.id {
        var i :| 0 <= i < |b.windows| && WindowObjects(b)[i] == o;
        assert b.windows[i] in b.windows;
      }
      forall o | o in GroupObjects(b) && o.key in registry.groups ensures registry.groups[o.key].chromeId == o.id {
        var i :| 0 <= i < |b.groups| && GroupObjects(b)[i] == o;
        assert b.groups[i] in b.groups;
      }
      forall o | o in TabObjects(b) && o.key in registry.tabs ensures registry.tabs[o.key].chromeId == o.id {
        var i :| 0 <= i < |b.tabs| && TabObjects(b)[i] == o;
        assert b.tabs[i] in b.tabs;
      }
    }
  }

  /** The rejections decided before references are issued, in terms of the captures of the connection. */
  lemma AdmittedMeans(e: Encoding, v: RuntimeState, events: seq<RuntimeEvent>, start: nat, j: nat, input: CaptureInput)
    requires start <= j <= |events| && LatestIs(v, events, start, j)
    ensures CaptureRejection(e, v, input).None? <==>
      Presentable(e, v, input) && RevisionFits(events, start, j, input.baseline) && KeysStand(v.references, input.baseline)
  {
    var b := input.baseline;
    ReuseMeans(v.references, b);
    LatestDecides(v, events, start, j, b);
    hide ValidBaseline, AnyKeyReused, KeysStand, RevisionFits, LatestIs, Fingerprint;
  }

  lemma LatestDecides(v: RuntimeState, events: seq<RuntimeEvent>, start: nat, j: nat, b: Baseline)
    requires start <= j <= |events| && LatestIs(v, events, start, j)
    ensures RevisionFits(events, start, j, b) <==>
      !(v.latestModelRevision.Some? && b.modelRevision < v.latestModelRevision.value) && !RevisionConflict(v, b)
  {
    if v.latestModelRevision.Some? {
      var k :| start <= k < j && IsLatest(v, events[k]);
      FingerprintIsModel(events[k].input.baseline, b);
    }
    forall i | start <= i < j && Captures(events[i])
      ensures AtMostLatest(v, events[i]) && (Fingerprint(events[i].input.baseline) == Fingerprint(b) <==> SameModel(events[i].input.baseline, b))
    {
      FingerprintIsModel(events[i].input.baseline, b);
    }
    hide Fingerprint, SameModel;
  }

  lemma FitsIsNotDeclined(e: Encoding, v: RuntimeState, input: CaptureInput, error: SnapshotError)
    requires FitsThroughout(e, v, input)
    ensures !DeclinedLate(e, v, input, error)
  {
    hide RegistryReconciled, Declines, FitsUnder;
    if registry, second :|
      RegistryReconciled(v.references, input.baseline, registry, v.issued, second) && Declines(e, input, registry, second, error)
    {
      FitsDeclinesNothing(e, input, registry, second, error);
    }
  }

  lemma FitsDeclinesNothing(e: Encoding, input: CaptureInput, registry: ReferenceRegistry, second: Name, error: SnapshotError)
    requires FitsUnder(e, input, SnapshotReferencesOf(registry), second)
    ensures !Declines(e, input, registry, second, error)
  {
    hide MatchedTabs, TargetsKnown, StoredOk, AllResolve, PageOf, PageEnd, SnapshotReferencesOf, Built;
    forall matched: seq<string> | 1 <= LimitOf(input.params) && |matched| <= 10_001 * LimitOf(input.params)
      ensures CursorsFit(input.params, matched)
    {
      FewCursors(|matched|, LimitOf(input.params));
    }
    hide CursorsFit;
  }

  lemma FewCursors(length: nat, limit: nat)
    requires 1 <= limit && length <= 10_001 * limit
    ensures Renderer.CursorCount(length, limit) <= 10_000
  {
    var last := if length == 0 then 0 else length - 1;
    assert last == (last / limit) * limit + last % limit;
    if last / limit >= 10_001 { TimesLimit(10_001, last / limit, limit); }
  }

  lemma TimesLimit(a: nat, b: nat, limit: nat)
    requires a <= b
    ensures a * limit <= b * limit
  {
  }

  lemma NotRejectedSucceeds(e: Encoding, v: RuntimeState, input: CaptureInput, w: RuntimeState, output: Result<ToolOutput, SnapshotError>)
    requires CaptureStep(e, v, input, w, output) && CaptureRejection(e, v, input).None? && FitsThroughout(e, v, input)
    ensures output.Success?
  {
    if output.Failure? { FitsIsNotDeclined(e, v, input, output.error); }
    hide CaptureRejection, FitsThroughout, DeclinedLate;
  }

  /** A capture succeeds only with a presentable baseline, a revision that fits and keys that stand; and with
      these it succeeds, if its targets are known and everything is within its limit. */
  lemma CaptureSucceeds(e: Encoding, states: seq<RuntimeState>, events: seq<RuntimeEvent>, start: nat, j: nat)
    requires IsHistory(e, states, events) && j < |events| && SameConnection(events, start, j) && events[j].Capture?
    ensures var v, input := states[j], events[j].input;
      var admitted := Presentable(e, v, input) && RevisionFits(events, start, j, input.baseline) && KeysStand(v.references, input.baseline);
      && (events[j].output.Success? ==> admitted)
      && (admitted && FitsThroughout(e, v, input) ==> events[j].output.Success?)
  {
    var v, input, w, output := states[j], events[j].input, states[j + 1], events[j].output;
    assert Next(e, v, events[j], w);
    LatestOfConnection(e, states, events, start, j);
    AdmittedMeans(e, v, events, start, j, input);
    hide IsHistory, CaptureRejection, LatestIs, Presentable, RevisionFits, KeysStand, FitsThroughout, CaptureStep;
    if output.Success? {
      SuccessMeansAdmitted(e, v, input, w, output);
    } else if CaptureRejection(e, v, input).None? && FitsThroughout(e, v, input) {
      NotRejectedSucceeds(e, v, input, w, output);
    }
  }

  /** What a capture is told that is turned away before references are issued. */
  lemma RefusalErrors(e: Encoding, states: seq<RuntimeState>, events: seq<RuntimeEvent>, start: nat, j: nat)
    requires IsHistory(e, states, events) && j < |events| && SameConnection(events, start, j) && events[j].Capture?
    ensures e.baselineSize(events[j].input.baseline) > 33_554_432 ==> events[j].output == Failure(ResultTooLarge)
    ensures e.baselineSize(events[j].input.baseline) <= 33_554_432 ==>
      var v, input, b, output := states[j], events[j].input, events[j].input.baseline, events[j].output;
      && (!ValidBaseline(b, input.startInstanceId) ==> output == Failure(InternalError))
      && (ValidBaseline(b, input.startInstanceId) ==>
            && (v.connected.None? ==> output == Failure(CapabilityUnavailable))
            && (v.connected.Some? && v.connected.value.browserInstanceId != b.browserInstanceId ==> output == Failure(InternalError))
            && (v.connected.Some? && v.connected.value.browserInstanceId == b.browserInstanceId ==>
                  && (!v.connected.value.capabilities.browserSnapshot ==> output == Failure(CapabilityUnavailable))
                  && (v.connected.value.capabilities.browserSnapshot && !RevisionFits(events, start, j, b) ==> output == Failure(InternalError))))
    ensures Presentable(e, states[j], events[j].input) && !KeysStand(states[j].references, events[j].input.baseline) ==>
      events[j].output == Failure(InternalError)
  {
    hide *;
    HistoryShape(e, states, events);
    ConnectionBounds(events, start, j);
    var v, input, output := states[j], events[j].input, events[j].output;
    NextAt(e, states, events, j);
    CaptureAt(e, v, events[j], states[j + 1]);
    LatestOfConnection(e, states, events, start, j);
    LatestDecides(v, events, start, j, input.baseline);
    ReuseMeans(v.references, input.baseline);
    RejectedWith(e, v, input, states[j + 1], output);
    RejectionFor(e, v, events, start, j, input);
  }

  lemma ConnectionBounds(events: seq<RuntimeEvent>, start: nat, j: nat)
    requires SameConnection(events, start, j)
    ensures start <= j <= |events|
  {
  }

  lemma CaptureAt(e: Encoding, v: RuntimeState, event: RuntimeEvent, w: RuntimeState)
    requires Next(e, v, event, w) && event.Capture?
    ensures CaptureStep(e, v, event.input, w, event.output)
  {
    hide CaptureStep;
  }

  lemma RejectedWith(e: Encoding, v: RuntimeState, input: CaptureInput, w: RuntimeState, output: Result<ToolOutput, SnapshotError>)
    requires CaptureStep(e, v, input, w, output)
    ensures CaptureRejection(e, v, input).Some? ==> output == Failure(CaptureRejection(e, v, input).value)
  {
    hide CaptureRejection, CountsCommitted, SnapshotCommitted, SnapshotOk, SnapshotFits, DeclinedLate;
  }

  lemma RejectionFor(e: Encoding, v: RuntimeState, events: seq<RuntimeEvent>, start: nat, j: nat, input: CaptureInput)
    requires start <= j <= |events|
    requires RevisionFits(events, start, j, input.baseline) <==>
      !(v.latestModelRevision.Some? && input.baseline.modelRevision < v.latestModelRevision.value) && !RevisionConflict(v, input.baseline)
    requires AnyKeyReused(v.references, input.baseline) <==> !KeysStand(v.references, input.baseline)
    ensures var b, rejection := input.baseline, CaptureRejection(e, v, input);
      && (e.baselineSize(b) > 33_554_432 ==> rejection == Some(ResultTooLarge))
      && (e.baselineSize(b) <= 33_554_432 ==>
            && (!ValidBaseline(b, input.startInstanceId) ==> rejection == Some(InternalError))
            && (ValidBaseline(b, input.startInstanceId) ==>
                  && (v.connected.None? ==> rejection == Some(CapabilityUnavailable))
                  && (v.connected.Some? && v.connected.value.browserInstanceId != b.browserInstanceId ==> rejection == Some(InternalError))
                  && (v.connected.Some? && v.connected.value.browserInstanceId == b.browserInstanceId ==>
                        && (!v.connected.value.capabilities.browserSnapshot ==> rejection == Some(CapabilityUnavailable))
                        && (v.connected.value.capabilities.browserSnapshot && !RevisionFits(events, start, j, b) ==> rejection == Some(InternalError)))))
      && (Presentable(e, v, input) && !KeysStand(v.references, b) ==> rejection == Some(InternalError))
  {
    hide ValidBaseline, AnyKeyReused, KeysStand, RevisionFits, RevisionConflict;
  }
}

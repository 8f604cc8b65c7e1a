/** Extension and broker together: the broker's same-revision check never turns the extension's model away. */
module SnapshotAgreement {
  import opened Wrappers
  import opened Baselines
  import X = BrowserModels
  import opened BrowserModelObject
  import XTheorems = BrowserModelTheorems
  import opened Runtime
  import opened RuntimeTheorems
  import opened CaptureTheorems

  function SnapshotAt(x: X.State): Snapshot
    requires x.records.Some?
  {
    Snapshot(x.modelRevision, x.support, x.records.value)
  }

  /** The baseline is a snapshot some state of the extension's run gives, taken at some time of day. */
  ghost predicate Reported(xs: seq<X.State>, decode: (Snapshot, string) -> Baseline, b: Baseline) {
    exists n: nat, at: string :: ReportedAt(xs, decode, b, n, at)
  }

  ghost predicate ReportedAt(xs: seq<X.State>, decode: (Snapshot, string) -> Baseline, b: Baseline, n: nat, at: string) {
    n < |xs| && xs[n].records.Some? && b == decode(SnapshotAt(xs[n]), at)
  }

  /** From event `start`, the first of a history or one just after a connect or clear, to event j, every baseline
      the broker captures comes from the one run of the extension. */
  ghost predicate OneEpoch(events: seq<RuntimeEvent>, start: nat, j: nat, xs: seq<X.State>, decode: (Snapshot, string) -> Baseline) {
    && start <= j < |events|
    && (start == 0 || events[start - 1].Connect? || events[start - 1].Clear?)
    && forall k :: start <= k <= j && events[k].Capture? ==> Reported(xs, decode, events[k].input.baseline)
  }

  /** What the broker remembers of the latest model is what the extension reported. */
  ghost predicate RemembersReport(v: RuntimeState, xs: seq<X.State>, decode: (Snapshot, string) -> Baseline) {
    v.latestModelRevision.Some? ==>
      exists b ::
        && Reported(xs, decode, b)
        && v.latestModelRevision == Some(b.modelRevision) && v.latestModelFingerprint == Some(Fingerprint(b))
  }

  /** Two reports of equal revision differ at most in their time of day. */
  lemma ReportsAgree(xs: seq<X.State>, steps: seq<X.Step>, decode: (Snapshot, string) -> Baseline, b: Baseline, c: Baseline)
    requires XTheorems.IsRun(xs, steps) && XTheorems.Decodes(decode)
    requires Reported(xs, decode, b) && Reported(xs, decode, c) && b.modelRevision == c.modelRevision
    ensures Fingerprint(b) == Fingerprint(c)
  {
    var i: nat, at: string :| ReportedAt(xs, decode, b, i, at);
    var j: nat, later: string :| ReportedAt(xs, decode, c, j, later);
    hide XTheorems.IsRun, XTheorems.Decodes;
    XTheorems.FingerprintsAgree(xs, steps, i, j, decode, at, later);
  }

  lemma {:induction false} EpochRemembers(
    e: Encoding, states: seq<RuntimeState>, events: seq<RuntimeEvent>, start: nat, j: nat,
    xs: seq<X.State>, decode: (Snapshot, string) -> Baseline)
    requires IsHistory(e, states, events) && OneEpoch(events, start, j, xs, decode)
    ensures RemembersReport(states[j], xs, decode)
    decreases j - start
  {
    hide Next, Reported;
    if start < j {
      EpochRemembers(e, states, events, start, j - 1, xs, decode);
      LatestStep(e, states[j - 1], events[j - 1], states[j]);
    } else if start > 0 {
      LatestStep(e, states[start - 1], events[start - 1], states[start]);
    }
  }

  /** Over every history of the broker in which the captures since the last connect or clear report one run of the
      extension, the same-revision check lets every one of them pass. */
  lemma SameRevisionNeverRejected(
    e: Encoding, states: seq<RuntimeState>, events: seq<RuntimeEvent>, start: nat, j: nat,
    xs: seq<X.State>, steps: seq<X.Step>, decode: (Snapshot, string) -> Baseline)
    requires IsHistory(e, states, events) && XTheorems.IsRun(xs, steps) && XTheorems.Decodes(decode)
    requires OneEpoch(events, start, j, xs, decode) && events[j].Capture?
    ensures !RevisionConflict(states[j], events[j].input.baseline)
  {
    var v, b := states[j], events[j].input.baseline;
    EpochRemembers(e, states, events, start, j, xs, decode);
    hide IsHistory, XTheorems.IsRun, XTheorems.Decodes, Reported, Fingerprint;
    if v.latestModelRevision == Some(b.modelRevision) {
      var c :|
        && Reported(xs, decode, c)
        && v.latestModelRevision == Some(c.modelRevision) && v.latestModelFingerprint == Some(Fingerprint(c));
      ReportsAgree(xs, steps, decode, b, c);
    }
  }

  /** Event k captured the state `when[k]` of the extension's run, and later captures report later states. */
  ghost predicate InStateOrder(
    events: seq<RuntimeEvent>, start: nat, j: nat, xs: seq<X.State>, decode: (Snapshot, string) -> Baseline, when: seq<nat>)
  {
    && start <= j < |events| && |when| == |events|
    && (forall k :: start <= k <= j && events[k].Capture? ==> TakenAt(xs, decode, events[k].input.baseline, when[k]))
    && (forall k, l :: start <= k <= l <= j && events[k].Capture? && events[l].Capture? ==> when[k] <= when[l])
  }

  ghost predicate TakenAt(xs: seq<X.State>, decode: (Snapshot, string) -> Baseline, b: Baseline, n: nat) {
    exists at: string :: ReportedAt(xs, decode, b, n, at)
  }

  /** A report of a later state has a higher revision, or shows the same model. */
  lemma LaterReport(xs: seq<X.State>, steps: seq<X.Step>, decode: (Snapshot, string) -> Baseline, b: Baseline, m: nat, c: Baseline, n: nat)
    requires XTheorems.IsRun(xs, steps) && XTheorems.Decodes(decode) && TakenAt(xs, decode, b, m) && TakenAt(xs, decode, c, n) && m <= n
    ensures b.modelRevision <= c.modelRevision && (b.modelRevision == c.modelRevision ==> SameModel(b, c))
  {
    var at: string :| ReportedAt(xs, decode, b, m, at);
    var later: string :| ReportedAt(xs, decode, c, n, later);
    XTheorems.RunFollows(xs, steps, m, n);
    hide XTheorems.IsRun;
    if b.modelRevision == c.modelRevision {
      assert Reported(xs, decode, b) && Reported(xs, decode, c);
      ReportsAgree(xs, steps, decode, b, c);
      FingerprintIsModel(b, c);
    }
    hide Fingerprint, SameModel;
  }

  /** If every capture of a connection reports one run of the extension, in the order of its states, none is
      refused for its revision: whatever else is in order succeeds. */
  lemma StateOrderIsAccepted(
    e: Encoding, states: seq<RuntimeState>, events: seq<RuntimeEvent>, start: nat, j: nat,
    xs: seq<X.State>, steps: seq<X.Step>, decode: (Snapshot, string) -> Baseline, when: seq<nat>)
    requires IsHistory(e, states, events) && XTheorems.IsRun(xs, steps) && XTheorems.Decodes(decode)
    requires SameConnection(events, start, j) && InStateOrder(events, start, j, xs, decode, when) && events[j].Capture?
    ensures RevisionFits(events, start, j, events[j].input.baseline)
    ensures var v, input := states[j], events[j].input;
      Presentable(e, v, input) && KeysStand(v.references, input.baseline) && FitsThroughout(e, v, input) ==> events[j].output.Success?
  {
    CaptureSucceeds(e, states, events, start, j);
    hide IsHistory, XTheorems.IsRun, XTheorems.Decodes, TakenAt, SameModel, Presentable, KeysStand, FitsThroughout;
    forall k | start <= k < j && Captures(events[k])
      ensures var b, c := events[k].input.baseline, events[j].input.baseline;
        b.modelRevision <= c.modelRevision && (b.modelRevision == c.modelRevision ==> SameModel(b, c))
    {
      LaterReport(xs, steps, decode, events[k].input.baseline, when[k], events[j].input.baseline, when[j]);
    }
  }
}

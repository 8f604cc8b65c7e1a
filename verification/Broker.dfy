/** Requests to the extension: the size preflight, the deadline arithmetic and the native writer. */
module Broker {
  import opened Wrappers
  import Decimal
  import opened RequestLifecycles

  const MAX_HOST_TO_CHROME_BYTES: nat := 1024 * 1024
  const MAX_PRODUCT_REQUEST_BYTES: nat := 768 * 1024
  const READ_DEADLINE_MS: nat := 29_000
  const U32_MAX: nat := 0xFFFF_FFFF

  /** Instants and durations are counted in nanoseconds. */
  const SECOND: nat := 1_000_000_000
  const MILLISECOND: nat := 1_000_000
  const BROWSER_REQUEST_DEADLINE: nat := 30 * SECOND

  /** A request without its deadline; its parameters are opaque JSON. */
  datatype RequestFrame = RequestFrame(requestId: string, method_: BrowserMethod, params: string)

  datatype NativeWriterMessage =
    | Payload(size: nat)
    | Request(frame: RequestFrame, brokerDeadline: nat)

  datatype WriterOutcome = Dispatched | Cancelled | Expired

  datatype InfrastructureError = NotReady | NoCapacity | TooLarge | IdCollision

  /** What reaches Chrome: a frame with the deadline it carries. */
  datatype Written = WrittenPayload(size: nat) | WrittenRequest(frame: RequestFrame, deadlineMs: nat)

  // ---------------------------------------------------------------- arithmetic

  function SaturatingSub(a: nat, b: nat): nat { if a <= b then 0 else a - b }

  /** What is left for the extension, one second before the broker gives up. */
  function ExtensionBudget(brokerDeadline: nat, now: nat): nat {
    SaturatingSub(SaturatingSub(brokerDeadline, now), SECOND)
  }

  function DeadlineMs(brokerDeadline: nat, now: nat): nat {
    var millis := ExtensionBudget(brokerDeadline, now) / MILLISECOND;
    var clamped := if millis > U32_MAX then U32_MAX else millis;
    if clamped < READ_DEADLINE_MS then clamped else READ_DEADLINE_MS
  }

  /** The size of a serialized request; `rest` is the size of everything but the deadline's numeral. */
  function RequestSize(rest: RequestFrame -> nat, frame: RequestFrame, deadlineMs: nat): nat {
    rest(frame) + |Decimal.Numeral(deadlineMs)|
  }

  /** serialize_outgoing: the hard limit, then the product limit. */
  predicate Serializes(size: nat, limit: nat) {
    !(size > MAX_HOST_TO_CHROME_BYTES) && !(size > limit)
  }

  /** What `request` has checked, at the given time, before a message is queued. */
  predicate Preflighted(rest: RequestFrame -> nat, frame: RequestFrame, brokerDeadline: nat, at: nat) {
    && ExtensionBudget(brokerDeadline, at) != 0
    && Serializes(RequestSize(rest, frame, DeadlineMs(brokerDeadline, at)), MAX_PRODUCT_REQUEST_BYTES)
  }

  /** The extension has d milliseconds, within the 29 seconds of a read, and the broker a second more. */
  predicate LeavesTime(d: nat, brokerDeadline: nat, now: nat) {
    d <= 29_000 && now + d * 1_000_000 + 1_000_000_000 <= brokerDeadline
  }

  /** The deadline on the wire is the longest there is time for; it is 0 exactly if less than a second and a
      millisecond is left. */
  lemma DeadlineIsLongest(brokerDeadline: nat, now: nat)
    ensures forall d: nat :: LeavesTime(d, brokerDeadline, now) ==> d <= DeadlineMs(brokerDeadline, now)
    ensures DeadlineMs(brokerDeadline, now) > 0 ==> LeavesTime(DeadlineMs(brokerDeadline, now), brokerDeadline, now)
    ensures DeadlineMs(brokerDeadline, now) > 0 <==> now + 1_001_000_000 <= brokerDeadline
    ensures now + 30_000_000_000 <= brokerDeadline ==> DeadlineMs(brokerDeadline, now) == 29_000
  {
    var budget := ExtensionBudget(brokerDeadline, now);
    assert budget == (budget / MILLISECOND) * MILLISECOND + budget % MILLISECOND;
    forall d: nat | LeavesTime(d, brokerDeadline, now) ensures d <= DeadlineMs(brokerDeadline, now) {
      assert d * MILLISECOND <= budget;
    }
  }

  /** A deadline above 0 that leaves time, and no longer one does. */
  ghost predicate IsLongest(deadlineMs: nat, brokerDeadline: nat, now: nat) {
    && 1 <= deadlineMs && LeavesTime(deadlineMs, brokerDeadline, now)
    && forall d: nat :: LeavesTime(d, brokerDeadline, now) ==> d <= deadlineMs
  }

  /** Time can only shrink the deadline. */
  lemma DeadlineShrinks(brokerDeadline: nat, earlier: nat, later: nat)
    requires earlier <= later
    ensures DeadlineMs(brokerDeadline, later) <= DeadlineMs(brokerDeadline, earlier)
  {
    QuotientMonotone(ExtensionBudget(brokerDeadline, later), ExtensionBudget(brokerDeadline, earlier));
  }

  lemma QuotientMonotone(a: nat, b: nat)
    requires a <= b
    ensures a / MILLISECOND <= b / MILLISECOND
  {
  }

  /** A request that passed the size preflight never makes the writer's serialization fail. */
  lemma PreflightProtectsWriter(rest: RequestFrame -> nat, frame: RequestFrame, brokerDeadline: nat, at: nat, now: nat)
    requires Preflighted(rest, frame, brokerDeadline, at) && at <= now
    ensures Serializes(RequestSize(rest, frame, DeadlineMs(brokerDeadline, now)), MAX_PRODUCT_REQUEST_BYTES)
  {
    DeadlineShrinks(brokerDeadline, at, now);
    Decimal.NumeralLengthMonotone(DeadlineMs(brokerDeadline, now), DeadlineMs(brokerDeadline, at));
  }

  // ---------------------------------------------------------------- request

  /** The frame, with the deadline it would carry at once, is at most 768 KiB long. */
  predicate WithinLimit(rest: RequestFrame -> nat, frame: RequestFrame, started: nat, acquiredAt: nat) {
    rest(frame) + |Decimal.Numeral(DeadlineMs(started + 30_000_000_000, acquiredAt))| <= 786_432
  }

  /** The part of `request` up to the queue: `acquiredAt` is when the in-flight permit came. */
  method PrepareRequest(
    lifecycle: RequestLifecycle, rest: RequestFrame -> nat, ready: bool, readyStill: bool,
    started: nat, acquiredAt: nat, frame: RequestFrame, waiter: Waiter)
    returns (result: Result<NativeWriterMessage, InfrastructureError>)
    requires lifecycle.Valid() && started <= acquiredAt
    modifies lifecycle
    ensures lifecycle.Valid()
    ensures result.Failure? ==> lifecycle.State() == old(lifecycle.State())
    ensures result == Failure(NotReady) <==> !ready || !readyStill
    ensures result == Failure(NoCapacity) <==> ready && readyStill && acquiredAt >= started + 29_000_000_000
    ensures result == Failure(TooLarge) <==>
      ready && readyStill && acquiredAt < started + 29_000_000_000 && !WithinLimit(rest, frame, started, acquiredAt)
    ensures result.Success? <==>
      && ready && readyStill && acquiredAt < started + 29_000_000_000 && WithinLimit(rest, frame, started, acquiredAt)
      && frame.requestId !in old(lifecycle.active) && frame.requestId !in old(lifecycle.terminal)
    ensures result.Success? ==>
      && result.value == Request(frame, started + 30_000_000_000)
      && Preflighted(rest, frame, result.value.brokerDeadline, acquiredAt)
      && lifecycle.State() == Registered(old(lifecycle.State()), frame.requestId, frame.method_, waiter)
      && Claimable(lifecycle.State(), frame.requestId)
  {
    if !ready { return Failure(NotReady); }
    var deadline := started + BROWSER_REQUEST_DEADLINE;
    if !readyStill { return Failure(NotReady); }
    var budget := ExtensionBudget(deadline, acquiredAt);
    if budget == 0 { return Failure(NoCapacity); }
    var deadlineMs := DeadlineMs(deadline, acquiredAt);
    if !Serializes(RequestSize(rest, frame, deadlineMs), MAX_PRODUCT_REQUEST_BYTES) { return Failure(TooLarge); }
    var registered := lifecycle.Register(frame.requestId, frame.method_, waiter);
    if !registered { return Failure(IdCollision); }
    return Success(Request(frame, deadline));
  }

  // ---------------------------------------------------------------- the writer

  /** A payload within Chrome's limit, or a request preflighted no later than now. */
  ghost predicate Queueable(rest: RequestFrame -> nat, message: NativeWriterMessage, now: nat) {
    match message
    case Payload(size) => size <= MAX_HOST_TO_CHROME_BYTES
    case Request(frame, brokerDeadline) => exists at :: 0 <= at <= now && Preflighted(rest, frame, brokerDeadline, at)
  }

  /** The writer dispatches a request exactly if Chrome is ready, a millisecond is left and its frame is still queued. */
  ghost predicate Dispatches(r: Records, message: NativeWriterMessage, now: nat, ready: bool) {
    message.Request? && ready && now + 1_001_000_000 <= message.brokerDeadline && Claimable(r, message.frame.requestId)
  }

  /** A frame goes out through Dispatching to Dispatched. */
  function Sent(r: Records, id: string): Records {
    WithPhase(WithPhase(r, id, Queued, Dispatching), id, Dispatching, RequestPhase.Dispatched)
  }

  /** What was written for a request: its frame, in time. */
  ghost predicate InTime(written: Written, message: NativeWriterMessage, now: nat) {
    match written
    case WrittenPayload(size) => message == Payload(size)
    case WrittenRequest(frame, deadlineMs) =>
      && message.Request? && message.frame == frame && IsLongest(deadlineMs, message.brokerDeadline, now)
  }

  function WrittenSize(rest: RequestFrame -> nat, written: Written): nat {
    match written
    case WrittenPayload(size) => size
    case WrittenRequest(frame, deadlineMs) => rest(frame) + |Decimal.Numeral(deadlineMs)|
  }

  /** One round of the writer's loop.  It cannot fail to serialize, so it cannot end the broker. */
  method WriteOne(
    lifecycle: RequestLifecycle, rest: RequestFrame -> nat, message: NativeWriterMessage, now: nat, ready: bool)
    returns (ok: bool, written: Option<Written>, outcome: Option<WriterOutcome>)
    requires lifecycle.Valid() && Queueable(rest, message, now)
    modifies lifecycle
    ensures lifecycle.Valid() && ok
    ensures message.Payload? ==> written == Some(WrittenPayload(message.size)) && outcome == None
    ensures message.Request? ==>
      && (outcome == Some(WriterOutcome.Dispatched) <==> Dispatches(old(lifecycle.State()), message, now, ready))
      && (outcome == Some(Expired) <==> ready && now + 1_001_000_000 > message.brokerDeadline)
      && outcome.Some?
      && (written.Some? <==> outcome == Some(WriterOutcome.Dispatched))
      && (written.Some? ==>
            && written.value.WrittenRequest? && written.value.frame == message.frame
            && WrittenSize(rest, written.value) <= 786_432)
    ensures written.Some? ==> InTime(written.value, message, now)
    ensures lifecycle.State() ==
      if Dispatches(old(lifecycle.State()), message, now, ready) then Sent(old(lifecycle.State()), message.frame.requestId)
      else old(lifecycle.State())
  {
    match message
    case Payload(size) =>
      return true, Some(WrittenPayload(size)), None;
    case Request(frame, brokerDeadline) =>
      DeadlineIsLongest(brokerDeadline, now);
      if !ready { return true, None, Some(Cancelled); }
      var budget := ExtensionBudget(brokerDeadline, now);
      if budget == 0 { return true, None, Some(Expired); }
      var deadlineMs := DeadlineMs(brokerDeadline, now);
      if deadlineMs == 0 { return true, None, Some(Expired); }
      var claimed := lifecycle.BeginDispatch(frame.requestId);
      if !claimed { return true, None, Some(Cancelled); }
      ghost var at :| 0 <= at <= now && Preflighted(rest, frame, brokerDeadline, at);
      PreflightProtectsWriter(rest, frame, brokerDeadline, at, now);
      ok := Serializes(RequestSize(rest, frame, deadlineMs), MAX_PRODUCT_REQUEST_BYTES);
      if ok {
        written := Some(WrittenRequest(frame, deadlineMs));
        lifecycle.MarkDispatched(frame.requestId);
        outcome := Some(WriterOutcome.Dispatched);
      } else {
        written, outcome := None, None;
      }
  }

  /** The clock readings do not run backwards, and every message was preflighted before it is handled. */
  ghost predicate QueueOk(rest: RequestFrame -> nat, queue: seq<NativeWriterMessage>, times: seq<nat>) {
    && |times| == |queue|
    && (forall i, j :: 0 <= i <= j < |times| ==> times[i] <= times[j])
    && forall i :: 0 <= i < |queue| ==> Queueable(rest, queue[i], times[i])
  }

  ghost predicate WrittenOnce(output: seq<Written>) {
    forall i, j :: 0 <= i < j < |output| && output[i].WrittenRequest? && output[j].WrittenRequest? ==>
      output[i].frame.requestId != output[j].frame.requestId
  }

  /** `sources[k]` is the message that output k came from. */
  ghost predicate ComesFrom(queue: seq<NativeWriterMessage>, times: seq<nat>, upTo: nat, output: seq<Written>, sources: seq<nat>)
    requires |times| == |queue|
  {
    && |sources| == |output|
    && (forall k :: 0 <= k < |sources| ==> sources[k] < upTo <= |queue| && InTime(output[k], queue[sources[k]], times[sources[k]]))
    && (forall k, l :: 0 <= k < l < |sources| ==> sources[k] < sources[l])
  }

  /** The writer's loop over a queue: it never fails, writes in queue order and in time, and no id twice. */
  method NativeWriter(
    lifecycle: RequestLifecycle, rest: RequestFrame -> nat, queue: seq<NativeWriterMessage>, times: seq<nat>, readiness: seq<bool>)
    returns (ok: bool, output: seq<Written>, ghost sources: seq<nat>)
    requires lifecycle.Valid() && QueueOk(rest, queue, times) && |readiness| == |queue|
    modifies lifecycle
    ensures lifecycle.Valid() && ok
    ensures ComesFrom(queue, times, |queue|, output, sources) && WrittenOnce(output)
    ensures forall i :: 0 <= i < |queue| && queue[i].Payload? ==> i in sources
  {
    output, sources := [], [];
    for i := 0 to |queue|
      invariant lifecycle.Valid()
      invariant ComesFrom(queue, times, i, output, sources) && WrittenOnce(output)
      invariant NoneClaimable(lifecycle.State(), output)
      invariant forall k :: 0 <= k < i && queue[k].Payload? ==> k in sources
    {
      hide ComesFrom, WrittenOnce, QueueOk, DeadlineMs, WithPhase, Claimable, InTime, NoneClaimable, Sent;
      ghost var before := lifecycle.State();
      MessageOk(rest, queue, times, i);
      var written: Option<Written>, outcome: Option<WriterOutcome>;
      ok, written, outcome := WriteOne(lifecycle, rest, queue[i], times[i], readiness[i]);
      if !ok { return; }
      if written.Some? {
        OutputGrows(queue, times, i, output, sources, written.value);
        OutputStaysOnce(before, lifecycle.State(), queue[i], output, written.value);
        output := output + [written.value];
        sources := sources + [i];
      } else {
        OutputStays(queue, times, i, output, sources);
      }
    }
    ok := true;
  }

  ghost predicate NoneClaimable(r: Records, output: seq<Written>) {
    forall k :: 0 <= k < |output| && output[k].WrittenRequest? ==> !Claimable(r, output[k].frame.requestId)
  }

  lemma MessageOk(rest: RequestFrame -> nat, queue: seq<NativeWriterMessage>, times: seq<nat>, i: nat)
    requires QueueOk(rest, queue, times) && i < |queue|
    ensures |times| == |queue| && Queueable(rest, queue[i], times[i])
  {
  }

  lemma OutputGrows(queue: seq<NativeWriterMessage>, times: seq<nat>, i: nat, output: seq<Written>, sources: seq<nat>, written: Written)
    requires |times| == |queue| && i < |queue| && ComesFrom(queue, times, i, output, sources) && InTime(written, queue[i], times[i])
    ensures ComesFrom(queue, times, i + 1, output + [written], sources + [i])
    ensures i in sources + [i] && forall k :: k in sources ==> k in sources + [i]
  {
    hide InTime;
  }

  lemma OutputStays(queue: seq<NativeWriterMessage>, times: seq<nat>, i: nat, output: seq<Written>, sources: seq<nat>)
    requires |times| == |queue| && i < |queue| && ComesFrom(queue, times, i, output, sources)
    ensures ComesFrom(queue, times, i + 1, output, sources)
  {
    hide InTime;
  }

  /** An id written before is no longer claimable, so what is written now has another id. */
  lemma OutputStaysOnce(before: Records, after: Records, message: NativeWriterMessage, output: seq<Written>, written: Written)
    requires WrittenOnce(output) && NoneClaimable(before, output)
    requires message.Payload? ==> written == WrittenPayload(message.size) && after == before
    requires message.Request? ==>
      && written.WrittenRequest? && written.frame == message.frame
      && Claimable(before, message.frame.requestId) && after == Sent(before, message.frame.requestId)
    ensures WrittenOnce(output + [written]) && NoneClaimable(after, output + [written])
  {
    if message.Request? { SentIsNotClaimable(before, message.frame.requestId); }
    hide Claimable, Sent;
  }

  lemma SentIsNotClaimable(r: Records, id: string)
    ensures Claimable(r, id) ==> !Claimable(Sent(r, id), id)
    ensures forall other :: other != id ==> (Claimable(Sent(r, id), other) <==> Claimable(r, other))
  {
  }
}

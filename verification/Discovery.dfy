/** Telling listeners that the tool list changed: two locks and a channel that holds one token. */
module Discovery {
  import opened Wrappers

  type Id = nat

  // ---------------------------------------------------------------- the protocol

  /** A notify_tool_list_changed call after the discovery was replaced: before and after it took the list. */
  datatype Publisher = Updated | Notifying(pending: set<Id>)

  /** A register_tool_list_notifier call after the list insertion: before and after it looked at the discovery. */
  datatype Registrar = Inserted(id: Id) | Looked(id: Id, ready: bool)

  /** `discovery` is None for the default snapshot and Some(n) for the n-th connected one.  `woken` listeners
      have taken a token and not read again yet. */
  datatype State = State(
    discovery: Option<nat>, published: nat,
    listed: set<Id>, alive: set<Id>, tokens: set<Id>, woken: set<Id>, lastRead: map<Id, Option<nat>>,
    publishers: map<nat, Publisher>, registrars: map<nat, Registrar>)

  const INITIAL := State(None, 0, {}, {}, {}, {}, map[], map[], map[])

  datatype Event =
    | Create(id: Id)                     // a client gets its notifier; it has seen nothing but the default
    | Publish(call: nat)                 // connect and apply_capabilities, under the state lock
    | TakeList(call: nat)                // ... then the notifier list, under its own lock
    | NotifyOne(call: nat, id: Id)
    | PublishDone(call: nat)
    | Clear                              // BrokerRuntime::clear, called at broker shutdown: notifies nobody
    | RegisterInsert(call: nat, id: Id)
    | RegisterLook(call: nat)
    | RegisterDone(call: nat)
    | Receive(id: Id)
    | Read(id: Id)
    | Drop(id: Id)

  predicate Enabled(s: State, event: Event) {
    match event
    case Create(id) => id !in s.lastRead
    case Publish(call) => call !in s.publishers
    case TakeList(call) => call in s.publishers && s.publishers[call].Updated?
    case NotifyOne(call, id) => call in s.publishers && s.publishers[call].Notifying? && id in s.publishers[call].pending
    case PublishDone(call) => call in s.publishers && s.publishers[call] == Notifying({})
    case Clear => true
    case RegisterInsert(call, id) => call !in s.registrars && id in s.alive
    case RegisterLook(call) => call in s.registrars && s.registrars[call].Inserted?
    case RegisterDone(call) => call in s.registrars && s.registrars[call].Looked?
    case Receive(id) => id in s.tokens
    case Read(id) => id in s.alive
    case Drop(id) => id in s.alive
  }

  function Apply(s: State, event: Event): State
    requires Enabled(s, event)
  {
    match event
    case Create(id) => s.(alive := s.alive + {id}, lastRead := s.lastRead[id := None])
    case Publish(call) =>
      s.(discovery := Some(s.published), published := s.published + 1, publishers := s.publishers[call := Updated])
    case TakeList(call) =>
      s.(listed := s.listed * s.alive, publishers := s.publishers[call := Notifying(s.listed * s.alive)])
    case NotifyOne(call, id) =>
      s.(tokens := s.tokens + {id}, publishers := s.publishers[call := Notifying(s.publishers[call].pending - {id})])
    case PublishDone(call) => s.(publishers := s.publishers - {call})
    case Clear => s.(discovery := None)
    case RegisterInsert(call, id) =>
      s.(listed := s.listed * s.alive + {id}, registrars := s.registrars[call := Inserted(id)])
    case RegisterLook(call) =>
      s.(registrars := s.registrars[call := Looked(s.registrars[call].id, s.discovery.Some?)])
    case RegisterDone(call) =>
      var registrar := s.registrars[call];
      s.(tokens := if registrar.ready then s.tokens + {registrar.id} else s.tokens, registrars := s.registrars - {call})
    case Receive(id) => s.(tokens := s.tokens - {id}, woken := s.woken + {id})
    case Read(id) => s.(lastRead := s.lastRead[id := s.discovery], woken := s.woken - {id})
    case Drop(id) => s.(alive := s.alive - {id})
  }

  ghost predicate IsRun(states: seq<State>, events: seq<Event>) {
    && |states| == |events| + 1 && states[0] == INITIAL
    && forall i :: 0 <= i < |events| ==> Enabled(states[i], events[i]) && states[i + 1] == Apply(states[i], events[i])
  }

  // ---------------------------------------------------------------- no lost update

  predicate Listens(s: State, id: Id) { id in s.listed && id in s.alive }

  predicate Stale(s: State, id: Id) { id in s.lastRead && s.lastRead[id] != s.discovery }

  predicate WillNotify(publisher: Publisher, id: Id) { publisher.Updated? || id in publisher.pending }

  predicate WillReplay(registrar: Registrar, id: Id) { registrar == Inserted(id) || registrar == Looked(id, true) }

  /** Something on its way makes the listener read again. */
  ghost predicate Pending(s: State, id: Id) {
    || id in s.tokens
    || id in s.woken
    || (exists call :: call in s.publishers && WillNotify(s.publishers[call], id))
    || (exists call :: call in s.registrars && WillReplay(s.registrars[call], id))
  }

  /** While Chrome is connected, no listener with an old reading is left alone. */
  ghost predicate NoneLost(s: State) {
    && s.listed <= s.lastRead.Keys && s.alive <= s.lastRead.Keys
    && (s.discovery.Some? ==> forall id :: Listens(s, id) && Stale(s, id) ==> Pending(s, id))
  }

  /** A call that would notify the listener still would, or has. */
  lemma PendingKept(s: State, event: Event, id: Id)
    requires Enabled(s, event) && Pending(s, id) && Listens(Apply(s, event), id)
    requires event != Read(id) && (event.RegisterLook? ==> s.discovery.Some?)
    requires Listens(s, id) || !event.TakeList?
    ensures Pending(Apply(s, event), id)
  {
    var t := Apply(s, event);
    if id in s.tokens || id in s.woken {
    } else if call :| call in s.publishers && WillNotify(s.publishers[call], id) {
      if id !in t.tokens { assert call in t.publishers && WillNotify(t.publishers[call], id); }
    } else {
      var call :| call in s.registrars && WillReplay(s.registrars[call], id);
      if id !in t.tokens { assert call in t.registrars && WillReplay(t.registrars[call], id); }
    }
  }

  lemma StepKeepsNoneLost(s: State, event: Event)
    requires NoneLost(s) && Enabled(s, event)
    ensures NoneLost(Apply(s, event))
  {
    var t := Apply(s, event);
    if t.discovery.Some? {
      forall id | Listens(t, id) && Stale(t, id) ensures Pending(t, id) {
        match event
        case Publish(call) => assert WillNotify(t.publishers[call], id);
        case RegisterInsert(call, inserted) =>
          if id == inserted { assert WillReplay(t.registrars[call], id); } else { PendingKept(s, event, id); }
        case _ => PendingKept(s, event, id);
      }
    }
  }

  /** In every interleaving of publishers, registrars and listeners no update is lost, although tokens coalesce. */
  lemma {:induction false} NoLostUpdate(states: seq<State>, events: seq<Event>, i: nat)
    requires IsRun(states, events) && i < |states|
    ensures NoneLost(states[i])
  {
    hide NoneLost, Apply, Enabled;
    if i == 0 {
      NothingLostAtFirst();
    } else {
      NoLostUpdate(states, events, i - 1);
      StepKeepsNoneLost(states[i - 1], events[i - 1]);
    }
  }

  lemma NothingLostAtFirst()
    ensures NoneLost(INITIAL)
  {
  }

  /** Once everything has settled, every registered listener has read the discovery that is current. */
  lemma SettledListenersAreCurrent(states: seq<State>, events: seq<Event>, i: nat, id: Id)
    requires IsRun(states, events) && i < |states| && Listens(states[i], id)
    requires var s := states[i];
      s.discovery.Some? && s.tokens == {} && s.woken == {} && s.publishers == map[] && s.registrars == map[]
    ensures !Stale(states[i], id)
  {
    NoLostUpdate(states, events, i);
    hide IsRun;
  }

  /** What publishers, registrars and listeners do by themselves once they have started. */
  predicate IsOwnEvent(s: State, event: Event) {
    || event.TakeList? || event.NotifyOne? || event.PublishDone? || event.RegisterLook? || event.RegisterDone?
    || event.Receive? || (event.Read? && event.id in s.woken)
  }

  /** What is on its way to a listener can always go on. */
  lemma PendingCanGoOn(s: State, id: Id) returns (event: Event)
    requires Pending(s, id) && id in s.alive
    ensures Enabled(s, event) && IsOwnEvent(s, event)
  {
    if id in s.tokens {
      event := Event.Receive(id);
    } else if id in s.woken {
      event := Event.Read(id);
    } else if call :| call in s.publishers && WillNotify(s.publishers[call], id) {
      event := if s.publishers[call].Updated? then TakeList(call) else NotifyOne(call, id);
    } else {
      var call :| call in s.registrars && WillReplay(s.registrars[call], id);
      event := if s.registrars[call].Inserted? then RegisterLook(call) else RegisterDone(call);
    }
  }

  /** Nothing waits for ever: where none of them can go on, every registered listener has read the current discovery. */
  lemma StillMeansCurrent(states: seq<State>, events: seq<Event>, i: nat, id: Id)
    requires IsRun(states, events) && i < |states| && Listens(states[i], id) && states[i].discovery.Some?
    requires forall event :: Enabled(states[i], event) ==> !IsOwnEvent(states[i], event)
    ensures id in states[i].lastRead && states[i].lastRead[id] == states[i].discovery
  {
    NoLostUpdate(states, events, i);
    hide IsRun, Apply, Enabled, IsOwnEvent;
    if Pending(states[i], id) { var event := PendingCanGoOn(states[i], id); }
  }

  // ---------------------------------------------------------------- where it stops

  /** Of the ways to replace the discovery, exactly those other than clear reach a listener that is idle. */
  lemma ClearAloneIsSilent(s: State, event: Event, id: Id)
    requires Enabled(s, event) && (event.Publish? || event.Clear?)
    requires Listens(s, id) && !Pending(s, id) && id in s.lastRead && s.lastRead[id] == s.discovery
    requires s.discovery.Some? && s.discovery.value < s.published
    ensures Stale(Apply(s, event), id)
    ensures Pending(Apply(s, event), id) <==> !event.Clear?
  {
    var t := Apply(s, event);
    if event.Publish? { assert WillNotify(t.publishers[event.call], id); }
  }

  // A client registers, is told of a connection, reads it, and is not told of the disconnection.

  function DisconnectionEvent(i: nat): Event {
    match i
    case 0 => Create(0)
    case 1 => RegisterInsert(0, 0)
    case 2 => RegisterLook(0)
    case 3 => RegisterDone(0)
    case 4 => Publish(0)
    case 5 => TakeList(0)
    case 6 => NotifyOne(0, 0)
    case 7 => PublishDone(0)
    case 8 => Receive(0)
    case 9 => Read(0)
    case _ => Clear
  }

  function DisconnectionState(i: nat): State {
    var one: set<Id> := {0};
    var unread, read := map[0 := None], map[0 := Some(0)];
    match i
    case 0 => INITIAL
    case 1 => State(None, 0, {}, one, {}, {}, unread, map[], map[])
    case 2 => State(None, 0, one, one, {}, {}, unread, map[], map[0 := Inserted(0)])
    case 3 => State(None, 0, one, one, {}, {}, unread, map[], map[0 := Looked(0, false)])
    case 4 => State(None, 0, one, one, {}, {}, unread, map[], map[])
    case 5 => State(Some(0), 1, one, one, {}, {}, unread, map[0 := Updated], map[])
    case 6 => State(Some(0), 1, one, one, {}, {}, unread, map[0 := Notifying(one)], map[])
    case 7 => State(Some(0), 1, one, one, one, {}, unread, map[0 := Notifying({})], map[])
    case 8 => State(Some(0), 1, one, one, one, {}, unread, map[], map[])
    case 9 => State(Some(0), 1, one, one, {}, one, unread, map[], map[])
    case 10 => State(Some(0), 1, one, one, {}, {}, read, map[], map[])
    case _ => State(None, 1, one, one, {}, {}, read, map[], map[])
  }

  ghost predicate DisconnectionStep(i: nat) {
    && Enabled(DisconnectionState(i), DisconnectionEvent(i))
    && DisconnectionState(i + 1) == Apply(DisconnectionState(i), DisconnectionEvent(i))
  }

  lemma ClientRegisters()
    ensures DisconnectionStep(0) && DisconnectionStep(1) && DisconnectionStep(2) && DisconnectionStep(3)
  {
  }

  lemma ClientIsNotified()
    ensures DisconnectionStep(4) && DisconnectionStep(5) && DisconnectionStep(6) && DisconnectionStep(7)
  {
    var one: set<Id> := {0};
    assert one * one == one && one - one == {} && {} + one == one;
  }

  lemma ClientReads()
    ensures DisconnectionStep(8) && DisconnectionStep(9) && DisconnectionStep(10)
  {
    var one: set<Id> := {0};
    assert one - one == {} && {} + one == one;
  }

  lemma DisconnectionSteps(i: nat)
    requires i < 11
    ensures DisconnectionStep(i)
  {
    ClientRegisters();
    ClientIsNotified();
    ClientReads();
    hide DisconnectionStep;
  }

  lemma DisconnectionEnds()
    ensures DisconnectionState(0) == INITIAL
    ensures var s := DisconnectionState(11);
      Listens(s, 0) && Stale(s, 0) && !Pending(s, 0) && s.publishers == map[] && s.registrars == map[]
  {
  }

  /** A run in which a listener ends up with an old reading and nothing on its way: clear tells nobody. */
  lemma DisconnectionIsSilent() returns (states: seq<State>, events: seq<Event>)
    ensures IsRun(states, events)
    ensures var s := states[|states| - 1];
      Listens(s, 0) && Stale(s, 0) && !Pending(s, 0) && s.publishers == map[] && s.registrars == map[]
  {
    hide *;
    states, events := seq(12, i requires 0 <= i < 12 => DisconnectionState(i)), seq(11, i requires 0 <= i < 11 => DisconnectionEvent(i));
    DisconnectionEnds();
    forall i | 0 <= i < 11 ensures DisconnectionStep(i) { DisconnectionSteps(i); }
    StepsAreRun(states, events);
  }

  lemma StepsAreRun(states: seq<State>, events: seq<Event>)
    requires |states| == |events| + 1 && states[0] == INITIAL
    requires forall i :: 0 <= i < |states| ==> states[i] == DisconnectionState(i)
    requires forall i :: 0 <= i < |events| ==> events[i] == DisconnectionEvent(i) && DisconnectionStep(i)
    ensures IsRun(states, events)
  {
    hide Apply, Enabled, DisconnectionState, DisconnectionEvent;
    forall i | 0 <= i < |events| ensures Enabled(states[i], events[i]) && states[i + 1] == Apply(states[i], events[i]) {
      assert DisconnectionStep(i) && states[i] == DisconnectionState(i) && states[i + 1] == DisconnectionState(i + 1);
    }
  }

  /** Whatever happens, a listener left alone with an old reading is one a disconnection left behind. */
  lemma OnlyDisconnectionsAreMissed(states: seq<State>, events: seq<Event>, i: nat, id: Id)
    requires IsRun(states, events) && i < |states| && Listens(states[i], id) && Stale(states[i], id) && !Pending(states[i], id)
    ensures states[i].discovery.None? && states[i].lastRead[id].Some?
    ensures exists k :: 0 <= k < i && events[k].Clear? && forall m :: k < m < i ==> !events[m].Publish?
  {
    NoLostUpdate(states, events, i);
    hide NoneLost, Pending;
    assert NoneLost(states[i]) && !Pending(states[i], id);
    LastReadPublished(states, events, i, id);
    ClearedBefore(states, events, i);
  }

  ghost predicate ReadsPublished(s: State) {
    && (s.discovery.Some? ==> s.discovery.value < s.published)
    && forall id :: id in s.lastRead && s.lastRead[id].Some? ==> s.lastRead[id].value < s.published
  }

  lemma {:induction false} LastReadPublished(states: seq<State>, events: seq<Event>, i: nat, id: Id)
    requires IsRun(states, events) && i < |states|
    ensures ReadsPublished(states[i])
  {
    if i > 0 {
      LastReadPublished(states, events, i - 1, id);
      assert states[i] == Apply(states[i - 1], events[i - 1]);
    }
  }

  /** A default discovery after a publication was put there by clear. */
  lemma {:induction false} ClearedBefore(states: seq<State>, events: seq<Event>, i: nat)
    requires IsRun(states, events) && i < |states|
    ensures states[i].discovery.None? && states[i].published > 0 ==>
      exists k :: 0 <= k < i && events[k].Clear? && forall m :: k < m < i ==> !events[m].Publish?
  {
    if i > 0 {
      ClearedBefore(states, events, i - 1);
      assert states[i] == Apply(states[i - 1], events[i - 1]);
      if states[i].discovery.None? && states[i].published > 0 && !events[i - 1].Clear? {
        var k :| 0 <= k < i - 1 && events[k].Clear? && forall m :: k < m < i - 1 ==> !events[m].Publish?;
        assert forall m :: k < m < i ==> !events[m].Publish?;
      }
    }
  }
}

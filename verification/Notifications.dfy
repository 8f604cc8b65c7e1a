/** The runtime's discovery and notifier list in place: each call, left alone, is a run of the protocol's steps. */
module Notifications {
  import opened Wrappers
  import opened Discovery

  /** The steps `events` lead from `s` through `states` to `t`. */
  ghost predicate Leads(s: State, states: seq<State>, events: seq<Event>, t: State) {
    && |states| == |events| + 1 && states[0] == s && states[|events|] == t
    && forall i :: 0 <= i < |events| ==> Enabled(states[i], events[i]) && states[i + 1] == Apply(states[i], events[i])
  }

  lemma LeadsOn(s: State, states: seq<State>, events: seq<Event>, t: State, event: Event, u: State)
    requires Leads(s, states, events, t) && Enabled(t, event) && u == Apply(t, event)
    ensures Leads(s, states + [u], events + [event], u)
  {
    hide Enabled, Apply;
  }

  function Living(ids: seq<Id>, alive: set<Id>): seq<Id> {
    if ids == [] then []
    else if ids[|ids| - 1] in alive then Living(ids[..|ids| - 1], alive) + [ids[|ids| - 1]]
    else Living(ids[..|ids| - 1], alive)
  }

  function Ids(ids: seq<Id>): set<Id> {
    set id | id in ids
  }

  ghost predicate NoRepeats(ids: seq<Id>) {
    forall i, j :: 0 <= i < j < |ids| ==> ids[i] != ids[j]
  }

  lemma IdsPush(ids: seq<Id>, id: Id)
    ensures Ids(ids + [id]) == Ids(ids) + {id}
  {
  }

  lemma {:induction false} LivingAre(ids: seq<Id>, alive: set<Id>)
    ensures Ids(Living(ids, alive)) == Ids(ids) * alive
    ensures NoRepeats(ids) ==> NoRepeats(Living(ids, alive))
  {
    if ids != [] {
      var front, last := ids[..|ids| - 1], ids[|ids| - 1];
      var kept := Living(front, alive);
      LivingAre(front, alive);
      assert ids == front + [last];
      IdsPush(front, last);
      IdsPush(kept, last);
      if NoRepeats(ids) { NotAmong(front, last); }
      hide Ids, Living;
      if last !in Ids(kept) { PushDistinct(kept, last); }
    }
  }

  lemma NotAmong(front: seq<Id>, last: Id)
    requires NoRepeats(front + [last])
    ensures last !in Ids(front) && NoRepeats(front)
  {
    var ids := front + [last];
    forall i | 0 <= i < |front| ensures front[i] != last { assert ids[i] != ids[|front|]; }
    forall i, j | 0 <= i < j < |front| ensures front[i] != front[j] { assert ids[i] != ids[j]; }
  }

  lemma PushDistinct(ids: seq<Id>, id: Id)
    requires id !in Ids(ids)
    ensures NoRepeats(ids) ==> NoRepeats(ids + [id])
    ensures Ids(ids + [id]) == Ids(ids) + {id}
  {
    forall i | 0 <= i < |ids| ensures ids[i] != id { assert ids[i] in Ids(ids); }
  }

  class DiscoveryRuntime {
    var discovery: Option<nat>
    var published: nat
    var notifiers: seq<Id>    // weak pointers, in the order of registration
    var alive: set<Id>        // notifiers that somebody still holds
    var tokens: set<Id>       // notifiers whose channel is full
    ghost var woken: set<Id>
    ghost var lastRead: map<Id, Option<nat>>

    ghost function Model(): State
      reads this
    {
      State(discovery, published, Ids(notifiers), alive, tokens, woken, lastRead, map[], map[])
    }

    /** No notifier is listed twice. */
    ghost predicate Valid()
      reads this
    {
      NoRepeats(notifiers)
    }

    constructor ()
      ensures Valid() && Model() == INITIAL
    {
      discovery, published, notifiers, alive, tokens, woken, lastRead := None, 0, [], {}, {}, {}, map[];
    }

    /** The list without notifiers nobody holds any more. */
    method Retain()
      requires Valid()
      modifies `notifiers
      ensures Valid() && notifiers == Living(old(notifiers), alive)
      ensures Ids(notifiers) == Ids(old(notifiers)) * alive
    {
      var kept: seq<Id> := [];
      for i := 0 to |notifiers|
        invariant kept == Living(notifiers[..i], alive)
      {
        assert notifiers[..i + 1][..i] == notifiers[..i];
        if notifiers[i] in alive { kept := kept + [notifiers[i]]; }
      }
      assert notifiers[..|notifiers|] == notifiers;
      LivingAre(notifiers, alive);
      notifiers := kept;
    }

    /** connect, or apply_capabilities with a newer revision: the discovery first, then everybody on the list. */
    method Publish() returns (ghost states: seq<State>, ghost events: seq<Event>)
      requires Valid()
      modifies this
      ensures Valid() && Leads(old(Model()), states, events, Model())
      ensures discovery == Some(old(published)) && alive == old(alive)
      ensures tokens == old(tokens) + Ids(old(notifiers)) * alive
    {
      ghost var start := Model();
      discovery, published := Some(published), published + 1;
      ghost var now := Model().(publishers := map[0 := Updated]);
      states, events := [start], [];
      LeadsOn(start, states, events, start, Event.Publish(0), now);
      states, events := states + [now], events + [Event.Publish(0)];
      Retain();
      states, events, now := NotifyAll(start, states, events, now);
      LeadsOn(start, states, events, now, PublishDone(0), Model());
      states, events := states + [Model()], events + [PublishDone(0)];
    }

    /** notify_tool_list_changed, once the list is its own: a full channel keeps the token it has. */
    method NotifyAll(ghost start: State, ghost states0: seq<State>, ghost events0: seq<Event>, ghost now0: State)
      returns (ghost states: seq<State>, ghost events: seq<Event>, ghost now: State)
      requires Valid() && Leads(start, states0, events0, now0)
      requires now0 == Model().(listed := now0.listed, publishers := map[0 := Updated]) && Ids(notifiers) == now0.listed * alive
      modifies `tokens
      ensures Leads(start, states, events, now) && now == Model().(publishers := map[0 := Notifying({})])
      ensures tokens == old(tokens) + Ids(notifiers)
    {
      ghost var pending := Ids(notifiers);
      now := Model().(publishers := map[0 := Notifying(pending)]);
      LeadsOn(start, states0, events0, now0, TakeList(0), now);
      states, events := states0 + [now], events0 + [TakeList(0)];
      for i := 0 to |notifiers|
        invariant pending == Ids(notifiers[i..]) && tokens == old(tokens) + Ids(notifiers[..i])
        invariant Leads(start, states, events, now) && now == Model().(publishers := map[0 := Notifying(pending)])
      {
        var id := notifiers[i];
        NextNotified(notifiers, i);
        tokens := tokens + {id};
        pending := pending - {id};
        ghost var next := Model().(publishers := map[0 := Notifying(pending)]);
        LeadsOn(start, states, events, now, NotifyOne(0, id), next);
        states, events, now := states + [next], events + [NotifyOne(0, id)], next;
      }
      assert notifiers[..|notifiers|] == notifiers && notifiers[|notifiers|..] == [];
      assert pending == {};
    }

    /** register_tool_list_notifier: the list first, then a look at the discovery. */
    method Register(id: Id) returns (ghost states: seq<State>, ghost events: seq<Event>)
      requires Valid() && id in alive
      modifies `notifiers, `tokens
      ensures Valid() && Leads(old(Model()), states, events, Model())
      ensures id in notifiers && (discovery.Some? ==> id in tokens)
    {
      ghost var start := Model();
      Retain();
      if id !in notifiers {
        PushDistinct(notifiers, id);
        notifiers := notifiers + [id];
      }
      assert Ids(notifiers) == start.listed * alive + {id};
      if discovery.Some? { tokens := tokens + {id}; }
      states, events := RegistrationLeads(start, id, Model());
    }

    /** The discovery part of clear: nobody is notified. */
    method Clear()
      modifies `discovery
      ensures Model() == Apply(old(Model()), Event.Clear)
    {
      discovery := None;
    }

    /** A listener takes its token, if there is one. */
    method Receive(id: Id) returns (received: bool)
      modifies `tokens, `woken
      ensures received <==> Enabled(old(Model()), Event.Receive(id))
      ensures Model() == if received then Apply(old(Model()), Event.Receive(id)) else old(Model())
    {
      received := id in tokens;
      if received {
        tokens := tokens - {id};
        woken := woken + {id};
      }
    }
  }

  /** A registration left alone: listed, then replayed to if a browser is connected. */
  lemma RegistrationLeads(start: State, id: Id, end: State) returns (states: seq<State>, events: seq<Event>)
    requires start.registrars == map[] && id in start.alive
    requires end == start.(listed := start.listed * start.alive + {id}, tokens := if start.discovery.Some? then start.tokens + {id} else start.tokens)
    ensures Leads(start, states, events, end)
  {
    var inserted := start.(listed := end.listed, registrars := map[0 := Inserted(id)]);
    var looked := inserted.(registrars := map[0 := Looked(id, start.discovery.Some?)]);
    RegistrationSteps(start, id, inserted, looked, end);
    states, events := [start], [];
    hide Enabled, Apply;
    LeadsOn(start, states, events, start, RegisterInsert(0, id), inserted);
    states, events := states + [inserted], events + [RegisterInsert(0, id)];
    LeadsOn(start, states, events, inserted, RegisterLook(0), looked);
    states, events := states + [looked], events + [RegisterLook(0)];
    LeadsOn(start, states, events, looked, RegisterDone(0), end);
    states, events := states + [end], events + [RegisterDone(0)];
  }

  lemma RegistrationSteps(start: State, id: Id, inserted: State, looked: State, end: State)
    requires start.registrars == map[] && id in start.alive
    requires inserted == start.(listed := start.listed * start.alive + {id}, registrars := map[0 := Inserted(id)])
    requires looked == inserted.(registrars := map[0 := Looked(id, start.discovery.Some?)])
    requires end == inserted.(registrars := map[], tokens := if start.discovery.Some? then start.tokens + {id} else start.tokens)
    ensures Enabled(start, RegisterInsert(0, id)) && inserted == Apply(start, RegisterInsert(0, id))
    ensures Enabled(inserted, RegisterLook(0)) && looked == Apply(inserted, RegisterLook(0))
    ensures Enabled(looked, RegisterDone(0)) && end == Apply(looked, RegisterDone(0))
  {
  }

  lemma NextNotified(ids: seq<Id>, i: nat)
    requires NoRepeats(ids) && i < |ids|
    ensures ids[i] in Ids(ids[i..]) && Ids(ids[i + 1..]) == Ids(ids[i..]) - {ids[i]}
    ensures Ids(ids[..i + 1]) == Ids(ids[..i]) + {ids[i]}
  {
    assert ids[i..] == [ids[i]] + ids[i + 1..];
    assert ids[..i + 1] == ids[..i] + [ids[i]];
    assert ids[i] !in ids[i + 1..];
  }
}

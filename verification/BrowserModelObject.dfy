/** The browser model object itself, method by method. */
module BrowserModelObject {
  import opened Wrappers
  import opened BrowserModels

  /** What snapshot() returns, without the caller's browser instance id and the clock. */
  datatype Snapshot = Snapshot(modelRevision: nat, support: Support, records: Records)

  class BrowserModel {
    var keys: PerKind<KeyMap>
    var forceNewIds: PerKind<set<int>>
    var issued: Name
    var eventGeneration: nat
    var reconciledGeneration: int
    var reconciliation: Reconciliation
    var records: Option<Records>
    var support: Support
    var modelRevision: nat

    ghost function Keyed(): Keying
      reads this
    {
      Keying(keys, forceNewIds, issued)
    }

    ghost function Abstract(): State
      reads this
    {
      State(Keyed(), eventGeneration, reconciledGeneration, reconciliation, records, support, modelRevision)
    }

    ghost predicate Valid()
      reads this
    {
      KeysIssued(keys, issued)
    }

    constructor ()
      ensures Valid() && Abstract() == INITIAL
    {
      keys, forceNewIds, issued := PerKind(map[], map[], map[]), PerKind({}, {}, {}), 0;
      eventGeneration, reconciledGeneration := 0, -1;
      reconciliation := Reading(0);
      records, support, modelRevision := None, Support(false, false), 0;
    }

    method StartReconcile()
      modifies this
      ensures Abstract() == Reconcile(old(Abstract()))
    {
      if !reconciliation.Idle? { return; }
      if records.Some? && reconciledGeneration == eventGeneration { return; }
      reconciliation := Reading(eventGeneration);
    }

    method MarkDirty()
      modifies this
      ensures Abstract() == AfterEvent(old(Abstract()), Changed)
    {
      eventGeneration := eventGeneration + 1;
      StartReconcile();
    }

    method MarkCreated(kind: Kind, id: Option<int>)
      requires Valid()
      modifies this
      ensures Valid() && Abstract() == AfterEvent(old(Abstract()), Created(kind, id))
    {
      FewerKeys(Keyed(), Created(kind, id));
      if id.Some? {
        keys := keys.With(kind, keys.Of(kind) - {id.value});
        forceNewIds := forceNewIds.With(kind, forceNewIds.Of(kind) + {id.value});
      }
      MarkDirty();
    }

    method MarkRemoved(kind: Kind, id: Option<int>)
      requires Valid()
      modifies this
      ensures Valid() && Abstract() == AfterEvent(old(Abstract()), Removed(kind, id))
    {
      FewerKeys(Keyed(), Removed(kind, id));
      if id.Some? {
        keys := keys.With(kind, keys.Of(kind) - {id.value});
      }
      MarkDirty();
    }

    method OnReplaced(added: int, removed: int)
      requires Valid()
      modifies this
      ensures Valid() && Abstract() == AfterEvent(old(Abstract()), Replaced(added, removed))
    {
      FewerKeys(Keyed(), Replaced(added, removed));
      keys := keys.With(Tabs, keys.tabs - {removed});
      keys := keys.With(Tabs, keys.tabs - {added});
      forceNewIds := forceNewIds.With(Tabs, forceNewIds.tabs + {added});
      MarkDirty();
    }

    method KeyFor(kind: Kind, id: int)
      modifies `keys, `forceNewIds, `issued
      ensures Keyed() == BrowserModels.KeyFor(old(Keyed()), kind, id)
    {
      if id in forceNewIds.Of(kind) {
        forceNewIds := forceNewIds.With(kind, forceNewIds.Of(kind) - {id});
        keys := keys.With(kind, keys.Of(kind) - {id});
      }
      if id !in keys.Of(kind) {
        ForcedAlready(old(Keyed()), kind, id);
        keys := keys.With(kind, keys.Of(kind)[id := issued]);
        issued := issued + 1;
      }
    }

    method PruneKeys(kind: Kind, ids: seq<int>)
      modifies `keys
      ensures keys == old(keys).With(kind, Prune(old(keys).Of(kind), ids))
    {
      var kept := PruneMap(keys.Of(kind), ids);
      keys := keys.With(kind, kept);
    }

    method AssignAll(kind: Kind, ids: seq<int>)
      modifies `keys, `forceNewIds, `issued
      ensures Keyed() == KeysForAll(old(Keyed()), kind, ids)
    {
      for i := 0 to |ids|
        invariant Keyed() == KeysForAll(old(Keyed()), kind, ids[..i])
      {
        assert ids[..i + 1][..i] == ids[..i];
        KeyFor(kind, ids[i]);
      }
      assert ids[..|ids|] == ids;
    }

    method Normalize(source: Source, currentSupport: Support) returns (normalized: Records)
      requires Valid()
      modifies `keys, `forceNewIds, `issued
      ensures Valid() && Keyed() == AssignKeys(old(Keyed()), source)
      ensures KeysCover(keys, source) && normalized == Normalized(keys, currentSupport, source)
    {
      ghost var before := Keyed();
      PruneKeys(Windows, WindowIds(source));
      PruneKeys(Groups, GroupIds(source));
      PruneKeys(Tabs, TabIds(source));
      assert Keyed() == PruneAll(before, source);
      AssignAll(Windows, WindowIds(source));
      AssignAll(Groups, GroupIds(source));
      AssignAll(Tabs, TabIds(source));
      AssignedCovers(before, source);
      AssignedIssued(before, source);
      normalized := Normalized(keys, currentSupport, source);
    }

    method Apply(source: Source) returns (supportChanged: bool)
      requires Valid()
      modifies `keys, `forceNewIds, `issued, `records, `support, `modelRevision
      ensures Valid() && Abstract() == Applied(old(Abstract()), source)
      ensures supportChanged <==> support != old(support)
    {
      var nextSupport := NextSupport(support, source);
      var nextRecords := Normalize(source, nextSupport);
      supportChanged := support != nextSupport;
      if records != Some(nextRecords) {
        records := Some(nextRecords);
        modelRevision := modelRevision + 1;
      }
      support := nextSupport;
    }

    method ReadSettled(source: Option<Source>)
      requires reconciliation.Reading?
      modifies this
      ensures source.Some? ==> Next(old(Abstract()), ReadDone(source.value), Abstract())
      ensures source.None? ==> Next(old(Abstract()), ReadFailed, Abstract())
    {
      reconciliation := if source.Some? then Draining(reconciliation.generation, source.value) else Idle;
    }

    /** From the end of drainEvents to the next await, or to the end of the loop. */
    method ResumeReconcile()
      requires Valid() && reconciliation.Draining?
      modifies this
      ensures Valid() && Next(old(Abstract()), Resume, Abstract())
    {
      var generationAtRead, source := reconciliation.generation, reconciliation.source;
      if generationAtRead == eventGeneration {
        var supportChanged := Apply(source);
        reconciledGeneration := generationAtRead;
      }
      reconciliation := if reconciledGeneration != eventGeneration || records.None? then Reading(eventGeneration) else Idle;
    }

    /** Reads the model at one instant, once a reconciliation has completed. */
    method TakeSnapshot() returns (snapshot: Snapshot)
      requires records.Some?
      ensures snapshot == Snapshot(modelRevision, support, records.value)
    {
      snapshot := Snapshot(modelRevision, support, records.value);
    }
  }

  /** Deletes every key whose id was not reported. */
  method PruneMap(before: KeyMap, ids: seq<int>) returns (kept: KeyMap)
    ensures kept == Prune(before, ids)
  {
    var todo: set<int> := before.Keys;
    kept := before;
    while exists id :: id in todo
      invariant todo <= before.Keys
      invariant forall id :: id in kept <==> id in before && (id in todo || id in ids)
      invariant forall id :: id in kept ==> kept[id] == before[id]
      decreases |todo|
    {
      var id: int :| id in todo;
      todo := todo - {id};
      if id !in ids { kept := kept - {id}; }
    }
    PrunedIs(before, ids, kept);
  }

  lemma PrunedIs(before: KeyMap, ids: seq<int>, kept: KeyMap)
    requires forall id :: id in kept <==> id in before && id in ids
    requires forall id :: id in kept ==> kept[id] == before[id]
    ensures kept == Prune(before, ids)
  {
    var pruned := Prune(before, ids);
    assert forall id :: id in pruned <==> id in kept;
    assert pruned.Keys == kept.Keys;
    assert forall id :: id in pruned ==> pruned[id] == kept[id];
    assert pruned == kept;
  }

  lemma FewerKeys(k: Keying, event: BrowserEvent)
    requires KeysIssued(k.keys, k.issued)
    ensures KeysIssued(KeyingAfter(k, event).keys, k.issued) && KeyingAfter(k, event).issued == k.issued
  {
    var n := KeyingAfter(k, event);
    forall kind: Kind, id | id in n.keys.Of(kind) ensures n.keys.Of(kind)[id] < k.issued {
      assert id in k.keys.Of(kind) && n.keys.Of(kind)[id] == k.keys.Of(kind)[id] by { EventOnlyDrops(k, event, kind, id); }
    }
  }

  lemma EventOnlyDrops(k: Keying, event: BrowserEvent, kind: Kind, id: int)
    requires id in KeyingAfter(k, event).keys.Of(kind)
    ensures id in k.keys.Of(kind) && KeyingAfter(k, event).keys.Of(kind)[id] == k.keys.Of(kind)[id]
  {
  }

  lemma ForcedAlready(k: Keying, kind: Kind, id: int)
    ensures id !in k.forceNewIds.Of(kind) ==> k.forceNewIds.With(kind, k.forceNewIds.Of(kind) - {id}) == k.forceNewIds
    ensures k.keys.With(kind, k.keys.Of(kind) - {id}).With(kind, (k.keys.Of(kind) - {id})[id := k.issued]) == k.keys.With(kind, k.keys.Of(kind)[id := k.issued])
  {
    assert (k.keys.Of(kind) - {id})[id := k.issued] == k.keys.Of(kind)[id := k.issued];
    if id !in k.forceNewIds.Of(kind) { assert k.forceNewIds.Of(kind) - {id} == k.forceNewIds.Of(kind); }
  }

  /** Every name in the key tables was drawn. */
  lemma AssignedIssued(k: Keying, source: Source)
    requires KeysIssued(k.keys, k.issued)
    ensures KeysIssued(AssignKeys(k, source).keys, AssignKeys(k, source).issued)
  {
    AssignKeysAssigns(k, source);
    var n := AssignKeys(k, source);
    hide AssignKeys, WindowIds, GroupIds, TabIds;
    var second: Name, third: Name :|
      && Assigned(k.keys.windows, k.forceNewIds.windows, WindowIds(source), n.keys.windows, n.forceNewIds.windows, k.issued, second)
      && Assigned(k.keys.groups, k.forceNewIds.groups, GroupIds(source), n.keys.groups, n.forceNewIds.groups, second, third)
      && Assigned(k.keys.tabs, k.forceNewIds.tabs, TabIds(source), n.keys.tabs, n.forceNewIds.tabs, third, n.issued);
    forall kind: Kind, id | id in n.keys.Of(kind) ensures n.keys.Of(kind)[id] < n.issued {
      assert id in k.keys.Of(kind) ==> k.keys.Of(kind)[id] < k.issued;
    }
  }
}

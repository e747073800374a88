/**
 * What the registry operations of the newer plugin version do to the invariant that ties
 * the statue map to the reverse index (`StatueRegistry.Linked`).
 */
module RegistryProperties {
  import opened Wrappers
  import opened Host
  import opened StatueRegistry

  /** Under the invariant, distinct registered statues carry distinct ids. */
  lemma LinkedIdsAreDistinct(t: Tables, ids: map<Handle, string>, p: Uuid, n: string, q: Uuid, m: string)
    requires Linked(t, ids)
    requires Get(t.statues, p, n).Some? && Get(t.statues, q, m).Some?
    requires (p, n) != (q, m)
    ensures ids[Get(t.statues, p, n).value] != ids[Get(t.statues, q, m).value]
  {
  }

  /** `removeStatue` keeps the statue map and the reverse index linked. */
  lemma RemoveKeepsLinked(t: Tables, ids: map<Handle, string>, playerId: Uuid, name: string)
    requires Linked(t, ids)
    ensures Linked(AfterRemove(t, ids, playerId, name), ids)
  {
  }

  /**
   * Registering a new entity (one that carries no id yet) under a name that is free, with an
   * id the reverse index does not know, keeps the tables linked once the entity carries it.
   */
  lemma CreateKeepsLinked(t: Tables, ids: map<Handle, string>, playerId: Uuid, name: string, h: Handle, id: string)
    requires Linked(t, ids)
    requires h !in ids && Get(t.statues, playerId, name) == None && id !in t.lookup
    ensures Linked(AfterCreate(t, playerId, name, h, id), ids[h := id])
  {
  }

  /** Under the invariant, a death event removes exactly the statue whose entity carries the id. */
  lemma ReapRemovesCarrier(t: Tables, ids: map<Handle, string>, id: string)
    requires Linked(t, ids) && id in t.lookup
    ensures AfterReap(t, ids, Some(id)) == AfterRemove(t, ids, t.lookup[id].playerId, t.lookup[id].statueName)
  {
  }

  /** `onEntityDeath` keeps the tables linked. */
  lemma ReapKeepsLinked(t: Tables, ids: map<Handle, string>, id: Option<string>)
    requires Linked(t, ids)
    ensures Linked(AfterReap(t, ids, id), ids)
  {
  }

  /** Once a statue has been removed, the death of its entity changes nothing. */
  lemma DeathAfterRemoveIsNoOp(t: Tables, ids: map<Handle, string>, playerId: Uuid, name: string)
    requires Linked(t, ids) && Get(t.statues, playerId, name).Some?
    ensures var after := AfterRemove(t, ids, playerId, name);
      AfterReap(after, ids, IdOf(ids, Get(t.statues, playerId, name).value)) == after
  {
  }

  /**
   * `moveStatue` keeps the tables linked when the freshly generated id was unknown, and the
   * reverse index is then exactly what it was: the re-spawned statue carries the old id.
   */
  lemma MoveKeepsLinked(t: Tables, ids: map<Handle, string>, playerId: Uuid, name: string, h: Handle, newId: string)
    requires Linked(t, ids)
    requires Get(t.statues, playerId, name).Some? && h !in ids
    requires newId !in AfterRemove(t, ids, playerId, name).lookup
    ensures var previous := Get(t.statues, playerId, name).value;
      var after := AfterMove(t, ids, playerId, name, h, newId);
      var ids' := IdsAfterMove(ids, previous, h, newId);
      && Linked(after, ids')
      && after.lookup == t.lookup
      && Get(after.statues, playerId, name) == Some(h)
      && ids'[h] == ids[previous]
  {
    MoveIsAdjust(t, ids, playerId, name, h, newId);
    AdjustKeepsLinked(t, ids, playerId, name, h);
  }

  /**
   * Under the invariant, with a fresh id that the reverse index does not know, a move ends
   * in the same tables as an adjust: the temporary id is gone and the old one is back.
   */
  lemma MoveIsAdjust(t: Tables, ids: map<Handle, string>, playerId: Uuid, name: string, h: Handle, newId: string)
    requires Linked(t, ids)
    requires Get(t.statues, playerId, name).Some?
    requires newId !in AfterRemove(t, ids, playerId, name).lookup
    ensures Get(t.statues, playerId, name).value in ids
    ensures AfterMove(t, ids, playerId, name, h, newId) == AfterAdjust(t, ids, playerId, name, h)
  {
    var removed := AfterRemove(t, ids, playerId, name);
    var created := AfterCreate(removed, playerId, name, h, newId);
    assert created.lookup - {newId} == removed.lookup;
  }

  /** `adjustStatue` keeps the tables linked and leaves the reverse index as it was. */
  lemma AdjustKeepsLinked(t: Tables, ids: map<Handle, string>, playerId: Uuid, name: string, h: Handle)
    requires Linked(t, ids)
    requires Get(t.statues, playerId, name).Some? && h !in ids
    ensures var previous := Get(t.statues, playerId, name).value;
      var after := AfterAdjust(t, ids, playerId, name, h);
      && Linked(after, ids[h := ids[previous]])
      && after.lookup == t.lookup
      && Get(after.statues, playerId, name) == Some(h)
  {
    var previous := Get(t.statues, playerId, name).value;
    var after := AfterAdjust(t, ids, playerId, name, h);
    var ids' := ids[h := ids[previous]];
    assert after.lookup == t.lookup;
    forall p, n | Get(after.statues, p, n).Some?
      ensures var e := Get(after.statues, p, n).value;
        e in ids' && ids'[e] in after.lookup && after.lookup[ids'[e]] == StatueInfo(p, n)
    {
      if (p, n) != (playerId, name) {
        assert Get(after.statues, p, n) == Get(t.statues, p, n);
      }
    }
    forall id | id in after.lookup
      ensures Carries(after.statues, ids', after.lookup[id], id)
    {
      var info := t.lookup[id];
      assert Carries(t.statues, ids, info, id);
      if (info.playerId, info.statueName) != (playerId, name) {
        assert Get(after.statues, info.playerId, info.statueName) == Get(t.statues, info.playerId, info.statueName);
      }
    }
  }

  /** Under the invariant, `removeAllStatues` leaves both tables empty. */
  lemma ClearEmptiesLookup(t: Tables, ids: map<Handle, string>)
    requires Linked(t, ids)
    ensures AfterClear(t, ids).lookup == map[]
    ensures Linked(AfterClear(t, ids), ids)
  {
  }

  /**
   * The delete command as written, on the unloaded-chunk path: the statue is no longer
   * registered but its id still maps to its (owner, name), so the tables are no longer linked.
   */
  lemma UnloadedDeleteUnlinks(t: Tables, ids: map<Handle, string>, playerId: Uuid, name: string)
    requires Linked(t, ids) && Get(t.statues, playerId, name).Some?
    ensures !Linked(AfterUnloadedDelete(t, playerId, name), ids)
  {
  }

  /**
   * The consequence: after an unloaded-chunk delete and a re-creation of the same name, the
   * death of the old, forgotten entity unregisters the new statue, whose entity stays in the
   * world with nothing pointing at it.
   */
  lemma OrphanDeathUnregistersSuccessor(t: Tables, ids: map<Handle, string>, playerId: Uuid, name: string, h: Handle, newId: string)
    requires Linked(t, ids) && Get(t.statues, playerId, name).Some?
    requires h !in ids && newId !in t.lookup
    ensures var previous := Get(t.statues, playerId, name).value;
      var deleted := AfterUnloadedDelete(t, playerId, name);
      var recreated := AfterCreate(AfterRemove(deleted, ids, playerId, name), playerId, name, h, newId);
      var reaped := AfterReap(recreated, ids[h := newId], Some(ids[previous]));
      && Get(recreated.statues, playerId, name) == Some(h)
      && Get(reaped.statues, playerId, name) == None
      && newId !in reaped.lookup
  {
  }

  /**
   * The delete command with the chunk check moved before the removal: on an unloaded chunk
   * it changes nothing, otherwise it is `removeStatue`; either way the tables stay linked.
   */
  function AfterCheckedDelete(t: Tables, ids: map<Handle, string>, playerId: Uuid, name: string, chunkLoaded: bool): (r: Tables)
    ensures Get(r.statues, playerId, name) == (if chunkLoaded then None else Get(t.statues, playerId, name))
    ensures forall p, n :: (p, n) != (playerId, name) ==> Get(r.statues, p, n) == Get(t.statues, p, n)
    ensures forall id :: id in r.lookup ==> id in t.lookup && r.lookup[id] == t.lookup[id]
    ensures !chunkLoaded || Get(t.statues, playerId, name).None? ==> r.lookup == t.lookup
  {
    if chunkLoaded then AfterRemove(t, ids, playerId, name) else t
  }

  lemma CheckedDeleteKeepsLinked(t: Tables, ids: map<Handle, string>, playerId: Uuid, name: string, chunkLoaded: bool)
    requires Linked(t, ids)
    ensures Linked(AfterCheckedDelete(t, ids, playerId, name, chunkLoaded), ids)
  {
    RemoveKeepsLinked(t, ids, playerId, name);
  }
}

/**
 * The newer plugin version (MobStatues/main/MobStatues.java): the plugin object with its
 * statue map, reverse index and item-drop flag, over the host world of module Host. Each
 * registry operation is proved to perform the corresponding transition of module
 * StatueRegistry and to change the world exactly as stated; which operations keep the
 * statue map and the reverse index linked is proved in module RegistryProperties and
 * carried over here.
 */
module MobStatues {
  import opened Wrappers
  import opened Host
  import opened StatueIds
  import opened StatueRegistry
  import opened RegistryProperties
  import opened Persistence
  import opened Text
  import opened Commands
  import opened Completion

  /** What an operation reports back (the chat messages and return values that matter). */
  datatype Reply =
    | Created(entity: Handle, statueId: string)
    | InvalidEntityName
    | NoStatues
    | NoSuchStatue
    | ChunkNotLoaded
    | Removed
    | Adjusted(entity: Handle)
    | IdRejected
    | Moved(moved: bool)
    | Listed(names: set<string>)
    | Said(text: string)
    | Unhandled

  /** The world after a registered entity `h` (if any) has been despawned by `removeOldStatue`. */
  function AfterRemoveOld(w: WorldState, h: Option<Handle>): WorldState
  {
    if h.Some? then AfterDespawn(w, h.value, true) else w
  }

  /**
   * The world after spawning an entity of `kind` and preparing it with `setupStatueEntity`:
   * no custom name, and the statue id (when there is one) in its persistent data.
   */
  function AfterSetup(w: WorldState, kind: string, id: Option<string>): WorldState
  {
    w.(next := w.next + 1, live := w.live + {w.next}, kindOf := w.kindOf[w.next := kind],
       customName := w.customName - {w.next},
       statueId := if id.Some? then w.statueId[w.next := id.value] else w.statueId)
  }

  /**
   * The world after `moveStatue` re-created the living statue entity `previous` with creation
   * id `newId`: `previous` despawned twice with drops suppressed, a new entity of its kind
   * spawned, carrying the old id when there was one and `newId` otherwise.
   */
  function AfterMoveWorld(w: WorldState, previous: Handle, newId: string): WorldState
    requires previous in w.kindOf
  {
    var despawned := AfterDespawn(AfterDespawn(w, previous, true), previous, true);
    AfterSetup(despawned, w.kindOf[previous], Some(newId)).(statueId := IdsAfterMove(w.statueId, previous, w.next, newId))
  }

  lemma IdsOfStep(hs: set<Handle>, ids: map<Handle, string>, h: Handle)
    ensures IdsOf(hs + {h}, ids) == IdsOf(hs, ids) + (if h in ids then {ids[h]} else {})
  {
  }

  lemma IdsOfUnion(hs: set<Handle>, more: set<Handle>, ids: map<Handle, string>)
    ensures IdsOf(hs + more, ids) == IdsOf(hs, ids) + IdsOf(more, ids)
  {
  }

  lemma LookupMinusMinus(lookup: map<string, StatueInfo>, a: set<string>, b: set<string>)
    ensures (lookup - a) - b == lookup - (a + b)
  {
  }

  /** `loadStatueFromConfig` throws for this section: no "world" key, or a known world and no "entityType" key. */
  predicate LoadAborts(section: Section, worlds: set<string>)
  {
    WorldKey !in section || (section[WorldKey] in worlds && EntityTypeKey !in section)
  }

  /** The record `n` of `sections` loaded as the entity `h`, spawned at or after `first`, of the record's kind and carrying an id. */
  predicate LoadedRecord(sections: map<string, Section>, n: string, h: Handle, first: Handle, w: WorldState, worlds: set<string>, living: set<string>)
  {
    && n in sections && LoadSucceeds(sections[n], worlds, living)
    && first <= h < w.next && h in w.statueId
    && h in w.kindOf && w.kindOf[h] == sections[n][EntityTypeKey]
  }

  /** The id the loaded entity `h` carries is in the reverse index, for the owner `playerId`. */
  predicate RegisteredRecord(lookup: map<string, StatueInfo>, ids: map<Handle, string>, playerId: Uuid, h: Handle)
  {
    h in ids && ids[h] in lookup && lookup[ids[h]].playerId == playerId
  }

  /** A reverse-index entry of `after` is one `before` had, or one for a statue just loaded for `playerId`. */
  predicate LookupEntry(before: map<string, StatueInfo>, after: map<string, StatueInfo>, ids: map<Handle, string>,
                        id: string, playerId: Uuid, loaded: map<string, Handle>)
    requires id in after
  {
    || (id in before && after[id] == before[id])
    || (&& after[id].playerId == playerId && after[id].statueName in loaded
        && loaded[after[id].statueName] in ids && ids[loaded[after[id].statueName]] == id)
  }

  /** Every record in `loaded` was loaded from `sections` as its entity, spawned at or after `first`. */
  predicate RecordsLoaded(sections: map<string, Section>, loaded: map<string, Handle>, first: Handle, w: WorldState,
                          worlds: set<string>, living: set<string>)
  {
    forall n :: n in loaded ==> LoadedRecord(sections, n, loaded[n], first, w, worlds, living)
  }

  /**
   * Every loaded entity's id is in the reverse index for `playerId`, and every entry of the
   * reverse index was there before or belongs to a loaded entity.
   */
  predicate RecordsRegistered(before: map<string, StatueInfo>, lookup: map<string, StatueInfo>, ids: map<Handle, string>,
                              playerId: Uuid, loaded: map<string, Handle>)
  {
    && (forall n :: n in loaded ==> RegisteredRecord(lookup, ids, playerId, loaded[n]))
    && (forall id :: id in lookup ==> LookupEntry(before, lookup, ids, id, playerId, loaded))
  }

  /** Loading one more record as the next entity keeps every earlier record loaded. */
  lemma LoadedRecordsGrow(sections: map<string, Section>, loaded: map<string, Handle>, first: Handle, w: WorldState,
                          worlds: set<string>, living: set<string>, n: string, id: string)
    requires RecordsLoaded(sections, loaded, first, w, worlds, living)
    requires n in sections && LoadSucceeds(sections[n], worlds, living) && first <= w.next
    ensures RecordsLoaded(sections, loaded[n := w.next], first, AfterSetup(w, sections[n][EntityTypeKey], Some(id)), worlds, living)
  {
  }

  /** Registering the id of the next entity keeps every loaded record registered and every entry accounted for. */
  lemma RegistrationGrows(before: map<string, StatueInfo>, lookup: map<string, StatueInfo>, ids: map<Handle, string>,
                          playerId: Uuid, loaded: map<string, Handle>, n: string, h: Handle, id: string)
    requires n !in loaded
    requires forall m :: m in loaded ==> loaded[m] < h
    requires RecordsRegistered(before, lookup, ids, playerId, loaded)
    ensures RecordsRegistered(before, lookup[id := StatueInfo(playerId, n)], ids[h := id], playerId, loaded[n := h])
  {
    var ids' := ids[h := id];
    var lookup' := lookup[id := StatueInfo(playerId, n)];
    forall x | x in lookup' ensures LookupEntry(before, lookup', ids', x, playerId, loaded[n := h]) {
      if x != id {
        assert LookupEntry(before, lookup, ids, x, playerId, loaded);
      }
    }
  }

  /** Storing a non-empty map for an owner keeps every owner whose map changed since `before` with a non-empty map. */
  lemma StoredOwnersAreNonEmpty(before: Statues, statues: Statues, playerId: Uuid, m: map<string, Handle>)
    requires m != map[]
    requires forall p :: PlayerStatues(statues, p) != PlayerStatues(before, p) ==>
      PlayerStatues(statues, p).Some? && PlayerStatues(statues, p).value != map[]
    ensures var after := PutPlayer(statues, playerId, m);
      forall p :: PlayerStatues(after, p) != PlayerStatues(before, p) ==>
        PlayerStatues(after, p).Some? && PlayerStatues(after, p).value != map[]
  {
  }

  /** No record of a file with a UUID name and a "statues" section throws while it is loaded. */
  predicate FileLoads(playerId: Option<Uuid>, sections: Option<map<string, Section>>, worlds: set<string>)
  {
    playerId.Some? && sections.Some? ==> forall n :: n in sections.value ==> !LoadAborts(sections.value[n], worlds)
  }

  /**
   * Among the first `upto` files, file `i` is the last to store a map for its owner: it has a
   * UUID name and a "statues" section with a record that loads, and no later file of the same
   * owner (before `upto`) has a section with such a record.
   */
  predicate LastStoreFor(files: seq<PlayerFile>, sections: seq<Option<map<string, Section>>>, i: int, upto: int,
                         worlds: set<string>, living: set<string>)
  {
    && 0 <= i < upto <= |files| == |sections|
    && files[i].playerId.Some? && sections[i].Some? && Loadable(sections[i].value, worlds, living) != {}
    && forall k :: i < k < upto && files[k].playerId == files[i].playerId && sections[k].Some? ==>
         Loadable(sections[k].value, worlds, living) == {}
  }

  /** The owner has a map, and its statue names are `names`. */
  predicate OwnerHolds(statues: Statues, playerId: Uuid, names: set<string>)
  {
    PlayerStatues(statues, playerId).Some? && PlayerStatues(statues, playerId).value.Keys == names
  }

  /**
   * After file `i` is processed (its map `loaded` stored exactly when it has a record that
   * loads), every file that is so far the last to store for its owner still has that owner's
   * map holding the names of its loadable records.
   */
  lemma LastStoreStep(files: seq<PlayerFile>, sections: seq<Option<map<string, Section>>>, i: int,
                      worlds: set<string>, living: set<string>, before: Statues, after: Statues, loaded: map<string, Handle>)
    requires 0 <= i < |files| == |sections|
    requires forall j :: LastStoreFor(files, sections, j, i, worlds, living) ==>
      OwnerHolds(before, files[j].playerId.value, Loadable(sections[j].value, worlds, living))
    requires var stores := files[i].playerId.Some? && sections[i].Some? && Loadable(sections[i].value, worlds, living) != {};
      && (stores ==> loaded.Keys == Loadable(sections[i].value, worlds, living)
                     && after == PutPlayer(before, files[i].playerId.value, loaded))
      && (!stores ==> after == before)
    ensures forall j :: LastStoreFor(files, sections, j, i + 1, worlds, living) ==>
      OwnerHolds(after, files[j].playerId.value, Loadable(sections[j].value, worlds, living))
  {
    forall j | LastStoreFor(files, sections, j, i + 1, worlds, living)
      ensures OwnerHolds(after, files[j].playerId.value, Loadable(sections[j].value, worlds, living))
    {
      if j < i {
        assert LastStoreFor(files, sections, j, i, worlds, living);
      }
    }
  }

  /**
   * What `loadPlayerStatuesData` has established once the first `i` files are loaded,
   * starting from the statue map `before`: none of them threw, the last file of each owner
   * with a loadable record so far holds its loadable names, every owner whose map changed has
   * a non-empty one, and owners without a file so far are as they were.
   */
  ghost predicate LoadSoFar(files: seq<PlayerFile>, sections: seq<Option<map<string, Section>>>, i: int,
                            before: Statues, statues: Statues, worlds: set<string>, living: set<string>)
  {
    && 0 <= i <= |files| == |sections|
    && (forall j :: 0 <= j < i ==> FileLoads(files[j].playerId, sections[j], worlds))
    && (forall j :: LastStoreFor(files, sections, j, i, worlds, living) ==>
          OwnerHolds(statues, files[j].playerId.value, Loadable(sections[j].value, worlds, living)))
    && (forall p :: PlayerStatues(statues, p) != PlayerStatues(before, p) ==>
          PlayerStatues(statues, p).Some? && PlayerStatues(statues, p).value != map[])
    && (forall p :: (forall j :: 0 <= j < i ==> files[j].playerId != Some(p)) ==>
          PlayerStatues(statues, p) == PlayerStatues(before, p))
  }

  /** Loading file `i` without a throw, storing `loaded` for its owner when it has a loadable record, extends `LoadSoFar` by one file. */
  lemma LoadSoFarStep(files: seq<PlayerFile>, sections: seq<Option<map<string, Section>>>, i: int,
                      before: Statues, statues: Statues, after: Statues, loaded: map<string, Handle>,
                      worlds: set<string>, living: set<string>)
    requires LoadSoFar(files, sections, i, before, statues, worlds, living) && i < |files|
    requires FileLoads(files[i].playerId, sections[i], worlds)
    requires var stores := files[i].playerId.Some? && sections[i].Some? && Loadable(sections[i].value, worlds, living) != {};
      && (stores ==> loaded.Keys == Loadable(sections[i].value, worlds, living)
                     && after == PutPlayer(statues, files[i].playerId.value, loaded))
      && (!stores ==> after == statues)
    ensures LoadSoFar(files, sections, i + 1, before, after, worlds, living)
  {
    LastStoreStep(files, sections, i, worlds, living, statues, after, loaded);
    if after != statues {
      assert loaded != map[] by {
        var n :| n in Loadable(sections[i].value, worlds, living);
        assert n in loaded.Keys;
      }
      StoredOwnersAreNonEmpty(before, statues, files[i].playerId.value, loaded);
    }
    forall p | forall j :: 0 <= j < i + 1 ==> files[j].playerId != Some(p)
      ensures PlayerStatues(after, p) == PlayerStatues(before, p)
    {
      assert forall j :: 0 <= j < i ==> files[j].playerId != Some(p);
    }
  }

  /**
   * The records `done` of `sections` have been visited without throwing and every one that
   * loads is in `loaded`, whose sections in `current` all hold an "entityName"; the records
   * `names` are still to visit and their sections are as they were.
   */
  predicate LoadVisited(sections: map<string, Section>, current: map<string, Section>, names: set<string>, done: set<string>,
                        loaded: map<string, Handle>, worlds: set<string>, living: set<string>)
  {
    && names + done == sections.Keys && names !! done
    && current.Keys == sections.Keys
    && (forall n :: n in names ==> current[n] == sections[n])
    && (forall n :: n in done ==> !LoadAborts(sections[n], worlds))
    && (forall n :: n in done && LoadSucceeds(sections[n], worlds, living) ==> n in loaded)
    && (forall n :: n in loaded ==> n in done && EntityNameKey in current[n])
  }

  lemma VisitedGrows(sections: map<string, Section>, current: map<string, Section>, names: set<string>, done: set<string>,
                     loaded: map<string, Handle>, worlds: set<string>, living: set<string>, n: string, h: Handle,
                     current': map<string, Section>)
    requires LoadVisited(sections, current, names, done, loaded, worlds, living)
    requires n in names && LoadSucceeds(sections[n], worlds, living)
    requires current'.Keys == current.Keys && EntityNameKey in current'[n]
    requires forall m :: m in current && m != n ==> current'[m] == current[m]
    ensures LoadVisited(sections, current', names - {n}, done + {n}, loaded[n := h], worlds, living)
  {
    var loaded' := loaded[n := h];
    assert forall m :: m in names - {n} ==> current'[m] == sections[m];
    assert forall m :: m in done + {n} && LoadSucceeds(sections[m], worlds, living) ==> m in loaded';
    assert forall m :: m in loaded' ==> m in done + {n} && EntityNameKey in current'[m];
  }

  /**
   * What the record loop of `loadPlayerStatuesData` has established after visiting the names
   * `done` of `sections`, with `names` still to visit: `current` is the configuration's section
   * map, `w` the world, `lookup` the reverse index (which was `before` when the loop started).
   */
  ghost predicate LoadProgress(sections: map<string, Section>, current: map<string, Section>, names: set<string>, done: set<string>,
                               loaded: map<string, Handle>, first: Handle, w: WorldState, worlds: set<string>, living: set<string>,
                               before: map<string, StatueInfo>, lookup: map<string, StatueInfo>, playerId: Uuid)
  {
    && LoadVisited(sections, current, names, done, loaded, worlds, living)
    && first <= w.next
    && RecordsLoaded(sections, loaded, first, w, worlds, living)
    && RecordsRegistered(before, lookup, w.statueId, playerId, loaded)
  }

  /** A record that neither throws nor loads is passed over. */
  lemma SkipProgress(sections: map<string, Section>, current: map<string, Section>, names: set<string>, done: set<string>,
                     loaded: map<string, Handle>, first: Handle, w: WorldState, worlds: set<string>, living: set<string>,
                     before: map<string, StatueInfo>, lookup: map<string, StatueInfo>, playerId: Uuid, n: string)
    requires LoadProgress(sections, current, names, done, loaded, first, w, worlds, living, before, lookup, playerId)
    requires n in names && !LoadAborts(sections[n], worlds) && !LoadSucceeds(sections[n], worlds, living)
    ensures LoadProgress(sections, current, names - {n}, done + {n}, loaded, first, w, worlds, living, before, lookup, playerId)
  {
  }

  /**
   * A record that loads as the next entity, carrying `id`, with its section now holding an
   * "entityName", is put in the owner's map and in the reverse index.
   */
  lemma LoadedProgress(sections: map<string, Section>, current: map<string, Section>, names: set<string>, done: set<string>,
                       loaded: map<string, Handle>, first: Handle, w: WorldState, worlds: set<string>, living: set<string>,
                       before: map<string, StatueInfo>, lookup: map<string, StatueInfo>, playerId: Uuid, n: string, id: string,
                       current': map<string, Section>)
    requires LoadProgress(sections, current, names, done, loaded, first, w, worlds, living, before, lookup, playerId)
    requires n in names && LoadSucceeds(sections[n], worlds, living)
    requires current'.Keys == current.Keys && EntityNameKey in current'[n]
    requires forall m :: m in current && m != n ==> current'[m] == current[m]
    ensures LoadProgress(sections, current', names - {n}, done + {n}, loaded[n := w.next], first,
                         AfterSetup(w, sections[n][EntityTypeKey], Some(id)), worlds, living,
                         before, lookup[id := StatueInfo(playerId, n)], playerId)
  {
    LoadedRecordsGrow(sections, loaded, first, w, worlds, living, n, id);
    RegistrationGrows(before, lookup, w.statueId, playerId, loaded, n, w.next, id);
    VisitedGrows(sections, current, names, done, loaded, worlds, living, n, w.next, current');
  }

  class Plugin {
    const world: World
    var playerStatueMap: Statues
    var statueLookupMap: map<string, StatueInfo>
    var preventItemDrops: bool

    /** Between calls the world is well formed and item drops are not suppressed. */
    ghost predicate Valid()
      reads this, world
    {
      world.Valid() && !preventItemDrops
    }

    function View(): Tables
      reads this
    {
      Tables(playerStatueMap, statueLookupMap)
    }

    /** The cross-structure invariant of the two tables, over the ids the entities carry. */
    ghost predicate Consistent()
      reads this, world
    {
      Linked(View(), world.statueId)
    }

    constructor (world: World)
      requires world.Valid()
      ensures Valid() && Consistent()
      ensures this.world == world && View() == Tables(map[], map[])
    {
      this.world := world;
      playerStatueMap, statueLookupMap, preventItemDrops := map[], map[], false;
    }

    /** `removeOldStatue`: despawn the entity while item drops are suppressed. */
    method RemoveOldStatue(statue: Handle)
      requires Valid()
      modifies this, world
      ensures Valid() && View() == old(View())
      ensures world.Snapshot() == AfterDespawn(old(world.Snapshot()), statue, true)
    {
      preventItemDrops := true;
      world.Remove(statue, preventItemDrops);
      preventItemDrops := false;
    }

    /** `removeOldEntity`: despawn the entity (its passengers are not modelled) without suppressing drops. */
    method RemoveOldEntity(entity: Handle)
      requires Valid()
      modifies world
      ensures Valid()
      ensures world.Snapshot() == AfterDespawn(old(world.Snapshot()), entity, false)
    {
      world.Remove(entity, preventItemDrops);
    }

    /** `removeStatue(UUID, String)`: unregister the statue, drop its id, despawn its entity. */
    method RemoveStatue(playerId: Uuid, statueName: string)
      requires Valid()
      modifies this, world
      ensures Valid()
      ensures View() == AfterRemove(old(View()), old(world.statueId), playerId, statueName)
      ensures world.Snapshot() == AfterRemoveOld(old(world.Snapshot()), old(Get(playerStatueMap, playerId, statueName)))
      ensures old(Consistent()) ==> Consistent()
    {
      var playerStatues := PlayerStatues(playerStatueMap, playerId);
      if playerStatues.Some? {
        var statue := if statueName in playerStatues.value then Some(playerStatues.value[statueName]) else None;
        playerStatueMap := RemoveName(playerStatueMap, playerId, statueName);
        if statue.Some? {
          var statueId := world.IdOf(statue.value);
          if statueId.Some? {
            statueLookupMap := statueLookupMap - {statueId.value};
          }
          RemoveOldStatue(statue.value);
        }
      }
      if old(Consistent()) {
        RemoveKeepsLinked(old(View()), old(world.statueId), playerId, statueName);
      }
    }

    /** `removeStatueFromMemory`: unregister the statue and drop its id; the world is left alone. */
    method RemoveStatueFromMemory(playerId: Uuid, statueName: string)
      requires Valid()
      modifies this
      ensures Valid()
      ensures View() == AfterRemove(old(View()), world.statueId, playerId, statueName)
      ensures old(Consistent()) ==> Consistent()
    {
      var playerStatues := PlayerStatues(playerStatueMap, playerId);
      if playerStatues.Some? {
        var statue := if statueName in playerStatues.value then Some(playerStatues.value[statueName]) else None;
        playerStatueMap := RemoveName(playerStatueMap, playerId, statueName);
        if statue.Some? {
          var statueId := world.IdOf(statue.value);
          if statueId.Some? {
            statueLookupMap := statueLookupMap - {statueId.value};
          }
        }
      }
      if old(Consistent()) {
        RemoveKeepsLinked(old(View()), world.statueId, playerId, statueName);
      }
    }

    /**
     * `setupStatueEntity` on a freshly spawned entity: clear its custom name and store the id.
     * The host's persistent data container refuses a `null` value, so without an id the call
     * fails after the name has been cleared.
     */
    method SetupStatueEntity(entity: Handle, statueId: Option<string>) returns (accepted: bool)
      requires Valid() && entity < world.next
      modifies world
      ensures Valid()
      ensures accepted == statueId.Some?
      ensures world.Snapshot() == old(world.Snapshot()).(
        customName := old(world.customName) - {entity},
        statueId := if accepted then old(world.statueId)[entity := statueId.value] else old(world.statueId))
    {
      world.SetCustomName(entity, None);
      if statueId.None? {
        return false;
      }
      world.SetStatueId(entity, statueId.value);
      return true;
    }

    /**
     * `createStatue`: the same-named statue of the owner is removed first, whatever follows;
     * an unknown or non-living kind then stops with "Invalid entity name." Otherwise a new
     * entity of that kind is spawned, given a fresh random id, and registered in both tables.
     */
    method CreateStatue(playerId: Uuid, statueName: string, entityName: string) returns (reply: Reply)
      requires Valid()
      modifies this, world
      ensures Valid()
      ensures var removed := AfterRemove(old(View()), old(world.statueId), playerId, statueName);
        var w := AfterRemoveOld(old(world.Snapshot()), old(Get(playerStatueMap, playerId, statueName)));
        if entityName in world.living then
          && reply.Created? && reply.entity == w.next && IsStatueId(reply.statueId)
          && View() == AfterCreate(removed, playerId, statueName, reply.entity, reply.statueId)
          && world.Snapshot() == AfterSetup(w, entityName, Some(reply.statueId))
        else
          && reply == InvalidEntityName
          && View() == removed
          && world.Snapshot() == w
      ensures old(Consistent()) && (reply.Created? ==> reply.statueId !in old(statueLookupMap)) ==> Consistent()
    {
      RemoveStatue(playerId, statueName);
      ghost var removed := View();
      if entityName !in world.entityTypes {
        // `EntityType.valueOf` throws; the exception is caught.
        return InvalidEntityName;
      }
      if entityName !in world.living {
        return InvalidEntityName;
      }
      var entity := world.Spawn(entityName);
      var statueId := GenerateRandomName();
      var accepted := SetupStatueEntity(entity, Some(statueId));
      playerStatueMap := PutStatue(playerStatueMap, playerId, statueName, entity);
      statueLookupMap := statueLookupMap[statueId := StatueInfo(playerId, statueName)];
      reply := Created(entity, statueId);
      if old(Consistent()) && statueId !in old(statueLookupMap) {
        CreateKeepsLinked(removed, old(world.statueId), playerId, statueName, entity, statueId);
      }
    }

    /**
     * `onEntityDeath`: when the dying entity carries an id the reverse index knows, the statue
     * it names is removed from memory and the id is dropped; otherwise nothing changes.
     */
    method OnEntityDeath(entity: Handle)
      requires Valid()
      modifies this
      ensures Valid()
      ensures View() == AfterReap(old(View()), world.statueId, world.IdOf(entity))
      ensures old(Consistent()) ==> Consistent()
    {
      var statueId := world.IdOf(entity);
      if statueId.Some? && statueId.value in statueLookupMap {
        var info := statueLookupMap[statueId.value];
        RemoveStatueFromMemory(info.playerId, info.statueName);
        statueLookupMap := statueLookupMap - {statueId.value};
      }
      if old(Consistent()) {
        ReapKeepsLinked(old(View()), world.statueId, statueId);
      }
    }

    /**
     * `removeStatueCommand` as written: the entry is taken out of the statue map before the
     * chunk check, so on an unloaded chunk the statue is forgotten while its id stays in the
     * reverse index and its entity stays in the world.
     */
    method RemoveStatueCommand(sender: Sender, statueName: string, chunkLoaded: bool) returns (reply: Reply)
      requires Valid()
      modifies this, world
      ensures Valid()
      ensures sender.Console? ==> reply == Said(PlayersOnlyText) && unchanged(this, world)
      ensures sender.Player? && PlayerStatues(old(playerStatueMap), sender.id).None? ==>
        reply == NoStatues && unchanged(this, world)
      ensures sender.Player? && PlayerStatues(old(playerStatueMap), sender.id).Some? && old(Get(playerStatueMap, sender.id, statueName)).None? ==>
        reply == NoSuchStatue && unchanged(this, world)
      ensures sender.Player? && old(Get(playerStatueMap, sender.id, statueName)).Some? && !chunkLoaded ==>
        && reply == ChunkNotLoaded
        && View() == AfterUnloadedDelete(old(View()), sender.id, statueName)
        && world.Snapshot() == old(world.Snapshot())
        && (old(Consistent()) ==> !Consistent())
      ensures sender.Player? && old(Get(playerStatueMap, sender.id, statueName)).Some? && chunkLoaded ==>
        && reply == Removed
        && View() == AfterRemove(old(View()), old(world.statueId), sender.id, statueName)
        && world.Snapshot() == AfterDespawn(old(world.Snapshot()), old(Get(playerStatueMap, sender.id, statueName)).value, true)
        && (old(Consistent()) ==> Consistent())
    {
      if sender.Console? {
        return Said(PlayersOnlyText);
      }
      var playerId := sender.id;
      var playerStatues := PlayerStatues(playerStatueMap, playerId);
      if playerStatues.None? {
        return NoStatues;
      }
      if statueName !in playerStatues.value {
        return NoSuchStatue;
      }
      var statue := playerStatues.value[statueName];
      playerStatueMap := RemoveName(playerStatueMap, playerId, statueName);
      if !chunkLoaded {
        if old(Consistent()) {
          UnloadedDeleteUnlinks(old(View()), old(world.statueId), playerId, statueName);
        }
        return ChunkNotLoaded;
      }
      var statueId := world.IdOf(statue);
      if statueId.Some? {
        statueLookupMap := statueLookupMap - {statueId.value};
      }
      RemoveOldStatue(statue);
      if old(Consistent()) {
        RemoveKeepsLinked(old(View()), old(world.statueId), playerId, statueName);
      }
      return Removed;
    }

    /**
     * The delete command with the chunk check made before anything is removed: on an
     * unloaded chunk nothing changes, otherwise it is `removeStatue`. It keeps the tables linked.
     */
    method RemoveStatueCommandChecked(sender: Sender, statueName: string, chunkLoaded: bool) returns (reply: Reply)
      requires Valid()
      modifies this, world
      ensures Valid()
      ensures sender.Console? ==> reply == Said(PlayersOnlyText) && unchanged(this, world)
      ensures sender.Player? && PlayerStatues(old(playerStatueMap), sender.id).None? ==>
        reply == NoStatues && unchanged(this, world)
      ensures sender.Player? && PlayerStatues(old(playerStatueMap), sender.id).Some? && old(Get(playerStatueMap, sender.id, statueName)).None? ==>
        reply == NoSuchStatue && unchanged(this, world)
      ensures sender.Player? && old(Get(playerStatueMap, sender.id, statueName)).Some? ==>
        && reply == (if chunkLoaded then Removed else ChunkNotLoaded)
        && View() == AfterCheckedDelete(old(View()), old(world.statueId), sender.id, statueName, chunkLoaded)
        && world.Snapshot() == (if chunkLoaded then AfterDespawn(old(world.Snapshot()), old(Get(playerStatueMap, sender.id, statueName)).value, true)
                                else old(world.Snapshot()))
      ensures old(Consistent()) ==> Consistent()
    {
      if sender.Console? {
        return Said(PlayersOnlyText);
      }
      var playerId := sender.id;
      var playerStatues := PlayerStatues(playerStatueMap, playerId);
      if playerStatues.None? {
        return NoStatues;
      }
      if statueName !in playerStatues.value {
        return NoSuchStatue;
      }
      if !chunkLoaded {
        return ChunkNotLoaded;
      }
      RemoveStatue(playerId, statueName);
      return Removed;
    }
  
    /**
     * The tail of `moveStatue` for the re-created entity: the id it was given is dropped from the
     * reverse index and, when the old entity carried an id, the new one is given that id, which
     * maps to (owner, name) again.
     */
    method RestoreStatueId(playerId: Uuid, statueName: string, newStatue: Handle, oldStatueId: Option<string>)
      requires Valid() && newStatue < world.next
      modifies this, world
      ensures Valid() && playerStatueMap == old(playerStatueMap)
      ensures var dropped := if newStatue in old(world.statueId) then old(statueLookupMap) - {old(world.statueId)[newStatue]} else old(statueLookupMap);
        statueLookupMap == if oldStatueId.Some? then dropped[oldStatueId.value := StatueInfo(playerId, statueName)] else dropped
      ensures world.Snapshot() == old(world.Snapshot()).(statueId :=
        if oldStatueId.Some? then old(world.statueId)[newStatue := oldStatueId.value] else old(world.statueId))
    {
      var newId := world.IdOf(newStatue);
      if newId.Some? {
        statueLookupMap := statueLookupMap - {newId.value};
      }
      if oldStatueId.Some? {
        world.SetStatueId(newStatue, oldStatueId.value);
        statueLookupMap := statueLookupMap[oldStatueId.value := StatueInfo(playerId, statueName)];
      }
    }

    /**
     * `moveStatue`: a registered living statue is despawned and re-created under the same
     * name through `createStatue` (which despawns it once more); the fresh id that creation
     * generated leaves the reverse index, and the new entity is given the old id, which maps
     * to (owner, name) again. `newId` names the id that creation generated.
     */
    method MoveStatue(playerId: Uuid, statueName: string) returns (moved: bool, ghost newId: string)
      requires Valid()
      modifies this, world
      ensures Valid()
      ensures moved <==> old(Get(playerStatueMap, playerId, statueName)).Some?
                          && old(world.IsLiving(Get(playerStatueMap, playerId, statueName).value))
      ensures !moved ==> unchanged(this, world)
      ensures moved ==>
        var previous := old(Get(playerStatueMap, playerId, statueName)).value;
        var entity := old(world.next);
        && IsStatueId(newId)
        && View() == AfterMove(old(View()), old(world.statueId), playerId, statueName, entity, newId)
        && world.Snapshot() == AfterMoveWorld(old(world.Snapshot()), previous, newId)
      ensures moved && old(Consistent()) && newId !in old(statueLookupMap) ==>
        Consistent() && statueLookupMap == old(statueLookupMap)
    {
      newId := "";
      var playerStatues := PlayerStatues(playerStatueMap, playerId);
      if playerStatues.None? || statueName !in playerStatues.value {
        return false, newId;
      }
      var statue := playerStatues.value[statueName];
      if !world.IsLiving(statue) {
        return false, newId;
      }
      newId := Recreate(playerId, statueName, statue);
      return true, newId;
    }

    /** The body of `moveStatue` once the registered statue is known to be a living entity. */
    method Recreate(playerId: Uuid, statueName: string, statue: Handle) returns (ghost newId: string)
      requires Valid()
      requires Get(playerStatueMap, playerId, statueName) == Some(statue) && world.IsLiving(statue)
      modifies this, world
      ensures Valid()
      ensures var entity := old(world.next);
        && IsStatueId(newId)
        && View() == AfterMove(old(View()), old(world.statueId), playerId, statueName, entity, newId)
        && world.Snapshot() == AfterMoveWorld(old(world.Snapshot()), statue, newId)
      ensures old(Consistent()) && newId !in old(statueLookupMap) ==>
        Consistent() && statueLookupMap == old(statueLookupMap)
    {
      ghost var w := world.Snapshot();
      var oldStatueId := world.IdOf(statue);
      RemoveOldStatue(statue);
      var reply := CreateStatue(playerId, statueName, world.kindOf[statue]);
      newId := reply.statueId;
      assert world.Snapshot() == AfterSetup(AfterDespawn(AfterDespawn(w, statue, true), statue, true), w.kindOf[statue], Some(newId));
      // `createStatue` has just registered a living entity under this name.
      var newStatue := Get(playerStatueMap, playerId, statueName).value;
      assert world.IsLiving(newStatue);
      MoveInSteps(old(View()), old(world.statueId), playerId, statueName, newStatue, newId, View());
      RestoreStatueId(playerId, statueName, newStatue, oldStatueId);
      assert world.statueId == IdsAfterMove(w.statueId, statue, w.next, newId);
      if old(Consistent()) && newId !in old(statueLookupMap) {
        MoveKeepsLinked(old(View()), old(world.statueId), playerId, statueName, reply.entity, newId);
      }
    }

    /**
     * `adjustStatue`: a registered living statue is unregistered, its entity despawned and a new
     * one of the same kind spawned, given the same id and registered under the same name. The
     * new rotation and the data file are not modelled.
     */
    method AdjustStatue(playerId: Uuid, statueName: string) returns (reply: Reply)
      requires Valid()
      modifies this, world
      ensures Valid()
      ensures PlayerStatues(old(playerStatueMap), playerId).None? ==> reply == NoStatues && unchanged(this, world)
      ensures PlayerStatues(old(playerStatueMap), playerId).Some?
              && !(old(Get(playerStatueMap, playerId, statueName)).Some?
                   && old(world.IsLiving(Get(playerStatueMap, playerId, statueName).value))) ==>
        reply == NoSuchStatue && unchanged(this, world)
      ensures old(Get(playerStatueMap, playerId, statueName)).Some?
              && old(world.IsLiving(Get(playerStatueMap, playerId, statueName).value)) ==>
        var previous := old(Get(playerStatueMap, playerId, statueName)).value;
        var despawned := AfterDespawn(AfterDespawn(old(world.Snapshot()), previous, true), previous, false);
        var id := IdOf(old(world.statueId), previous);
        && world.Snapshot() == AfterSetup(despawned, old(world.kindOf)[previous], id)
        && (id.Some? ==> reply == Adjusted(old(world.next))
                         && View() == AfterAdjust(old(View()), old(world.statueId), playerId, statueName, old(world.next)))
        && (id.None? ==> reply == IdRejected
                         && View() == AfterRemove(old(View()), old(world.statueId), playerId, statueName))
      ensures old(Consistent()) ==> Consistent()
    {
      var playerStatues := PlayerStatues(playerStatueMap, playerId);
      if playerStatues.None? {
        return NoStatues;
      }
      if statueName !in playerStatues.value || !world.IsLiving(playerStatues.value[statueName]) {
        return NoSuchStatue;
      }
      var statue := playerStatues.value[statueName];
      var statueId := world.IdOf(statue);
      RemoveStatue(playerId, statueName);
      ghost var removed := View();
      RemoveOldEntity(statue);
      var newEntity := world.Spawn(world.kindOf[statue]);
      var accepted := SetupStatueEntity(newEntity, statueId);
      if !accepted {
        // The exception leaves `adjustStatue` here.
        return IdRejected;
      }
      playerStatueMap := PutStatue(playerStatueMap, playerId, statueName, newEntity);
      statueLookupMap := statueLookupMap[statueId.value := StatueInfo(playerId, statueName)];
      if old(Consistent()) {
        AdjustKeepsLinked(old(View()), old(world.statueId), playerId, statueName, newEntity);
      }
      return Adjusted(newEntity);
    }

    /**
     * The innermost loop of `removeAllStatues`, over the entities of one owner's map: each is
     * despawned (drops not suppressed) and the id it carries leaves the reverse index.
     */
    method RemoveEntities(statues: set<Handle>)
      requires Valid()
      modifies this, world
      ensures Valid() && playerStatueMap == old(playerStatueMap)
      ensures statueLookupMap == old(statueLookupMap) - IdsOf(statues, old(world.statueId))
      ensures world.Snapshot() == old(world.Snapshot()).(live := old(world.live) - statues, log := world.log)
      ensures DespawnedExactly(old(world.log), world.log, statues)
    {
      ghost var ids := world.statueId;
      ghost var start := world.Snapshot();
      ghost var gone: set<Handle> := {};
      var rest := statues;
      while rest != {}
        invariant Valid() && playerStatueMap == old(playerStatueMap)
        invariant rest + gone == statues
        invariant statueLookupMap == old(statueLookupMap) - IdsOf(gone, ids)
        invariant world.Snapshot() == start.(live := start.live - gone, log := world.log)
        invariant DespawnedExactly(start.log, world.log, gone)
        decreases rest
      {
        var statue :| statue in rest;
        var statueId := world.IdOf(statue);
        IdsOfStep(gone, ids, statue);
        if statueId.Some? {
          statueLookupMap := statueLookupMap - {statueId.value};
          assert statueLookupMap == old(statueLookupMap) - IdsOf(gone + {statue}, ids);
        }
        DespawnedStep(start.log, world.log, gone, statue);
        world.Remove(statue, preventItemDrops);
        gone := gone + {statue};
        rest := rest - {statue};
      }
    }

    /**
     * The middle loop of `removeAllStatues`, over the owners' maps stored under one msb.
     */
    method RemoveSecondLevel(secondMap: map<Long, map<string, Handle>>)
      requires Valid()
      modifies this, world
      ensures Valid() && playerStatueMap == old(playerStatueMap)
      ensures statueLookupMap == old(statueLookupMap) - IdsOf(HandlesIn(secondMap.Values), old(world.statueId))
      ensures world.Snapshot() == old(world.Snapshot()).(live := old(world.live) - HandlesIn(secondMap.Values), log := world.log)
      ensures DespawnedExactly(old(world.log), world.log, HandlesIn(secondMap.Values))
    {
      ghost var ids := world.statueId;
      ghost var start := world.Snapshot();
      ghost var done: set<Handle> := {};
      ghost var named: set<map<string, Handle>> := {};
      var secondLevel := secondMap.Values;
      while secondLevel != {}
        invariant Valid() && playerStatueMap == old(playerStatueMap)
        invariant secondLevel + named == secondMap.Values
        invariant done == HandlesIn(named)
        invariant statueLookupMap == old(statueLookupMap) - IdsOf(done, ids)
        invariant world.Snapshot() == start.(live := start.live - done, log := world.log)
        invariant DespawnedExactly(start.log, world.log, done)
        decreases secondLevel
      {
        var playerStatues :| playerStatues in secondLevel;
        ghost var before := world.log;
        assert world.statueId == ids;
        RemoveEntities(playerStatues.Values);
        IdsOfUnion(done, playerStatues.Values, ids);
        LookupMinusMinus(old(statueLookupMap), IdsOf(done, ids), IdsOf(playerStatues.Values, ids));
        DespawnedCompose(start.log, before, world.log, done, playerStatues.Values);
        done := done + playerStatues.Values;
        HandlesInAdd(named, playerStatues);
        named := named + {playerStatues};
        secondLevel := secondLevel - {playerStatues};
      }
    }

    /**
     * `removeAllStatues`: every stored entity is despawned (drops not suppressed) and the id it
     * carries leaves the reverse index; then the statue map is cleared.
     */
    method RemoveAllStatues()
      requires Valid()
      modifies this, world
      ensures Valid()
      ensures View() == AfterClear(old(View()), old(world.statueId))
      ensures world.Snapshot() == old(world.Snapshot()).(live := old(world.live) - AllHandles(old(playerStatueMap)), log := world.log)
      ensures DespawnedExactly(old(world.log), world.log, AllHandles(old(playerStatueMap)))
      ensures old(Consistent()) ==> Consistent() && statueLookupMap == map[]
    {
      ghost var ids := world.statueId;
      ghost var start := world.Snapshot();
      ghost var done: set<Handle> := {};
      ghost var seconds: set<map<Long, map<string, Handle>>> := {};
      var firstLevel := playerStatueMap.Values;
      while firstLevel != {}
        invariant Valid() && playerStatueMap == old(playerStatueMap)
        invariant firstLevel + seconds == old(playerStatueMap).Values
        invariant done == HandlesInSeconds(seconds)
        invariant statueLookupMap == old(statueLookupMap) - IdsOf(done, ids)
        invariant world.Snapshot() == start.(live := start.live - done, log := world.log)
        invariant DespawnedExactly(start.log, world.log, done)
        decreases firstLevel
      {
        var secondMap :| secondMap in firstLevel;
        ghost var before := world.log;
        assert world.statueId == ids;
        RemoveSecondLevel(secondMap);
        IdsOfUnion(done, HandlesIn(secondMap.Values), ids);
        LookupMinusMinus(old(statueLookupMap), IdsOf(done, ids), IdsOf(HandlesIn(secondMap.Values), ids));
        DespawnedCompose(start.log, before, world.log, done, HandlesIn(secondMap.Values));
        done := done + HandlesIn(secondMap.Values);
        HandlesInSecondsAdd(seconds, secondMap);
        seconds := seconds + {secondMap};
        firstLevel := firstLevel - {secondMap};
      }
      playerStatueMap := map[];
      if old(Consistent()) {
        ClearEmptiesLookup(old(View()), ids);
      }
    }
    /**
     * `loadStatueFromConfig` for the section of `statueName`: an unknown world, an unknown
     * kind or a non-living kind skip the record (`null`); a missing "world" key, or a missing
     * "entityType" key in a known world, throw. Otherwise an entity of the kind is spawned and
     * given the section's "entityName" as its id, or a fresh random id that is written back
     * into the section when the name is missing or empty.
     */
    method LoadStatueFromConfig(playerId: Uuid, statueName: string, config: PlayerDataConfig) returns (step: LoadStep)
      requires Valid() && config.statues.Some? && statueName in config.statues.value
      modifies world, config
      ensures Valid()
      ensures var section := old(config.statues).value[statueName];
        && (step.Aborted? <==> LoadAborts(section, world.worlds))
        && (step.Loaded? <==> LoadSucceeds(section, world.worlds, world.living))
        && (!step.Loaded? ==> unchanged(world, config))
        && (step.Loaded? ==>
              && step.entity == old(world.next) && step.entity in world.statueId
              && world.Snapshot() == AfterSetup(old(world.Snapshot()), section[EntityTypeKey], Some(world.statueId[step.entity]))
              && (StoredId(section).Some? ==>
                    world.statueId[step.entity] == StoredId(section).value && config.statues == old(config.statues))
              && (StoredId(section).None? ==>
                    && IsStatueId(world.statueId[step.entity])
                    && config.statues == Some(old(config.statues).value[statueName := section[EntityNameKey := world.statueId[step.entity]]])))
    {
      var section := config.statues.value[statueName];
      if WorldKey !in section {
        // `Bukkit.getWorld(null)` throws.
        return Aborted;
      }
      if section[WorldKey] !in world.worlds {
        return Skipped;
      }
      if EntityTypeKey !in section {
        // `EntityType.valueOf(null)` throws a NullPointerException, which is not caught.
        return Aborted;
      }
      var entityType := section[EntityTypeKey];
      if entityType !in world.entityTypes || entityType !in world.living {
        return Skipped;
      }
      var entity := world.Spawn(entityType);
      world.SetCustomName(entity, None);
      var statueId := if EntityNameKey in section then section[EntityNameKey] else "";
      if statueId == "" {
        statueId := GenerateRandomName();
        config.statues := Some(config.statues.value[statueName := section[EntityNameKey := statueId]]);
      }
      world.SetStatueId(entity, statueId);
      return Loaded(entity);
    }

    /**
     * One pass of the record loop of `loadPlayerStatuesData`: the record `statueName` is loaded
     * and, when that gives an entity, the entity is put in the owner's new map `loaded` and its
     * id mapped to (owner, name). `aborted` is true when loading the record threw.
     */
    method LoadRecord(playerId: Uuid, statueName: string, config: PlayerDataConfig, ghost sections: map<string, Section>,
                      ghost names: set<string>, ghost done: set<string>, loaded: map<string, Handle>,
                      ghost first: Handle, ghost before: map<string, StatueInfo>)
      returns (aborted: bool, loaded': map<string, Handle>)
      requires Valid() && config.statues.Some? && statueName in names
      requires LoadProgress(sections, config.statues.value, names, done, loaded, first, world.Snapshot(),
                            world.worlds, world.living, before, statueLookupMap, playerId)
      modifies this, world, config
      ensures Valid() && playerStatueMap == old(playerStatueMap) && config.statues.Some?
      ensures aborted <==> LoadAborts(sections[statueName], world.worlds)
      ensures aborted ==>
        LoadProgress(sections, config.statues.value, names, done, loaded', first, world.Snapshot(),
                     world.worlds, world.living, before, statueLookupMap, playerId)
      ensures !aborted ==>
        LoadProgress(sections, config.statues.value, names - {statueName}, done + {statueName}, loaded', first, world.Snapshot(),
                     world.worlds, world.living, before, statueLookupMap, playerId)
    {
      ghost var w, current := world.Snapshot(), config.statues.value;
      var statue := LoadStatueFromConfig(playerId, statueName, config);
      loaded' := loaded;
      if statue.Aborted? {
        return true, loaded';
      }
      if statue.Loaded? {
        var statueId := world.IdOf(statue.entity);
        LoadedProgress(sections, current, names, done, loaded, first, w, world.worlds, world.living,
                       before, statueLookupMap, playerId, statueName, statueId.value, config.statues.value);
        loaded' := loaded[statueName := statue.entity];
        statueLookupMap := statueLookupMap[statueId.value := StatueInfo(playerId, statueName)];
      } else {
        SkipProgress(sections, current, names, done, loaded, first, w, world.worlds, world.living,
                     before, statueLookupMap, playerId, statueName);
      }
      return false, loaded';
    }

    /**
     * The loop of `loadPlayerStatuesData` over the records of one player's "statues" section:
     * each record is loaded and, when that gives an entity, the entity is put in the owner's
     * new map and its id mapped to (owner, name). `ok` is false when a record threw, which
     * stops the load.
     */
    method LoadRecords(playerId: Uuid, config: PlayerDataConfig) returns (ok: bool, loaded: map<string, Handle>)
      requires Valid() && config.statues.Some?
      modifies this, world, config
      ensures Valid() && playerStatueMap == old(playerStatueMap)
      ensures config.statues.Some? && config.statues.value.Keys == old(config.statues).value.Keys
      ensures ok <==> forall n :: n in old(config.statues).value ==> !LoadAborts(old(config.statues).value[n], world.worlds)
      ensures ok ==> forall n :: n in old(config.statues).value && LoadSucceeds(old(config.statues).value[n], world.worlds, world.living) ==> n in loaded
      ensures RecordsLoaded(old(config.statues).value, loaded, old(world.next), world.Snapshot(), world.worlds, world.living)
      ensures forall n :: n in loaded ==> n in config.statues.value && EntityNameKey in config.statues.value[n]
      ensures RecordsRegistered(old(statueLookupMap), statueLookupMap, world.statueId, playerId, loaded)
    {
      ghost var sections := config.statues.value;
      loaded := map[];
      var names := config.statues.value.Keys;
      ghost var done: set<string> := {};
      while names != {}
        invariant Valid() && playerStatueMap == old(playerStatueMap) && config.statues.Some?
        invariant LoadProgress(sections, config.statues.value, names, done, loaded, old(world.next), world.Snapshot(),
                               world.worlds, world.living, old(statueLookupMap), statueLookupMap, playerId)
        decreases names
      {
        var statueName :| statueName in names;
        var aborted;
        aborted, loaded := LoadRecord(playerId, statueName, config, sections, names, done, loaded, old(world.next), old(statueLookupMap));
        if aborted {
          return false, loaded;
        }
        names := names - {statueName};
        done := done + {statueName};
      }
      return true, loaded;
    }

    /**
     * The body of `loadPlayerStatuesData` for one player's file with a "statues" section: load
     * every record, migrate the sections that lack an "entityName", and store the owner's map
     * only when it is not empty. `ok` is false when a record threw, which stops the load;
     * `migrated` is what `updateStatueData` returned.
     */
    method LoadPlayerFile(playerId: Uuid, config: PlayerDataConfig) returns (ok: bool, loaded: map<string, Handle>, migrated: bool)
      requires Valid() && config.statues.Some?
      modifies this, world, config
      ensures Valid()
      ensures ok <==> forall n :: n in old(config.statues).value ==> !LoadAborts(old(config.statues).value[n], world.worlds)
      ensures ok ==> forall n :: n in old(config.statues).value && LoadSucceeds(old(config.statues).value[n], world.worlds, world.living) ==> n in loaded
      ensures RecordsLoaded(old(config.statues).value, loaded, old(world.next), world.Snapshot(), world.worlds, world.living)
      ensures ok ==> !migrated
      ensures ok && loaded != map[] ==> playerStatueMap == PutPlayer(old(playerStatueMap), playerId, loaded)
      ensures !ok || loaded == map[] ==> playerStatueMap == old(playerStatueMap)
      ensures RecordsRegistered(old(statueLookupMap), statueLookupMap, world.statueId, playerId, loaded)
    {
      migrated := false;
      ok, loaded := LoadRecords(playerId, config);
      if !ok {
        return;
      }
      migrated := StoreLoaded(playerId, config, loaded);
    }

    /**
     * The tail of `loadPlayerStatuesData` for one file once every record has loaded:
     * `updateStatueData`, then the owner's map stored when it is not empty. Every loaded
     * record's section already has an "entityName" (written by `loadStatueFromConfig`), so the
     * migration finds nothing to do and leaves the configuration as it was.
     */
    method StoreLoaded(playerId: Uuid, config: PlayerDataConfig, loaded: map<string, Handle>) returns (migrated: bool)
      requires config.statues.Some?
      requires forall n :: n in loaded ==> n in config.statues.value && EntityNameKey in config.statues.value[n]
      modifies this, config
      ensures !migrated && config.statues == old(config.statues)
      ensures loaded != map[] ==> playerStatueMap == PutPlayer(old(playerStatueMap), playerId, loaded)
      ensures loaded == map[] ==> playerStatueMap == old(playerStatueMap)
      ensures statueLookupMap == old(statueLookupMap) && preventItemDrops == old(preventItemDrops)
    {
      migrated := UpdateStatueData(config, loaded);
      assert config.statues.value == old(config.statues).value;
      if loaded != map[] {
        playerStatueMap := PutPlayer(playerStatueMap, playerId, loaded);
      }
    }

    /**
     * `loadPlayerStatuesData` over the player files, each with its own freshly loaded
     * configuration: a file whose name is not a UUID, or that has no "statues" section, is
     * passed over. `ok` is false exactly when a record of some other file throws, which stops
     * the load. An owner's map is only ever stored non-empty, and after a complete load it
     * holds the names whose records load in the last of the owner's files that has such a
     * record.
     */
    method LoadPlayerStatuesData(files: seq<PlayerFile>) returns (ok: bool)
      requires Valid()
      requires forall i, j :: 0 <= i < j < |files| ==> files[i].config != files[j].config
      modifies this, world, set f | f in files :: f.config
      ensures Valid()
      ensures ok <==> forall i :: 0 <= i < |files| ==> FileLoads(files[i].playerId, old(Sections(files))[i], world.worlds)
      ensures ok ==> forall i :: LastStoreFor(files, old(Sections(files)), i, |files|, world.worlds, world.living) ==>
        OwnerHolds(playerStatueMap, files[i].playerId.value, Loadable(old(Sections(files))[i].value, world.worlds, world.living))
      ensures forall p :: PlayerStatues(playerStatueMap, p) != PlayerStatues(old(playerStatueMap), p) ==>
        PlayerStatues(playerStatueMap, p).Some? && PlayerStatues(playerStatueMap, p).value != map[]
      ensures forall p :: (forall f :: f in files ==> f.playerId != Some(p)) ==>
        PlayerStatues(playerStatueMap, p) == PlayerStatues(old(playerStatueMap), p)
    {
      ghost var sections := Sections(files);
      for i := 0 to |files|
        invariant Valid()
        invariant forall j :: i <= j < |files| ==> files[j].config.statues == sections[j]
        invariant LoadSoFar(files, sections, i, old(playerStatueMap), playerStatueMap, world.worlds, world.living)
      {
        var fileOk := LoadEntry(files, sections, i, old(playerStatueMap));
        if !fileOk {
          return false;
        }
      }
      return true;
    }

    /**
     * One pass of the loop of `loadPlayerStatuesData`, over file `i` whose "statues" section
     * is `sections[i]`: `fileOk` is false when one of its records throws, and the statue map is
     * then as it was; a file whose name is not a UUID or without a section is passed over;
     * otherwise the file's owner gets the map of the file's loadable records when there is one.
     */
    method LoadEntry(files: seq<PlayerFile>, ghost sections: seq<Option<map<string, Section>>>, i: int,
                     ghost before: Statues) returns (fileOk: bool)
      requires Valid()
      requires 0 <= i < |files| == |sections| && files[i].config.statues == sections[i]
      requires LoadSoFar(files, sections, i, before, playerStatueMap, world.worlds, world.living)
      modifies this, world, files[i].config
      ensures Valid()
      ensures fileOk <==> FileLoads(files[i].playerId, sections[i], world.worlds)
      ensures fileOk ==> LoadSoFar(files, sections, i + 1, before, playerStatueMap, world.worlds, world.living)
      ensures !fileOk ==> playerStatueMap == old(playerStatueMap)
    {
      var file := files[i];
      ghost var prior := playerStatueMap;
      if file.playerId.None? || file.config.statues.None? {
        LoadSoFarStep(files, sections, i, before, prior, prior, map[], world.worlds, world.living);
        return true;
      }
      var loaded, migrated;
      fileOk, loaded, migrated := LoadPlayerFile(file.playerId.value, file.config);
      if fileOk {
        assert loaded.Keys == Loadable(sections[i].value, world.worlds, world.living);
        LoadSoFarStep(files, sections, i, before, prior, playerStatueMap, loaded, world.worlds, world.living);
      }
    }

    /**
     * `onCommand`: the action `Dispatch` chooses is carried out. Statue names are lower-cased
     * and kind names upper-cased by the dispatch; the delete command is the one as written,
     * which drops the entry before it checks the chunk, so a delete on an unloaded chunk
     * unlinks the tables; `chunkLoaded` says whether the statue's chunk is loaded and
     * `parsesAsDouble` whether `Double.parseDouble` accepts a text.
     */
    method OnCommand(sender: Sender, command: string, args: seq<string>, parsesAsDouble: string -> bool, chunkLoaded: bool)
      returns (handled: bool, reply: Reply)
      requires Valid()
      modifies this, world
      ensures Valid()
      ensures handled <==> IsPluginCommand(command)
      ensures var a := Dispatch(command, args, sender.Player?, parsesAsDouble);
        && (a.Say? ==> reply == Said(a.text) && unchanged(this, world))
        && (a.NotHandled? ==> reply == Unhandled && unchanged(this, world))
        && (a.ListStatuesCmd? ==> reply == Listed(Names(old(playerStatueMap), sender.id)) && unchanged(this, world))
        && (a.DeleteStatueCmd? && sender.Console? ==> reply == Said(PlayersOnlyText) && unchanged(this, world))
      ensures var a := Dispatch(command, args, sender.Player?, parsesAsDouble);
        a.CreateStatueCmd? ==>
          var removed := AfterRemove(old(View()), old(world.statueId), sender.id, a.statueName);
          var w := AfterRemoveOld(old(world.Snapshot()), old(Get(playerStatueMap, sender.id, a.statueName)));
          if a.entityName in world.living then
            && reply.Created? && reply.entity == w.next && IsStatueId(reply.statueId)
            && View() == AfterCreate(removed, sender.id, a.statueName, reply.entity, reply.statueId)
            && world.Snapshot() == AfterSetup(w, a.entityName, Some(reply.statueId))
          else
            && reply == InvalidEntityName
            && View() == removed
            && world.Snapshot() == w
      ensures var a := Dispatch(command, args, sender.Player?, parsesAsDouble);
        a.MoveStatueCmd? ==>
          && reply == Moved(old(Get(playerStatueMap, sender.id, a.statueName)).Some?
                            && old(world.IsLiving(Get(playerStatueMap, sender.id, a.statueName).value)))
          && (!reply.moved ==> unchanged(this, world))
          && (reply.moved ==>
                exists newId :: IsStatueId(newId)
                  && View() == AfterMove(old(View()), old(world.statueId), sender.id, a.statueName, old(world.next), newId)
                  && world.Snapshot() == AfterMoveWorld(old(world.Snapshot()), old(Get(playerStatueMap, sender.id, a.statueName)).value, newId)
                  && (old(Consistent()) && newId !in old(statueLookupMap) ==> Consistent()))
      ensures var a := Dispatch(command, args, sender.Player?, parsesAsDouble);
        a.DeleteStatueCmd? && sender.Player? ==>
          && (PlayerStatues(old(playerStatueMap), sender.id).None? ==> reply == NoStatues && unchanged(this, world))
          && (PlayerStatues(old(playerStatueMap), sender.id).Some? && old(Get(playerStatueMap, sender.id, a.statueName)).None? ==>
                reply == NoSuchStatue && unchanged(this, world))
          && (old(Get(playerStatueMap, sender.id, a.statueName)).Some? ==>
                && reply == (if chunkLoaded then Removed else ChunkNotLoaded)
                && View() == (if chunkLoaded then AfterRemove(old(View()), old(world.statueId), sender.id, a.statueName)
                              else AfterUnloadedDelete(old(View()), sender.id, a.statueName))
                && world.Snapshot() == (if chunkLoaded
                                        then AfterDespawn(old(world.Snapshot()), old(Get(playerStatueMap, sender.id, a.statueName)).value, true)
                                        else old(world.Snapshot()))
                && (!chunkLoaded && old(Consistent()) ==> !Consistent()))
      ensures var a := Dispatch(command, args, sender.Player?, parsesAsDouble);
        a.AdjustStatueCmd? ==>
          && (PlayerStatues(old(playerStatueMap), sender.id).None? ==> reply == NoStatues && unchanged(this, world))
          && (PlayerStatues(old(playerStatueMap), sender.id).Some?
              && !(old(Get(playerStatueMap, sender.id, a.statueName)).Some?
                   && old(world.IsLiving(Get(playerStatueMap, sender.id, a.statueName).value))) ==>
                reply == NoSuchStatue && unchanged(this, world))
          && (old(Get(playerStatueMap, sender.id, a.statueName)).Some?
              && old(world.IsLiving(Get(playerStatueMap, sender.id, a.statueName).value)) ==>
                var previous := old(Get(playerStatueMap, sender.id, a.statueName)).value;
                var despawned := AfterDespawn(AfterDespawn(old(world.Snapshot()), previous, true), previous, false);
                var id := IdOf(old(world.statueId), previous);
                && world.Snapshot() == AfterSetup(despawned, old(world.kindOf)[previous], id)
                && (id.Some? ==> reply == Adjusted(old(world.next))
                                 && View() == AfterAdjust(old(View()), old(world.statueId), sender.id, a.statueName, old(world.next)))
                && (id.None? ==> reply == IdRejected
                                 && View() == AfterRemove(old(View()), old(world.statueId), sender.id, a.statueName)))
      ensures var a := Dispatch(command, args, sender.Player?, parsesAsDouble);
        && old(Consistent())
        && !a.MoveStatueCmd?
        && !(a.DeleteStatueCmd? && sender.Player? && !chunkLoaded && old(Get(playerStatueMap, sender.id, a.statueName)).Some?)
        && (reply.Created? ==> reply.statueId !in old(statueLookupMap))
        ==> Consistent()
    {
      DispatchByArgumentCount(command, args, sender.Player?, parsesAsDouble);
      var action := Dispatch(command, args, sender.Player?, parsesAsDouble);
      handled := !action.NotHandled?;
      match action
      case CreateStatueCmd(statueName, entityName) =>
        reply := CreateStatue(sender.id, statueName, entityName);
      case MoveStatueCmd(statueName) =>
        var moved;
        ghost var newId;
        moved, newId := MoveStatue(sender.id, statueName);
        reply := Moved(moved);
      case ListStatuesCmd =>
        reply := Listed(Names(playerStatueMap, sender.id));
      case DeleteStatueCmd(statueName) =>
        reply := RemoveStatueCommand(sender, statueName, chunkLoaded);
      case AdjustStatueCmd(statueName) =>
        reply := AdjustStatue(sender.id, statueName);
      case Say(text) =>
        reply := Said(text);
      case NotHandled =>
        reply := Unhandled;
    }

    /**
     * `onTabComplete`: for `/ms` with a kind argument, the living kinds (lower case) that start
     * with the typed prefix; for `/msdel` and `/msmove` with one argument, the caller's statue
     * names that start with the lower-cased argument (all of them for `/msdel` with an empty
     * one); for `/msadjust` with one argument, all of the caller's statue names. A console
     * sender gets no statue names. Anything else completes to nothing.
     */
    method OnTabComplete(sender: Sender, command: string, args: seq<string>) returns (completions: seq<string>)
      ensures Lower(command) == CreateCommand ==>
        completions == if |args| >= 2 then MatchingKinds(world.entityTypes, world.living, KindPrefix(args)) else []
      ensures Lower(command) == DeleteCommand && AsksForList(args) ==>
        forall x :: x in completions <==> sender.Player? && x in Names(playerStatueMap, sender.id)
      ensures (Lower(command) == DeleteCommand && |args| == 1 && args[0] != "") || (Lower(command) == MoveCommand && |args| == 1) ==>
        forall x :: x in completions <==> sender.Player? && x in Names(playerStatueMap, sender.id) && StartsWith(x, Lower(args[0]))
      ensures Lower(command) == AdjustCommand && |args| == 1 ==>
        forall x :: x in completions <==> sender.Player? && x in Names(playerStatueMap, sender.id)
      ensures (Lower(command) == DeleteCommand && |args| >= 2) || (Lower(command) in {MoveCommand, AdjustCommand} && |args| != 1) ==>
        completions == []
      ensures !IsPluginCommand(command) ==> completions == []
      ensures Lower(command) != CreateCommand ==>
        forall i, j :: 0 <= i < j < |completions| ==> completions[i] != completions[j]
    {
      completions := [];
      var name := Lower(command);
      if name == CreateCommand {
        if |args| >= 2 {
          completions := CompleteKind(world.entityTypes, world.living, args);
        }
      } else if name == DeleteCommand {
        if AsksForList(args) {
          if sender.Player? {
            completions := AllNames(Names(playerStatueMap, sender.id));
          }
        } else if |args| == 1 {
          var partialName := Lower(args[0]);
          if sender.Player? {
            completions := MatchingNames(Names(playerStatueMap, sender.id), partialName);
          }
        }
      } else if name == MoveCommand {
        if |args| == 1 {
          var partialName := Lower(args[0]);
          if sender.Player? {
            completions := MatchingNames(Names(playerStatueMap, sender.id), partialName);
          }
        }
      } else if name == AdjustCommand {
        if |args| == 1 && sender.Player? {
          completions := AllNames(Names(playerStatueMap, sender.id));
        }
      }
    }
}
}

/**
 * The older plugin version (MobStatues/src/main/MobStatues.java): one statue map from the
 * owner's UUID to the owner's name -> entity map, and the item-drop flag. There is no
 * statue id and no reverse index; each statue entity wears a random custom name, and
 * `removeOldStatue` gets rid of a statue by dispatching a console `kill` command that
 * selects entities by that name.
 */
module LegacyMobStatues {
  import opened Wrappers
  import opened Host
  import opened StatueIds
  import StatueRegistry
  import opened Persistence
  import opened Text
  import opened Commands
  import opened Completion

  /** owner UUID -> statue name -> entity. */
  type LegacyStatues = map<Uuid, map<string, Handle>>

  /** The entity registered under (owner, name), if any. */
  function Lookup(statues: LegacyStatues, playerId: Uuid, name: string): Option<Handle>
  {
    if playerId in statues && name in statues[playerId] then Some(statues[playerId][name]) else None
  }

  /** The statue names an owner has (none when the owner has no map). */
  function OwnerNames(statues: LegacyStatues, playerId: Uuid): (r: set<string>)
    ensures forall n :: n in r <==> Lookup(statues, playerId, n).Some?
  {
    if playerId in statues then statues[playerId].Keys else {}
  }

  /** `storeStatue`: `computeIfAbsent(playerId, new map).put(name, h)`. */
  function Store(statues: LegacyStatues, playerId: Uuid, name: string, h: Handle): (r: LegacyStatues)
    ensures r.Keys == statues.Keys + {playerId}
    ensures forall p, n :: Lookup(r, p, n) == if p == playerId && n == name then Some(h) else Lookup(statues, p, n)
  {
    var named: map<string, Handle> := if playerId in statues then statues[playerId] else map[];
    statues[playerId := named[name := h]]
  }

  /**
   * `playerStatueMap.get(playerId).remove(name)` when the owner has a map: only that entry
   * goes; the owner's map stays, even when it becomes empty.
   */
  function Without(statues: LegacyStatues, playerId: Uuid, name: string): (r: LegacyStatues)
    ensures r.Keys == statues.Keys
    ensures forall p, n :: Lookup(r, p, n) == if p == playerId && n == name then None else Lookup(statues, p, n)
    ensures Lookup(statues, playerId, name).None? ==> r == statues
  {
    if playerId in statues then
      assert name !in statues[playerId] ==> statues[playerId] - {name} == statues[playerId];
      statues[playerId := statues[playerId] - {name}]
    else statues
  }

  /** Two statue maps with the same owners and the same entries are equal. */
  lemma SameEntries(r: LegacyStatues, s: LegacyStatues)
    requires r.Keys == s.Keys
    requires forall p, n :: Lookup(r, p, n) == Lookup(s, p, n)
    ensures r == s
  {
    forall p | p in r ensures r[p] == s[p] {
      assert forall n :: n in r[p] <==> Lookup(r, p, n).Some?;
      assert forall n :: n in s[p] <==> Lookup(s, p, n).Some?;
      assert forall n :: n in r[p] ==> Lookup(r, p, n) == Some(r[p][n]);
    }
  }

  /** The removal `createStatue` does first makes no difference to what it then stores. */
  lemma StoreAfterWithout(statues: LegacyStatues, playerId: Uuid, name: string, h: Handle)
    ensures Store(Without(statues, playerId, name), playerId, name, h) == Store(statues, playerId, name, h)
  {
    SameEntries(Store(Without(statues, playerId, name), playerId, name, h), Store(statues, playerId, name, h));
  }

  /** Storing a name the owner did not have, then removing it, gives back the map (once the owner has one). */
  lemma WithoutAfterStore(statues: LegacyStatues, playerId: Uuid, name: string, h: Handle)
    requires playerId in statues && Lookup(statues, playerId, name).None?
    ensures Without(Store(statues, playerId, name, h), playerId, name) == statues
  {
    SameEntries(Without(Store(statues, playerId, name, h), playerId, name), statues);
  }

  /** Every handle stored in some owner's map. */
  function AllStored(statues: LegacyStatues): set<Handle>
  {
    StatueRegistry.HandlesIn(statues.Values)
  }

  /** The handles stored anywhere are exactly the entities some (owner, name) is registered to. */
  lemma AllStoredAreRegistered(statues: LegacyStatues, h: Handle)
    ensures h in AllStored(statues) <==> exists p, n :: Lookup(statues, p, n) == Some(h)
  {
    if h in AllStored(statues) {
      var named :| named in statues.Values && h in named.Values;
      var p :| p in statues && statues[p] == named;
      var n :| n in named && named[n] == h;
      assert Lookup(statues, p, n) == Some(h);
    }
    if exists p, n :: Lookup(statues, p, n) == Some(h) {
      var p, n :| Lookup(statues, p, n) == Some(h);
      assert statues[p] in statues.Values;
      assert statues[p][n] in statues[p].Values;
    }
  }

  /**
   * The invariant of the statue map: every registered entity was handed out before `next`,
   * and no entity is registered under two (owner, name) pairs.
   */
  ghost predicate Registered(statues: LegacyStatues, next: Handle)
  {
    && (forall p, n :: Lookup(statues, p, n).Some? ==> Lookup(statues, p, n).value < next)
    && (forall p, n, q, m :: Lookup(statues, p, n).Some? && Lookup(statues, p, n) == Lookup(statues, q, m) ==> p == q && n == m)
  }

  /** Storing the entity spawned next keeps the map registered. */
  lemma StoreKeepsRegistered(statues: LegacyStatues, next: Handle, playerId: Uuid, name: string)
    requires Registered(statues, next)
    ensures Registered(Store(statues, playerId, name, next), next + 1)
  {
    var r := Store(statues, playerId, name, next);
    forall p, n, q, m | Lookup(r, p, n).Some? && Lookup(r, p, n) == Lookup(r, q, m) ensures p == q && n == m {
      if (p, n) != (playerId, name) && (q, m) != (playerId, name) {
        assert Lookup(statues, p, n) == Lookup(statues, q, m);
      } else if (p, n) != (playerId, name) || (q, m) != (playerId, name) {
        assert false;
      }
    }
  }

  /** Removing an entry keeps the map registered, also once more entities have been handed out. */
  lemma WithoutKeepsRegistered(statues: LegacyStatues, next: Handle, playerId: Uuid, name: string, next': Handle)
    requires Registered(statues, next) && next <= next'
    ensures Registered(Without(statues, playerId, name), next')
  {
    var r := Without(statues, playerId, name);
    forall p, n, q, m | Lookup(r, p, n).Some? && Lookup(r, p, n) == Lookup(r, q, m) ensures p == q && n == m {
      assert Lookup(statues, p, n) == Lookup(statues, q, m);
    }
  }

  /**
   * Replacing an owner's map by one of distinct entities handed out in `[first, next)`, after
   * everything registered was handed out before `first`, keeps the map registered.
   */
  lemma PutOwnerKeepsRegistered(statues: LegacyStatues, first: Handle, playerId: Uuid, loaded: map<string, Handle>, next: Handle)
    requires Registered(statues, first) && first <= next
    requires forall n :: n in loaded ==> first <= loaded[n] < next
    requires forall n, m :: n in loaded && m in loaded && n != m ==> loaded[n] != loaded[m]
    ensures Registered(statues[playerId := loaded], next)
  {
    var r := statues[playerId := loaded];
    forall p, n | p != playerId ensures Lookup(r, p, n) == Lookup(statues, p, n) {
    }
    forall p, n | Lookup(r, p, n).Some? ensures Lookup(r, p, n).value < next {
    }
    forall p, n, q, m | Lookup(r, p, n).Some? && Lookup(r, p, n) == Lookup(r, q, m) ensures p == q && n == m {
      if p != playerId && q != playerId {
        assert Lookup(statues, p, n) == Lookup(statues, q, m);
      }
    }
  }

  // ---------------------------------------------------------------------------
  // The kill command of `removeOldStatue`.

  const KillPrefix: string := "minecraft:kill @e[name="

  /** Java string concatenation of a possibly `null` custom name. */
  function NameText(name: Option<string>): string
  {
    if name.Some? then name.value else "null"
  }

  /** `"minecraft:kill @e[name=" + customName + "]"`. */
  function KillCommand(customName: Option<string>): (c: string)
    ensures |c| == |KillPrefix| + |NameText(customName)| + 1
    ensures c[..|KillPrefix|] == KillPrefix && c[|c| - 1] == ']'
    ensures c[|KillPrefix|..|c| - 1] == NameText(customName)
  {
    KillPrefix + NameText(customName) + "]"
  }

  /** Two kill commands are the same exactly when they select the same name text. */
  lemma KillCommandSelectsName(a: Option<string>, b: Option<string>)
    ensures KillCommand(a) == KillCommand(b) <==> NameText(a) == NameText(b)
  {
    if KillCommand(a) == KillCommand(b) {
      var c := KillCommand(a);
      assert NameText(a) == c[|KillPrefix|..|c| - 1] == NameText(b);
    }
  }

  /** An entity without a custom name is killed by the selector for entities named "null". */
  lemma MissingNameSelectsNull()
    ensures KillCommand(None) == KillCommand(Some("null"))
  {
  }

  /**
   * A generated name is letters and digits only, so inside the selector it can neither close
   * the bracket nor start another selector argument.
   */
  lemma GeneratedNameStaysInSelector(name: string)
    requires IsStatueId(name)
    ensures var c := KillCommand(Some(name));
      forall i :: |KillPrefix| <= i < |c| - 1 ==> c[i] != ']' && c[i] != ',' && c[i] != '=' && c[i] != ' '
  {
    StatueIdIsAlphanumeric(name);
    var c := KillCommand(Some(name));
    forall i | |KillPrefix| <= i < |c| - 1 ensures c[i] != ']' && c[i] != ',' && c[i] != '=' && c[i] != ' ' {
      assert c[i] == c[|KillPrefix|..|c| - 1][i - |KillPrefix|] == name[i - |KillPrefix|];
    }
  }

  // ---------------------------------------------------------------------------
  // World transitions.

  /** The world after `removeOldStatue(h)`: the kill command for its custom name, dispatched with drops suppressed. */
  function AfterKill(w: WorldState, h: Handle): WorldState
  {
    var name := if h in w.customName then Some(w.customName[h]) else None;
    w.(log := w.log + [Dispatched(KillCommand(name), true)])
  }

  /** The world after spawning an entity of `kind` and giving it the custom name `name` (`None` clears it). */
  function AfterSpawn(w: WorldState, kind: string, name: Option<string>): WorldState
  {
    w.(next := w.next + 1, live := w.live + {w.next}, kindOf := w.kindOf[w.next := kind],
       customName := if name.Some? then w.customName[w.next := name.value] else w.customName - {w.next})
  }

  /** Naming the entity just spawned once more replaces the name it was spawned with. */
  lemma RenameSpawned(w: WorldState, kind: string, first: string, name: Option<string>)
    ensures var s := AfterSpawn(w, kind, Some(first));
      s.(customName := if name.Some? then s.customName[w.next := name.value] else s.customName - {w.next})
      == AfterSpawn(w, kind, name)
  {
    var s := AfterSpawn(w, kind, Some(first));
    if name.None? {
      assert s.customName - {w.next} == w.customName - {w.next};
    }
  }

  /** What an operation of the older version reports back. */
  datatype LegacyReply =
    | Created(entity: Handle, customName: string)
    | UnknownEntityType
    | InvalidEntityName
    | NoStatues
    | NoSuchStatue
    | ChunkNotLoaded
    | Removed
    | Adjusted(entity: Handle)
    | DataNotFound(entity: Handle)
    | Moved(moved: bool)
    | Listed(names: set<string>)
    | Said(text: string)
    | Unhandled

  /**
   * `loadStatueFromConfig` of the older version throws for this section: no "world" key, no
   * "entityType" key, a kind `EntityType.valueOf` does not know, or a living kind in a world
   * that is not loaded (the spawn then dereferences a `null` world).
   */
  predicate LegacyLoadAborts(section: Section, kinds: seq<string>, worlds: set<string>, living: set<string>)
  {
    || WorldKey !in section || EntityTypeKey !in section || section[EntityTypeKey] !in kinds
    || (section[EntityTypeKey] in living && section[WorldKey] !in worlds)
  }

  /**
   * The record `n` of `sections` loaded as the entity `h`, spawned at or after `first`, of the
   * record's kind, and wearing the record's "entityName" or, when that is missing or empty, a
   * generated name.
   */
  predicate LegacyLoaded(sections: map<string, Section>, n: string, h: Handle, first: Handle, w: WorldState,
                         worlds: set<string>, living: set<string>)
  {
    && n in sections && LoadSucceeds(sections[n], worlds, living)
    && first <= h < w.next
    && h in w.kindOf && w.kindOf[h] == sections[n][EntityTypeKey]
    && h in w.customName
    && (StoredId(sections[n]).Some? ==> w.customName[h] == StoredId(sections[n]).value)
    && (StoredId(sections[n]).None? ==> IsStatueId(w.customName[h]))
  }

  /** The older load of a file does not throw: its name is a UUID and no record of its "statues" section throws. */
  predicate LegacyFileLoads(playerId: Option<Uuid>, sections: Option<map<string, Section>>, kinds: seq<string>,
                            worlds: set<string>, living: set<string>)
  {
    playerId.Some? && (sections.Some? ==> forall n :: n in sections.value ==> !LegacyLoadAborts(sections.value[n], kinds, worlds, living))
  }

  /** Among the first `upto` files, file `i` is the last one of its owner with a "statues" section. */
  predicate LegacyLastStoreFor(files: seq<PlayerFile>, sections: seq<Option<map<string, Section>>>, i: int, upto: int)
  {
    && 0 <= i < upto <= |files| == |sections|
    && files[i].playerId.Some? && sections[i].Some?
    && forall k :: i < k < upto && files[k].playerId == files[i].playerId ==> sections[k].None?
  }

  /**
   * After file `i` is processed (its map `loaded` stored exactly when it has a "statues"
   * section), every file that is so far the last of its owner with a section still has that
   * owner's map holding the names of its loadable records.
   */
  lemma LegacyLastStoreStep(files: seq<PlayerFile>, sections: seq<Option<map<string, Section>>>, i: int,
                            worlds: set<string>, living: set<string>, before: LegacyStatues, after: LegacyStatues,
                            loaded: map<string, Handle>)
    requires 0 <= i < |files| == |sections|
    requires forall j :: LegacyLastStoreFor(files, sections, j, i) ==>
      files[j].playerId.value in before && before[files[j].playerId.value].Keys == Loadable(sections[j].value, worlds, living)
    requires files[i].playerId.Some? && sections[i].Some? ==>
      loaded.Keys == Loadable(sections[i].value, worlds, living) && after == before[files[i].playerId.value := loaded]
    requires !(files[i].playerId.Some? && sections[i].Some?) ==> after == before
    ensures forall j :: LegacyLastStoreFor(files, sections, j, i + 1) ==>
      files[j].playerId.value in after && after[files[j].playerId.value].Keys == Loadable(sections[j].value, worlds, living)
  {
    forall j | LegacyLastStoreFor(files, sections, j, i + 1)
      ensures files[j].playerId.value in after && after[files[j].playerId.value].Keys == Loadable(sections[j].value, worlds, living)
    {
      if j < i {
        assert LegacyLastStoreFor(files, sections, j, i);
      }
    }
  }

  /**
   * What the older `loadPlayerStatuesData` has established once the first `i` files are
   * loaded, starting from the statue map `before`: none of them threw, the last file of each
   * owner with a section so far holds its loadable names, every file with a section has its
   * owner stored, and owners without a file so far are as they were.
   */
  ghost predicate LegacyLoadSoFar(files: seq<PlayerFile>, sections: seq<Option<map<string, Section>>>, i: int,
                            before: LegacyStatues, statues: LegacyStatues, kinds: seq<string>, worlds: set<string>, living: set<string>)
  {
    && 0 <= i <= |files| == |sections|
    && (forall j :: 0 <= j < i ==> LegacyFileLoads(files[j].playerId, sections[j], kinds, worlds, living))
    && (forall j :: LegacyLastStoreFor(files, sections, j, i) ==>
          files[j].playerId.value in statues && statues[files[j].playerId.value].Keys == Loadable(sections[j].value, worlds, living))
    && (forall j :: 0 <= j < i && sections[j].Some? ==> files[j].playerId.value in statues)
    && (forall p :: (forall j :: 0 <= j < i ==> files[j].playerId != Some(p)) ==>
          (p in statues <==> p in before) && (p in statues ==> statues[p] == before[p]))
  }

  /** Loading file `i` without a throw, storing `loaded` for its owner when it has a section, extends `LegacyLoadSoFar` by one file. */
  lemma LegacyLoadSoFarStep(files: seq<PlayerFile>, sections: seq<Option<map<string, Section>>>, i: int,
                            before: LegacyStatues, statues: LegacyStatues, after: LegacyStatues, loaded: map<string, Handle>,
                            kinds: seq<string>, worlds: set<string>, living: set<string>)
    requires LegacyLoadSoFar(files, sections, i, before, statues, kinds, worlds, living) && i < |files|
    requires LegacyFileLoads(files[i].playerId, sections[i], kinds, worlds, living)
    requires sections[i].Some? ==>
      loaded.Keys == Loadable(sections[i].value, worlds, living) && after == statues[files[i].playerId.value := loaded]
    requires sections[i].None? ==> after == statues
    ensures LegacyLoadSoFar(files, sections, i + 1, before, after, kinds, worlds, living)
  {
    LegacyLastStoreStep(files, sections, i, worlds, living, statues, after, loaded);
    forall p | forall j :: 0 <= j < i + 1 ==> files[j].playerId != Some(p)
      ensures (p in after <==> p in before) && (p in after ==> after[p] == before[p])
    {
      assert forall j :: 0 <= j < i ==> files[j].playerId != Some(p);
    }
  }

  /**
   * The records `done` of `sections` have been visited without throwing and every one that
   * loads is in `loaded`, whose sections in `current` all hold an "entityName"; the records
   * `names` are still to visit and their sections are as they were.
   */
  predicate LegacyVisited(sections: map<string, Section>, current: map<string, Section>, names: set<string>,
                          done: set<string>, loaded: map<string, Handle>, kinds: seq<string>, worlds: set<string>, living: set<string>)
  {
    && names + done == sections.Keys && names !! done
    && current.Keys == sections.Keys
    && (forall n :: n in names ==> current[n] == sections[n])
    && (forall n :: n in done ==> !LegacyLoadAborts(sections[n], kinds, worlds, living))
    && (forall n :: n in done && LoadSucceeds(sections[n], worlds, living) ==> n in loaded)
    && (forall n :: n in loaded ==> n in done && EntityNameKey in current[n])
  }

  /** Every record in `loaded` was loaded from `sections` as its own entity, spawned at or after `first`. */
  predicate LegacyRecords(sections: map<string, Section>, loaded: map<string, Handle>, first: Handle, w: WorldState,
                          worlds: set<string>, living: set<string>)
  {
    && first <= w.next
    && (forall n :: n in loaded ==> LegacyLoaded(sections, n, loaded[n], first, w, worlds, living))
    && (forall n, m :: n in loaded && m in loaded && n != m ==> loaded[n] != loaded[m])
  }

  /** What the record loop of the older `loadPlayerStatuesData` has established after visiting `done`, with `names` still to visit. */
  ghost predicate LegacyLoadProgress(sections: map<string, Section>, current: map<string, Section>, names: set<string>,
                                     done: set<string>, loaded: map<string, Handle>, first: Handle, w: WorldState,
                                     kinds: seq<string>, worlds: set<string>, living: set<string>)
  {
    LegacyVisited(sections, current, names, done, loaded, kinds, worlds, living)
    && LegacyRecords(sections, loaded, first, w, worlds, living)
  }

  /** A record that neither throws nor loads is passed over. */
  lemma LegacySkipProgress(sections: map<string, Section>, current: map<string, Section>, names: set<string>,
                           done: set<string>, loaded: map<string, Handle>, first: Handle, w: WorldState,
                           kinds: seq<string>, worlds: set<string>, living: set<string>, n: string)
    requires LegacyLoadProgress(sections, current, names, done, loaded, first, w, kinds, worlds, living)
    requires n in names && !LegacyLoadAborts(sections[n], kinds, worlds, living) && !LoadSucceeds(sections[n], worlds, living)
    ensures LegacyLoadProgress(sections, current, names - {n}, done + {n}, loaded, first, w, kinds, worlds, living)
  {
  }

  /** Visiting a record that loads, with its section now holding an "entityName", puts it in `loaded`. */
  lemma LegacyVisitedGrows(sections: map<string, Section>, current: map<string, Section>, names: set<string>,
                           done: set<string>, loaded: map<string, Handle>, kinds: seq<string>, worlds: set<string>,
                           living: set<string>, n: string, h: Handle, current': map<string, Section>)
    requires LegacyVisited(sections, current, names, done, loaded, kinds, worlds, living)
    requires n in names && LoadSucceeds(sections[n], worlds, living) && !LegacyLoadAborts(sections[n], kinds, worlds, living)
    requires current'.Keys == current.Keys && EntityNameKey in current'[n]
    requires forall m :: m in current && m != n ==> current'[m] == current[m]
    ensures LegacyVisited(sections, current', names - {n}, done + {n}, loaded[n := h], kinds, worlds, living)
  {
    var loaded' := loaded[n := h];
    forall m | m in names - {n} ensures current'[m] == sections[m] {
    }
    forall m | m in done + {n} && LoadSucceeds(sections[m], worlds, living) ensures m in loaded' {
    }
    forall m | m in loaded' ensures m in done + {n} && EntityNameKey in current'[m] {
    }
  }

  /** The record `n` loaded as the next entity, named as its section says, joins the loaded records. */
  lemma LegacyRecordsGrow(sections: map<string, Section>, loaded: map<string, Handle>, first: Handle, w: WorldState,
                          worlds: set<string>, living: set<string>, n: string, name: string)
    requires LegacyRecords(sections, loaded, first, w, worlds, living)
    requires n in sections && LoadSucceeds(sections[n], worlds, living)
    requires StoredId(sections[n]).Some? ==> name == StoredId(sections[n]).value
    requires StoredId(sections[n]).None? ==> IsStatueId(name)
    ensures LegacyRecords(sections, loaded[n := w.next], first, AfterSpawn(w, sections[n][EntityTypeKey], Some(name)), worlds, living)
  {
    var loaded' := loaded[n := w.next];
    assert forall m :: m in loaded ==> loaded[m] < w.next;
    assert forall m, k :: m in loaded' && k in loaded' && m != k ==> loaded'[m] != loaded'[k];
  }

  /**
   * A record that loads as the next entity, named `name` as its section says, with its section
   * now holding an "entityName", is put in `loaded`.
   */
  lemma LegacyLoadedProgress(sections: map<string, Section>, current: map<string, Section>, names: set<string>,
                             done: set<string>, loaded: map<string, Handle>, first: Handle, w: WorldState,
                             kinds: seq<string>, worlds: set<string>, living: set<string>, n: string, name: string,
                             current': map<string, Section>)
    requires LegacyLoadProgress(sections, current, names, done, loaded, first, w, kinds, worlds, living)
    requires n in names && LoadSucceeds(sections[n], worlds, living) && !LegacyLoadAborts(sections[n], kinds, worlds, living)
    requires StoredId(sections[n]).Some? ==> name == StoredId(sections[n]).value
    requires StoredId(sections[n]).None? ==> IsStatueId(name)
    requires current'.Keys == current.Keys && EntityNameKey in current'[n]
    requires forall m :: m in current && m != n ==> current'[m] == current[m]
    ensures LegacyLoadProgress(sections, current', names - {n}, done + {n}, loaded[n := w.next], first,
                               AfterSpawn(w, sections[n][EntityTypeKey], Some(name)), kinds, worlds, living)
  {
    LegacyVisitedGrows(sections, current, names, done, loaded, kinds, worlds, living, n, w.next, current');
    LegacyRecordsGrow(sections, loaded, first, w, worlds, living, n, name);
  }

  class LegacyPlugin {
    const world: World
    var playerStatueMap: LegacyStatues
    var preventItemDrops: bool

    /** Between calls the world is well formed, item drops are not suppressed and the statue map is registered. */
    ghost predicate Valid()
      reads this, world
    {
      world.Valid() && !preventItemDrops && Registered(playerStatueMap, world.next)
    }

    constructor (world: World)
      requires world.Valid()
      ensures Valid()
      ensures this.world == world && playerStatueMap == map[]
    {
      this.world := world;
      playerStatueMap, preventItemDrops := map[], false;
    }

    /** `removeOldStatue`: dispatch the kill command for the statue's custom name while item drops are suppressed. */
    method RemoveOldStatue(statue: Handle)
      requires Valid()
      modifies this, world
      ensures Valid() && playerStatueMap == old(playerStatueMap)
      ensures world.Snapshot() == AfterKill(old(world.Snapshot()), statue)
    {
      preventItemDrops := true;
      var customName := world.CustomNameOf(statue);
      var killCommand := KillCommand(customName);
      world.Dispatch(killCommand, preventItemDrops);
      preventItemDrops := false;
    }

    /** `removeOldEntity`: despawn the entity (its passengers are not modelled) without suppressing drops. */
    method RemoveOldEntity(entity: Handle)
      requires Valid()
      modifies world
      ensures Valid()
      ensures world.Snapshot() == AfterDespawn(old(world.Snapshot()), entity, false)
    {
      world.Remove(entity, preventItemDrops);
    }

    /** `removeStatue(UUID, String)`: the entry leaves the owner's map and, if there was one, its entity is killed. */
    method RemoveStatue(playerId: Uuid, statueName: string)
      requires Valid()
      modifies this, world
      ensures Valid()
      ensures playerStatueMap == Without(old(playerStatueMap), playerId, statueName)
      ensures world.Snapshot() == if old(Lookup(playerStatueMap, playerId, statueName)).Some?
                                  then AfterKill(old(world.Snapshot()), old(Lookup(playerStatueMap, playerId, statueName)).value)
                                  else old(world.Snapshot())
    {
      WithoutKeepsRegistered(playerStatueMap, world.next, playerId, statueName, world.next);
      if playerId in playerStatueMap {
        var playerStatues := playerStatueMap[playerId];
        var statue := if statueName in playerStatues then Some(playerStatues[statueName]) else None;
        playerStatueMap := playerStatueMap[playerId := playerStatues - {statueName}];
        if statue.Some? {
          RemoveOldStatue(statue.value);
        }
      }
    }

    /**
     * `createStatue`: the same-named statue of the owner is removed (and killed) first; then
     * `EntityType.valueOf` throws for an unknown kind, and a non-living kind stops with
     * "Invalid entity name." Otherwise a new entity of that kind is spawned, given a random
     * custom name and stored under the name.
     */
    method CreateStatue(playerId: Uuid, statueName: string, entityName: string) returns (reply: LegacyReply)
      requires Valid()
      modifies this, world
      ensures Valid()
      ensures var removed := Without(old(playerStatueMap), playerId, statueName);
        var previous := old(Lookup(playerStatueMap, playerId, statueName));
        var w := if previous.Some? then AfterKill(old(world.Snapshot()), previous.value) else old(world.Snapshot());
        if entityName !in world.entityTypes then
          reply == UnknownEntityType && playerStatueMap == removed && world.Snapshot() == w
        else if entityName !in world.living then
          reply == InvalidEntityName && playerStatueMap == removed && world.Snapshot() == w
        else
          && reply.Created? && reply.entity == w.next && IsStatueId(reply.customName)
          && playerStatueMap == Store(old(playerStatueMap), playerId, statueName, reply.entity)
          && world.Snapshot() == AfterSpawn(w, entityName, Some(reply.customName))
    {
      RemoveStatue(playerId, statueName);
      if entityName !in world.entityTypes {
        // `EntityType.valueOf` throws, and nothing catches it.
        return UnknownEntityType;
      }
      if entityName !in world.living {
        return InvalidEntityName;
      }
      var entity := world.Spawn(entityName);
      var customName := GenerateRandomName();
      world.SetCustomName(entity, Some(customName));
      StoreKeepsRegistered(playerStatueMap, entity, playerId, statueName);
      StoreAfterWithout(old(playerStatueMap), playerId, statueName, entity);
      playerStatueMap := Store(playerStatueMap, playerId, statueName, entity);
      return Created(entity, customName);
    }

    /**
     * The delete command (`removeStatue(CommandSender, String)`) as written: the entry is taken
     * out of the owner's map before the chunk check, so on an unloaded chunk the statue is
     * forgotten while its entity stays in the world, although the player is told it will not
     * be removed.
     */
    method RemoveStatueCommand(sender: Sender, statueName: string, chunkLoaded: bool) returns (reply: LegacyReply)
      requires Valid()
      modifies this, world
      ensures Valid()
      ensures sender.Console? ==> reply == Said(PlayersOnlyText) && unchanged(this, world)
      ensures sender.Player? && sender.id !in old(playerStatueMap) ==> reply == NoStatues && unchanged(this, world)
      ensures sender.Player? && sender.id in old(playerStatueMap) && old(Lookup(playerStatueMap, sender.id, statueName)).None? ==>
        reply == NoSuchStatue && unchanged(this, world)
      ensures sender.Player? && old(Lookup(playerStatueMap, sender.id, statueName)).Some? ==>
        && reply == (if chunkLoaded then Removed else ChunkNotLoaded)
        && playerStatueMap == Without(old(playerStatueMap), sender.id, statueName)
        && Lookup(playerStatueMap, sender.id, statueName).None?
        && world.Snapshot() == (if chunkLoaded then AfterKill(old(world.Snapshot()), old(Lookup(playerStatueMap, sender.id, statueName)).value)
                                else old(world.Snapshot()))
    {
      if sender.Console? {
        return Said(PlayersOnlyText);
      }
      var playerId := sender.id;
      if playerId !in playerStatueMap {
        return NoStatues;
      }
      var playerStatues := playerStatueMap[playerId];
      if statueName !in playerStatues {
        return NoSuchStatue;
      }
      var statue := playerStatues[statueName];
      WithoutKeepsRegistered(playerStatueMap, world.next, playerId, statueName, world.next);
      playerStatueMap := playerStatueMap[playerId := playerStatues - {statueName}];
      if !chunkLoaded {
        return ChunkNotLoaded;
      }
      RemoveOldStatue(statue);
      return Removed;
    }

    /** The delete command with the chunk check made before the entry is touched: on an unloaded chunk nothing changes. */
    method RemoveStatueCommandChecked(sender: Sender, statueName: string, chunkLoaded: bool) returns (reply: LegacyReply)
      requires Valid()
      modifies this, world
      ensures Valid()
      ensures sender.Console? ==> reply == Said(PlayersOnlyText) && unchanged(this, world)
      ensures sender.Player? && sender.id !in old(playerStatueMap) ==> reply == NoStatues && unchanged(this, world)
      ensures sender.Player? && sender.id in old(playerStatueMap) && old(Lookup(playerStatueMap, sender.id, statueName)).None? ==>
        reply == NoSuchStatue && unchanged(this, world)
      ensures sender.Player? && old(Lookup(playerStatueMap, sender.id, statueName)).Some? && !chunkLoaded ==>
        reply == ChunkNotLoaded && unchanged(this, world)
      ensures sender.Player? && old(Lookup(playerStatueMap, sender.id, statueName)).Some? && chunkLoaded ==>
        && reply == Removed
        && playerStatueMap == Without(old(playerStatueMap), sender.id, statueName)
        && world.Snapshot() == AfterKill(old(world.Snapshot()), old(Lookup(playerStatueMap, sender.id, statueName)).value)
    {
      if sender.Console? {
        return Said(PlayersOnlyText);
      }
      var playerId := sender.id;
      if playerId !in playerStatueMap {
        return NoStatues;
      }
      if statueName !in playerStatueMap[playerId] {
        return NoSuchStatue;
      }
      if !chunkLoaded {
        return ChunkNotLoaded;
      }
      RemoveStatue(playerId, statueName);
      return Removed;
    }

    /**
     * `moveStatue`: a registered living statue is killed and re-created under the same name
     * through `createStatue` (which kills it once more); the owner's map object is still the
     * one in the statue map, so the entry read back is the new entity, which is given the old
     * entity's custom name.
     */
    method MoveStatue(playerId: Uuid, statueName: string) returns (moved: bool)
      requires Valid()
      modifies this, world
      ensures Valid()
      ensures moved <==> old(Lookup(playerStatueMap, playerId, statueName)).Some?
                         && old(world.IsLiving(Lookup(playerStatueMap, playerId, statueName).value))
      ensures !moved ==> unchanged(this, world)
      ensures moved ==>
        var previous := old(Lookup(playerStatueMap, playerId, statueName)).value;
        var killed := AfterKill(AfterKill(old(world.Snapshot()), previous), previous);
        && playerStatueMap == Store(old(playerStatueMap), playerId, statueName, old(world.next))
        && world.Snapshot() == AfterSpawn(killed, old(world.kindOf)[previous], old(world.CustomNameOf(previous)))
    {
      if playerId !in playerStatueMap {
        return false;
      }
      var playerStatues := playerStatueMap[playerId];
      if statueName !in playerStatues || !world.IsLiving(playerStatues[statueName]) {
        return false;
      }
      Recreate(playerId, statueName, playerStatues[statueName]);
      return true;
    }

    /** The body of `moveStatue` once the registered statue is known to be a living entity. */
    method Recreate(playerId: Uuid, statueName: string, statue: Handle)
      requires Valid() && Lookup(playerStatueMap, playerId, statueName) == Some(statue) && world.IsLiving(statue)
      modifies this, world
      ensures Valid()
      ensures playerStatueMap == Store(old(playerStatueMap), playerId, statueName, old(world.next))
      ensures world.Snapshot() == AfterSpawn(AfterKill(AfterKill(old(world.Snapshot()), statue), statue),
                                             old(world.kindOf)[statue], old(world.CustomNameOf(statue)))
    {
      ghost var killed := AfterKill(AfterKill(world.Snapshot(), statue), statue);
      var customName := world.CustomNameOf(statue);
      RemoveOldStatue(statue);
      var reply := CreateStatue(playerId, statueName, world.kindOf[statue]);
      assert world.Snapshot() == AfterSpawn(killed, killed.kindOf[statue], Some(reply.customName));
      var newStatue := playerStatueMap[playerId][statueName];
      // The source checks that the entry is a living entity; `createStatue` has just stored one.
      assert world.IsLiving(newStatue);
      world.SetCustomName(newStatue, customName);
      RenameSpawned(killed, killed.kindOf[statue], reply.customName, customName);
    }

    /**
     * `adjustStatue`: a registered living statue is removed (killed) and despawned, a new entity
     * of its kind is spawned with the old custom name and stored under the name in the owner's
     * map. `dataFound` says whether the player's file has a section for the statue, which
     * decides the reply; the rotation written to the file is not modelled.
     */
    method AdjustStatue(playerId: Uuid, statueName: string, dataFound: bool) returns (reply: LegacyReply)
      requires Valid()
      modifies this, world
      ensures Valid()
      ensures playerId !in old(playerStatueMap) ==> reply == NoStatues && unchanged(this, world)
      ensures playerId in old(playerStatueMap)
              && !(old(Lookup(playerStatueMap, playerId, statueName)).Some?
                   && old(world.IsLiving(Lookup(playerStatueMap, playerId, statueName).value))) ==>
        reply == NoSuchStatue && unchanged(this, world)
      ensures old(Lookup(playerStatueMap, playerId, statueName)).Some?
              && old(world.IsLiving(Lookup(playerStatueMap, playerId, statueName).value)) ==>
        var previous := old(Lookup(playerStatueMap, playerId, statueName)).value;
        var despawned := AfterDespawn(AfterKill(old(world.Snapshot()), previous), previous, false);
        && reply == (if dataFound then Adjusted(old(world.next)) else DataNotFound(old(world.next)))
        && playerStatueMap == Store(old(playerStatueMap), playerId, statueName, old(world.next))
        && world.Snapshot() == AfterSpawn(despawned, old(world.kindOf)[previous], old(world.CustomNameOf(previous)))
    {
      if playerId !in playerStatueMap {
        return NoStatues;
      }
      var playerStatues := playerStatueMap[playerId];
      if statueName !in playerStatues || !world.IsLiving(playerStatues[statueName]) {
        return NoSuchStatue;
      }
      var newEntity := Respawn(playerId, statueName, playerStatues[statueName]);
      return if dataFound then Adjusted(newEntity) else DataNotFound(newEntity);
    }

    /** The body of `adjustStatue` once the registered statue is known to be a living entity. */
    method Respawn(playerId: Uuid, statueName: string, statue: Handle) returns (newEntity: Handle)
      requires Valid() && Lookup(playerStatueMap, playerId, statueName) == Some(statue) && world.IsLiving(statue)
      modifies this, world
      ensures Valid()
      ensures newEntity == old(world.next)
      ensures playerStatueMap == Store(old(playerStatueMap), playerId, statueName, newEntity)
      ensures world.Snapshot() == AfterSpawn(AfterDespawn(AfterKill(old(world.Snapshot()), statue), statue, false),
                                             old(world.kindOf)[statue], old(world.CustomNameOf(statue)))
    {
      var customName := world.CustomNameOf(statue);
      RemoveStatue(playerId, statueName);
      RemoveOldEntity(statue);
      newEntity := world.Spawn(world.kindOf[statue]);
      world.SetCustomName(newEntity, customName);
      StoreKeepsRegistered(playerStatueMap, newEntity, playerId, statueName);
      StoreAfterWithout(old(playerStatueMap), playerId, statueName, newEntity);
      // `playerStatues.put`: the owner's map object is still the one in the statue map.
      var playerStatues: map<string, Handle> := playerStatueMap[playerId][statueName := newEntity];
      playerStatueMap := playerStatueMap[playerId := playerStatues];
    }

    /** The inner loop of `removeAllStatues`, over the entities of one owner's map: each is despawned, drops not suppressed. */
    method RemoveEntities(statues: set<Handle>)
      requires Valid()
      modifies world
      ensures Valid()
      ensures world.Snapshot() == old(world.Snapshot()).(live := old(world.live) - statues, log := world.log)
      ensures DespawnedExactly(old(world.log), world.log, statues)
    {
      ghost var start := world.Snapshot();
      ghost var gone: set<Handle> := {};
      var rest := statues;
      while rest != {}
        invariant Valid()
        invariant rest + gone == statues
        invariant world.Snapshot() == start.(live := start.live - gone, log := world.log)
        invariant DespawnedExactly(start.log, world.log, gone)
        decreases rest
      {
        var statue :| statue in rest;
        DespawnedStep(start.log, world.log, gone, statue);
        world.Remove(statue, preventItemDrops);
        gone := gone + {statue};
        rest := rest - {statue};
      }
    }

    /** `removeAllStatues`: every stored entity is despawned (drops not suppressed), then the statue map is cleared. */
    method RemoveAllStatues()
      requires Valid()
      modifies this, world
      ensures Valid()
      ensures playerStatueMap == map[]
      ensures world.Snapshot() == old(world.Snapshot()).(live := old(world.live) - AllStored(old(playerStatueMap)), log := world.log)
      ensures DespawnedExactly(old(world.log), world.log, AllStored(old(playerStatueMap)))
    {
      ghost var start := world.Snapshot();
      ghost var done: set<Handle> := {};
      ghost var named: set<map<string, Handle>> := {};
      var owners := playerStatueMap.Values;
      while owners != {}
        invariant Valid() && playerStatueMap == old(playerStatueMap)
        invariant owners + named == old(playerStatueMap).Values
        invariant done == StatueRegistry.HandlesIn(named)
        invariant world.Snapshot() == start.(live := start.live - done, log := world.log)
        invariant DespawnedExactly(start.log, world.log, done)
        decreases owners
      {
        var playerStatues :| playerStatues in owners;
        ghost var before := world.log;
        RemoveEntities(playerStatues.Values);
        DespawnedCompose(start.log, before, world.log, done, playerStatues.Values);
        done := done + playerStatues.Values;
        StatueRegistry.HandlesInAdd(named, playerStatues);
        named := named + {playerStatues};
        owners := owners - {playerStatues};
      }
      playerStatueMap := map[];
    }

    /**
     * `loadStatueFromConfig` of the older version for the section of `statueName`: it throws
     * as `LegacyLoadAborts` says, skips (`null`) a record of a non-living kind, and otherwise
     * spawns an entity of the kind wearing the section's "entityName", or a random name that
     * is written back into the section when that one is missing or empty.
     */
    method LoadStatueFromConfig(statueName: string, config: PlayerDataConfig) returns (step: LoadStep)
      requires Valid() && config.statues.Some? && statueName in config.statues.value
      modifies world, config
      ensures Valid()
      ensures var section := old(config.statues).value[statueName];
        && (step.Aborted? <==> LegacyLoadAborts(section, world.entityTypes, world.worlds, world.living))
        && (step.Loaded? <==> LoadSucceeds(section, world.worlds, world.living))
        && (!step.Loaded? ==> unchanged(world, config))
        && (step.Loaded? ==>
              && step.entity == old(world.next) && step.entity in world.customName
              && world.Snapshot() == AfterSpawn(old(world.Snapshot()), section[EntityTypeKey], Some(world.customName[step.entity]))
              && (StoredId(section).Some? ==>
                    world.customName[step.entity] == StoredId(section).value && config.statues == old(config.statues))
              && (StoredId(section).None? ==>
                    && IsStatueId(world.customName[step.entity])
                    && config.statues == Some(old(config.statues).value[statueName := section[EntityNameKey := world.customName[step.entity]]])))
    {
      var section := config.statues.value[statueName];
      if WorldKey !in section {
        // `Bukkit.getWorld(null)` throws.
        return Aborted;
      }
      if EntityTypeKey !in section || section[EntityTypeKey] !in world.entityTypes {
        // `EntityType.valueOf` throws for `null` and for a name it does not know.
        return Aborted;
      }
      var entityType := section[EntityTypeKey];
      if entityType !in world.living {
        return Skipped;
      }
      if section[WorldKey] !in world.worlds {
        // The location's world is `null`, so `spawnEntity` throws.
        return Aborted;
      }
      var entity := world.Spawn(entityType);
      var customName := if EntityNameKey in section then section[EntityNameKey] else "";
      if customName == "" {
        customName := GenerateRandomName();
        config.statues := Some(config.statues.value[statueName := section[EntityNameKey := customName]]);
      }
      world.SetCustomName(entity, Some(customName));
      return Loaded(entity);
    }

    /**
     * One pass of the record loop of the older `loadPlayerStatuesData`: the record
     * `statueName` is loaded and, when that gives an entity, put in `loaded`. `aborted` is true
     * when loading the record threw.
     */
    method LoadRecord(statueName: string, config: PlayerDataConfig, ghost sections: map<string, Section>,
                      ghost names: set<string>, ghost done: set<string>, loaded: map<string, Handle>, ghost first: Handle)
      returns (aborted: bool, loaded': map<string, Handle>)
      requires Valid() && config.statues.Some? && statueName in names
      requires LegacyLoadProgress(sections, config.statues.value, names, done, loaded, first, world.Snapshot(),
                                  world.entityTypes, world.worlds, world.living)
      modifies world, config
      ensures Valid() && config.statues.Some?
      ensures aborted <==> LegacyLoadAborts(sections[statueName], world.entityTypes, world.worlds, world.living)
      ensures aborted ==>
        LegacyLoadProgress(sections, config.statues.value, names, done, loaded', first, world.Snapshot(),
                           world.entityTypes, world.worlds, world.living)
      ensures !aborted ==>
        LegacyLoadProgress(sections, config.statues.value, names - {statueName}, done + {statueName}, loaded', first,
                           world.Snapshot(), world.entityTypes, world.worlds, world.living)
    {
      ghost var w, current := world.Snapshot(), config.statues.value;
      var statue := LoadStatueFromConfig(statueName, config);
      loaded' := loaded;
      if statue.Aborted? {
        return true, loaded';
      }
      if statue.Loaded? {
        LegacyLoadedProgress(sections, current, names, done, loaded, first, w, world.entityTypes, world.worlds, world.living,
                             statueName, world.customName[statue.entity], config.statues.value);
        loaded' := loaded[statueName := statue.entity];
      } else {
        LegacySkipProgress(sections, current, names, done, loaded, first, w, world.entityTypes, world.worlds, world.living,
                           statueName);
      }
      return false, loaded';
    }

    /**
     * The record loop of the older `loadPlayerStatuesData` over one player's "statues" section.
     * `ok` is false when a record threw, which stops the whole load.
     */
    method LoadRecords(config: PlayerDataConfig) returns (ok: bool, loaded: map<string, Handle>)
      requires Valid() && config.statues.Some?
      modifies world, config
      ensures Valid() && config.statues.Some?
      ensures ok <==> forall n :: n in old(config.statues).value ==>
        !LegacyLoadAborts(old(config.statues).value[n], world.entityTypes, world.worlds, world.living)
      ensures ok ==> forall n :: n in old(config.statues).value && LoadSucceeds(old(config.statues).value[n], world.worlds, world.living) ==>
        n in loaded
      ensures forall n :: n in loaded ==> LegacyLoaded(old(config.statues).value, n, loaded[n], old(world.next), world.Snapshot(), world.worlds, world.living)
      ensures forall n, m :: n in loaded && m in loaded && n != m ==> loaded[n] != loaded[m]
      ensures forall n :: n in loaded ==> n in config.statues.value && EntityNameKey in config.statues.value[n]
      ensures old(world.next) <= world.next
    {
      ghost var sections := config.statues.value;
      loaded := map[];
      var names := config.statues.value.Keys;
      ghost var done: set<string> := {};
      while names != {}
        invariant Valid() && config.statues.Some?
        invariant LegacyLoadProgress(sections, config.statues.value, names, done, loaded, old(world.next), world.Snapshot(),
                                     world.entityTypes, world.worlds, world.living)
        decreases names
      {
        var statueName :| statueName in names;
        var aborted;
        aborted, loaded := LoadRecord(statueName, config, sections, names, done, loaded, old(world.next));
        if aborted {
          return false, loaded;
        }
        names := names - {statueName};
        done := done + {statueName};
      }
      return true, loaded;
    }

    /**
     * The tail of the older `loadPlayerStatuesData` for one file: `updateStatueData` (which
     * finds every loaded record's section already named) and then the owner's map stored,
     * even when it is empty.
     */
    method StoreLoaded(playerId: Uuid, config: PlayerDataConfig, loaded: map<string, Handle>) returns (migrated: bool)
      requires config.statues.Some?
      requires forall n :: n in loaded ==> n in config.statues.value && EntityNameKey in config.statues.value[n]
      modifies this, config
      ensures !migrated && config.statues == old(config.statues)
      ensures playerStatueMap == old(playerStatueMap)[playerId := loaded]
      ensures preventItemDrops == old(preventItemDrops)
    {
      migrated := UpdateStatueData(config, loaded);
      assert config.statues.value == old(config.statues).value;
      playerStatueMap := playerStatueMap[playerId := loaded];
    }

    /**
     * The older `loadPlayerStatuesData` for one player's file with a "statues" section: load
     * every record, then store the owner's map whatever it holds. `ok` is false when a record
     * threw, which stops the load before anything is stored.
     */
    method LoadFile(playerId: Uuid, config: PlayerDataConfig) returns (ok: bool, loaded: map<string, Handle>)
      requires Valid() && config.statues.Some?
      modifies this, world, config
      ensures Valid() && config.statues.Some?
      ensures ok <==> forall n :: n in old(config.statues).value ==>
        !LegacyLoadAborts(old(config.statues).value[n], world.entityTypes, world.worlds, world.living)
      ensures ok ==> forall n :: n in old(config.statues).value && LoadSucceeds(old(config.statues).value[n], world.worlds, world.living) ==>
        n in loaded
      ensures forall n :: n in loaded ==> LegacyLoaded(old(config.statues).value, n, loaded[n], old(world.next), world.Snapshot(), world.worlds, world.living)
      ensures ok ==> playerStatueMap == old(playerStatueMap)[playerId := loaded]
      ensures !ok ==> playerStatueMap == old(playerStatueMap)
    {
      ok, loaded := LoadRecords(config);
      if !ok {
        return;
      }
      PutOwnerKeepsRegistered(playerStatueMap, old(world.next), playerId, loaded, world.next);
      var migrated := StoreLoaded(playerId, config, loaded);
    }

    /**
     * The older `loadPlayerStatuesData` over the player files, each with its own freshly
     * loaded configuration: a file whose name is not a UUID throws and stops the load, and so
     * does a record that throws; `ok` is false exactly then. Every file with a "statues"
     * section stores its owner's map, even an empty one, so after a complete load an owner's
     * map holds the names whose records load in the last of the owner's files with a section.
     */
    method LoadPlayerStatuesData(files: seq<PlayerFile>) returns (ok: bool)
      requires Valid()
      requires forall i, j :: 0 <= i < j < |files| ==> files[i].config != files[j].config
      modifies this, world, set f | f in files :: f.config
      ensures Valid()
      ensures ok <==> forall i :: 0 <= i < |files| ==>
        LegacyFileLoads(files[i].playerId, old(Sections(files))[i], world.entityTypes, world.worlds, world.living)
      ensures ok ==> forall i :: LegacyLastStoreFor(files, old(Sections(files)), i, |files|) ==>
        && files[i].playerId.value in playerStatueMap
        && playerStatueMap[files[i].playerId.value].Keys == Loadable(old(Sections(files))[i].value, world.worlds, world.living)
      ensures ok ==> forall i :: 0 <= i < |files| ==> files[i].playerId.Some?
      ensures ok ==> forall i :: 0 <= i < |files| && old(Sections(files))[i].Some? ==> files[i].playerId.value in playerStatueMap
      ensures forall p :: (forall i :: 0 <= i < |files| ==> files[i].playerId != Some(p)) ==>
        (p in playerStatueMap <==> p in old(playerStatueMap)) && (p in playerStatueMap ==> playerStatueMap[p] == old(playerStatueMap)[p])
    {
      ghost var sections := Sections(files);
      for i := 0 to |files|
        invariant Valid()
        invariant forall j :: i <= j < |files| ==> files[j].config.statues == sections[j]
        invariant LegacyLoadSoFar(files, sections, i, old(playerStatueMap), playerStatueMap,
                                  world.entityTypes, world.worlds, world.living)
      {
        var fileOk := LoadEntry(files, sections, i, old(playerStatueMap));
        if !fileOk {
          return false;
        }
      }
      return true;
    }

    /**
     * One pass of the loop of the older `loadPlayerStatuesData`, over file `i` whose "statues"
     * section is `sections[i]`: `fileOk` is false when the file's name is not a UUID or one of
     * its records throws, and the statue map is then as it was; otherwise the file's owner
     * gets the map of the file's loadable records when the file has a section.
     */
    method LoadEntry(files: seq<PlayerFile>, ghost sections: seq<Option<map<string, Section>>>, i: int,
                     ghost before: LegacyStatues) returns (fileOk: bool)
      requires Valid()
      requires 0 <= i < |files| == |sections| && files[i].config.statues == sections[i]
      requires LegacyLoadSoFar(files, sections, i, before, playerStatueMap, world.entityTypes, world.worlds, world.living)
      modifies this, world, files[i].config
      ensures Valid()
      ensures fileOk <==> LegacyFileLoads(files[i].playerId, sections[i], world.entityTypes, world.worlds, world.living)
      ensures fileOk ==> LegacyLoadSoFar(files, sections, i + 1, before, playerStatueMap, world.entityTypes, world.worlds, world.living)
      ensures !fileOk ==> playerStatueMap == old(playerStatueMap)
    {
      var file := files[i];
      ghost var prior := playerStatueMap;
      if file.playerId.None? {
        // `UUID.fromString` throws.
        return false;
      }
      if file.config.statues.None? {
        LegacyLoadSoFarStep(files, sections, i, before, prior, prior, map[], world.entityTypes, world.worlds, world.living);
        return true;
      }
      var loaded;
      fileOk, loaded := LoadFile(file.playerId.value, file.config);
      if fileOk {
        assert loaded.Keys == Loadable(sections[i].value, world.worlds, world.living);
        LegacyLoadSoFarStep(files, sections, i, before, prior, playerStatueMap, loaded, world.entityTypes, world.worlds, world.living);
      }
    }

    /**
     * The older `onCommand`: the action `Dispatch` chooses is carried out, with the delete
     * command as written (the entry goes even when the chunk is not loaded). `chunkLoaded`
     * says whether the statue's chunk is loaded, `parsesAsDouble` whether
     * `Double.parseDouble` accepts a text and `dataFound` whether the player's file has a
     * section for the statue being adjusted.
     */
    method OnCommand(sender: Sender, command: string, args: seq<string>, parsesAsDouble: string -> bool,
                     chunkLoaded: bool, dataFound: bool)
      returns (handled: bool, reply: LegacyReply)
      requires Valid()
      modifies this, world
      ensures Valid()
      ensures handled <==> IsPluginCommand(command)
      ensures var a := Dispatch(command, args, sender.Player?, parsesAsDouble);
        && (a.Say? ==> reply == Said(a.text) && unchanged(this, world))
        && (a.NotHandled? ==> reply == Unhandled && unchanged(this, world))
        && (a.ListStatuesCmd? ==> reply == Listed(OwnerNames(old(playerStatueMap), sender.id)) && unchanged(this, world))
        && (a.DeleteStatueCmd? && sender.Console? ==> reply == Said(PlayersOnlyText) && unchanged(this, world))
      ensures var a := Dispatch(command, args, sender.Player?, parsesAsDouble);
        a.CreateStatueCmd? ==>
          var removed := Without(old(playerStatueMap), sender.id, a.statueName);
          var previous := old(Lookup(playerStatueMap, sender.id, a.statueName));
          var w := if previous.Some? then AfterKill(old(world.Snapshot()), previous.value) else old(world.Snapshot());
          if a.entityName !in world.entityTypes then
            reply == UnknownEntityType && playerStatueMap == removed && world.Snapshot() == w
          else if a.entityName !in world.living then
            reply == InvalidEntityName && playerStatueMap == removed && world.Snapshot() == w
          else
            && reply.Created? && reply.entity == w.next && IsStatueId(reply.customName)
            && playerStatueMap == Store(old(playerStatueMap), sender.id, a.statueName, reply.entity)
            && world.Snapshot() == AfterSpawn(w, a.entityName, Some(reply.customName))
      ensures var a := Dispatch(command, args, sender.Player?, parsesAsDouble);
        a.MoveStatueCmd? ==>
          && reply == Moved(old(Lookup(playerStatueMap, sender.id, a.statueName)).Some?
                            && old(world.IsLiving(Lookup(playerStatueMap, sender.id, a.statueName).value)))
          && (!reply.moved ==> unchanged(this, world))
          && (reply.moved ==>
                var previous := old(Lookup(playerStatueMap, sender.id, a.statueName)).value;
                var killed := AfterKill(AfterKill(old(world.Snapshot()), previous), previous);
                && playerStatueMap == Store(old(playerStatueMap), sender.id, a.statueName, old(world.next))
                && world.Snapshot() == AfterSpawn(killed, old(world.kindOf)[previous], old(world.CustomNameOf(previous))))
      ensures var a := Dispatch(command, args, sender.Player?, parsesAsDouble);
        a.DeleteStatueCmd? && sender.Player? ==>
          && playerStatueMap == Without(old(playerStatueMap), sender.id, a.statueName)
          && (sender.id !in old(playerStatueMap) ==> reply == NoStatues)
          && (sender.id in old(playerStatueMap) && old(Lookup(playerStatueMap, sender.id, a.statueName)).None? ==>
                reply == NoSuchStatue)
          && (old(Lookup(playerStatueMap, sender.id, a.statueName)).Some? ==>
                reply == (if chunkLoaded then Removed else ChunkNotLoaded))
          && world.Snapshot() ==
               (if chunkLoaded && old(Lookup(playerStatueMap, sender.id, a.statueName)).Some?
                then AfterKill(old(world.Snapshot()), old(Lookup(playerStatueMap, sender.id, a.statueName)).value)
                else old(world.Snapshot()))
      ensures var a := Dispatch(command, args, sender.Player?, parsesAsDouble);
        a.AdjustStatueCmd? ==>
          && (sender.id !in old(playerStatueMap) ==> reply == NoStatues && unchanged(this, world))
          && (sender.id in old(playerStatueMap)
              && !(old(Lookup(playerStatueMap, sender.id, a.statueName)).Some?
                   && old(world.IsLiving(Lookup(playerStatueMap, sender.id, a.statueName).value))) ==>
                reply == NoSuchStatue && unchanged(this, world))
          && (old(Lookup(playerStatueMap, sender.id, a.statueName)).Some?
              && old(world.IsLiving(Lookup(playerStatueMap, sender.id, a.statueName).value)) ==>
                var previous := old(Lookup(playerStatueMap, sender.id, a.statueName)).value;
                var despawned := AfterDespawn(AfterKill(old(world.Snapshot()), previous), previous, false);
                && reply == (if dataFound then Adjusted(old(world.next)) else DataNotFound(old(world.next)))
                && playerStatueMap == Store(old(playerStatueMap), sender.id, a.statueName, old(world.next))
                && world.Snapshot() == AfterSpawn(despawned, old(world.kindOf)[previous], old(world.CustomNameOf(previous))))
    {
      DispatchByArgumentCount(command, args, sender.Player?, parsesAsDouble);
      var action := Dispatch(command, args, sender.Player?, parsesAsDouble);
      handled := !action.NotHandled?;
      match action
      case CreateStatueCmd(statueName, entityName) =>
        reply := CreateStatue(sender.id, statueName, entityName);
      case MoveStatueCmd(statueName) =>
        var moved := MoveStatue(sender.id, statueName);
        reply := Moved(moved);
      case ListStatuesCmd =>
        reply := Listed(OwnerNames(playerStatueMap, sender.id));
      case DeleteStatueCmd(statueName) =>
        reply := RemoveStatueCommand(sender, statueName, chunkLoaded);
      case AdjustStatueCmd(statueName) =>
        reply := AdjustStatue(sender.id, statueName, dataFound);
      case Say(text) =>
        reply := Said(text);
      case NotHandled =>
        reply := Unhandled;
    }

    /**
     * The older `onTabComplete`. It casts the sender to a player, unchecked, for `/msdel` with
     * one non-empty argument and `/msmove` with one argument, so for the console it throws
     * there (`None`).
     * Otherwise the suggestions are those of the newer version.
     */
    method OnTabComplete(sender: Sender, command: string, args: seq<string>) returns (completions: Option<seq<string>>)
      ensures Lower(command) == CreateCommand ==>
        completions == Some(if |args| >= 2 then MatchingKinds(world.entityTypes, world.living, KindPrefix(args)) else [])
      ensures Lower(command) == DeleteCommand && AsksForList(args) ==>
        completions.Some? && forall x :: x in completions.value <==> sender.Player? && x in OwnerNames(playerStatueMap, sender.id)
      ensures (Lower(command) == DeleteCommand && |args| == 1 && args[0] != "") || (Lower(command) == MoveCommand && |args| == 1) ==>
        && (completions.None? <==> sender.Console?)
        && (sender.Player? ==>
              forall x :: x in completions.value <==> x in OwnerNames(playerStatueMap, sender.id) && StartsWith(x, Lower(args[0])))
      ensures Lower(command) == AdjustCommand && |args| == 1 ==>
        completions.Some? && forall x :: x in completions.value <==> sender.Player? && x in OwnerNames(playerStatueMap, sender.id)
      ensures (Lower(command) == DeleteCommand && |args| >= 2) || (Lower(command) in {MoveCommand, AdjustCommand} && |args| != 1) ==>
        completions == Some([])
      ensures !IsPluginCommand(command) ==> completions == Some([])
      ensures Lower(command) != CreateCommand && completions.Some? ==>
        forall i, j :: 0 <= i < j < |completions.value| ==> completions.value[i] != completions.value[j]
    {
      var result: seq<string> := [];
      var name := Lower(command);
      if name == CreateCommand {
        if |args| >= 2 {
          result := CompleteKind(world.entityTypes, world.living, args);
        }
      } else if name == DeleteCommand {
        if AsksForList(args) {
          if sender.Player? {
            result := AllNames(OwnerNames(playerStatueMap, sender.id));
          }
        } else if |args| == 1 {
          var partialName := Lower(args[0]);
          if sender.Console? {
            // `(Player) sender` throws a ClassCastException.
            return None;
          }
          result := MatchingNames(OwnerNames(playerStatueMap, sender.id), partialName);
        }
      } else if name == MoveCommand {
        if |args| == 1 {
          var partialName := Lower(args[0]);
          if sender.Console? {
            // `(Player) sender` throws a ClassCastException.
            return None;
          }
          result := MatchingNames(OwnerNames(playerStatueMap, sender.id), partialName);
        }
      } else if name == AdjustCommand {
        if |args| == 1 && sender.Player? {
          result := AllNames(OwnerNames(playerStatueMap, sender.id));
        }
      }
      return Some(result);
    }
  }
}

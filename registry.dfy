/**
 * The statue registry of the newer plugin version (MobStatues/main/MobStatues.java) as
 * values: the two-level statue map keyed by the owner's UUID halves and then by statue name,
 * and the reverse index from statue id to (owner, name). Each registry operation of the
 * plugin is given here as a function from the tables before to the tables after, with the
 * entity-id table of the world (`ids`, the persistent-data value per entity) as input;
 * the lemmas state which of them keep the two tables consistent with each other.
 */
module StatueRegistry {
  import opened Wrappers
  import opened Host

  /** msb of the owner's UUID -> lsb -> statue name -> entity. */
  type Statues = map<Long, map<Long, map<string, Handle>>>

  /** A reverse-index entry: who owns the statue with a given id, and under which name. */
  datatype StatueInfo = StatueInfo(playerId: Uuid, statueName: string)

  datatype Tables = Tables(statues: Statues, lookup: map<string, StatueInfo>)

  /** `getPlayerStatues`: the owner's name -> entity map, or `None` (Java `null`). */
  function PlayerStatues(statues: Statues, playerId: Uuid): Option<map<string, Handle>>
  {
    if playerId.msb in statues && playerId.lsb in statues[playerId.msb]
    then Some(statues[playerId.msb][playerId.lsb])
    else None
  }

  /** The entity registered under (owner, name), if any. */
  function Get(statues: Statues, playerId: Uuid, name: string): Option<Handle>
  {
    match PlayerStatues(statues, playerId)
    case None => None
    case Some(m) => if name in m then Some(m[name]) else None
  }

  /** The statue names an owner has (empty when the owner has no map). */
  function Names(statues: Statues, playerId: Uuid): (r: set<string>)
    ensures forall n :: n in r <==> Get(statues, playerId, n).Some?
  {
    match PlayerStatues(statues, playerId)
    case None => {}
    case Some(m) => m.Keys
  }

  /** `getOrCreatePlayerStatues(playerId).put(name, h)`. */
  function PutStatue(statues: Statues, playerId: Uuid, name: string, h: Handle): (r: Statues)
    ensures PlayerStatues(r, playerId).Some?
    ensures forall p, n :: Get(r, p, n) == if p == playerId && n == name then Some(h) else Get(statues, p, n)
    ensures forall p :: p != playerId ==> PlayerStatues(r, p) == PlayerStatues(statues, p)
  {
    var second: map<Long, map<string, Handle>> := if playerId.msb in statues then statues[playerId.msb] else map[];
    var named: map<string, Handle> := if playerId.lsb in second then second[playerId.lsb] else map[];
    var updated: map<Long, map<string, Handle>> := second[playerId.lsb := named[name := h]];
    statues[playerId.msb := updated]
  }

  /** `getPlayerStatues(playerId).remove(name)` when the owner has a map; nothing otherwise. */
  function RemoveName(statues: Statues, playerId: Uuid, name: string): (r: Statues)
    ensures forall p, n :: Get(r, p, n) == if p == playerId && n == name then None else Get(statues, p, n)
    ensures forall p :: PlayerStatues(r, p).Some? <==> PlayerStatues(statues, p).Some?
    ensures Get(statues, playerId, name) == None ==> r == statues
  {
    match PlayerStatues(statues, playerId)
    case None => statues
    case Some(m) =>
      var second: map<Long, map<string, Handle>> := statues[playerId.msb][playerId.lsb := m - {name}];
      var r := statues[playerId.msb := second];
      assert name !in m ==> m - {name} == m;
      assert name !in m ==> second == statues[playerId.msb];
      r
  }

  /** `getOrCreateSecondMap(msb).put(lsb, m)`: the owner's whole map replaced by `m`. */
  function PutPlayer(statues: Statues, playerId: Uuid, m: map<string, Handle>): (r: Statues)
    ensures PlayerStatues(r, playerId) == Some(m)
    ensures forall p :: p != playerId ==> PlayerStatues(r, p) == PlayerStatues(statues, p)
  {
    var second: map<Long, map<string, Handle>> := if playerId.msb in statues then statues[playerId.msb] else map[];
    var updated: map<Long, map<string, Handle>> := second[playerId.lsb := m];
    statues[playerId.msb := updated]
  }

  function IdOf(ids: map<Handle, string>, h: Handle): Option<string>
  {
    if h in ids then Some(ids[h]) else None
  }

  /** The statue that `info` names is registered and its entity carries `id`. */
  ghost predicate Carries(statues: Statues, ids: map<Handle, string>, info: StatueInfo, id: string)
  {
    match Get(statues, info.playerId, info.statueName)
    case None => false
    case Some(h) => IdOf(ids, h) == Some(id)
  }

  /**
   * The cross-structure invariant: every registered statue's entity carries an id that the
   * reverse index maps back to that statue's (owner, name), and every reverse-index entry
   * names a registered statue whose entity carries that id.
   */
  ghost predicate Linked(t: Tables, ids: map<Handle, string>)
  {
    && (forall p, n :: Get(t.statues, p, n).Some? ==>
          var h := Get(t.statues, p, n).value;
          h in ids && ids[h] in t.lookup && t.lookup[ids[h]] == StatueInfo(p, n))
    && (forall id :: id in t.lookup ==> Carries(t.statues, ids, t.lookup[id], id))
  }

  /** The handles stored in some of the owners' name -> entity maps. */
  function HandlesIn(maps: set<map<string, Handle>>): set<Handle>
  {
    set named, h | named in maps && h in named.Values :: h
  }

  /** The handles stored in some of the second-level (lsb-keyed) maps. */
  function HandlesInSeconds(seconds: set<map<Long, map<string, Handle>>>): set<Handle>
  {
    set second, named, h | second in seconds && named in second.Values && h in named.Values :: h
  }

  /** Every statue handle stored anywhere in the map. */
  function AllHandles(statues: Statues): set<Handle>
  {
    HandlesInSeconds(statues.Values)
  }

  lemma HandlesInAdd(maps: set<map<string, Handle>>, named: map<string, Handle>)
    ensures HandlesIn(maps + {named}) == HandlesIn(maps) + named.Values
  {
  }

  lemma HandlesInSecondsAdd(seconds: set<map<Long, map<string, Handle>>>, second: map<Long, map<string, Handle>>)
    ensures HandlesInSeconds(seconds + {second}) == HandlesInSeconds(seconds) + HandlesIn(second.Values)
  {
  }

  /** The ids that the entities in `hs` carry. */
  function IdsOf(hs: set<Handle>, ids: map<Handle, string>): set<string>
  {
    set h | h in hs && h in ids :: ids[h]
  }

  lemma RegisteredHandlesAreStored(statues: Statues)
    ensures forall p, n :: Get(statues, p, n).Some? ==> Get(statues, p, n).value in AllHandles(statues)
  {
    forall p, n | Get(statues, p, n).Some? ensures Get(statues, p, n).value in AllHandles(statues) {
      var second := statues[p.msb];
      var named := second[p.lsb];
      assert second in statues.Values;
      assert named in second.Values;
      assert named[n] in named.Values;
    }
  }

  // ---------------------------------------------------------------------------
  // The registry operations, as transitions of the tables.

  /**
   * `removeStatue` / `removeStatueFromMemory` (MobStatues/main/MobStatues.java:401-412 and
   * 497-509): the (owner, name) entry is removed and, when its entity carries an id, that
   * id leaves the reverse index.
   */
  function AfterRemove(t: Tables, ids: map<Handle, string>, playerId: Uuid, name: string): (r: Tables)
    ensures Get(r.statues, playerId, name) == None
    ensures forall p, n :: (p, n) != (playerId, name) ==> Get(r.statues, p, n) == Get(t.statues, p, n)
    ensures Get(t.statues, playerId, name) == None ==> r == t
    ensures forall id :: id in r.lookup <==>
      id in t.lookup && !(Get(t.statues, playerId, name).Some? && IdOf(ids, Get(t.statues, playerId, name).value) == Some(id))
    ensures forall id :: id in r.lookup ==> r.lookup[id] == t.lookup[id]
  {
    match Get(t.statues, playerId, name)
    case None => t
    case Some(h) =>
      Tables(RemoveName(t.statues, playerId, name), if h in ids then t.lookup - {ids[h]} else t.lookup)
  }

  /**
   * The success tail of `createStatue` (MobStatues/main/MobStatues.java:312-313): the new entity `h` registered under
   * (owner, name) and its fresh id `id` mapped back to (owner, name).
   */
  function AfterCreate(t: Tables, playerId: Uuid, name: string, h: Handle, id: string): (r: Tables)
    ensures Get(r.statues, playerId, name) == Some(h)
    ensures forall p, n :: (p, n) != (playerId, name) ==> Get(r.statues, p, n) == Get(t.statues, p, n)
    ensures r.lookup.Keys == t.lookup.Keys + {id} && r.lookup[id] == StatueInfo(playerId, name)
    ensures forall other :: other in t.lookup && other != id ==> r.lookup[other] == t.lookup[other]
  {
    Tables(PutStatue(t.statues, playerId, name, h), t.lookup[id := StatueInfo(playerId, name)])
  }

  /**
   * `removeStatueCommand` as written when the statue's chunk is not loaded (MobStatues/main/MobStatues.java:527-537):
   * the entry has already been removed from the statue map; the reverse index is untouched.
   */
  function AfterUnloadedDelete(t: Tables, playerId: Uuid, name: string): (r: Tables)
    ensures Get(r.statues, playerId, name) == None
    ensures forall p, n :: (p, n) != (playerId, name) ==> Get(r.statues, p, n) == Get(t.statues, p, n)
    ensures r.lookup == t.lookup
  {
    t.(statues := RemoveName(t.statues, playerId, name))
  }

  /**
   * `onEntityDeath` (MobStatues/main/MobStatues.java:383-394) for a dying entity carrying `id`: when the reverse index
   * knows the id, the statue it names is removed from memory and the id is dropped.
   */
  function AfterReap(t: Tables, ids: map<Handle, string>, id: Option<string>): (r: Tables)
    ensures id.None? || id.value !in t.lookup ==> r == t
    ensures id.Some? ==> id.value !in r.lookup
  {
    if id.Some? && id.value in t.lookup then
      var info := t.lookup[id.value];
      var t1 := AfterRemove(t, ids, info.playerId, info.statueName);
      t1.(lookup := t1.lookup - {id.value})
    else t
  }

  /**
   * `moveStatue` (MobStatues/main/MobStatues.java:444-467) for the statue (owner, name) held by an entity carrying
   * `oldId`: `createStatue` removes it and registers the re-spawned entity `h` under the
   * fresh id `newId`; then `newId` is dropped from the reverse index and, when there was an
   * old id, the old id is mapped to (owner, name) again.
   */
  function AfterMove(t: Tables, ids: map<Handle, string>, playerId: Uuid, name: string, h: Handle, newId: string): (r: Tables)
    requires Get(t.statues, playerId, name).Some?
    ensures Get(r.statues, playerId, name) == Some(h)
    ensures forall p, n :: (p, n) != (playerId, name) ==> Get(r.statues, p, n) == Get(t.statues, p, n)
    ensures var oldId := IdOf(ids, Get(t.statues, playerId, name).value);
      && (forall id :: id in r.lookup <==> (id in t.lookup && id != newId) || oldId == Some(id))
      && (oldId.Some? ==> r.lookup[oldId.value] == StatueInfo(playerId, name))
      && (forall id :: id in r.lookup && oldId != Some(id) ==> r.lookup[id] == t.lookup[id])
  {
    var oldId := IdOf(ids, Get(t.statues, playerId, name).value);
    var created := AfterCreate(AfterRemove(t, ids, playerId, name), playerId, name, h, newId);
    var untagged := created.(lookup := created.lookup - {newId});
    if oldId.Some? then untagged.(lookup := untagged.lookup[oldId.value := StatueInfo(playerId, name)]) else untagged
  }

  /** `moveStatue` as its two steps: creation, then the id swap in the reverse index. */
  lemma MoveInSteps(t: Tables, ids: map<Handle, string>, playerId: Uuid, name: string, h: Handle, newId: string, created: Tables)
    requires Get(t.statues, playerId, name).Some?
    requires created == AfterCreate(AfterRemove(t, ids, playerId, name), playerId, name, h, newId)
    ensures var oldId := IdOf(ids, Get(t.statues, playerId, name).value);
      var dropped := created.lookup - {newId};
      AfterMove(t, ids, playerId, name, h, newId)
        == Tables(created.statues, if oldId.Some? then dropped[oldId.value := StatueInfo(playerId, name)] else dropped)
  {
  }

  /** The entity-id table after `moveStatue`: the re-spawned entity carries the old id when there was one. */
  function IdsAfterMove(ids: map<Handle, string>, previous: Handle, h: Handle, newId: string): map<Handle, string>
  {
    ids[h := if previous in ids then ids[previous] else newId]
  }

  /**
   * `adjustStatue` (MobStatues/main/MobStatues.java:228-241) for a statue whose entity carries an id: the entry is
   * removed, and the re-spawned entity `h` is registered under the same name and the same id.
   */
  function AfterAdjust(t: Tables, ids: map<Handle, string>, playerId: Uuid, name: string, h: Handle): (r: Tables)
    requires Get(t.statues, playerId, name).Some? && Get(t.statues, playerId, name).value in ids
    ensures Get(r.statues, playerId, name) == Some(h)
    ensures forall p, n :: (p, n) != (playerId, name) ==> Get(r.statues, p, n) == Get(t.statues, p, n)
    ensures var statueId := ids[Get(t.statues, playerId, name).value];
      && r.lookup.Keys == t.lookup.Keys + {statueId}
      && r.lookup[statueId] == StatueInfo(playerId, name)
      && (forall id :: id in t.lookup && id != statueId ==> r.lookup[id] == t.lookup[id])
  {
    var statueId := ids[Get(t.statues, playerId, name).value];
    AfterCreate(AfterRemove(t, ids, playerId, name), playerId, name, h, statueId)
  }

  /**
   * `removeAllStatues` (MobStatues/main/MobStatues.java:473-490): every id carried by a stored entity leaves the
   * reverse index, and the statue map is emptied.
   */
  function AfterClear(t: Tables, ids: map<Handle, string>): (r: Tables)
    ensures r.statues == map[]
    ensures forall p, n :: Get(t.statues, p, n).Some? && Get(t.statues, p, n).value in ids ==>
      ids[Get(t.statues, p, n).value] !in r.lookup
    ensures forall id :: id in r.lookup ==> id in t.lookup && r.lookup[id] == t.lookup[id]
    ensures forall id :: id in t.lookup && id !in IdsOf(AllHandles(t.statues), ids) ==> id in r.lookup
  {
    RegisteredHandlesAreStored(t.statues);
    Tables(map[], t.lookup - IdsOf(AllHandles(t.statues), ids))
  }
}

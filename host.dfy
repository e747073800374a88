/**
 * The host game engine, reduced to what the plugin observes of it. Entities are opaque
 * handles; the engine remembers, per handle, its entity kind, the statue id stored in its
 * persistent data container, and its custom name, and whether it is still in the world.
 * The two effects the plugin has on the world besides spawning (despawning an entity and
 * dispatching a console command) are appended to a log together with the value of the
 * plugin's item-drop suppression flag at that moment, which is what the plugin's
 * item-spawn handler reads.
 */
module Host {
  import opened Wrappers

  /** A Java `long`. */
  type Long = x: int | -0x8000_0000_0000_0000 <= x < 0x8000_0000_0000_0000

  /** A player's UUID, as its most- and least-significant 64-bit halves. */
  datatype Uuid = Uuid(msb: Long, lsb: Long)

  /** The issuer of a command: a player (with their UUID) or the console. */
  datatype Sender = Player(id: Uuid) | Console

  /** An opaque reference to an entity of the game world. */
  type Handle = nat

  datatype Effect =
    | Despawned(entity: Handle, dropsPrevented: bool)
    | Dispatched(command: string, dropsPrevented: bool)

  /** Everything the world holds, as one value, so that contracts can say what a call changed. */
  datatype WorldState = WorldState(
    next: Handle,
    live: set<Handle>,
    kindOf: map<Handle, string>,
    statueId: map<Handle, string>,
    customName: map<Handle, string>,
    log: seq<Effect>)

  /** The world after `entity.remove()`, observed with drop suppression `dropsPrevented`. */
  function AfterDespawn(w: WorldState, h: Handle, dropsPrevented: bool): WorldState
  {
    w.(live := w.live - {h}, log := w.log + [Despawned(h, dropsPrevented)])
  }

  /**
   * `after` is `before` followed by despawn effects, without drop suppression, of exactly the
   * entities in `hs`.
   */
  ghost predicate DespawnedExactly(before: seq<Effect>, after: seq<Effect>, hs: set<Handle>)
  {
    && |before| <= |after| && after[..|before|] == before
    && forall e :: e in after[|before|..] <==> e.Despawned? && e.entity in hs && !e.dropsPrevented
  }

  lemma DespawnedStep(before: seq<Effect>, after: seq<Effect>, hs: set<Handle>, h: Handle)
    requires DespawnedExactly(before, after, hs)
    ensures DespawnedExactly(before, after + [Despawned(h, false)], hs + {h})
  {
    assert (after + [Despawned(h, false)])[|before|..] == after[|before|..] + [Despawned(h, false)];
  }

  lemma DespawnedCompose(a: seq<Effect>, b: seq<Effect>, c: seq<Effect>, hs: set<Handle>, more: set<Handle>)
    requires DespawnedExactly(a, b, hs) && DespawnedExactly(b, c, more)
    ensures DespawnedExactly(a, c, hs + more)
  {
    assert c[|a|..] == b[|a|..] + c[|b|..];
  }

  class World {
    /** The names of `EntityType.values()`, in declaration order. */
    const entityTypes: seq<string>
    /** The names of the entity types whose `isAlive()` holds. */
    const living: set<string>
    /** The names of the loaded worlds (`Bukkit.getWorld(name) != null`). */
    const worlds: set<string>

    /** Every handle below `next` has been handed out. */
    var next: Handle
    var live: set<Handle>
    var kindOf: map<Handle, string>
    var statueId: map<Handle, string>
    var customName: map<Handle, string>
    var log: seq<Effect>

    ghost predicate Valid()
      reads this
    {
      && (forall k :: k in living ==> k in entityTypes)
      && (forall h :: h in live ==> h < next)
      && (forall h :: h in kindOf ==> h < next)
      && (forall h :: h in statueId ==> h < next)
      && (forall h :: h in customName ==> h < next)
    }

    function Snapshot(): WorldState
      reads this
    {
      WorldState(next, live, kindOf, statueId, customName, log)
    }

    /** `getStatueId`: the id in the entity's persistent data container, if any. */
    function IdOf(h: Handle): Option<string>
      reads this
    {
      if h in statueId then Some(statueId[h]) else None
    }

    /** `getCustomName`: the entity's custom name, or `None` (Java `null`) when it has none. */
    function CustomNameOf(h: Handle): Option<string>
      reads this
    {
      if h in customName then Some(customName[h]) else None
    }

    /** `entity instanceof LivingEntity`. */
    predicate IsLiving(h: Handle)
      reads this
    {
      h in kindOf && kindOf[h] in living
    }

    constructor (entityTypes: seq<string>, living: set<string>, worlds: set<string>)
      requires forall k :: k in living ==> k in entityTypes
      ensures Valid()
      ensures this.entityTypes == entityTypes && this.living == living && this.worlds == worlds
      ensures Snapshot() == WorldState(0, {}, map[], map[], map[], [])
    {
      this.entityTypes, this.living, this.worlds := entityTypes, living, worlds;
      next, live, kindOf, statueId, customName, log := 0, {}, map[], map[], map[], [];
    }

    /** `spawnEntity`: a new entity of the given kind, with empty persistent data and no custom name. */
    method Spawn(kind: string) returns (h: Handle)
      requires Valid()
      modifies this
      ensures Valid()
      ensures h == old(next)
      ensures Snapshot() == old(Snapshot()).(next := h + 1, live := old(live) + {h}, kindOf := old(kindOf)[h := kind])
    {
      h := next;
      next := next + 1;
      live := live + {h};
      kindOf := kindOf[h := kind];
    }

    /** `entity.remove()`, observed while the plugin's drop-suppression flag is `dropsPrevented`. */
    method Remove(h: Handle, dropsPrevented: bool)
      requires Valid()
      modifies this
      ensures Valid()
      ensures Snapshot() == AfterDespawn(old(Snapshot()), h, dropsPrevented)
    {
      live := live - {h};
      log := log + [Despawned(h, dropsPrevented)];
    }

    /** Writing the statue id into the entity's persistent data container. */
    method SetStatueId(h: Handle, id: string)
      requires Valid() && h < next
      modifies this
      ensures Valid()
      ensures Snapshot() == old(Snapshot()).(statueId := old(statueId)[h := id])
    {
      statueId := statueId[h := id];
    }

    /** `setCustomName`; `None` clears the name. */
    method SetCustomName(h: Handle, name: Option<string>)
      requires Valid() && h < next
      modifies this
      ensures Valid()
      ensures Snapshot() == old(Snapshot()).(customName :=
        if name.Some? then old(customName)[h := name.value] else old(customName) - {h})
    {
      customName := if name.Some? then customName[h := name.value] else customName - {h};
    }

    /** `Bukkit.dispatchCommand` from the console; what the command does to the world is not modelled. */
    method Dispatch(command: string, dropsPrevented: bool)
      requires Valid()
      modifies this
      ensures Valid()
      ensures Snapshot() == old(Snapshot()).(log := old(log) + [Dispatched(command, dropsPrevented)])
    {
      log := log + [Dispatched(command, dropsPrevented)];
    }
  }
}

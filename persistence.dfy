/**
 * The parts of the per-player data file that the plugin's bookkeeping reads and writes:
 * the "statues" section, one sub-section per statue name, and in it the string-valued
 * keys "world", "entityType" and "entityName". Reading and writing the file itself is not
 * modelled; a `PlayerDataConfig` object is the file's in-memory configuration.
 */
module Persistence {
  import opened Wrappers
  import opened Host
  import opened StatueIds

  /** A statue's sub-section: its string-valued keys (coordinates and angles are not modelled). */
  type Section = map<string, string>

  const WorldKey: string := "world"
  const EntityTypeKey: string := "entityType"
  const EntityNameKey: string := "entityName"

  /** The in-memory configuration of one player's file. */
  class PlayerDataConfig {
    /** The "statues" section by statue name; `None` when the file has no such section. */
    var statues: Option<map<string, Section>>

    constructor (statues: Option<map<string, Section>>)
      ensures this.statues == statues
    {
      this.statues := statues;
    }
  }

  /** One `.yml` file of the players folder: the UUID its name parses to (if it does) and its contents. */
  datatype PlayerFile = PlayerFile(playerId: Option<Uuid>, config: PlayerDataConfig)

  /** The outcome of `loadStatueFromConfig` for one record: an entity, `null`, or an exception escaping. */
  datatype LoadStep = Loaded(entity: Handle) | Skipped | Aborted

  /** Both versions of `loadStatueFromConfig` spawn an entity for this section: a known world and a living kind. */
  predicate LoadSucceeds(section: Section, worlds: set<string>, living: set<string>)
  {
    && WorldKey in section && section[WorldKey] in worlds
    && EntityTypeKey in section && section[EntityTypeKey] in living
  }

  /** The names of the records of a "statues" section that load. */
  function Loadable(sections: map<string, Section>, worlds: set<string>, living: set<string>): set<string>
  {
    set n | n in sections && LoadSucceeds(sections[n], worlds, living)
  }

  /** The "statues" sections of the player files, in the order the files are visited. */
  function Sections(files: seq<PlayerFile>): (r: seq<Option<map<string, Section>>>)
    reads set f | f in files :: f.config
    ensures |r| == |files|
    ensures forall i :: 0 <= i < |files| ==> r[i] == files[i].config.statues
  {
    if files == [] then [] else [files[0].config.statues] + Sections(files[1..])
  }

  /** The section's non-empty "entityName", if any: the statue id in the newer version, the custom name in the older one. */
  function StoredId(section: Section): Option<string>
  {
    if EntityNameKey in section && section[EntityNameKey] != "" then Some(section[EntityNameKey]) else None
  }

  /** The statue `name` has a section in `statues` and that section has no "entityName" key. */
  predicate LacksEntityName(statues: Option<map<string, Section>>, name: string)
  {
    statues.Some? && name in statues.value && EntityNameKey !in statues.value[name]
  }

  /** `after` is `before` with an "entityName" of the generated-id shape added. */
  predicate Migrated(before: Section, after: Section)
  {
    && after.Keys == before.Keys + {EntityNameKey}
    && IsStatueId(after[EntityNameKey])
    && forall k :: k in before ==> after[k] == before[k]
  }

  /** Every section of `after` is either migrated from the one in `before` (for the names `chosen`) or unchanged. */
  predicate MigratedExactly(before: map<string, Section>, after: map<string, Section>, chosen: set<string>)
  {
    && after.Keys == before.Keys
    && forall n :: n in after ==>
         if n in chosen && EntityNameKey !in before[n] then Migrated(before[n], after[n]) else after[n] == before[n]
  }

  /** What `updateStatueData` has established after visiting the names `done`, with `names` still to visit. */
  predicate MigrationSoFar(before: Option<map<string, Section>>, current: Option<map<string, Section>>,
                           done: set<string>, names: set<string>, hasUpdates: bool)
  {
    && names !! done
    && current.Some? == before.Some?
    && (current.Some? ==> MigratedExactly(before.value, current.value, done))
    && (hasUpdates <==> exists n :: n in done && LacksEntityName(before, n))
    && (forall n :: n in done ==> !LacksEntityName(current, n))
    && (forall n :: n in names ==> LacksEntityName(current, n) == LacksEntityName(before, n))
  }

  /** Visiting one more name, and migrating its section when it lacks "entityName", keeps `MigrationSoFar`. */
  lemma MigrationStep(before: Option<map<string, Section>>, current: Option<map<string, Section>>,
                      done: set<string>, names: set<string>, hasUpdates: bool, n: string, id: string)
    requires MigrationSoFar(before, current, done, names, hasUpdates)
    requires n in names && (LacksEntityName(current, n) ==> IsStatueId(id))
    ensures var lacks := LacksEntityName(current, n);
      var after := if lacks then Some(current.value[n := current.value[n][EntityNameKey := id]]) else current;
      MigrationSoFar(before, after, done + {n}, names - {n}, hasUpdates || lacks)
  {
    var lacks := LacksEntityName(current, n);
    if lacks {
      var after := Some(current.value[n := current.value[n][EntityNameKey := id]]);
      assert Migrated(before.value[n], after.value[n]);
      assert forall m :: m in done + {n} ==> !LacksEntityName(after, m);
    }
  }

  /**
   * `updateStatueData`: every loaded statue whose section lacks "entityName" gets a freshly
   * generated one; the result says whether any section was changed.
   */
  method UpdateStatueData(config: PlayerDataConfig, playerStatues: map<string, Handle>) returns (hasUpdates: bool)
    modifies config
    ensures hasUpdates <==> exists n :: n in playerStatues && LacksEntityName(old(config.statues), n)
    ensures config.statues.Some? == old(config.statues).Some?
    ensures config.statues.Some? ==> MigratedExactly(old(config.statues).value, config.statues.value, playerStatues.Keys)
    ensures forall n :: n in playerStatues ==> !LacksEntityName(config.statues, n)
  {
    hasUpdates := false;
    var names := playerStatues.Keys;
    ghost var done: set<string> := {};
    while names != {}
      invariant names + done == playerStatues.Keys
      invariant MigrationSoFar(old(config.statues), config.statues, done, names, hasUpdates)
      decreases names
    {
      var statueName :| statueName in names;
      if config.statues.Some? && statueName in config.statues.value && EntityNameKey !in config.statues.value[statueName] {
        var section := config.statues.value[statueName];
        var randomName := GenerateRandomName();
        MigrationStep(old(config.statues), config.statues, done, names, hasUpdates, statueName, randomName);
        config.statues := Some(config.statues.value[statueName := section[EntityNameKey := randomName]]);
        hasUpdates := true;
      } else {
        MigrationStep(old(config.statues), config.statues, done, names, hasUpdates, statueName, "");
      }
      names := names - {statueName};
      done := done + {statueName};
    }
  }
}

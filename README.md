# MobStatues — a verified model of the statue bookkeeping

MobStatues is a server plugin that lets a player turn a mob into a "statue": a motionless,
invulnerable living entity registered under a name of the player's choice. Players create
statues with `/ms`, move them with `/msmove`, delete them with `/msdel` and turn them with
`/msadjust`. The plugin remembers every statue in memory, stores it in one data file per
player, and re-spawns it from that file when the server starts.

This project models the plugin's own bookkeeping in two versions of the plugin.

- **Newer version** (`MobStatues/main/MobStatues.java`). Three pieces of state:
  - a statue map keyed by the owner's UUID halves (msb, then lsb) and then by statue name;
  - a reverse index from a random 16-character statue id to (owner, name);
  - the item-drop suppression flag.

  Every statue entity carries its id in its persistent data. The intended invariant, `Linked`, ties
  the two tables together: every registered statue's entity carries an id that the reverse index
  maps back to that statue, and every reverse-index entry names a registered statue carrying that id.
- **Older version** (`MobStatues/src/main/MobStatues.java`). One map from owner UUID to the owner's
  name → entity map, and the item-drop flag. Each statue wears a random custom name instead of an
  id. Removal dispatches the console command `minecraft:kill @e[name=<custom name>]`.

The host game engine is the `Host.World` class. Entities are opaque handles. For each handle the
world records its kind, the id in its persistent data, its custom name and whether it is alive.
It also keeps a log of despawns and dispatched console commands. Each log entry is tagged with the
value of the item-drop flag at that moment, which is what the plugin's item-spawn handler reads.

Modules:

| file | module | contents |
|---|---|---|
| `wrappers.dfy` | `Wrappers` | `Option` |
| `text.dfy` | `Text` | ASCII `toLowerCase`/`toUpperCase`, `equalsIgnoreCase`, `startsWith`, the space-joined arguments |
| `statue_ids.dfy` | `StatueIds` | the 62-character alphabet and `generateRandomName` |
| `host.dfy` | `Host` | the world class, UUIDs, senders, the effect log |
| `registry.dfy` | `StatueRegistry` | the newer version's tables as values, and each registry operation as a transition |
| `registry_properties.dfy` | `RegistryProperties` | which transitions keep the tables `Linked`, and which do not |
| `persistence.dfy` | `Persistence` | a player file's "statues" section and `updateStatueData` |
| `commands.dfy` | `Commands` | the argument-count dispatch of `onCommand`, shared by both versions |
| `completion.dfy` | `Completion` | the filtering loops of `onTabComplete`, shared by both versions |
| `mob_statues.dfy` | `MobStatues` | class `Plugin`: the newer version |
| `legacy_mob_statues.dfy` | `LegacyMobStatues` | class `LegacyPlugin`: the older version |

Each method of the newer `Plugin` class is proved to move the tables along the corresponding
`StatueRegistry` transition. It is also proved to change the world exactly as stated: which
entities are spawned, despawned or renamed, and with what flag value. `RegistryProperties`
proves what each transition does to `Linked`, and the methods carry that over as
`old(Consistent()) ==> Consistent()`. The older `LegacyPlugin` keeps a second invariant,
`Registered`, in its `Valid()`: every stored entity has been handed out, and no entity is
stored under two (owner, name) pairs.

Inputs the plugin gets from outside are parameters of the model:
- whether a statue's chunk is loaded;
- whether `Double.parseDouble` accepts a text;
- whether the player's file has data for the statue being adjusted;
- the player files and their contents;
- the set of entity kinds, the living kinds and the loaded worlds.

Random choices and the iteration order of hash sets are nondeterministic choices (`:|`).

## Model

| member | source | states |
|---|---|---|
| Text.Lower | MobStatues/main/MobStatues.java:155 | `toLowerCase` keeps the length and maps each ASCII capital to its lower case, every other character unchanged |
| Text.Upper | MobStatues/main/MobStatues.java:156 | `toUpperCase` keeps the length and maps each ASCII small letter to its capital, every other character unchanged |
| Text.LowerIsNormal | MobStatues/main/MobStatues.java:155 | a lower-cased statue name contains no capital letter, and lower-casing it again changes nothing |
| Text.JoinEndsWithSpace | MobStatues/main/MobStatues.java:811-818 | when the last of at least two joined arguments is empty, the joined text ends with the separating space |
| StatueIds.CharactersAreAlphanumeric | MobStatues/main/MobStatues.java:67 | the generator's alphabet has 62 characters, all distinct, and holds exactly the ASCII letters and digits |
| StatueIds.StatueIdIsAlphanumeric | MobStatues/main/MobStatues.java:796-804 | a generated id is 16 characters long and every character is an ASCII letter or digit |
| StatueIds.GenerateRandomName | MobStatues/main/MobStatues.java:796-804 | `generateRandomName` returns 16 characters, each drawn from the 62-character alphabet, whatever the random indices |
| Commands.Dispatch | MobStatues/main/MobStatues.java:151-219 | the handler's decision: an action other than "not handled" exactly for the four plugin commands; every message it answers with is one of the plugin's six usage or error texts, and only a non-player is told the command is for players. The older version's dispatch (MobStatues/src/main/MobStatues.java:51-118) is the same |
| Commands.DispatchByArgumentCount | MobStatues/main/MobStatues.java:151-219 | `onCommand` returns true exactly for the four plugin commands. For each operation: it runs exactly when the command name, argument count and sender match (iff, for each). Statue names are the lower-cased first argument and the kind is the upper-cased second |
| Commands.CommandTestsIgnoreCase | MobStatues/main/MobStatues.java:152-195 | the `equalsIgnoreCase` test against each command name is the same as the lower-cased command equalling that name |
| Commands.ConsoleOnlyDeletes | MobStatues/main/MobStatues.java:179-194 | from the console, only `/msdel <name>` reaches an operation; every other command is answered with a message or not handled |
| Commands.DispatchIgnoresCase | MobStatues/main/MobStatues.java:152-195 | an upper-cased command name is dispatched exactly as the original one |
| Commands.StatueNamesAreLowerCase | MobStatues/main/MobStatues.java:155-198 | every statue name handed to create, move, delete or adjust contains no capital letter |
| Completion.MatchingKinds | MobStatues/main/MobStatues.java:819-831 | kind suggestions are no more than the kinds, each in lower case and starting with the prefix |
| Completion.MatchingKindsMembership | MobStatues/main/MobStatues.java:819-831 | a text is suggested iff it is the lower-cased name of a living kind and starts with the prefix |
| Completion.KindPrefix | MobStatues/main/MobStatues.java:811-826 | the text kinds are matched against: for a non-empty last argument, that argument lower-cased (same length, no capitals); for `/ms <name> ` with an empty second argument, the empty text; with three or more arguments and an empty last one, a text ending in a space |
| Completion.JoinArgs | MobStatues/main/MobStatues.java:811-818 | the builder loop produces the arguments after the first, joined with single spaces |
| Completion.FilterKinds | MobStatues/main/MobStatues.java:820-831 | the loop over `EntityType.values()` yields exactly the matching kinds, in declaration order |
| Completion.CompleteKind | MobStatues/main/MobStatues.java:810-832 | `/ms` with two or more arguments suggests the kinds matching the joined arguments (last one empty) or the lower-cased last argument |
| Completion.EmptyKindArgumentSuggestsAll | MobStatues/main/MobStatues.java:819-824 | `/ms <name> ` with an empty kind argument suggests every living kind |
| Completion.TrailingEmptyArgumentSuggestsNothing | MobStatues/main/MobStatues.java:811-824 | with three or more arguments and an empty last one, the prefix ends in a space, so no kind is suggested |
| Completion.MatchingNames | MobStatues/main/MobStatues.java:842-853 | the name loop yields each statue name that starts with the prefix, exactly once, and nothing else |
| Completion.AllNames | MobStatues/main/MobStatues.java:835-841 | `addAll(keySet())` yields every statue name exactly once |
| Persistence.MigrationStep | MobStatues/main/MobStatues.java:641-649 | visiting one more statue, and giving its section a generated "entityName" when it lacks one, keeps the migration invariant |
| Persistence.UpdateStatueData | MobStatues/main/MobStatues.java:639-651 | returns true iff some loaded statue's section lacked "entityName". Each such section gains a generated id of 16 alphanumeric characters and keeps its other keys; all other sections are unchanged. The older version's copy (MobStatues/src/main/MobStatues.java:426-441) is the same loop |
| StatueRegistry.Names | MobStatues/main/MobStatues.java:566-586 | the names listed for an owner are exactly those under which the owner has a statue |
| StatueRegistry.PutStatue | MobStatues/main/MobStatues.java:130-135 | `getOrCreatePlayerStatues(p).put(n, h)`: the owner's map exists afterwards, (p, n) maps to h, and every other entry and every other owner's map is unchanged |
| StatueRegistry.RemoveName | MobStatues/main/MobStatues.java:142-148 | `getPlayerStatues(p).remove(n)` removes only (p, n), keeps every owner's map (even an emptied one) and is a no-op when (p, n) is absent |
| StatueRegistry.PutPlayer | MobStatues/main/MobStatues.java:121-123 | storing an owner's whole map replaces that owner's map and leaves every other owner's map unchanged |
| StatueRegistry.AfterRemove | MobStatues/main/MobStatues.java:497-509 | `removeStatue` removes only the (owner, name) entry and the id its entity carries. It is a no-op when owner or name is absent; no other reverse-index entry changes |
| StatueRegistry.AfterCreate | MobStatues/main/MobStatues.java:312-313 | on success, (owner, name) maps to the new entity and the new id maps to (owner, name); every other entry is unchanged |
| StatueRegistry.AfterUnloadedDelete | MobStatues/main/MobStatues.java:527-537 | on the unloaded-chunk path the name is gone from the statue map while the reverse index is untouched |
| StatueRegistry.AfterMove | MobStatues/main/MobStatues.java:444-467 | after `moveStatue`, (owner, name) maps to the re-spawned entity and no other entry changes. The fresh id is gone from the reverse index unless it is the old one, the old id (if the entity had one) maps to (owner, name) again, and no other index entry changes |
| StatueRegistry.AfterAdjust | MobStatues/main/MobStatues.java:228-241 | after `adjustStatue`, (owner, name) maps to the re-spawned entity and no other entry changes; the reverse index keeps its entries and maps the statue's id to (owner, name) |
| StatueRegistry.AfterReap | MobStatues/main/MobStatues.java:383-395 | a death with a missing or unknown id changes nothing; with a known id, that id is gone afterwards |
| StatueRegistry.AfterClear | MobStatues/main/MobStatues.java:473-490 | `removeAllStatues` empties the statue map. No id carried by a stored entity stays in the reverse index, and every id carried by no stored entity (such as an orphan left by an unloaded-chunk delete) stays, with its value |
| RegistryProperties.LinkedIdsAreDistinct | MobStatues/main/MobStatues.java:49-56 | while the tables are linked, two different registered statues carry different ids |
| RegistryProperties.RemoveKeepsLinked | MobStatues/main/MobStatues.java:497-509 | `removeStatue` keeps the tables linked |
| RegistryProperties.CreateKeepsLinked | MobStatues/main/MobStatues.java:292-314 | registering a fresh entity under a free name, with an id the index does not know, keeps the tables linked |
| RegistryProperties.ReapRemovesCarrier | MobStatues/main/MobStatues.java:383-412 | while linked, a death event removes exactly the statue whose entity carries the dying entity's id |
| RegistryProperties.ReapKeepsLinked | MobStatues/main/MobStatues.java:383-412 | `onEntityDeath` keeps the tables linked, whatever the id |
| RegistryProperties.DeathAfterRemoveIsNoOp | MobStatues/main/MobStatues.java:383-395 | after a statue has been removed, the death of its entity changes nothing |
| RegistryProperties.MoveKeepsLinked | MobStatues/main/MobStatues.java:449-461 | after a move (fresh id unknown beforehand) the tables are linked. The reverse index is exactly what it was, (owner, name) maps to the new entity, and the new entity carries the old id |
| RegistryProperties.MoveIsAdjust | MobStatues/main/MobStatues.java:449-461 | while linked, a move ends in the same tables as an adjust: the temporary id is gone and the old id is back |
| RegistryProperties.AfterCheckedDelete | MobStatues/main/MobStatues.java:516-560 | the corrected delete (see Findings): the entry is gone only when the chunk is loaded, no other entry changes, the reverse index only loses entries, and it is untouched on an unloaded chunk or a missing entry |
| RegistryProperties.AdjustKeepsLinked | MobStatues/main/MobStatues.java:228-272 | `adjustStatue` keeps the tables linked, leaves the reverse index as it was and registers the new entity under the name |
| RegistryProperties.ClearEmptiesLookup | MobStatues/main/MobStatues.java:473-490 | while linked, `removeAllStatues` leaves the reverse index empty as well |
| RegistryProperties.UnloadedDeleteUnlinks | MobStatues/main/MobStatues.java:527-537 | the delete command as written, on an unloaded chunk, always breaks the link between the tables |
| RegistryProperties.OrphanDeathUnregistersSuccessor | MobStatues/main/MobStatues.java:527-537 | sequence: an unloaded-chunk delete, a re-creation under the same name, then the death of the forgotten old entity. That death unregisters the new statue and drops its id |
| RegistryProperties.CheckedDeleteKeepsLinked | MobStatues/main/MobStatues.java:516-560 | the delete command with the chunk check moved before the removal keeps the tables linked |
| MobStatues.StoredOwnersAreNonEmpty | MobStatues/main/MobStatues.java:621-626 | storing only non-empty owner maps keeps every changed owner with a non-empty map |
| MobStatues.SkipProgress | MobStatues/main/MobStatues.java:607-617 | a record that neither throws nor loads keeps the load invariant |
| MobStatues.LoadedProgress | MobStatues/main/MobStatues.java:607-617 | a record that loads keeps the load invariant: it joins the owner's new map and its id maps to (owner, name) |
| MobStatues.Plugin.RemoveOldStatue | MobStatues/main/MobStatues.java:359-365 | the entity is despawned while item drops are suppressed, and the flag is false again afterwards |
| MobStatues.Plugin.RemoveOldEntity | MobStatues/main/MobStatues.java:277-284 | the entity is despawned without drop suppression |
| MobStatues.Plugin.RemoveStatue | MobStatues/main/MobStatues.java:497-509 | performs `AfterRemove`, despawns the registered entity (if any) with drops suppressed, and keeps the tables linked |
| MobStatues.Plugin.RemoveStatueFromMemory | MobStatues/main/MobStatues.java:401-412 | performs `AfterRemove`, leaves the world alone, and keeps the tables linked |
| MobStatues.Plugin.SetupStatueEntity | MobStatues/main/MobStatues.java:325-340 | clears the custom name and stores the id; a missing id is refused after the name was cleared |
| MobStatues.Plugin.CreateStatue | MobStatues/main/MobStatues.java:292-314 | the same-named statue is removed first, whatever follows. An unknown or non-living kind stops there with "Invalid entity name.". Otherwise a new entity of the kind gets a 16-character id and is registered in both tables. The tables stay linked when the id is new |
| MobStatues.Plugin.OnEntityDeath | MobStatues/main/MobStatues.java:383-395 | performs `AfterReap` for the dying entity's id and keeps the tables linked |
| MobStatues.Plugin.RemoveStatueCommand | MobStatues/main/MobStatues.java:516-560 | as written: console, no map and no such name change nothing. An unloaded chunk forgets the statue while its entity and id stay, which unlinks the tables. A loaded chunk is `removeStatue` |
| MobStatues.Plugin.RemoveStatueCommandChecked | MobStatues/main/MobStatues.java:516-560 | the corrected delete: on an unloaded chunk nothing changes, otherwise it is `removeStatue`; the tables stay linked |
| MobStatues.Plugin.RestoreStatueId | MobStatues/main/MobStatues.java:456-461 | the re-created entity's temporary id leaves the index; the old id (if any) is put on the entity and mapped to (owner, name) |
| MobStatues.Plugin.MoveStatue | MobStatues/main/MobStatues.java:444-467 | moves iff the name is registered to a living entity, otherwise changes nothing. The old entity is despawned twice, and the new entity carries the old id. The tables stay linked with the reverse index unchanged |
| MobStatues.Plugin.Recreate | MobStatues/main/MobStatues.java:449-461 | the body of a move: performs `AfterMove` on the tables and `AfterMoveWorld` on the world |
| MobStatues.Plugin.AdjustStatue | MobStatues/main/MobStatues.java:228-272 | no map or no living statue changes nothing. Otherwise the entity is despawned and one of its kind is spawned with the same id and registered under the name. The tables stay linked |
| MobStatues.Plugin.RemoveEntities | MobStatues/main/MobStatues.java:475-485 | despawns exactly the given entities, drops not suppressed, and drops exactly the ids they carry from the index |
| MobStatues.Plugin.RemoveSecondLevel | MobStatues/main/MobStatues.java:474-487 | the same for every entity of the owners stored under one msb |
| MobStatues.Plugin.RemoveAllStatues | MobStatues/main/MobStatues.java:473-490 | despawns exactly the stored entities and performs `AfterClear`. The tables stay linked and the reverse index ends empty |
| MobStatues.Plugin.LoadStatueFromConfig | MobStatues/main/MobStatues.java:675-738 | throws iff "world" is missing, or the world is known and "entityType" is missing. Loads iff the world is known and the kind living. A loaded entity carries the stored "entityName", or a fresh id written back into the section |
| MobStatues.Plugin.LoadRecord | MobStatues/main/MobStatues.java:608-617 | one record: aborts iff loading throws, and otherwise keeps the load invariant with the record visited |
| MobStatues.Plugin.LoadRecords | MobStatues/main/MobStatues.java:607-618 | succeeds iff no record throws. Then every loadable record is loaded as its own new entity, and its id maps to (owner, name). Every index entry was there before or belongs to a loaded record |
| MobStatues.Plugin.StoreLoaded | MobStatues/main/MobStatues.java:619-626 | the migration finds nothing to do; the owner's map is stored only when it is not empty |
| MobStatues.Plugin.LoadPlayerFile | MobStatues/main/MobStatues.java:605-627 | one file: a throwing record stops the load. Otherwise the owner's map is stored iff it is not empty |
| MobStatues.LastStoreStep | MobStatues/main/MobStatues.java:595-627 | processing one more file keeps, for each owner, the map of the last file so far that has a loadable record: a later file of the same owner replaces it only when it has such a record itself |
| MobStatues.LoadSoFarStep | MobStatues/main/MobStatues.java:595-627 | loading one more file without a throw extends what the load has established: no file threw, the last file of each owner with a loadable record holds its loadable names, changed owner maps are non-empty, owners without a file are untouched |
| MobStatues.Plugin.LoadEntry | MobStatues/main/MobStatues.java:595-627 | one file: it fails iff one of its records throws (a file without a UUID name or a section is passed over), and then the statue map is unchanged; otherwise the load's progress extends to this file |
| MobStatues.Plugin.LoadPlayerStatuesData | MobStatues/main/MobStatues.java:588-632 | succeeds iff no record throws in any file with a UUID name and a "statues" section. After a complete load, each owner's map holds exactly the loadable names of the owner's last file that has any; every owner whose map changed has a non-empty map, and owners with no file are unchanged |
| MobStatues.Plugin.OnCommand | MobStatues/main/MobStatues.java:151-219 | handled iff a plugin command; for every dispatched action the reply and the whole new state of the tables and the world. Messages and listing change nothing. Create: the same-named statue removed first, then either "invalid entity" or a fresh entity spawned, given a new id and registered in both tables, with every other entry untouched. Move: moved iff a living statue is registered, and then the tables and world of a re-spawn under the old id. Delete is the one as written: its reply for each case, the entry removed whatever the chunk, the id dropped and the entity despawned only on a loaded chunk, and the tables unlinked by an unloaded-chunk delete. Adjust: the reply for each case, the tables and the re-spawned world. The tables stay linked except across an unloaded-chunk delete or a colliding random id |
| MobStatues.Plugin.OnTabComplete | MobStatues/main/MobStatues.java:807-881 | `/ms`: matching living kinds. `/msdel`, `/msmove`: the caller's names starting with the lower-cased argument (all of them for an empty `/msdel`). `/msadjust`: all names. Each name is suggested once. The console gets no names, anything else gets nothing |
| LegacyMobStatues.OwnerNames | MobStatues/src/main/MobStatues.java:373-389 | the names listed are exactly those under which the owner has a statue |
| LegacyMobStatues.Store | MobStatues/src/main/MobStatues.java:306-308 | `storeStatue` creates the owner's map if absent and maps (owner, name) to the entity; every other entry is unchanged |
| LegacyMobStatues.Without | MobStatues/src/main/MobStatues.java:310-318 | removes only (owner, name), keeps the owner's map even when emptied, and is a no-op when owner or name is absent |
| LegacyMobStatues.StoreAfterWithout | MobStatues/src/main/MobStatues.java:200-235 | the removal `createStatue` does first makes no difference to the map it then stores |
| LegacyMobStatues.WithoutAfterStore | MobStatues/src/main/MobStatues.java:306-318 | storing a new name for an owner and removing it again restores the map |
| LegacyMobStatues.AllStoredAreRegistered | MobStatues/src/main/MobStatues.java:297-304 | the entities the remove-all loop visits are exactly those some (owner, name) is registered to |
| LegacyMobStatues.StoreKeepsRegistered | MobStatues/src/main/MobStatues.java:306-308 | storing the newly spawned entity keeps the map registered |
| LegacyMobStatues.WithoutKeepsRegistered | MobStatues/src/main/MobStatues.java:310-318 | removing an entry keeps the map registered |
| LegacyMobStatues.PutOwnerKeepsRegistered | MobStatues/src/main/MobStatues.java:405-420 | replacing an owner's map with freshly spawned, distinct entities keeps the map registered |
| LegacyMobStatues.KillCommand | MobStatues/src/main/MobStatues.java:251-253 | the command is exactly `minecraft:kill @e[name=`, then the custom name (or `null`), then `]` |
| LegacyMobStatues.KillCommandSelectsName | MobStatues/src/main/MobStatues.java:251-253 | two kill commands are equal iff they select the same name text |
| LegacyMobStatues.MissingNameSelectsNull | MobStatues/src/main/MobStatues.java:251-253 | an entity without a custom name is killed by the same command as entities named "null" |
| LegacyMobStatues.GeneratedNameStaysInSelector | MobStatues/src/main/MobStatues.java:557-566 | a generated name cannot close the selector or start another selector argument |
| LegacyMobStatues.LegacySkipProgress | MobStatues/src/main/MobStatues.java:407-412 | a record that neither throws nor loads keeps the older load invariant |
| LegacyMobStatues.LegacyLoadedProgress | MobStatues/src/main/MobStatues.java:407-412 | a record that loads joins the owner's new map as its own new entity, wearing its stored or generated name |
| LegacyMobStatues.LegacyPlugin.RemoveOldStatue | MobStatues/src/main/MobStatues.java:245-258 | dispatches exactly the kill command for the entity's custom name while drops are suppressed, then resets the flag |
| LegacyMobStatues.LegacyPlugin.RemoveOldEntity | MobStatues/src/main/MobStatues.java:190-198 | the entity is despawned without drop suppression |
| LegacyMobStatues.LegacyPlugin.RemoveStatue | MobStatues/src/main/MobStatues.java:310-318 | performs `Without`, and kills the entity only when one was registered |
| LegacyMobStatues.LegacyPlugin.CreateStatue | MobStatues/src/main/MobStatues.java:200-241 | the same-named statue is removed and killed before the kind is checked. An unknown kind throws, and a non-living one says "Invalid entity name."; neither adds an entry. Otherwise the entity gets a 16-character name and is stored |
| LegacyMobStatues.LegacyPlugin.RemoveStatueCommand | MobStatues/src/main/MobStatues.java:320-370 | as written: console, no map and no such name change nothing. Otherwise the entry is removed, but only a loaded chunk kills the entity |
| LegacyMobStatues.LegacyPlugin.RemoveStatueCommandChecked | MobStatues/src/main/MobStatues.java:320-370 | the corrected delete: an unloaded chunk changes nothing, otherwise it is `removeStatue` |
| LegacyMobStatues.LegacyPlugin.MoveStatue | MobStatues/src/main/MobStatues.java:268-295 | moves iff the name is registered to a living entity, otherwise changes nothing. The old entity is killed twice, and the new entity of its kind takes its place in the map and its custom name |
| LegacyMobStatues.LegacyPlugin.Recreate | MobStatues/src/main/MobStatues.java:272-290 | the body of a move: the map and world after the two kills and the re-spawn |
| LegacyMobStatues.LegacyPlugin.AdjustStatue | MobStatues/src/main/MobStatues.java:120-188 | no map or no living statue changes nothing. Otherwise the entity is killed and despawned, and a new one of its kind with the same custom name takes its place. The reply depends on whether the file has the statue's data |
| LegacyMobStatues.LegacyPlugin.Respawn | MobStatues/src/main/MobStatues.java:126-155 | the body of an adjust: the map and world after the kill, the despawn and the re-spawn |
| LegacyMobStatues.LegacyPlugin.RemoveEntities | MobStatues/src/main/MobStatues.java:299-301 | despawns exactly the entities of one owner's map, drops not suppressed |
| LegacyMobStatues.LegacyPlugin.RemoveAllStatues | MobStatues/src/main/MobStatues.java:297-304 | despawns exactly the stored entities, drops not suppressed, and leaves the map empty |
| LegacyMobStatues.LegacyPlugin.LoadStatueFromConfig | MobStatues/src/main/MobStatues.java:452-510 | throws iff a key is missing, the kind is unknown, or a living kind's world is not loaded. Loads iff the world is known and the kind living. The entity wears the stored "entityName" or a fresh name written back |
| LegacyMobStatues.LegacyPlugin.LoadRecord | MobStatues/src/main/MobStatues.java:407-412 | one record: aborts iff loading throws, and otherwise keeps the load invariant with the record visited |
| LegacyMobStatues.LegacyPlugin.LoadRecords | MobStatues/src/main/MobStatues.java:406-412 | succeeds iff no record throws. Then every loadable record is loaded as its own, distinct new entity wearing its stored or generated name |
| LegacyMobStatues.LegacyPlugin.StoreLoaded | MobStatues/src/main/MobStatues.java:414-420 | the migration finds nothing to do, and the owner's map is stored even when it is empty |
| LegacyMobStatues.LegacyPlugin.LoadFile | MobStatues/src/main/MobStatues.java:405-420 | one file: a throwing record stops the load. Otherwise the owner's map is stored whatever it holds, and the map stays registered |
| LegacyMobStatues.LegacyLastStoreStep | MobStatues/src/main/MobStatues.java:400-421 | processing one more file keeps, for each owner, the map of the owner's last file so far with a "statues" section: a later file with a section replaces it |
| LegacyMobStatues.LegacyLoadSoFarStep | MobStatues/src/main/MobStatues.java:400-421 | loading one more file without a throw extends what the load has established: no file threw, the last file of each owner holds its loadable names, every file with a section has its owner stored, owners without a file are untouched |
| LegacyMobStatues.LegacyPlugin.LoadEntry | MobStatues/src/main/MobStatues.java:400-421 | one file: it fails iff its name is not a UUID or one of its records throws, and then the statue map is unchanged; otherwise the load's progress extends to this file |
| LegacyMobStatues.LegacyPlugin.LoadPlayerStatuesData | MobStatues/src/main/MobStatues.java:391-424 | succeeds iff every file name is a UUID and no record throws in a file with a "statues" section. After a complete load, every file with a section has its owner stored, and each owner's map holds exactly the loadable names of the owner's last file with a section. Owners with no file are unchanged |
| LegacyMobStatues.LegacyPlugin.OnCommand | MobStatues/src/main/MobStatues.java:51-117 | handled iff a plugin command; for every dispatched action the reply and the whole new map and world. Messages and listing change nothing. Create: the same-named statue removed and killed first, then an unknown kind or "Invalid entity name.", or a fresh entity spawned with a random custom name and stored, with every other entry untouched. Move: moved iff a living statue is registered, and then two kills and a re-spawn with the old custom name. Delete is the one as written: its reply for each case, the entry removed whatever the chunk, the kill command dispatched only on a loaded chunk. Adjust: the reply for each case, the map and the re-spawned world |
| LegacyMobStatues.LegacyPlugin.OnTabComplete | MobStatues/src/main/MobStatues.java:569-650 | the same suggestions as the newer version, each name once. For `/msdel` with one non-empty argument and `/msmove` with one argument, a console sender makes it throw |

## Left out

- Reading and writing the player files is not modelled: `savePlayerData`, `savePlayerStatuesData`, `saveStatueToConfig`, `removeStatueFromConfig`, and the file updates inside `createStatue`, `adjustStatue` and the delete command. These are I/O. A file is modelled as its in-memory "statues" section, with string values only.
- Locations, teleporting, yaw and pitch are not modelled. They are floating point; parsing is kept only as success or failure.
- Entity flags are not modelled: AI, gravity, invulnerability, silence, custom-name visibility. Neither are the armor-stand passengers or `removeOldEntity`'s loop over passengers. These are host-engine calls with no effect on the bookkeeping.
- `onEnable`, `onDisable` and the event-bus registration are left out: they only call the modelled operations. `onItemSpawn` is left out: the item-drop flag it reads is recorded in the effect log at every despawn and dispatch.
- What the dispatched `kill` command does to the world is not modelled: the command text is logged. The world's command interpreter is not part of this model.
- `listPlayerStatues` is modelled as the set of names it reports (`Listed`), not as its chat messages. Chat messages in general are replies.
- `getMsb`/`getLsb` are not modelled as bit operations: a UUID is its two 64-bit halves.
- Case mapping covers ASCII letters only; Java's full Unicode case mapping is not modelled.
- The order of hash-set iteration is not modelled: each loop over a key set or value set picks its elements nondeterministically.
- Statue names containing `.` are not modelled. `updateStatueData` reads `"statues." + name`, which for such a name is a nested path; the model looks the name up directly.
- Sections that are not sections are not modelled: the `statueSection == null` path of `loadStatueFromConfig`, and values that are not strings.
- Collisions of random ids with existing ones are not checked by the plugin. `CreateStatue`, `MoveStatue` and `OnCommand` state that the tables stay linked only when the generated id is new.
- `removeAllStatues` in the newer version also clears each inner map before clearing the outer one. The model states only the final empty statue map, which those inner clears cannot change.
- MobStatues.Plugin.MoveStatue: the id that creation generated is a ghost out-parameter, since the plugin never returns it.
- MobStatues.Plugin.LoadPlayerStatuesData: the entities of the final owner maps, and the reverse-index facts of `LoadRecords`, are not carried across files, because a later file may overwrite an earlier one's owner; only the names in each owner's map are stated.
- LegacyMobStatues.LegacyPlugin.LoadPlayerStatuesData: each owner's final map is stated by its names only. What `LoadFile` proves about the entities of one file (their kind, their stored or generated custom name, that they are new) is not carried to the end of the load, because later files spawn further entities and the proof would have to follow every earlier owner's map across them.
- Both `loadPlayerStatuesData` models take the player files with pairwise different configuration objects, as the source loads a fresh configuration for each file.
- Neither version has a timer that sweeps up dropped items, and the model has none.
- `createStatue` removes the same-named statue before it checks the entity kind (MobStatues/main/MobStatues.java:293, MobStatues/src/main/MobStatues.java:202), so `/ms foo NOTAKIND` deletes `foo`; the model follows the code.
- In the older version, `removeAllStatues` iterates the values of every owner map, so the same entity could be visited twice. The `Registered` invariant proves that no entity is stored twice, so the model's set-based loop is exact.

## Findings

| source | as written | input that shows it | evidently intended | confidence | as-written member | corrected member |
|---|---|---|---|---|---|---|
| MobStatues/main/MobStatues.java:527-537 | `/msdel <name>` removes the entry from the statue map before checking whether the statue's chunk is loaded. On an unloaded chunk it returns with the warning "The statue will not be removed", but the entry is gone while the id stays in the reverse index and the entity stays in the world | a player runs `/msdel foo` while the chunk of statue `foo` is not loaded. The tables are no longer linked, and after `/ms foo ZOMBIE` the later death of the old entity unregisters the new statue | check the chunk first and leave everything unchanged when it is not loaded | not executed | RegistryProperties.UnloadedDeleteUnlinks, MobStatues.Plugin.RemoveStatueCommand | RegistryProperties.CheckedDeleteKeepsLinked, MobStatues.Plugin.RemoveStatueCommandChecked |
| MobStatues/src/main/MobStatues.java:334-348 | the older delete command also removes the entry before the chunk check. On an unloaded chunk the player is told the statue will not be removed, yet the plugin forgets it while its entity stays | a player runs `/msdel foo` while the chunk of statue `foo` is not loaded: the entry is gone and no kill command is dispatched | check the chunk first and leave the map unchanged when it is not loaded | not executed | LegacyMobStatues.LegacyPlugin.RemoveStatueCommand | LegacyMobStatues.LegacyPlugin.RemoveStatueCommandChecked |

# A verified model of the entity-component system

This project models the places where the ECS keeps several in-place structures in agreement, and
proves what that agreement means. There are four groups.

**Archetype graph and entity relocation** (`Storage.dfy`, `Columns.dfy`, `SparseSets.dfy`, `Archetype.dfy`,
`Coherence.dfy`, `Graph.dfy`, `Meaning.dfy`, `Moves.dfy`, `Bundle.dfy`, `Despawn.dfy`, `Runs.dfy`,
`RunLaws.dfy`). Inserting, removing, spawning and despawning move entities between archetypes and tables by swap-remove and repair
the back-pointers of up to two other entities, one of which may live in a third archetype that shares the
table. `Bundles.World` is a heap model: archetype and table objects, a location map, sparse sets, and the
graph's memoised edges. Every public operation keeps `Valid()` (locations and rows name each other,
every cached edge is what recomputation gives, archetypes are found by their components) and changes
the meaning of the world, one map from entities to component values, exactly as its name says.
`Runs` closes this under any sequence of registrations, spawns, inserts, removals, takes and despawns,
and `RunLaws` states what each of them does, component by component.

The storage below has two layers. `Bundles.World` works with tables of rows (`Storage.Table`) and with one
map keyed by (component, entity) for all sparse sets. `Columns.ColumnTable` is the table as it is stored,
one column of slots per component, all of the table's capacity, beside the list of entities. Each of its
methods goes through the columns and is proved to have the contract the row table states.
`SparseSets.ComponentSparseSet` is a sparse set as it is stored, dense values and entities found through an
index array, and is proved to mean a map; `Together` joins those maps into the one a world keeps.
The bundles of known types are a map that is handed along beside the world.

**Opt-in clone filter** (`CloneFilter.dfy`). Reference counts over index ranges decide which
required components are cloned. Whatever order the hash maps are iterated in, the calls are exactly
the expected set, once each, and all counts are restored.

**The two stored worlds** (`SimpleWorld.dfy`, `EntityGroups.dfy`, `ArchetypeWorld.dfy`,
`Conversions.dfy`, `QueryCaches.dfy`, `ChangeTracker.dfy`, `Snapshot.dfy`). `SimpleWorld` and
`ArchetypeWorld` mean one flat map from (entity, symbol) to bytes. After the same calls both mean the
same map. Conversions, query caches, the change log and the snapshot difference are proved against
that map. Where the dual-map storage of `SimpleWorld` breaks a property, the exact condition is
proved instead of assuming it away, and a short run on a new world shows where it fails.

**Small state machines and the codec** (`Recovery.dfy`, `EntityManager.dfy`, `Codec.dfy`). Guardian
recovery over all histories, the partition of entity ids, and the big-endian component codec for any
schema.

`Collections.dfy` holds shared sequence and map facts. Each operation is an imperative method on a
class whose contract equates the new state with a value-level function of the old one; what that
function means is proved in lemmas, and run-level theorems (`Run...`, `...Run`, `After`) close them
under any sequence of calls. Archetypes of the stored world are values: the host map hands out
copies, which are changed and written back. Iteration over a hash map is an arbitrary choice of the
next key; iteration over a host map goes through its keys in ascending order. Symbols and component
ids are numbers, standing for their rank in the source's order.

Where documentation and code differ the model follows the code: the comment on
`SimpleWorld::remove_component` says it removes from both maps, but it takes from the table and tries
the sparse map only if the table had nothing (`src/simple_world.rs:125-134`). And where an order of
steps matters the model keeps it: `execute_recovery` assigns the new address before it removes a
request (`src/accounts/recovery.rs:254-257`), so the request removed is the one at the new owner's
address.

## Model

| member | source | states |
|---|---|---|
| Coherence.ArchetypeHop | src/bundle.rs:1247-1263 | swap-removing an entity from one archetype, repairing the entity that took its row, and pushing it on another keeps every location and archetype row naming each other |
| Coherence.HopPlaces | src/bundle.rs:1296-1310 | apart from the moved entity and its new place, nobody changes archetype or table row |
| Coherence.TableRowRepair | src/bundle.rs:1317-1344 | recording a new table row in the swapped entity's location and archetype row keeps the agreement, whichever archetype it is in |
| Coherence.HopAndRepair | src/bundle.rs:1296-1344 | both archetype steps of a move to another table keep the agreement even when the entity to be repaired is in a third archetype |
| Coherence.TableHop | src/bundle.rs:1313-1331 | swap-removing a table row and pushing it on another table agrees with locations that follow exactly those two entities |
| Coherence.Arrival | src/bundle.rs:1801-1815 | pushing a new entity keeps archetype and table agreement |
| Coherence.RowsAreExclusive | src/archetype.rs:384-391 | two live entities never share an archetype row or a table row |
| Coherence.RepairCommutes | src/bundle.rs:1672-1707 | repairing the swapped entity before or after setting the moved entity's location is the same |
| Graph.ArchetypesAreCanonical | src/archetype.rs:886-922 | a component set has at most one archetype id |
| Graph.TableIsCanonical | src/bundle.rs:865-881 | two archetypes use the same table exactly when they have the same table components |
| Graph.EdgesSurviveGrowth | src/archetype.rs:211-318 | a memoised edge stays right however much the graph grows |
| Graph.EdgeListsMean | src/bundle.rs:805-844 | what an insert edge records, component by component: each explicit status, the new and the existing components in bundle order, and the constructors of the missing required ones |
| Graph.CachedInsertIsRecomputed | src/bundle.rs:799-804 | a cached insert edge is the one archetype with the union of source and contributed components |
| Graph.CachedRemovalIsRecomputed | src/bundle.rs:940-953 | cached remove and take edges are the one archetype with the explicit components gone; a take edge is `None` exactly when some explicit component is absent |
| Graph.RemovalAnswer | src/bundle.rs:931-1026 | a cached removal answers `None` exactly when something to be taken is absent, and the same archetype exactly when nothing would go |
| Graph.InsertThenRemoveReturns | src/bundle.rs:791-1026 | inserting a disjoint bundle without required components and removing or taking it from any later graph state leads back to the same archetype id |
| Graph.InsertionTarget | src/bundle.rs:862-899 | the sorted union of current and new components of each storage kind is the component list of the target archetype |
| Graph.RemovalTarget | src/bundle.rs:981-1011 | the remaining sorted lists are those of the target archetype, and without removed table components the table list is unchanged |
| Meaning.GrowthPreservesMeaning | src/bundle.rs:791-914 | creating archetypes, tables and edges changes no entity's values |
| Meaning.WritesMeanInsertion | src/bundle.rs:666-737 | the individual writes by status and mode give the meaning of an insertion: Replace overwrites, Keep leaves existing values, a missing required component gets its constructor's value |
| Meaning.InsertionMeans | src/bundle.rs:666-737 | component by component: an explicit one has the bundle's value, unless the entity had one and the mode is Keep; a required one the entity had not is built; all others are unchanged |
| Meaning.RemovalUndoesInsertion | src/bundle.rs:1611-1631 | removing a disjoint bundle's explicit components gives back the values from before its insertion |
| Meaning.ModesAgree | src/bundle.rs:684-716 | Replace and Keep agree exactly when no explicit component is already there with a different value |
| Moves.MovedIsCoherent | src/bundle.rs:1238-1344 | the move of an entity to another archetype, in the same table or another one, keeps locations, archetype rows and table rows in agreement and leaves every other entity's cells alone |
| Moves.OneEntityChanged | src/bundle.rs:1215-1361 | if one entity was moved and written and the others kept their cells, the world's meaning changed at that entity only |
| Moves.MoveThenWrite | src/bundle.rs:1215-1361 | moving and then writing gives the old values overlaid by the writes, for every kind of move |
| Moves.DropThenMove | src/bundle.rs:1611-1707 | dropping sparse values and moving away from the table columns removes exactly the dropped components |
| Moves.SpawnThenWrite | src/bundle.rs:1801-1815 | pushing both rows and writing the bundle adds exactly the new entity with the written values |
| Storage.Table.MoveToSuperset | src/storage/table/mod.rs:336-360 | on rows: the last row takes the freed place, the row arrives whole, and the swapped entity is reported |
| Storage.Table.MoveToAndDropMissing | src/storage/table/mod.rs:258-327 | on rows: the same, with only the cells the target has a column for |
| Storage.Table.SwapRemoveUnchecked | src/storage/table/mod.rs:214-248 | on rows: the last row takes the freed place and its entity is reported |
| Columns.RemovingSlotsRemovesTheRow | src/storage/table/mod.rs:214-248 | each column on its own moving its last slot is the table moving its last row |
| Columns.FillingTheLastRow | src/storage/table/column.rs:192-224 | slots moved one column at a time into a new row are that row's cells, in the columns there are |
| Columns.MoveIsDone | src/storage/table/mod.rs:258-360 | after a loop over all columns both tables mean the move of one row |
| Columns.ColumnTable.Reserve | src/storage/table/mod.rs:505-562 | reallocating every column changes no row |
| Columns.ColumnTable.Allocate | src/storage/table/mod.rs:572-594 | adds an empty row |
| Columns.ColumnTable.Initialize | src/storage/table/column.rs:144-158 | sets one cell that was empty |
| Columns.ColumnTable.Replace | src/storage/table/column.rs:166-180 | sets one cell and drops exactly the value it held |
| Columns.ColumnTable.SwapRemoveUnchecked | src/storage/table/mod.rs:214-248 | has the contract of the row table, and drops exactly the values of the removed row, whether it is the last one or not |
| Columns.ColumnTable.MoveToSuperset | src/storage/table/mod.rs:336-360 | has the contract of the row table: columns stay in lockstep with the entities, and no value is dropped |
| Columns.ColumnTable.MoveShared | src/storage/table/mod.rs:258-327 | has the contract of the row table, and what is dropped or left to the caller is exactly the row's values without a column in the target |
| SparseSets.SwapRemovedAt | src/storage/sparse_set.rs:316-361 | swap-removing an entity and its value, each from its own list, and repointing the entity that took the place, removes that entity's value only |
| SparseSets.ComponentSparseSet.Insert | src/storage/sparse_set.rs:164-193 | replaces or adds one value, and the index array stays right |
| SparseSets.ComponentSparseSet.Contains | src/storage/sparse_set.rs:197-211 | whether the entity has a value |
| SparseSets.ComponentSparseSet.GetValue | src/storage/sparse_set.rs:216-224 | the entity's value |
| SparseSets.ComponentSparseSet.RemoveAndForget | src/storage/sparse_set.rs:316-334 | removes the entity's value and gives it up |
| SparseSets.ComponentSparseSet.Remove | src/storage/sparse_set.rs:339-361 | removes the entity's value and says whether it had one |
| SparseSets.OneSetInserted | src/storage/sparse_set.rs:164-193 | inserting into one set is one update of the map that all sets mean together |
| SparseSets.OneSetRemoved | src/storage/sparse_set.rs:339-361 | removing from one set is one deletion from that map |
| Archetypes.Archetype.Allocate | src/archetype.rs:588-603 | pushes the entity with its table row and returns the location of the new row |
| Archetypes.Archetype.SwapRemove | src/archetype.rs:616-627 | removes a row, moving the last one into its place, and reports the entity that moved and the removed table row |
| Archetypes.Archetype.SetEntityTableRow | src/archetype.rs:578-581 | changes the table row of one archetype row and nothing else |
| Bundles.FindDuplicates | src/bundle.rs:537-545 | names exactly the components that occur more than once |
| Bundles.NewBundleInfo | src/bundle.rs:526-593 | refuses a component list exactly when it has duplicates; otherwise required components are those not explicit, one constructor each |
| Collections.FiltersKeepOrder | src/bundle.rs:2105-2118 | the filters used here and by the scans keep the order of what they keep |
| Bundles.SortedRemove | src/bundle.rs:2105-2118 | the two-pointer pass keeps exactly the elements not to be removed, in order |
| Bundles.World.constructor | src/archetype.rs:786-803 | a new world has the empty archetype, is valid and holds no entity |
| Bundles.World.GetOrInsertArchetype | src/archetype.rs:886-922 | finds or appends the archetype of the given components; says whether it is new; only appends |
| Bundles.World.DescribeInsert | src/bundle.rs:805-844 | status, added, existing and required lists compare the bundle with the archetype's components |
| Bundles.World.InsertBundleIntoArchetype | src/bundle.rs:791-914 | the graph stays right and only grows, the edge is memoised and leads to the union; a cached edge changes nothing |
| Bundles.World.CollectRemoved | src/bundle.rs:961-979 | lists the explicit components present by storage kind, and fails exactly when a take meets an absent one |
| Bundles.World.RemoveBundleFromArchetype | src/bundle.rs:931-1026 | the graph stays right and only grows, and the remove or take edge, `None` included, is memoised |
| Bundles.World.WriteComponents | src/bundle.rs:666-737 | writes every explicit component by status and mode and every missing required one by its constructor, and nothing else |
| Bundles.World.InsertIntoSameTable | src/bundle.rs:1247-1263 | moves the archetype row and repairs the swapped entity; the table row stays |
| Bundles.World.InsertIntoNewTable | src/bundle.rs:1296-1344 | moves archetype and table row and repairs both swapped entities, the second in whichever archetype it is |
| Bundles.World.NewInserter | src/bundle.rs:1079-1165 | an inserter names the memoised edge and the kind of move; no entity's values change |
| Bundles.World.InsertWith | src/bundle.rs:1171-1427 | the world stays valid, the entity has its values overlaid by the bundle as the mode says, and no other entity's values change |
| Bundles.World.NewRemover | src/bundle.rs:1474-1525 | there is a remover exactly when something would be removed and, for a take, all of it is present |
| Bundles.World.RemoveAcrossTables | src/bundle.rs:1633-1707 | moves both rows, dropping cells without a column, and repairs both swapped entities |
| Bundles.World.RemoveWith | src/bundle.rs:1544-1710 | the world stays valid, the entity loses exactly the bundle's explicit components, and no other entity's values change |
| Bundles.World.ReadForTake | src/world/entity_ref.rs:2024-2050 | gives each explicit component's value in bundle order, and takes the sparse ones out of their sets |
| Bundles.World.TakeWith | src/bundle.rs:1544-1710 | as a removal, and the values given are those the entity had |
| Bundles.World.NewSpawner | src/bundle.rs:1740-1770 | the spawner's archetype holds exactly the bundle's components |
| Bundles.World.SpawnNonExistent | src/bundle.rs:1784-1861 | the world stays valid and the new entity has exactly the bundle's values and those its required constructors build |
| Bundles.World.RegisterBundle | src/bundle.rs:526-593 | appends the metadata of a bundle, or refuses it and changes nothing |
| Bundles.World.RegisterInfo | src/bundle.rs:1940-1959 | a known type keeps its bundle; otherwise the bundle is appended and the type remembered, or it is refused |
| Despawns.ArchetypeLeave | src/world/entity_ref.rs:2428-2456 | swap-removing an entity from its archetype, repairing the entity that took its row, keeps locations and archetype rows naming each other |
| Despawns.TableLeave | src/world/entity_ref.rs:2466-2492 | swap-removing its table row agrees with locations that send the swapped entity to the freed row and nobody else anywhere |
| Despawns.LeftIsWell | src/world/entity_ref.rs:2428-2492 | all steps together keep every agreement, leave the others' storage alone and nothing of the entity's |
| Despawns.OneEntityGone | src/world/entity_ref.rs:2361-2494 | then the world's meaning is what it was without the entity |
| Despawns.Despawn | src/world/entity_ref.rs:2361-2494 | the world stays valid and loses exactly the entity |
| Runs.TakeFrom | src/world/entity_ref.rs:2010-2055 | gives nothing and changes nothing without a remover, and otherwise removes the bundle and gives its values |
| Runs.RemoveFrom | src/world/entity_ref.rs:2066-2094 | the entity loses those of the bundle's explicit components it has, even if it has not all of them |
| Runs.Apply | src/bundle.rs:1060-1861 | registering, or finding the inserter, remover or spawner and using it, or despawning means one step on the flat map of entities to values and the list of bundles |
| Runs.Run | src/bundle.rs:1060-1861 | any run of registrations, spawns, inserts, removals, takes and despawns keeps locations, rows and cached edges right, and means its operations one after the other |
| RunLaws.RegisterMeans | src/bundle.rs:1940-1959 | a new type's bundle is appended, with its explicit list and what is merged and not explicit; a known type or a list with duplicates changes nothing |
| RunLaws.SpawnMeans | src/bundle.rs:1784-1861 | in any state, a spawn gives a new entity exactly the bundle's values and those required, or changes nothing |
| RunLaws.InsertMeans | src/bundle.rs:1171-1427 | in any state, an insertion sets, keeps or builds each component as the mode says and leaves the others and all other entities alone, or changes nothing |
| RunLaws.RemoveMeans | src/world/entity_ref.rs:2066-2094 | in any state, a removal takes exactly the explicit components that are there, even if not all are |
| RunLaws.TakeMeans | src/world/entity_ref.rs:2010-2055 | in any state, a take takes the explicit components if all of them are there, and nothing otherwise |
| RunLaws.DespawnMeans | src/world/entity_ref.rs:2361-2494 | in any state, a despawn takes exactly the entity away |
| RunLaws.SpecsStayOk | src/bundle.rs:526-593 | in any run no bundle lists an explicit component twice or as required |
| Runs.RegisteredOnce | src/bundle.rs:1940-1959 | whatever runs in between, a registered type keeps its bundle and registering it again changes nothing |
| Runs.DifferentEntitiesCommute | src/bundle.rs:1171-1710 | operations on different entities mean the same in either order, though each may move the other's rows |
| Runs.TakeUndoesInsert | src/bundle.rs:791-1026 | taking a disjoint bundle without required components right after inserting it gives the map back |
| Runs.TakeReadsWhatWasInserted | src/bundle.rs:684-716 | taking a bundle just inserted in mode Replace gives the values inserted |
| Runs.DespawnUndoesSpawn | src/world/entity_ref.rs:2361-2494 | despawning an entity just spawned gives the state back |
| CloneFilter.AllowOrderIsIrrelevant | src/entity/clone_entities.rs:1194-1228 | for registered components the order of allow calls does not matter |
| CloneFilter.AllowMeans | src/entity/clone_entities.rs:1194-1270 | an allow call changes the wish of its component only: Replace if it was or is asked for, attached if it was or is; asking for the required components of an unregistered one does nothing |
| CloneFilter.WishesRecordTheCalls | src/entity/clone_entities.rs:1194-1270 | after any calls a component is wished, to be replaced, and attached exactly if some call asked for that |
| CloneFilter.ClonedAsAllowed | src/entity/clone_entities.rs:1117-1270 | what is cloned, in terms of the allow calls, the source and the target only |
| CloneFilter.PositiveMeansAlong | src/entity/clone_entities.rs:1149-1168 | after the skipped components reduced their counts, a count is positive exactly when a cloned component requires it |
| CloneFilter.ExhaustedIsExact | src/entity/clone_entities.rs:1133-1141 | once as many components were cloned as the source has, nothing expected is missing |
| CloneFilter.OptIn.FilterAllow | src/entity/clone_entities.rs:1194-1228 | keeps `required` and `allow` disjoint and every count equal to the number of allowed requirers, and records the stronger mode and whether required components come along |
| CloneFilter.OptIn.FilterAllowWithRequired | src/entity/clone_entities.rs:1230-1269 | appends the range of required components that are not allowed themselves and counts each; an unregistered component changes nothing |
| CloneFilter.OptIn.SkipExplicit | src/entity/clone_entities.rs:1149-1157 | lowers each count in the range by one, never below zero |
| CloneFilter.OptIn.CloneExplicit | src/entity/clone_entities.rs:1132-1158 | calls once for each allowed component that reaches the target and stops early only when the source is used up |
| CloneFilter.OptIn.CloneRequired | src/entity/clone_entities.rs:1160-1179 | calls once for each wanted required component up to the limit and restores each count it looked at |
| CloneFilter.OptIn.CloneComponents | src/entity/clone_entities.rs:1119-1187 | calls back exactly once for every expected component, on every exit path, and leaves all counts as they were |
| SimpleWorlds.AddedKeepsOk | src/simple_world.rs:73-113 | adding keeps type lists duplicate-free and everything listed stored |
| SimpleWorlds.RemovedKeepsOk | src/simple_world.rs:126-158 | removing keeps the same invariants, whatever the storage |
| SimpleWorlds.DespawnedKeepsOk | src/simple_world.rs:257-269 | despawning keeps the same invariants |
| SimpleWorlds.RunRefinesTheFlatMap | src/simple_world.rs:61-269 | with one storage kind per type, after any run of calls the world means what the calls do to one flat map, and everything stored is listed |
| SimpleWorlds.FlatStepMeans | src/simple_world.rs:61-269 | what each call means on the flat map, key by key |
| SimpleWorlds.RunCounts | src/simple_world.rs:61-269 | in any run the next id is the start plus the number of spawns, and the version that of the other calls |
| SimpleWorlds.SpawnedIdsDiffer | src/simple_world.rs:61-65 | different spawns of a run hand out different ids, whatever comes between |
| SimpleWorlds.SpawnMeans | src/simple_world.rs:61-65 | a spawn moves the next id on by one and changes nothing else |
| SimpleWorlds.AddMeans | src/simple_world.rs:73-113 | an add writes one key of one map, lists the type last unless it is listed, and raises the version |
| SimpleWorlds.RemoveMeans | src/simple_world.rs:126-158 | a remove takes the table's copy if there is one, else the sparse copy, and unlists the type, the others keeping their order |
| SimpleWorlds.DespawnMeans | src/simple_world.rs:257-269 | a despawn takes exactly the listed keys out of both maps and drops the list |
| SimpleWorlds.LookupMeans | src/simple_world.rs:116-167 | a lookup finds the table's copy, else the sparse one, else nothing |
| SimpleWorlds.LookupAfterAdd | src/simple_world.rs:73-123 | a lookup finds the data just added exactly unless it went to the sparse map under different table data |
| SimpleWorlds.PresenceAfterRemove | src/simple_world.rs:126-134 | a removed component is still there exactly when both maps held it |
| SimpleWorlds.OrphansAfterDespawn | src/simple_world.rs:257-269 | despawning leaves no data of the entity exactly when all it stores is listed |
| SimpleWorlds.MixedStorageLeavesAnOrphan | src/simple_world.rs:126-158 | a type added to both storages and removed once is left stored and unlisted |
| SimpleWorlds.ScansAgree | src/simple_world.rs:169-219 | the list scan and the scan of both maps are the same sequence exactly when no listed entity stores the type unlisted |
| SimpleWorlds.ScansCanDisagree | src/simple_world.rs:126-219 | they differ after four calls on a new world: another component, the type to both storages, one removal |
| SimpleWorlds.ScansMean | src/simple_world.rs:169-219 | each scan is in ascending order and finds exactly the listed entities that list the type, have it in the table, or have it in either map |
| SimpleWorlds.ListScanFindsOwners | src/simple_world.rs:169-185 | the scan finds each owner exactly once |
| SimpleWorlds.TableScanFindsTableData | src/simple_world.rs:188-200 | when all data is listed, the table scan finds exactly the entities with table data of the type, once each |
| SimpleWorlds.SimpleWorld.SpawnEntity | src/simple_world.rs:61-65 | gives the next id, which moves on by one |
| SimpleWorlds.SimpleWorld.AddComponentWithStorage | src/simple_world.rs:73-113 | sets the data in one map, lists the type once and raises the version |
| SimpleWorlds.SimpleWorld.GetComponent | src/simple_world.rs:116-123 | looks up the flat map, table before sparse |
| SimpleWorlds.SimpleWorld.RemoveComponent | src/simple_world.rs:126-158 | takes from the table, else from the sparse map, unlists the type, drops an empty list, and returns whether anything was stored |
| SimpleWorlds.SimpleWorld.HasComponent | src/simple_world.rs:161-167 | agrees with the flat map |
| SimpleWorlds.SimpleWorld.GetEntitiesWithComponent | src/simple_world.rs:169-185 | the listed entities that list the type, in ascending order |
| SimpleWorlds.SimpleWorld.GetTableEntitiesWithComponent | src/simple_world.rs:188-200 | the listed entities with table data of the type, in ascending order |
| SimpleWorlds.SimpleWorld.GetAllEntitiesWithComponent | src/simple_world.rs:203-219 | the listed entities with data of the type in either map, in ascending order |
| SimpleWorlds.SimpleWorld.DespawnEntity | src/simple_world.rs:257-269 | takes exactly the listed components of the entity from both maps and drops its list |
| EntityGroups.Archetype.HasComponentType | src/archetype_world/archetype.rs:52-61 | whether the type is among the archetype's types |
| EntityGroups.Archetype.Matches | src/archetype_world/archetype.rs:42-49 | whether all required types are among the archetype's types |
| EntityGroups.Archetype.RemoveEntity | src/archetype_world/archetype.rs:69-93 | the archetype without the entity and its data keys, and the data that was there |
| EntityGroups.LeavingKeepsGroups | src/archetype_world/world.rs:195-204 | an entity's leaving keeps the index a bijection, entities housed once, and data keys entities times types |
| EntityGroups.InterningKeepsGroups | src/archetype_world/world.rs:305-317 | finding or creating an archetype keeps the groups and the flat map |
| EntityGroups.EnteringAddsTheEntity | src/archetype_world/world.rs:92-105 | an entity's entering keeps the groups and adds exactly its data to the flat map |
| EntityGroups.EntitiesKeepOrder | src/archetype_world/archetype.rs:69-93 | an entity that enters an archetype is its last, and one that leaves changes nobody's order |
| EntityGroups.AddingMeansOneUpdate | src/archetype_world/world.rs:62-115 | adding is one update of the flat map even when it moves the entity |
| EntityGroups.RemovingMeansOneDeletion | src/archetype_world/world.rs:118-175 | removing is one deletion, and the type list tells whether the key was present |
| ArchetypeWorlds.GroupedRunRefinesTheFlatMap | src/archetype_world/world.rs:55-204 | in every run the representation invariant holds and the world means what the calls do to the flat map |
| ArchetypeWorlds.GroupedRunCounts | src/archetype_world/world.rs:55-59 | in any run the next id is the start plus the number of spawns |
| ArchetypeWorlds.GroupedSpawnedIdsDiffer | src/archetype_world/world.rs:55-59 | different spawns of a run hand out different ids |
| ArchetypeWorlds.GroupedStepCounts | src/archetype_world/world.rs:55-204 | the version rises with every call but a spawn and the removal of an absent component, which changes nothing |
| ArchetypeWorlds.SameCallsSameMap | src/archetype_world/world.rs:1-11 | after the same calls the grouped world and the simple world mean the same map |
| ArchetypeWorlds.SameMapSameGrouping | src/archetype_world/world.rs:19-23 | the flat map determines which entities are together and under which types, whatever the archetype ids |
| ArchetypeWorlds.QueryIsExact | src/archetype_world/world.rs:206-225 | a scan of matching archetypes finds each entity with a component and all required ones exactly once |
| ArchetypeWorlds.ArchetypeWorld.SpawnEntity | src/archetype_world/world.rs:55-59 | gives the next id, which moves on by one |
| ArchetypeWorlds.ArchetypeWorld.GetOrCreateArchetype | src/archetype_world/world.rs:305-317 | the id the index has for the types, made if need be |
| ArchetypeWorlds.ArchetypeWorld.AddComponent | src/archetype_world/world.rs:62-115 | keeps the invariant, raises the version, and the contents change at one key |
| ArchetypeWorlds.ArchetypeWorld.RemoveComponent | src/archetype_world/world.rs:118-175 | keeps the invariant, deletes one key and returns whether it was present; absent means no change at all |
| ArchetypeWorlds.ArchetypeWorld.GetComponent | src/archetype_world/world.rs:178-182 | looks up the flat map |
| ArchetypeWorlds.ArchetypeWorld.HasComponent | src/archetype_world/world.rs:185-192 | agrees with the flat map though it reads only type lists |
| ArchetypeWorlds.ArchetypeWorld.DespawnEntity | src/archetype_world/world.rs:195-204 | keeps the invariant and deletes exactly the entity's keys |
| ArchetypeWorlds.ArchetypeWorld.Query | src/archetype_world/world.rs:209-225 | each entity with some component and all the required ones, exactly once |
| Conversions.ToSimpleWorld | src/archetype_world/world.rs:258-280 | the simple world means the same map, in the table and listed, with the same next id and version |
| Conversions.FromSimpleWorld | src/archetype_world/world.rs:283-302 | the grouped world is valid and means exactly the listed part, with the same next id and version |
| Conversions.ConversionAgrees | src/archetype_world/world.rs:283-302 | the converted world answers every lookup alike exactly when everything stored is listed |
| Conversions.RoundTrip | src/archetype_world/world.rs:258-302 | converting there and back gives the same map and the same entities together under the same types |
| QueryCaches.ArchetypeQuery | src/archetype_world/query.rs:55-83 | the plain query's entities without an excluded component, once each and in its order |
| QueryCaches.CacheIsNeverStale | src/archetype_world/query.rs:31-48 | after any interleaving of world changes, executions and invalidations the cache answers what a fresh scan would |
| QueryCaches.SimpleCacheIsNeverStale | src/query.rs:150-174 | the same for the cache that starts and is invalidated at version 0 |
| QueryCaches.ArchetypeQueryCache.Execute | src/archetype_world/query.rs:31-42 | returns a fresh scan's result and stays coherent |
| QueryCaches.SimpleQueryCache.Execute | src/query.rs:159-169 | returns a fresh scan's result and stays coherent |
| ChangeTracking.TrackedStepRecords | src/change_tracker.rs:192-256 | exactly what each call appends to which list of the log, in terms of what the two maps held |
| ChangeTracking.ModificationsAreOverwrites | src/change_tracker.rs:209-224 | in any run a key is recorded as modified once for each add since the clear that found it stored |
| ChangeTracking.RunBalances | src/change_tracker.rs:192-256 | in any run since the last clear, additions less removals equal presence now less presence then, but for removals that uncovered a second copy |
| ChangeTracking.ConservedIffNothingUncovered | src/change_tracker.rs:227-234 | a key's presence is conserved by the log exactly when no removal since the clear met the key in both maps, which a caller can see before each removal |
| ChangeTracking.UncoveredIffMetBoth | src/change_tracker.rs:227-234 | a run uncovered a second copy of a key exactly when one of its removals since the last clear met the key in both maps |
| ChangeTracking.MixedStorageUnbalancesTheLog | src/change_tracker.rs:209-234 | three calls on a new world after which the log has as many removals as additions of a component that is still stored |
| ChangeTracking.NothingRecordedNothingChanged | src/change_tracker.rs:192-256 | in any run, an empty log means the world means what it did at the clear |
| ChangeTracking.ChangeTracker.ChangeCount | src/change_tracker.rs:125-127 | the number of entries, zero exactly for the empty log |
| ChangeTracking.OneKindUncoversNothing | src/change_tracker.rs:209-234 | with one storage kind per type that never happens, so the log conserves presence |
| ChangeTracking.TrackedWorld.SpawnEntity | src/change_tracker.rs:192-194 | gives the world's next id, which moves on by one, and records nothing |
| ChangeTracking.TrackedWorld.AddComponentWithStorage | src/change_tracker.rs:209-224 | records an addition or, if the component existed, a modification |
| ChangeTracking.TrackedWorld.RemoveComponent | src/change_tracker.rs:227-234 | records a removal exactly if something was stored |
| ChangeTracking.TrackedWorld.DespawnEntity | src/change_tracker.rs:247-256 | records one removal for each listed component |
| ChangeTracking.TrackedWorld.ClearTracker | src/change_tracker.rs:108-112 | starts a new balance |
| Snapshots.TakeSnapshot | src/debug/snapshot.rs:36-58 | holds exactly the listed part of the world, with its version and entity count |
| Snapshots.SnapshotsSeeEverything | src/debug/snapshot.rs:36-58 | a world's listed part is its whole map exactly when everything stored is listed |
| Snapshots.EmptyDiffMeansSameWorld | src/debug/snapshot.rs:36-144 | for snapshots of two worlds, the difference is empty exactly when the listed parts are equal, hence the worlds if both list what they store |
| Snapshots.OrphanIsUnseen | src/debug/snapshot.rs:36-58 | a reachable world whose stored component no snapshot shows |
| Snapshots.DiffIsExact | src/debug/snapshot.rs:61-144 | the difference names every key that changed: the earlier state patched at its added and modified keys with the later data is the later state (it carries keys only); its keys are those before, less removed components and entities, and the added ones; modified are the common keys with other data |
| Snapshots.DiffLists | src/debug/snapshot.rs:61-144 | each of the five lists on its own: no duplicates, and exactly the entities or components only one side has, or both have with other data |
| Snapshots.EmptyDiffMeansEqual | src/debug/snapshot.rs:61-144 | all five lists are empty exactly when the two states are the same map |
| Snapshots.FoundFirst | src/debug/snapshot.rs:89-108 | the component found is the first of its type, also where a type occurs twice |
| Snapshots.CompareLater | src/debug/snapshot.rs:89-108 | the nested loop finds an entity's added and modified components |
| Snapshots.CompareEarlier | src/debug/snapshot.rs:111-125 | the nested loop finds an entity's removed components |
| Snapshots.DiffSnapshots | src/debug/snapshot.rs:61-144 | for any two snapshots the five lists as the loops build them; for snapshots of worlds every list is duplicate-free and exactly what changed |
| Recovery.CreatedMeans | src/accounts/recovery.rs:86-90 | stores the configuration and an empty guardian list, and nothing else |
| Recovery.GuardiansMean | src/accounts/recovery_storage.rs:27-36 | an address is a guardian exactly if the list stored for the account has it |
| Recovery.AddGuardianMeans | src/accounts/recovery.rs:109-135 | which error is reported exactly when, and otherwise exactly one entry with the address and the time is appended |
| Recovery.RemoveGuardianMeans | src/accounts/recovery.rs:137-158 | exactly the entries with the address go, and nothing else changes |
| Recovery.WithoutKeepsOrder | src/accounts/recovery.rs:137-158 | the guardians that stay keep their order |
| Recovery.InitiateMeans | src/accounts/recovery.rs:160-182 | which error is reported exactly when, and otherwise exactly one request with its lock is stored |
| Recovery.ApproveMeans | src/accounts/recovery.rs:184-219 | which error is reported exactly when, and otherwise the guardian is among the approvals, once |
| Recovery.CancelMeans | src/accounts/recovery.rs:221-231 | takes a pending request out and nothing else |
| Recovery.ExecuteMeans | src/accounts/recovery.rs:233-258 | which error is reported exactly when, and that an execution succeeds whenever its four conditions hold |
| Recovery.RecoverySucceeds | src/accounts/recovery.rs:86-258 | four events after which an execution succeeds exactly from the end of the period on |
| Recovery.GuardiansAlwaysOk | src/accounts/recovery.rs:86-157 | in every history guardian lists are distinct and within the configured maximum |
| Recovery.RequestsAreJustified | src/accounts/recovery.rs:160-218 | in every history a stored request was initiated by an earlier event, its approvals are distinct, and each was given since by a guardian of that moment |
| Recovery.ExecutionIsEarned | src/accounts/recovery.rs:233-258 | in every history an execution succeeds only for the owner named at initiation, with at least the threshold of such approvals, and no earlier than initiation plus the period in force then |
| Recovery.RequestAfterExecution | src/accounts/recovery.rs:254-257 | an execution removes the request at the new owner's address only, so the executed one is gone exactly when the new owner is the account itself |
| Recovery.RepeatedExecution | src/accounts/recovery.rs:233-258 | the same request can be executed again at any later time exactly unless the new owner is the account itself |
| Recovery.ExecutedRequestStays | src/accounts/recovery.rs:86-258 | three events after which an executed request is still stored |
| Recovery.RemovalKeepsApprovals | src/accounts/recovery.rs:137-158 | removing a guardian changes no request, so what could be executed before can be after |
| Recovery.AddThenRemove | src/accounts/recovery.rs:109-157 | removing a guardian just added gives the list back |
| Recovery.InitiateThenCancel | src/accounts/recovery.rs:160-231 | cancelling a request just initiated gives the storage back |
| Recovery.ApproveTwice | src/accounts/recovery.rs:204-214 | approving twice is approving once |
| Recovery.RecoverableAccount.constructor | src/accounts/recovery.rs:86-90 | stores the configuration and an empty guardian list; a pending request stays |
| Recovery.RecoverableAccount.AddGuardian | src/accounts/recovery.rs:109-135 | appends the guardian, or fails for a missing configuration, a full list or a duplicate, in that order |
| Recovery.RecoverableAccount.RemoveGuardian | src/accounts/recovery.rs:137-158 | removes the guardian, or fails with `InvalidScope` |
| Recovery.RecoverableAccount.InitiateRecovery | src/accounts/recovery.rs:160-182 | stores a request, or fails for a stored one or a missing configuration |
| Recovery.RecoverableAccount.ApproveRecovery | src/accounts/recovery.rs:184-219 | appends the approval once, or fails without a pending request or for a non-guardian |
| Recovery.RecoverableAccount.CancelRecovery | src/accounts/recovery.rs:221-231 | removes a pending request |
| Recovery.RecoverableAccount.ExecuteRecovery | src/accounts/recovery.rs:233-258 | hands the account over, or fails in the source's order of checks |
| EntityManagers.AlwaysPartitioned | src/entity.rs:170-200 | in every run live ids and the free list are each duplicate-free, disjoint and together exactly 1 to next_id-1, so the next spawn never gives a live id |
| EntityManagers.SpawnMeans | src/entity.rs:170-186 | the id freed last, or the next new one if none is free, in generation 0, appended to the live ones |
| EntityManagers.DespawnMeans | src/entity.rs:189-200 | exactly the entity goes, the others keep their order, and its id is freed last; one not live changes nothing |
| EntityManagers.DespawnThenSpawn | src/entity.rs:170-200 | the id freed last is the next one handed out, as an equal entity id |
| EntityManagers.EntityManager.Spawn | src/entity.rs:170-186 | gives an id that was not live and keeps the partition |
| EntityManagers.EntityManager.Despawn | src/entity.rs:189-200 | removes the entity and frees its id exactly if it was live |
| EntityManagers.EntityManager.Exists | src/entity.rs:227-236 | whether an entity is live |
| Codec.BigEndianDigit | src/macros.rs:6-20 | bytes are base-256 digits, most significant first |
| Codec.SignBit | src/macros.rs:6-20 | signed fields are two's complement: the first bit is the sign and the number is the value modulo the range |
| Codec.FieldRanges | src/macros.rs:4-177 | the exact values each field type holds, in numbers |
| Codec.EncodedLengths | src/macros.rs:40-68 | the exact encoded length of each field type |
| Codec.DecodedValue | src/macros.rs:73-177 | a field is decoded by weight in base 256, less the range if its type is signed and the first byte is 128 or more |
| Codec.AllOnesDecoded | src/macros.rs:73-165 | bytes 255 are -1 in every signed field and the largest value of every unsigned one |
| Codec.BytesDecoded | src/macros.rs:4-177 | single bytes, bools and raw bytes in both directions |
| Codec.FieldRoundTrip | src/macros.rs:4-177 | decoding an encoded field gives the value back |
| Codec.FieldBytesRoundTrip | src/macros.rs:4-177 | encoding a decoded field gives the bytes back, except for a bool byte above 1 |
| Codec.FieldAt | src/macros.rs:207-225 | each field is encoded at the total size of the fields before it |
| Codec.ComponentRoundTrip | src/macros.rs:207-226 | deserializing a serialized component gives it back, for any schema |
| Codec.ComponentBytesRoundTrip | src/macros.rs:207-226 | serializing a deserialized component gives the same bytes exactly when all bool bytes are 0 or 1 |
| Codec.MarkerRoundTrip | src/macros.rs:245-268 | a marker component is the byte 1, not the empty schema; writing what was read gives the same data exactly when it is that byte |
| Codec.Read | src/macros.rs:168-176 | the byte loop fails exactly at the end of the data |
| Codec.Serialize | src/macros.rs:207-213 | the bytes decode to the component |
| Codec.Deserialize | src/macros.rs:215-226 | succeeds exactly on data of the schema's total length, with values their fields can hold |

## Left out

- Hooks, observers and events inside bundle moves and despawns: callbacks of the user; taken to make no structural change.
- `Entities`: locations are a map from entities, so generations and reserved entities are left out.
- NewBundleInfo: what the components of a bundle require, all together, is given as one map; merging the components' own lists by depth is not modelled, because `RequiredComponents` is not part of the repository.
- RemoveWith: the `pre_remove` callback is the empty one; that of a take is `ReadForTake` in `TakeWith`. Whether the table move drops or forgets cells is `Columns.ColumnTable.MoveShared`.
- Change ticks, caller locations, drop functions, raw pointers and allocation failure: they do not decide which value a component has. Dropped values are counted in `Columns` only.
- `insert_by_id`, `remove_by_id`, `remove_with_requires`, `retain` and `clear` of the entity handles (`src/world/entity_ref.rs:1886-2333`): they look up or register a bundle in another way and use the same inserters and removers.
- Component registration: the storage kind of each component is fixed for a world.
- Dynamic bundle registration (`src/bundle.rs:2020-2102`): a lookup in front of `NewBundleInfo`.
- The opt-out filter of `src/entity/clone_entities.rs` and recursive cloning through handlers: their meaning lies in clone handlers of the user.
- Integer widths of versions, ids and times: unbounded here, so overflow of `u32` ids, `u64` versions and `now + timelock_period` is not modelled.
- Archetype values of the stored world: modelled as values, because the host map hands out copies; there is no aliasing to capture.
- Coherence of a query cache with several worlds: a cache follows one world's history, and both conversions make a new world.
- `TrackedWorld::world_mut` and recording through `tracker_mut`: they bypass the log.
- The filters of `ChangeTracker` and `Query` and the typed convenience methods: single expressions over what is modelled.
- Component type lists of `Entity` in `src/entity.rs`: the stored entity is never changed through the manager.
- The resource variant of the codec: the same bodies again.
- The tick counter of `ChangeTracker`: nothing depends on it.
- Hierarchies, scheduling, plugins, sessions, device keys, batching and cryptography: other parts of the crate.

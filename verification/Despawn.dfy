/** `EntityWorldMut::despawn` (`src/world/entity_ref.rs`): an entity leaves its archetype, its sparse
    sets and its table by swap-removes, and the entities that took its rows are told. */
module Despawns {
  import opened Collections
  import opened Storage
  import opened Archetypes
  import opened Coherence
  import opened Graph
  import opened Meaning
  import opened Moves
  import opened Bundles

  // ----- coherence along the steps -----

  /** The locations after `e` is freed and the entity that took its archetype row is told. */
  ghost function LeftLocs(archs: seq<ArchetypeView>, locs: map<Entity, Location>, e: Entity): map<Entity, Location>
    requires ArchetypesCoherent(archs, locs) && e in locs
  {
    SwappedIsLive(archs, locs, e);
    ArchetypeRowFixed(locs - {e}, SwappedEntity(archs[locs[e].archetypeId].entities, locs[e].archetypeRow),
                      locs[e].archetypeRow)
  }

  /** Swap-removing an entity from its archetype and forgetting its location keeps both in agreement. */
  lemma ArchetypeLeave(archs: seq<ArchetypeView>, locs: map<Entity, Location>, e: Entity)
    requires ArchetypesCoherent(archs, locs) && e in locs
    ensures InArchetype(archs, locs[e], e)
    ensures ArchetypesCoherent(WithoutRow(archs, locs[e].archetypeId, locs[e].archetypeRow), LeftLocs(archs, locs, e))
  {
    SwappedIsLive(archs, locs, e);
    var home, row := locs[e].archetypeId, locs[e].archetypeRow;
    var archs', locs' := WithoutRow(archs, home, row), LeftLocs(archs, locs, e);
    var last := |archs[home].entities| - 1;
    forall x | x in locs'
      ensures InArchetype(archs', locs'[x], x)
    {
      assert x != e && InArchetype(archs, locs[x], x);
      assert locs[x].archetypeId == home ==> locs[x].archetypeRow != row;
    }
    forall a, r | 0 <= a < |archs'| && 0 <= r < |archs'[a].entities|
      ensures var x := archs'[a].entities[r].entity;
              x in locs' && locs'[x].archetypeId == a && locs'[x].archetypeRow == r
    {
      assert archs'[a].entities[r] == archs[a].entities[if a == home && r == row then last else r];
    }
  }

  lemma LeftLocsSteps(archs: seq<ArchetypeView>, locs: map<Entity, Location>, e: Entity)
    requires ArchetypesCoherent(archs, locs) && e in locs
    ensures InArchetype(archs, locs[e], e)
    ensures var swapped := SwappedEntity(archs[locs[e].archetypeId].entities, locs[e].archetypeRow);
            && (swapped.Some? ==> swapped.value in locs - {e})
            && LeftLocs(archs, locs, e) == ArchetypeRowFixed(locs - {e}, swapped, locs[e].archetypeRow)
  {
    SwappedIsLive(archs, locs, e);
  }

  lemma LeavePlaces(archs: seq<ArchetypeView>, locs: map<Entity, Location>, e: Entity)
    requires ArchetypesCoherent(archs, locs) && e in locs
    ensures var locs' := LeftLocs(archs, locs, e);
            && locs'.Keys == locs.Keys - {e}
            && forall x | x in locs' :: SamePlace(locs, locs', x)
  {
    SwappedIsLive(archs, locs, e);
  }

  function RowRemoved(tables: seq<TableView>, t: nat, row: nat): seq<TableView>
    requires t < |tables| && row < |tables[t].rows|
  {
    tables[t := tables[t].(rows := SwapRemove(tables[t].rows, row))]
  }

  /** Swap-removing `e`'s table row agrees with any locations without `e` that send the swapped
      entity to the freed row and nobody else anywhere. */
  lemma TableLeave(tables: seq<TableView>, locs: map<Entity, Location>, e: Entity, locs': map<Entity, Location>)
    requires TablesCoherent(tables, locs) && e in locs && InTable(tables, locs[e], e)
    requires locs'.Keys == locs.Keys - {e}
    requires forall x | x in locs' ::
               && locs'[x].tableId == locs[x].tableId
               && locs'[x].tableRow == if SwappedRow(tables[locs[e].tableId].rows, locs[e].tableRow) == Some(x)
                                       then locs[e].tableRow else locs[x].tableRow
    ensures TablesCoherent(RowRemoved(tables, locs[e].tableId, locs[e].tableRow), locs')
    ensures forall x | x in locs' ::
              SameRow(RowRemoved(tables, locs[e].tableId, locs[e].tableRow), locs'[x], tables, locs[x], x)
  {
    var t, row := locs[e].tableId, locs[e].tableRow;
    var rows, after := tables[t].rows, RowRemoved(tables, t, row);
    assert rows[|rows| - 1].entity in locs;
    forall x | x in locs'
      ensures SameRow(after, locs'[x], tables, locs[x], x)
    {
      assert InTable(tables, locs[x], x);
    }
    forall i, r | 0 <= i < |after| && 0 <= r < |after[i].rows|
      ensures var x := after[i].rows[r].entity; x in locs' && locs'[x].tableId == i && locs'[x].tableRow == r
    {
      var was := if i == t && r == row then |rows| - 1 else r;
      assert after[i].rows[r].entity == tables[i].rows[was].entity;
    }
  }

  /** The world after all steps of a despawn. */
  ghost function Left(v: View, e: Entity): View
    requires Coherent(v) && e in v.locs
  {
    TableSwappedIsLive(v, e);
    var loc := v.locs[e];
    var swapped := SwappedRow(v.tables[loc.tableId].rows, loc.tableRow);
    var archs, locs := WithoutRow(v.archs, loc.archetypeId, loc.archetypeRow), LeftLocs(v.archs, v.locs, e);
    ArchetypeLeave(v.archs, v.locs, e);
    LeavePlaces(v.archs, v.locs, e);
    TableRowRepair(archs, locs, swapped, loc.tableRow);
    v.(archs := RepairedArchs(archs, locs, swapped, loc.tableRow),
       locs := TableRowFixed(locs, swapped, loc.tableRow),
       tables := RowRemoved(v.tables, loc.tableId, loc.tableRow),
       sparse := SparseRemoved(v.sparse, e, Elems(v.archs[loc.archetypeId].sparseComponents)))
  }

  lemma LeavingKeepsNodes(archs: seq<ArchetypeView>, locs: map<Entity, Location>, e: Entity, swapped: Option<Entity>,
                          row: nat)
    requires ArchetypesCoherent(archs, locs) && e in locs
    requires swapped.Some? ==> swapped.value in LeftLocs(archs, locs, e)
    ensures InArchetype(archs, locs[e], e)
    ensures var archs', locs' := WithoutRow(archs, locs[e].archetypeId, locs[e].archetypeRow), LeftLocs(archs, locs, e);
            && (swapped.Some? ==> InArchetype(archs', locs'[swapped.value], swapped.value))
            && ArchetypesCoherent(RepairedArchs(archs', locs', swapped, row), TableRowFixed(locs', swapped, row))
            && SameNodes(archs, RepairedArchs(archs', locs', swapped, row))
  {
    ArchetypeLeave(archs, locs, e);
    TableRowRepair(WithoutRow(archs, locs[e].archetypeId, locs[e].archetypeRow), LeftLocs(archs, locs, e), swapped,
                   row);
  }

  /** The steps of a despawn, as a caller that performs them needs them. */
  lemma LeftSteps(v: View, e: Entity)
    requires Coherent(v) && e in v.locs
    ensures InArchetype(v.archs, v.locs[e], e) && InTable(v.tables, v.locs[e], e)
    ensures var loc := v.locs[e];
            var swapped := SwappedRow(v.tables[loc.tableId].rows, loc.tableRow);
            var archs, locs := WithoutRow(v.archs, loc.archetypeId, loc.archetypeRow), LeftLocs(v.archs, v.locs, e);
            && (swapped.Some? ==> swapped.value in locs && InArchetype(archs, locs[swapped.value], swapped.value))
            && Left(v, e) == v.(archs := RepairedArchs(archs, locs, swapped, loc.tableRow),
                                locs := TableRowFixed(locs, swapped, loc.tableRow),
                                tables := RowRemoved(v.tables, loc.tableId, loc.tableRow),
                                sparse := SparseRemoved(v.sparse, e, Elems(v.archs[loc.archetypeId].sparseComponents)))
  {
    TableSwappedIsLive(v, e);
    var loc := v.locs[e];
    LeavePlaces(v.archs, v.locs, e);
    LeavingKeepsNodes(v.archs, v.locs, e, SwappedRow(v.tables[loc.tableId].rows, loc.tableRow), loc.tableRow);
  }

  lemma LeftArchetypes(v: View, e: Entity)
    requires Coherent(v) && e in v.locs
    ensures ArchetypesCoherent(Left(v, e).archs, Left(v, e).locs) && SameNodes(v.archs, Left(v, e).archs)
  {
    LeftSteps(v, e);
    var loc := v.locs[e];
    LeavingKeepsNodes(v.archs, v.locs, e, SwappedRow(v.tables[loc.tableId].rows, loc.tableRow), loc.tableRow);
  }

  lemma FixedPlaces(before: map<Entity, Location>, locs: map<Entity, Location>, swapped: Option<Entity>, row: nat)
    requires swapped.Some? ==> swapped.value in locs
    requires forall x | x in locs :: x in before && SamePlace(before, locs, x)
    ensures var locs' := TableRowFixed(locs, swapped, row);
            && locs'.Keys == locs.Keys
            && forall x | x in locs' ::
                 && locs'[x].archetypeId == before[x].archetypeId && locs'[x].tableId == before[x].tableId
                 && locs'[x].tableRow == if swapped == Some(x) then row else before[x].tableRow
  {
  }

  /** Everybody else keeps archetype and table row, but for the entity that took the freed table row. */
  lemma LeftPlaces(v: View, e: Entity)
    requires Coherent(v) && e in v.locs
    ensures InTable(v.tables, v.locs[e], e)
    ensures var locs' := Left(v, e).locs;
            && locs'.Keys == v.locs.Keys - {e}
            && forall x | x in locs' ::
                 && locs'[x].archetypeId == v.locs[x].archetypeId && locs'[x].tableId == v.locs[x].tableId
                 && locs'[x].tableRow == if SwappedRow(v.tables[v.locs[e].tableId].rows, v.locs[e].tableRow) == Some(x)
                                         then v.locs[e].tableRow else v.locs[x].tableRow
  {
    LeftSteps(v, e);
    LeavePlaces(v.archs, v.locs, e);
    FixedPlaces(v.locs, LeftLocs(v.archs, v.locs, e), SwappedRow(v.tables[v.locs[e].tableId].rows, v.locs[e].tableRow),
                v.locs[e].tableRow);
  }

  /** A despawn leaves all agreements and the graph intact, and all of the entity's storage gone.
      Read backwards it adds one entity and leaves the others alone. */
  ghost predicate LeftWell(v: View, w: View, e: Entity) {
    && Coherent(w) && SameGraph(v, w) && OthersStay(w, v, e)
    && e !in w.locs && forall k | k in w.sparse :: k.1 != e
  }

  lemma LeftIsWell(v: View, e: Entity)
    requires Coherent(v) && HasRow(v, e) && Initialised(v, e)
    ensures LeftWell(v, Left(v, e), e)
  {
    LeftArchetypes(v, e);
    LeftPlaces(v, e);
    TableLeave(v.tables, v.locs, e, Left(v, e).locs);
    LeftSparse(v, e, Left(v, e).sparse);
    LeftIsWellFrom(v, Left(v, e), e);
  }

  lemma LeftSparse(v: View, e: Entity, sparse: map<(ComponentId, Entity), Value>)
    requires HasRow(v, e) && Initialised(v, e)
    requires sparse == SparseRemoved(v.sparse, e, Elems(ArchOf(v, e).sparseComponents))
    ensures forall k: (ComponentId, Entity) :: k in sparse <==> k in v.sparse && k.1 != e
    ensures forall k | k in sparse :: sparse[k] == v.sparse[k]
  {
    forall k: (ComponentId, Entity)
      ensures k in sparse <==> k in v.sparse && k.1 != e
    {
      assert k == (k.0, k.1);
    }
  }

  lemma LeftIsWellFrom(v: View, w: View, e: Entity)
    requires e in v.locs && InTable(v.tables, v.locs[e], e)
    requires ArchetypesCoherent(w.archs, w.locs) && SameNodes(v.archs, w.archs)
    requires TablesCoherent(w.tables, w.locs) && w.locs.Keys == v.locs.Keys - {e}
    requires w == v.(archs := w.archs, locs := w.locs, sparse := w.sparse,
                     tables := RowRemoved(v.tables, v.locs[e].tableId, v.locs[e].tableRow))
    requires forall x | x in w.locs :: w.locs[x].archetypeId == v.locs[x].archetypeId
    requires forall x | x in w.locs :: SameRow(w.tables, w.locs[x], v.tables, v.locs[x], x)
    requires forall k: (ComponentId, Entity) :: k in w.sparse <==> k in v.sparse && k.1 != e
    requires forall k | k in w.sparse :: w.sparse[k] == v.sparse[k]
    ensures LeftWell(v, w, e)
  {
    assert w.locs.Keys + {e} == v.locs.Keys;
  }

  // ----- what a despawn means -----

  lemma StayerKeepsValues(v: View, w: View, e: Entity, x: Entity)
    requires AllInitialised(v) && LeftWell(v, w, e) && x in w.locs
    ensures HasRow(v, x) && Initialised(v, x)
    ensures HasRow(w, x) && Initialised(w, x) && ValuesOf(w, x) == ValuesOf(v, x)
  {
    assert x in v.locs && HasRow(v, x) && Initialised(v, x);
    assert InArchetype(w.archs, w.locs[x], x) && SameRow(w.tables, w.locs[x], v.tables, v.locs[x], x);
    assert SameNode(v.archs[v.locs[x].archetypeId], w.archs[w.locs[x].archetypeId]);
    forall c: ComponentId
      ensures (c, x) in v.sparse <==> (c, x) in w.sparse
      ensures (c, x) in v.sparse ==> v.sparse[(c, x)] == w.sparse[(c, x)]
    {
      assert (c, x).1 != e;
    }
    SameStorageSameValues(v, w, x);
  }

  lemma StayersOwnTheirSparse(v: View, w: View, e: Entity)
    requires SparseOwned(v) && OthersStay(w, v, e) && e !in w.locs && forall k | k in w.sparse :: k.1 != e
    ensures SparseOwned(w) && w.locs.Keys == v.locs.Keys - {e}
  {
    assert v.locs.Keys == w.locs.Keys + {e};
    forall k | k in w.sparse
      ensures k.1 in w.locs
    {
      assert k in v.sparse && k.1 in v.locs.Keys;
    }
  }

  lemma MeaningLoses(v: View, w: View, e: Entity)
    requires AllInitialised(v) && SparseOwned(w) && w.locs.Keys == v.locs.Keys - {e}
    requires forall x | x in w.locs ::
               x in v.locs && HasRow(w, x) && Initialised(w, x) && ValuesOf(w, x) == ValuesOf(v, x)
    ensures AllInitialised(w) && Model(w) == Model(v) - {e}
  {
    ModelKeys(v);
    ModelKeys(w);
    MapsAgree(Model(w), Model(v) - {e});
  }

  /** A despawned entity is gone from the world's meaning, and nothing else is. */
  lemma OneEntityGone(v: View, w: View, st: ComponentId -> StorageType, e: Entity)
    requires GraphOk(v, st) && AllInitialised(v) && LeftWell(v, w, e)
    ensures WorldOk(w, st) && Model(w) == Model(v) - {e}
  {
    StayersOwnTheirSparse(v, w, e);
    forall x | x in w.locs
      ensures x in v.locs && HasRow(v, x) && Initialised(v, x)
      ensures HasRow(w, x) && Initialised(w, x) && ValuesOf(w, x) == ValuesOf(v, x)
    {
      StayerKeepsValues(v, w, e, x);
    }
    MeaningLoses(v, w, e);
    SameGraphStaysOk(v, w, st);
  }

  // ----- the operation -----

  lemma SparseRemovedNext(sparse: map<(ComponentId, Entity), Value>, e: Entity, cs: seq<ComponentId>, i: nat)
    requires i < |cs|
    ensures SparseRemoved(sparse, e, Elems(cs[..i + 1])) == SparseRemoved(sparse, e, Elems(cs[..i])) - {(cs[i], e)}
    ensures i + 1 == |cs| ==> cs[..i + 1] == cs
  {
    assert Elems(cs[..i + 1]) == Elems(cs[..i]) + {cs[i]};
    SparseRemovedOne(sparse, e, Elems(cs[..i]), cs[i]);
  }

  /** Drops the entity's value in each sparse set of its archetype. */
  method DropSparseValues(w: World, e: Entity, components: seq<ComponentId>)
    requires w.Owned()
    modifies w`sparseSets
    ensures w.Owned() && w.View() == old(w.View()).(sparse := SparseRemoved(old(w.sparseSets), e, Elems(components)))
  {
    assert SparseRemoved(w.sparseSets, e, Elems(components[..0])) == w.sparseSets;
    for i := 0 to |components|
      invariant w.sparseSets == SparseRemoved(old(w.sparseSets), e, Elems(components[..i]))
    {
      SparseRemovedNext(old(w.sparseSets), e, components, i);
      w.sparseSets := w.sparseSets - {(components[i], e)};
    }
    assert components[..|components|] == components;
  }

  method RemoveTableRow(w: World, t: nat, row: nat) returns (swapped: Option<Entity>)
    requires w.Owned() && t < |w.tables| && row < |w.tables[t].rows|
    modifies w.tables[t]
    ensures w.Owned() && t < |old(w.View()).tables| && row < |old(w.View()).tables[t].rows|
    ensures w.View() == old(w.View()).(tables := RowRemoved(old(w.View()).tables, t, row))
    ensures swapped == SwappedRow(old(w.View()).tables[t].rows, row)
  {
    ghost var v := w.View();
    assert v.tables[t] == w.tables[t].View();
    swapped := w.tables[t].SwapRemoveUnchecked(row);
    assert w.View().tables == RowRemoved(v.tables, t, row);
  }

  /** `Entities::free`. */
  method FreeLocation(w: World, e: Entity)
    requires w.Owned()
    modifies w`locations
    ensures w.Owned() && w.View() == old(w.View()).(locs := old(w.locations) - {e})
  {
    w.locations := w.locations - {e};
  }

  /** The entity's location is freed, and the entity that took its archetype row is told. */
  method LeaveForGood(w: World, e: Entity) returns (tableRow: nat)
    requires w.Owned() && ArchetypesCoherent(w.View().archs, w.locations) && e in w.locations
    modifies w`locations, w.archetypes
    ensures w.Owned() && InArchetype(old(w.View()).archs, old(w.locations)[e], e)
            && tableRow == old(w.locations)[e].tableRow
    ensures var v, loc := old(w.View()), old(w.locations)[e];
            w.View() == v.(archs := WithoutRow(v.archs, loc.archetypeId, loc.archetypeRow),
                           locs := LeftLocs(v.archs, v.locs, e))
  {
    ghost var v := w.View();
    LeftLocsSteps(v.archs, v.locs, e);
    var location := w.locations[e];
    assert v.archs[location.archetypeId] == w.archetypes[location.archetypeId].View();
    FreeLocation(w, e);
    var result := w.SwapRemoveEntity(location.archetypeId, location.archetypeRow);
    w.FixArchetypeRow(result.swapped, location.archetypeRow);
    tableRow := result.tableRow;
  }

  /** All swap-removes of a despawn, and the repair of the entity that took the table row. */
  method RemoveEverywhere(w: World, e: Entity)
    requires w.Owned() && Coherent(w.View()) && e in w.locations
    modifies w`locations, w`sparseSets, w.archetypes, w.tables
    ensures w.Owned() && w.View() == Left(old(w.View()), e)
  {
    ghost var v := w.View();
    LeftSteps(v, e);
    var location := w.locations[e];
    assert v.archs[location.archetypeId] == w.archetypes[location.archetypeId].View();
    assert v.tables[location.tableId] == w.tables[location.tableId].View();
    var tableRow := LeaveForGood(w, e);
    DropSparseValues(w, e, w.archetypes[location.archetypeId].sparseComponents);
    var moved := RemoveTableRow(w, w.archetypes[location.archetypeId].tableId, tableRow);
    w.RepairAfterRemove(moved, tableRow);
  }

  /** The world stays valid, and means what it did without the entity. */
  method Despawn(w: World, e: Entity)
    requires w.Valid() && e in w.locations
    modifies w`locations, w`sparseSets, w.archetypes, w.tables
    ensures w.Valid() && w.Model() == old(w.Model()) - {e}
    ensures e !in w.locations && SameGraph(old(w.View()), w.View())
  {
    ghost var v := w.View();
    ModelAt(v, e);
    RemoveEverywhere(w, e);
    LeftIsWell(v, e);
    OneEntityGone(v, w.View(), w.storageOf, e);
  }
}

/** One entity's move between archetypes, and the writes that follow it, on values: both keep a
    world well formed and change the meaning of that one entity only. */
module Moves {
  import opened Collections
  import opened Storage
  import opened Archetypes
  import opened Coherence
  import opened Graph
  import opened Meaning

  // ----- population changes leave the graph alone -----

  ghost predicate SameGraph(v: View, w: View) {
    && SameNodes(v.archs, w.archs) && |v.tables| == |w.tables|
    && (forall t | 0 <= t < |v.tables| :: v.tables[t].components == w.tables[t].components)
    && v.byComponents == w.byComponents && v.tableIds == w.tableIds && v.bundles == w.bundles
  }

  lemma SameGraphStaysOk(v: View, w: View, st: ComponentId -> StorageType)
    requires GraphOk(v, st) && SameGraph(v, w)
    ensures GraphOk(w, st)
  {
    assert forall a | 0 <= a < |w.archs| :: SameNode(v.archs[a], w.archs[a])
                                            && w.archs[a].Components() == v.archs[a].Components();
    assert StructureOk(w, st) by {
      forall a | 0 <= a < |w.archs|
        ensures ArchetypeOk(w, st, a)
      {
        assert ArchetypeOk(v, st, a);
      }
      forall t | 0 <= t < |w.tables|
        ensures TableOk(w, t)
      {
        assert TableOk(v, t);
      }
      forall b | 0 <= b < |w.bundles|
        ensures BundleAt(w, b)
      {
        assert BundleAt(v, b);
      }
    }
    forall a | 0 <= a < |w.archs|
      ensures EdgesOf(w, a)
    {
      assert EdgesOf(v, a);
    }
  }

  // ----- what is stored for an entity, initialised or not -----

  /** The storage of `e` holds exactly the values `m`, each where its storage type says. */
  ghost predicate Stores(v: View, st: ComponentId -> StorageType, e: Entity, m: map<ComponentId, Value>)
    requires HasRow(v, e)
  {
    && (forall c :: c in CellsOf(v, e) <==> c in m && st(c) == TableStorage)
    && (forall c | c in CellsOf(v, e) :: CellsOf(v, e)[c] == m[c])
    && (forall c :: (c, e) in v.sparse <==> c in m && st(c) == SparseSetStorage)
    && (forall c | (c, e) in v.sparse :: v.sparse[(c, e)] == m[c])
  }

  lemma InitialisedStoresItsValues(v: View, st: ComponentId -> StorageType, e: Entity)
    requires GraphOk(v, st) && HasRow(v, e) && Initialised(v, e)
    ensures Stores(v, st, e, ValuesOf(v, e))
  {
    assert ArchetypeOk(v, st, v.locs[e].archetypeId);
    var m := ValuesOf(v, e);
    forall c
      ensures c in CellsOf(v, e) <==> c in m && st(c) == TableStorage
      ensures (c, e) in v.sparse <==> c in m && st(c) == SparseSetStorage
    {
      assert c in CellsOf(v, e).Keys <==> c in Elems(ArchOf(v, e).tableComponents);
    }
  }

  lemma StoredValuesAreItsMeaning(v: View, st: ComponentId -> StorageType, e: Entity, m: map<ComponentId, Value>)
    requires GraphOk(v, st) && HasRow(v, e)
    requires Stores(v, st, e, m) && ArchOf(v, e).Components() == m.Keys
    ensures Initialised(v, e) && ValuesOf(v, e) == m
  {
    assert ArchetypeOk(v, st, v.locs[e].archetypeId);
    forall c
      ensures c in CellsOf(v, e) <==> c in ArchOf(v, e).tableComponents
      ensures (c, e) in v.sparse <==> c in ArchOf(v, e).sparseComponents
    {
      assert c in ArchOf(v, e).Components() <==> c in m.Keys;
    }
    assert CellsOf(v, e).Keys == Elems(ArchOf(v, e).tableComponents);
  }

  // ----- moving -----

  lemma TableSwappedIsLive(v: View, e: Entity)
    requires Coherent(v) && e in v.locs
    ensures InArchetype(v.archs, v.locs[e], e) && InTable(v.tables, v.locs[e], e)
    ensures var swapped := SwappedRow(v.tables[v.locs[e].tableId].rows, v.locs[e].tableRow);
            swapped.Some? ==> swapped.value in v.locs && swapped.value != e
  {
    assert InArchetype(v.archs, v.locs[e], e) && InTable(v.tables, v.locs[e], e);
    var rows := v.tables[v.locs[e].tableId].rows;
    assert rows[|rows| - 1].entity in v.locs;
  }

  /** The whole effect of moving `e` to archetype `b`, where its row in a new table gets `cells`. */
  ghost function Moved(v: View, e: Entity, b: nat, cells: map<ComponentId, Value>): View
    requires Coherent(v) && e in v.locs && b < |v.archs| && b != v.locs[e].archetypeId
    requires v.archs[b].tableId < |v.tables|
  {
    TableSwappedIsLive(v, e);
    var loc := v.locs[e];
    var u := v.archs[b].tableId;
    if u == loc.tableId then
      v.(archs := HoppedArchs(v.archs, v.locs, e, b, loc.tableRow),
         locs := HoppedLocs(v.archs, v.locs, e, b, loc.tableRow))
    else
      var q := |v.tables[u].rows|;
      var swapped := SwappedRow(v.tables[loc.tableId].rows, loc.tableRow);
      var archs := HoppedArchs(v.archs, v.locs, e, b, q);
      var locs := HoppedLocs(v.archs, v.locs, e, b, q);
      HopAndRepair(v.archs, v.locs, e, b, q, swapped, loc.tableRow);
      v.(archs := RepairedArchs(archs, locs, swapped, loc.tableRow),
         locs := TableRowFixed(locs, swapped, loc.tableRow),
         tables := RowMoved(v.tables, loc.tableId, loc.tableRow, u, Row(e, cells)))
  }

  /** Nobody but `e` changes archetype or stored values, even if two others change rows. */
  ghost predicate OthersStay(v: View, w: View, e: Entity) {
    && w.locs.Keys == v.locs.Keys + {e}
    && (forall x | x in v.locs && x != e ::
          && v.locs[x].archetypeId == w.locs[x].archetypeId
          && SameRow(v.tables, v.locs[x], w.tables, w.locs[x], x))
    && (forall k: (ComponentId, Entity) | k.1 != e :: k in v.sparse <==> k in w.sparse)
    && (forall k: (ComponentId, Entity) | k.1 != e && k in v.sparse :: v.sparse[k] == w.sparse[k])
  }

  /** A move keeps every agreement between locations, archetype rows and table rows, and leaves
      the graph and everybody else's storage alone. */
  ghost predicate MovedWell(v: View, w: View, e: Entity, b: nat, cells: map<ComponentId, Value>) {
    && Coherent(w) && SameGraph(v, w) && w.sparse == v.sparse
    && OthersStay(v, w, e)
    && HasRow(w, e) && w.locs[e].archetypeId == b && CellsOf(w, e) == cells
  }

  lemma MovedInPlace(v: View, e: Entity, b: nat, cells: map<ComponentId, Value>)
    requires Coherent(v) && e in v.locs && b < |v.archs| && b != v.locs[e].archetypeId
    requires v.archs[b].tableId < |v.tables| && v.archs[b].tableId == v.locs[e].tableId
    ensures HasRow(v, e) && MovedWell(v, Moved(v, e, b, cells), e, b, CellsOf(v, e))
  {
    var w := Moved(v, e, b, cells);
    var q := v.locs[e].tableRow;
    HasItsRow(v, e);
    ArchetypeHop(v.archs, v.locs, e, b, q);
    HopPlaces(v.archs, v.locs, e, b, q);
    HopKeepsNodes(v.archs, v.locs, e, b, q);
    InPlaceIsWell(v, v.(archs := w.archs, locs := w.locs), e, b);
  }

  lemma PlacesStay(v: View, w: View, e: Entity)
    requires TablesCoherent(v.tables, v.locs) && w.locs.Keys == v.locs.Keys && e in v.locs
    requires w.tables == v.tables && w.sparse == v.sparse
    requires w.locs[e].tableId == v.locs[e].tableId && w.locs[e].tableRow == v.locs[e].tableRow
    requires forall x | x in v.locs && x != e :: SamePlace(v.locs, w.locs, x)
    ensures OthersStay(v, w, e) && TablesCoherent(w.tables, w.locs)
  {
    forall x | x in v.locs
      ensures w.locs[x].tableId == v.locs[x].tableId && w.locs[x].tableRow == v.locs[x].tableRow
    {
      assert x != e ==> SamePlace(v.locs, w.locs, x);
    }
    TablesFollowPlaces(v.tables, v.locs, w.locs);
    forall x | x in v.locs && x != e
      ensures v.locs[x].archetypeId == w.locs[x].archetypeId
    {
      assert SamePlace(v.locs, w.locs, x);
    }
  }

  lemma InPlaceIsWell(v: View, w: View, e: Entity, b: nat)
    requires TablesCoherent(v.tables, v.locs) && HasRow(v, e)
    requires w == v.(archs := w.archs, locs := w.locs)
    requires ArchetypesCoherent(w.archs, w.locs) && SameNodes(v.archs, w.archs)
    requires w.locs.Keys == v.locs.Keys && w.locs[e].archetypeId == b
    requires w.locs[e].tableId == v.locs[e].tableId && w.locs[e].tableRow == v.locs[e].tableRow
    requires forall x | x in v.locs && x != e :: SamePlace(v.locs, w.locs, x)
    ensures MovedWell(v, w, e, b, CellsOf(v, e))
  {
    PlacesStay(v, w, e);
    HasItsRow(w, e);
  }

  lemma HasItsRow(v: View, e: Entity)
    requires Coherent(v) && e in v.locs
    ensures HasRow(v, e)
  {
  }

  /** The locations after a move to another table, in the form the tables need them. */
  ghost predicate AcrossLocs(v: View, locs': map<Entity, Location>, e: Entity, b: nat)
    requires e in v.locs && InTable(v.tables, v.locs[e], e) && b < |v.archs| && v.archs[b].tableId < |v.tables|
  {
    var swapped := SwappedRow(v.tables[v.locs[e].tableId].rows, v.locs[e].tableRow);
    && locs'.Keys == v.locs.Keys
    && locs'[e].archetypeId == b
    && locs'[e].tableId == v.archs[b].tableId && locs'[e].tableRow == |v.tables[v.archs[b].tableId].rows|
    && forall x | x in v.locs && x != e ::
         && locs'[x].archetypeId == v.locs[x].archetypeId && locs'[x].tableId == v.locs[x].tableId
         && locs'[x].tableRow == if swapped == Some(x) then v.locs[e].tableRow else v.locs[x].tableRow
  }

  lemma AcrossLocsFrom(v: View, hopped: map<Entity, Location>, locs': map<Entity, Location>, e: Entity, b: nat,
                       row: nat)
    requires e in v.locs && InTable(v.tables, v.locs[e], e) && b < |v.archs| && v.archs[b].tableId < |v.tables|
    requires hopped.Keys == v.locs.Keys && locs'.Keys == v.locs.Keys
    requires hopped[e] == Location(b, row, v.archs[b].tableId, |v.tables[v.archs[b].tableId].rows|)
    requires forall x | x in v.locs && x != e :: SamePlace(v.locs, hopped, x)
    requires var swapped := SwappedRow(v.tables[v.locs[e].tableId].rows, v.locs[e].tableRow);
             && (swapped.Some? ==> swapped.value in v.locs && swapped.value != e
                                   && locs'[swapped.value] == hopped[swapped.value].(tableRow := v.locs[e].tableRow))
             && forall x | x in v.locs && swapped != Some(x) :: locs'[x] == hopped[x]
    ensures AcrossLocs(v, locs', e, b)
  {
    var swapped := SwappedRow(v.tables[v.locs[e].tableId].rows, v.locs[e].tableRow);
    forall x | x in v.locs && x != e
      ensures locs'[x].archetypeId == v.locs[x].archetypeId && locs'[x].tableId == v.locs[x].tableId
      ensures locs'[x].tableRow == if swapped == Some(x) then v.locs[e].tableRow else v.locs[x].tableRow
    {
      assert SamePlace(v.locs, hopped, x);
    }
  }

  lemma MovedAcrossArchetypes(v: View, e: Entity, b: nat, cells: map<ComponentId, Value>)
    requires Coherent(v) && e in v.locs && b < |v.archs| && b != v.locs[e].archetypeId
    requires v.archs[b].tableId < |v.tables| && v.archs[b].tableId != v.locs[e].tableId
    ensures var w := Moved(v, e, b, cells);
            ArchetypesCoherent(w.archs, w.locs) && SameNodes(v.archs, w.archs)
  {
    var loc, q := v.locs[e], |v.tables[v.archs[b].tableId].rows|;
    TableSwappedIsLive(v, e);
    var swapped := SwappedRow(v.tables[loc.tableId].rows, loc.tableRow);
    HopAndRepair(v.archs, v.locs, e, b, q, swapped, loc.tableRow);
    HopAndRepairKeepNodes(v.archs, v.locs, e, b, q, swapped, loc.tableRow);
  }

  lemma MovedAcrossLocs(v: View, e: Entity, b: nat, cells: map<ComponentId, Value>)
    requires Coherent(v) && e in v.locs && b < |v.archs| && b != v.locs[e].archetypeId
    requires v.archs[b].tableId < |v.tables| && v.archs[b].tableId != v.locs[e].tableId
    ensures InTable(v.tables, v.locs[e], e)
    ensures AcrossLocs(v, Moved(v, e, b, cells).locs, e, b)
  {
    var loc, q := v.locs[e], |v.tables[v.archs[b].tableId].rows|;
    TableSwappedIsLive(v, e);
    var swapped := SwappedRow(v.tables[loc.tableId].rows, loc.tableRow);
    var locs := HoppedLocs(v.archs, v.locs, e, b, q);
    HopPlaces(v.archs, v.locs, e, b, q);
    AcrossLocsFrom(v, locs, TableRowFixed(locs, swapped, loc.tableRow), e, b, |v.archs[b].entities|);
  }

  lemma MovedAcross(v: View, e: Entity, b: nat, cells: map<ComponentId, Value>)
    requires Coherent(v) && e in v.locs && b < |v.archs| && b != v.locs[e].archetypeId
    requires v.archs[b].tableId < |v.tables| && v.archs[b].tableId != v.locs[e].tableId
    ensures MovedWell(v, Moved(v, e, b, cells), e, b, cells)
  {
    MovedAcrossArchetypes(v, e, b, cells);
    MovedAcrossLocs(v, e, b, cells);
    MovedAcrossTables(v, Moved(v, e, b, cells), e, b, cells);
  }

  lemma MovedAcrossTables(v: View, w: View, e: Entity, b: nat, cells: map<ComponentId, Value>)
    requires TablesCoherent(v.tables, v.locs) && e in v.locs && InTable(v.tables, v.locs[e], e) && b < |v.archs|
    requires v.archs[b].tableId < |v.tables| && v.archs[b].tableId != v.locs[e].tableId
    requires ArchetypesCoherent(w.archs, w.locs) && SameNodes(v.archs, w.archs) && AcrossLocs(v, w.locs, e, b)
    requires w == v.(archs := w.archs, locs := w.locs,
                     tables := RowMoved(v.tables, v.locs[e].tableId, v.locs[e].tableRow, v.archs[b].tableId,
                                        Row(e, cells)))
    ensures MovedWell(v, w, e, b, cells)
  {
    TableHop(v.tables, v.locs, e, v.archs[b].tableId, Row(e, cells), w.locs);
    RowMovedKeepsColumns(v.tables, v.locs[e].tableId, v.locs[e].tableRow, v.archs[b].tableId, Row(e, cells));
    HasItsRow(w, e);
  }

  lemma RowMovedKeepsColumns(tables: seq<TableView>, t: nat, row: nat, u: nat, moved: Row)
    requires t < |tables| && u < |tables| && t != u && row < |tables[t].rows|
    ensures var after := RowMoved(tables, t, row, u, moved);
            && |after| == |tables| && (forall i | 0 <= i < |tables| :: after[i].components == tables[i].components)
            && after[u].rows == tables[u].rows + [moved]
  {
  }

  lemma MovedIsCoherent(v: View, e: Entity, b: nat, cells: map<ComponentId, Value>)
    requires Coherent(v) && e in v.locs && b < |v.archs| && b != v.locs[e].archetypeId
    requires v.archs[b].tableId < |v.tables|
    ensures HasRow(v, e)
    ensures MovedWell(v, Moved(v, e, b, cells), e, b,
                      if v.archs[b].tableId == v.locs[e].tableId then CellsOf(v, e) else cells)
  {
    if v.archs[b].tableId == v.locs[e].tableId {
      MovedInPlace(v, e, b, cells);
    } else {
      MovedAcross(v, e, b, cells);
      HasItsRow(v, e);
    }
  }

  /** The move to another table, step by step, as a caller that performs the steps needs it. */
  lemma MovedAcrossSteps(v: View, e: Entity, b: nat, cells: map<ComponentId, Value>)
    requires Coherent(v) && e in v.locs && b < |v.archs| && b != v.locs[e].archetypeId
    requires v.archs[b].tableId < |v.tables| && v.archs[b].tableId != v.locs[e].tableId
    ensures InArchetype(v.archs, v.locs[e], e) && InTable(v.tables, v.locs[e], e)
    ensures var u := v.archs[b].tableId;
            var q := |v.tables[u].rows|;
            var row := v.locs[e].tableRow;
            var swapped := SwappedRow(v.tables[v.locs[e].tableId].rows, row);
            var archs, locs := HoppedArchs(v.archs, v.locs, e, b, q), HoppedLocs(v.archs, v.locs, e, b, q);
            && (swapped.Some? ==> && swapped.value in v.locs && swapped.value != e && swapped.value in locs
                                  && InArchetype(archs, locs[swapped.value], swapped.value))
            && Moved(v, e, b, cells)
               == v.(archs := RepairedArchs(archs, locs, swapped, row), locs := TableRowFixed(locs, swapped, row),
                     tables := RowMoved(v.tables, v.locs[e].tableId, row, u, Row(e, cells)))
  {
    TableSwappedIsLive(v, e);
    var swapped := SwappedRow(v.tables[v.locs[e].tableId].rows, v.locs[e].tableRow);
    HopAndRepair(v.archs, v.locs, e, b, |v.tables[v.archs[b].tableId].rows|, swapped, v.locs[e].tableRow);
  }

  // ----- writing -----

  function TableWrites(w: map<ComponentId, Value>, st: ComponentId -> StorageType): map<ComponentId, Value> {
    map c | c in w && st(c) == TableStorage :: w[c]
  }

  function SparseWrites(w: map<ComponentId, Value>, st: ComponentId -> StorageType, e: Entity)
    : map<(ComponentId, Entity), Value>
  {
    map c | c in w && st(c) == SparseSetStorage :: (c, e) := w[c]
  }

  /** The view after the writes `w` for entity `e` at the given table row. */
  function Written(v: View, st: ComponentId -> StorageType, t: nat, row: nat, e: Entity, w: map<ComponentId, Value>)
    : View
    requires t < |v.tables| && row < |v.tables[t].rows|
  {
    var before := v.tables[t].rows[row];
    var rows := v.tables[t].rows[row := Row(before.entity, before.cells + TableWrites(w, st))];
    v.(tables := v.tables[t := v.tables[t].(rows := rows)],
       sparse := v.sparse + SparseWrites(w, st, e))
  }

  function CellSet(v: View, t: nat, row: nat, c: ComponentId, x: Value): View
    requires t < |v.tables| && row < |v.tables[t].rows|
  {
    var before := v.tables[t].rows[row];
    v.(tables := v.tables[t := v.tables[t].(rows := v.tables[t].rows[row := Row(before.entity, before.cells[c := x])])])
  }

  lemma NothingWritten(v: View, st: ComponentId -> StorageType, t: nat, row: nat, e: Entity)
    requires t < |v.tables| && row < |v.tables[t].rows|
    ensures Written(v, st, t, row, e, map[]) == v
  {
    var before := v.tables[t].rows[row];
    assert before.cells + TableWrites(map[], st) == before.cells;
    assert v.sparse + SparseWrites(map[], st, e) == v.sparse;
    assert v.tables[t].rows[row := Row(before.entity, before.cells)] == v.tables[t].rows;
    assert v.tables[t := v.tables[t].(rows := v.tables[t].rows)] == v.tables;
  }

  lemma RowsSetTwice(tables: seq<TableView>, t: nat, row: nat, x: Row, y: Row)
    requires t < |tables| && row < |tables[t].rows|
    ensures var once := tables[t := tables[t].(rows := tables[t].rows[row := x])];
            once[t := once[t].(rows := once[t].rows[row := y])]
              == tables[t := tables[t].(rows := tables[t].rows[row := y])]
  {
    assert tables[t].rows[row := x][row := y] == tables[t].rows[row := y];
  }

  /** One more write, to wherever the component is stored. */
  lemma OneMoreWrite(v: View, st: ComponentId -> StorageType, t: nat, row: nat, e: Entity,
                     w: map<ComponentId, Value>, c: ComponentId, x: Value)
    requires t < |v.tables| && row < |v.tables[t].rows|
    ensures st(c) == TableStorage ==>
              Written(v, st, t, row, e, w[c := x]) == CellSet(Written(v, st, t, row, e, w), t, row, c, x)
    ensures st(c) == SparseSetStorage ==>
              var before := Written(v, st, t, row, e, w);
              Written(v, st, t, row, e, w[c := x]) == before.(sparse := before.sparse[(c, e) := x])
  {
    var base := v.tables[t].rows[row];
    if st(c) == TableStorage {
      TableWritesExtended(base.cells, w, st, c, x);
      SparseWritesUnchanged(w, st, e, c, x);
      RowsSetTwice(v.tables, t, row, Row(base.entity, base.cells + TableWrites(w, st)),
                   Row(base.entity, base.cells + TableWrites(w[c := x], st)));
    } else {
      assert TableWrites(w[c := x], st) == TableWrites(w, st);
      SparseWritesExtended(w, st, e, c, x);
      MapSumUpdated(v.sparse, SparseWrites(w, st, e), (c, e), x);
    }
  }

  lemma MapSumUpdated<K, V>(a: map<K, V>, b: map<K, V>, k: K, x: V)
    ensures a + b[k := x] == (a + b)[k := x]
  {
  }

  lemma TableWritesExtended(cells: map<ComponentId, Value>, w: map<ComponentId, Value>, st: ComponentId -> StorageType,
                            c: ComponentId, x: Value)
    requires st(c) == TableStorage
    ensures cells + TableWrites(w[c := x], st) == (cells + TableWrites(w, st))[c := x]
  {
    assert TableWrites(w[c := x], st) == TableWrites(w, st)[c := x];
  }

  lemma SparseWritesUnchanged(w: map<ComponentId, Value>, st: ComponentId -> StorageType, e: Entity, c: ComponentId,
                              x: Value)
    requires st(c) == TableStorage
    ensures SparseWrites(w[c := x], st, e) == SparseWrites(w, st, e)
  {
    forall k: (ComponentId, Entity)
      ensures k in SparseWrites(w[c := x], st, e) <==> k in SparseWrites(w, st, e)
    {
      SparseWritesAt(w, st, e, k);
      SparseWritesAt(w[c := x], st, e, k);
    }
  }

  lemma SparseWritesExtended(w: map<ComponentId, Value>, st: ComponentId -> StorageType, e: Entity, c: ComponentId,
                             x: Value)
    requires st(c) == SparseSetStorage
    ensures SparseWrites(w[c := x], st, e) == SparseWrites(w, st, e)[(c, e) := x]
  {
    var lhs, rhs := SparseWrites(w[c := x], st, e), SparseWrites(w, st, e)[(c, e) := x];
    forall k: (ComponentId, Entity)
      ensures k in lhs <==> k in rhs
      ensures k in lhs ==> lhs[k] == rhs[k]
    {
      SparseWritesAt(w, st, e, k);
      SparseWritesAt(w[c := x], st, e, k);
    }
  }

  lemma WritingStaysInPlace(v: View, st: ComponentId -> StorageType, e: Entity, w: map<ComponentId, Value>)
    requires Coherent(v) && HasRow(v, e)
    ensures var after := Written(v, st, v.locs[e].tableId, v.locs[e].tableRow, e, w);
            && Coherent(after) && SameGraph(v, after) && after.locs == v.locs
            && HasRow(after, e) && CellsOf(after, e) == CellsOf(v, e) + TableWrites(w, st)
            && forall x | x in v.locs && x != e :: SameRow(v.tables, v.locs[x], after.tables, after.locs[x], x)
  {
    var t, row := v.locs[e].tableId, v.locs[e].tableRow;
    var after := Written(v, st, t, row, e, w);
    forall x | x in v.locs && x != e
      ensures SameRow(v.tables, v.locs[x], after.tables, after.locs[x], x)
    {
      assert InTable(v.tables, v.locs[x], x);
      assert (v.locs[x].tableId, v.locs[x].tableRow) != (t, row);
    }
    assert forall u, r | 0 <= u < |after.tables| && 0 <= r < |after.tables[u].rows| ::
        after.tables[u].rows[r].entity == v.tables[u].rows[r].entity;
    assert TablesCoherent(after.tables, after.locs);
  }

  lemma SparseWritesAt(w: map<ComponentId, Value>, st: ComponentId -> StorageType, e: Entity, k: (ComponentId, Entity))
    ensures k in SparseWrites(w, st, e) <==> k.1 == e && k.0 in w && st(k.0) == SparseSetStorage
    ensures k in SparseWrites(w, st, e) ==> SparseWrites(w, st, e)[k] == w[k.0]
  {
  }

  lemma WritingStores(v: View, st: ComponentId -> StorageType, e: Entity, m: map<ComponentId, Value>,
                      w: map<ComponentId, Value>)
    requires Coherent(v) && HasRow(v, e) && Stores(v, st, e, m)
    ensures var after := Written(v, st, v.locs[e].tableId, v.locs[e].tableRow, e, w);
            && Coherent(after) && SameGraph(v, after) && OthersStay(v, after, e)
            && after.locs == v.locs
            && HasRow(after, e) && Stores(after, st, e, m + w)
  {
    WritingStaysInPlace(v, st, e, w);
    var after := Written(v, st, v.locs[e].tableId, v.locs[e].tableRow, e, w);
    forall k: (ComponentId, Entity)
      ensures k in after.sparse <==> k in v.sparse || (k.1 == e && k.0 in w && st(k.0) == SparseSetStorage)
      ensures k in after.sparse ==> after.sparse[k] == if k.1 == e && k.0 in w && st(k.0) == SparseSetStorage
              then w[k.0] else v.sparse[k]
    {
      SparseWritesAt(w, st, e, k);
    }
    StoredAfterWrites(v, after, st, e, m, w);
  }

  lemma StoredAfterWrites(v: View, after: View, st: ComponentId -> StorageType, e: Entity,
                          m: map<ComponentId, Value>, w: map<ComponentId, Value>)
    requires HasRow(v, e) && Stores(v, st, e, m) && HasRow(after, e)
    requires CellsOf(after, e) == CellsOf(v, e) + TableWrites(w, st)
    requires after.sparse == v.sparse + SparseWrites(w, st, e)
    ensures Stores(after, st, e, m + w)
  {
    forall c: ComponentId
      ensures (c, e) in after.sparse <==> c in m + w && st(c) == SparseSetStorage
      ensures (c, e) in after.sparse ==> after.sparse[(c, e)] == (m + w)[c]
    {
      SparseWritesAt(w, st, e, (c, e));
    }
  }

  // ----- the step from world to world -----

  lemma OtherStaysInitialised(v: View, w: View, e: Entity, x: Entity)
    requires AllInitialised(v) && SameNodes(v.archs, w.archs) && OthersStay(v, w, e)
    requires ArchetypesCoherent(w.archs, w.locs)
    requires x in v.locs && x != e
    ensures HasRow(v, x) && Initialised(v, x)
    ensures HasRow(w, x) && Initialised(w, x) && ValuesOf(w, x) == ValuesOf(v, x)
  {
    assert HasRow(v, x) && Initialised(v, x);
    assert InArchetype(w.archs, w.locs[x], x) && SameRow(v.tables, v.locs[x], w.tables, w.locs[x], x);
    assert SameNode(v.archs[v.locs[x].archetypeId], w.archs[w.locs[x].archetypeId]);
    forall c: ComponentId
      ensures (c, x) in v.sparse <==> (c, x) in w.sparse
      ensures (c, x) in v.sparse ==> v.sparse[(c, x)] == w.sparse[(c, x)]
    {
      assert (c, x).1 != e;
    }
    SameStorageSameValues(v, w, x);
  }

  lemma ModelKeys(v: View)
    requires AllInitialised(v)
    ensures Model(v).Keys == v.locs.Keys
  {
  }

  lemma MeaningChangesAt(v: View, w: View, e: Entity, m: map<ComponentId, Value>)
    requires AllInitialised(v) && AllInitialised(w) && w.locs.Keys == v.locs.Keys + {e}
    requires ValuesOf(w, e) == m
    requires forall x | x in v.locs && x != e :: ValuesOf(w, x) == ValuesOf(v, x)
    ensures Model(w) == Model(v)[e := m]
  {
    ModelKeys(v);
    ModelKeys(w);
    MapUpdatedAt(Model(v), Model(w), e, m);
  }

  lemma OthersStayInitialised(v: View, w: View, e: Entity)
    requires AllInitialised(v) && SameNodes(v.archs, w.archs) && OthersStay(v, w, e)
    requires ArchetypesCoherent(w.archs, w.locs) && HasRow(w, e) && Initialised(w, e)
    ensures AllInitialised(w)
  {
    forall x | x in w.locs
      ensures HasRow(w, x) && Initialised(w, x)
    {
      if x != e {
        OtherStaysInitialised(v, w, e, x);
      }
    }
    forall k | k in w.sparse
      ensures k.1 in w.locs
    {
      assert k.1 != e ==> k in v.sparse;
    }
  }

  /** If only `e` changed and its storage holds exactly the components of its archetype, the
      world is well formed again and its meaning changed at `e` alone. */
  lemma OneEntityChanged(v: View, w: View, st: ComponentId -> StorageType, e: Entity, m: map<ComponentId, Value>)
    requires GraphOk(v, st) && AllInitialised(v) && Coherent(w) && SameGraph(v, w) && OthersStay(v, w, e)
    requires HasRow(w, e) && Stores(w, st, e, m) && ArchOf(w, e).Components() == m.Keys
    ensures WorldOk(w, st)
    ensures Model(w) == Model(v)[e := m]
  {
    SameGraphStaysOk(v, w, st);
    StoredValuesAreItsMeaning(w, st, e, m);
    OthersStayInitialised(v, w, e);
    forall x | x in v.locs && x != e
      ensures ValuesOf(w, x) == ValuesOf(v, x)
    {
      OtherStaysInitialised(v, w, e, x);
    }
    MeaningChangesAt(v, w, e, m);
  }

  // ----- whole operations -----

  lemma OthersStayTransitive(u: View, v: View, w: View, e: Entity)
    requires OthersStay(u, v, e) && OthersStay(v, w, e)
    ensures OthersStay(u, w, e)
  {
    forall x | x in u.locs && x != e
      ensures u.locs[x].archetypeId == w.locs[x].archetypeId
      ensures SameRow(u.tables, u.locs[x], w.tables, w.locs[x], x)
    {
      assert SameRow(u.tables, u.locs[x], v.tables, v.locs[x], x)
        && SameRow(v.tables, v.locs[x], w.tables, w.locs[x], x);
    }
  }

  lemma SameNodesTransitive(u: View, v: View, w: View)
    requires SameGraph(u, v) && SameGraph(v, w)
    ensures SameGraph(u, w)
  {
    forall a | 0 <= a < |u.archs|
      ensures SameNode(u.archs[a], w.archs[a])
    {
      assert SameNode(u.archs[a], v.archs[a]) && SameNode(v.archs[a], w.archs[a]);
    }
  }

  lemma NothingMoved(v: View, e: Entity)
    requires Coherent(v) && e in v.locs
    ensures HasRow(v, e) && MovedWell(v, v, e, v.locs[e].archetypeId, CellsOf(v, e))
  {
    HasItsRow(v, e);
    forall x | x in v.locs
      ensures SameRow(v.tables, v.locs[x], v.tables, v.locs[x], x)
    {
      HasItsRow(v, x);
    }
  }

  /** After `e` reached archetype `b` with its cells and its bundle's writes, the world is well
      formed and means the old one with `e`'s values overlaid. */
  lemma MoveThenWrite(v: View, moved: View, st: ComponentId -> StorageType, e: Entity, b: nat,
                      w: map<ComponentId, Value>)
    requires WorldOk(v, st) && HasRow(v, e) && Initialised(v, e)
    requires MovedWell(v, moved, e, b, CellsOf(v, e))
    requires v.archs[b].Components() == (ValuesOf(v, e) + w).Keys
    ensures var after := Written(moved, st, moved.locs[e].tableId, moved.locs[e].tableRow, e, w);
            && WorldOk(after, st) && SameGraph(v, after) && after.locs == moved.locs
            && Model(after) == Model(v)[e := ValuesOf(v, e) + w]
  {
    var m := ValuesOf(v, e);
    var after := Written(moved, st, moved.locs[e].tableId, moved.locs[e].tableRow, e, w);
    InitialisedStoresItsValues(v, st, e);
    assert Stores(moved, st, e, m);
    WritingStores(moved, st, e, m, w);
    OthersStayTransitive(v, moved, after, e);
    SameNodesTransitive(v, moved, after);
    assert SameNode(v.archs[b], after.archs[b]);
    OneEntityChanged(v, after, st, e, m + w);
  }

  function SparseRemoved(sparse: map<(ComponentId, Entity), Value>, e: Entity, drop: set<ComponentId>)
    : map<(ComponentId, Entity), Value>
  {
    map k | k in sparse && !(k.1 == e && k.0 in drop) :: sparse[k]
  }

  lemma StoresWhatIsKept(v: View, moved: View, st: ComponentId -> StorageType, e: Entity,
                         m: map<ComponentId, Value>, drop: set<ComponentId>)
    requires HasRow(v, e) && Stores(v, st, e, m) && HasRow(moved, e)
    requires forall c :: c in CellsOf(moved, e) <==> c in m - drop && st(c) == TableStorage
    requires forall c | c in CellsOf(moved, e) :: c in CellsOf(v, e) && CellsOf(moved, e)[c] == CellsOf(v, e)[c]
    requires moved.sparse == SparseRemoved(v.sparse, e, drop)
    ensures Stores(moved, st, e, m - drop)
  {
    forall c: ComponentId
      ensures (c, e) in moved.sparse <==> c in m - drop && st(c) == SparseSetStorage
    {
      assert (c, e).0 == c && (c, e).1 == e;
    }
  }

  /** Dropping sparse values of `e` and then moving it to the archetype without the dropped
      components, keeping the cells it has columns for, removes exactly those components. */
  lemma DropThenMove(v: View, moved: View, st: ComponentId -> StorageType, e: Entity, b: nat, drop: set<ComponentId>)
    requires GraphOk(v, st) && AllInitialised(v) && HasRow(v, e) && Initialised(v, e)
    requires b < |v.archs| && v.archs[b].tableId < |v.tables|
    requires v.archs[b].Components() == ArchOf(v, e).Components() - drop
    requires MovedWell(v.(sparse := SparseRemoved(v.sparse, e, drop)), moved, e, b,
                       if v.archs[b].tableId == v.locs[e].tableId then CellsOf(v, e)
                       else Kept(CellsOf(v, e), v.tables[v.archs[b].tableId].components))
    ensures WorldOk(moved, st) && SameGraph(v, moved)
    ensures Model(moved) == Model(v)[e := ValuesOf(v, e) - drop]
    ensures e in moved.locs && moved.locs[e].archetypeId == b
  {
    var m := ValuesOf(v, e);
    DroppedIsStored(v, moved, st, e, b, drop);
    OthersKeepSparse(v, v.(sparse := SparseRemoved(v.sparse, e, drop)), moved, e, drop);
    assert SameGraph(v, moved) && SameNode(v.archs[b], moved.archs[b]);
    OneEntityChanged(v, moved, st, e, m - drop);
  }

  lemma DroppedIsStored(v: View, moved: View, st: ComponentId -> StorageType, e: Entity, b: nat, drop: set<ComponentId>)
    requires GraphOk(v, st) && HasRow(v, e) && Initialised(v, e)
    requires b < |v.archs| && v.archs[b].tableId < |v.tables|
    requires v.archs[b].Components() == ArchOf(v, e).Components() - drop
    requires HasRow(moved, e) && moved.sparse == SparseRemoved(v.sparse, e, drop)
    requires CellsOf(moved, e) == if v.archs[b].tableId == v.locs[e].tableId then CellsOf(v, e)
                                  else Kept(CellsOf(v, e), v.tables[v.archs[b].tableId].components)
    ensures ValuesOf(v, e).Keys == ArchOf(v, e).Components()
    ensures Stores(moved, st, e, ValuesOf(v, e) - drop)
  {
    InitialisedStoresItsValues(v, st, e);
    KeptCells(v, st, e, b, drop);
    StoresWhatIsKept(v, moved, st, e, ValuesOf(v, e), drop);
  }

  lemma OthersKeepSparse(v: View, dropped: View, moved: View, e: Entity, drop: set<ComponentId>)
    requires dropped == v.(sparse := SparseRemoved(v.sparse, e, drop))
    requires OthersStay(dropped, moved, e)
    ensures OthersStay(v, moved, e)
  {
  }

  /** The cells kept by a removal are those of the remaining table components. */
  lemma KeptCells(v: View, st: ComponentId -> StorageType, e: Entity, b: nat, drop: set<ComponentId>)
    requires GraphOk(v, st) && HasRow(v, e) && b < |v.archs| && Initialised(v, e)
    requires v.archs[b].Components() == ValuesOf(v, e).Keys - drop && v.archs[b].tableId < |v.tables|
    ensures var cells := if v.archs[b].tableId == v.locs[e].tableId then CellsOf(v, e)
                         else Kept(CellsOf(v, e), v.tables[v.archs[b].tableId].components);
            && (forall c :: c in cells <==> c in ValuesOf(v, e) - drop && st(c) == TableStorage)
            && (forall c | c in cells :: c in CellsOf(v, e) && cells[c] == CellsOf(v, e)[c])
  {
    var a := v.locs[e].archetypeId;
    assert ArchetypeOk(v, st, a) && ArchetypeOk(v, st, b);
    InitialisedStoresItsValues(v, st, e);
    forall c
      ensures c in v.archs[b].tableComponents <==> c in ValuesOf(v, e) - drop && st(c) == TableStorage
      ensures c in CellsOf(v, e) <==> c in v.archs[a].tableComponents
    {
      assert c in v.archs[b].Components() <==> c in ValuesOf(v, e).Keys - drop;
      assert c in CellsOf(v, e).Keys <==> c in Elems(v.archs[a].tableComponents);
    }
  }

  /** A spawned entity's row, before anything is written. */
  function SpawnedView(v: View, e: Entity, b: nat): View
    requires b < |v.archs| && v.archs[b].tableId < |v.tables|
  {
    var t := v.archs[b].tableId;
    var q := |v.tables[t].rows|;
    v.(archs := WithEntity(v.archs, b, ArchetypeEntity(e, q)),
       tables := v.tables[t := v.tables[t].(rows := v.tables[t].rows + [Row(e, map[])])],
       locs := v.locs[e := Location(b, |v.archs[b].entities|, t, q)])
  }

  lemma SpawnedIsCoherent(v: View, st: ComponentId -> StorageType, e: Entity, b: nat)
    requires WorldOk(v, st) && e !in v.locs && b < |v.archs| && v.archs[b].tableId < |v.tables|
    ensures var w := SpawnedView(v, e, b);
            && Coherent(w) && SameGraph(v, w) && OthersStay(v, w, e)
            && HasRow(w, e) && CellsOf(w, e) == map[] && Stores(w, st, e, map[])
  {
    var w := SpawnedView(v, e, b);
    Arrival(v.archs, v.tables, v.locs, e, b);
    HasItsRow(w, e);
    SpawnedLeavesOthers(v, e, b);
    NothingStored(w, st, e);
  }

  lemma SpawnedLeavesOthers(v: View, e: Entity, b: nat)
    requires Coherent(v) && e !in v.locs && b < |v.archs| && v.archs[b].tableId < |v.tables|
    ensures SameGraph(v, SpawnedView(v, e, b)) && OthersStay(v, SpawnedView(v, e, b), e)
  {
    var w := SpawnedView(v, e, b);
    forall x | x in v.locs && x != e
      ensures SameRow(v.tables, v.locs[x], w.tables, w.locs[x], x)
    {
      HasItsRow(v, x);
    }
  }

  lemma NothingStored(v: View, st: ComponentId -> StorageType, e: Entity)
    requires HasRow(v, e) && CellsOf(v, e) == map[] && forall k | k in v.sparse :: k.1 != e
    ensures Stores(v, st, e, map[])
  {
    assert forall c: ComponentId :: (c, e).1 == e;
  }

  lemma EmptySum<K, V>(w: map<K, V>)
    ensures map[] + w == w
  {
  }

  lemma WriteAfterSpawn(v: View, spawned: View, st: ComponentId -> StorageType, e: Entity, b: nat,
                        w: map<ComponentId, Value>)
    requires GraphOk(v, st) && AllInitialised(v) && b < |v.archs|
    requires Coherent(spawned) && SameGraph(v, spawned) && OthersStay(v, spawned, e)
    requires HasRow(spawned, e) && Stores(spawned, st, e, map[]) && spawned.locs[e].archetypeId == b
    requires v.archs[b].Components() == w.Keys
    ensures var after := Written(spawned, st, spawned.locs[e].tableId, spawned.locs[e].tableRow, e, w);
            && WorldOk(after, st) && SameGraph(v, after) && after.locs == spawned.locs
            && Model(after) == Model(v)[e := w]
  {
    var after := Written(spawned, st, spawned.locs[e].tableId, spawned.locs[e].tableRow, e, w);
    WritingStores(spawned, st, e, map[], w);
    EmptySum(w);
    OthersStayTransitive(v, spawned, after, e);
    SameNodesTransitive(v, spawned, after);
    assert SameNode(v.archs[b], after.archs[b]);
    OneEntityChanged(v, after, st, e, w);
  }

  /** Spawning and writing a bundle adds one entity with exactly the bundle's values. */
  lemma SpawnThenWrite(v: View, st: ComponentId -> StorageType, e: Entity, b: nat, w: map<ComponentId, Value>)
    requires WorldOk(v, st) && e !in v.locs && b < |v.archs| && v.archs[b].tableId < |v.tables|
    requires v.archs[b].Components() == w.Keys
    ensures var spawned := SpawnedView(v, e, b);
            var after := Written(spawned, st, spawned.locs[e].tableId, spawned.locs[e].tableRow, e, w);
            && WorldOk(after, st) && SameGraph(v, after) && after.locs == spawned.locs
            && Model(after) == Model(v)[e := w]
  {
    SpawnedIsCoherent(v, st, e, b);
    WriteAfterSpawn(v, SpawnedView(v, e, b), st, e, b, w);
  }
}

/** Where entities live: archetype rows, table rows and the location map must name each other.
    The lemmas follow one entity through the swap-removes of a bundle move. */
module Coherence {
  import opened Collections
  import opened Storage
  import opened Archetypes

  ghost predicate InArchetype(archs: seq<ArchetypeView>, loc: Location, e: Entity) {
    && loc.archetypeId < |archs|
    && loc.tableId == archs[loc.archetypeId].tableId
    && loc.archetypeRow < |archs[loc.archetypeId].entities|
    && archs[loc.archetypeId].entities[loc.archetypeRow] == ArchetypeEntity(e, loc.tableRow)
  }

  /** Every location names an archetype row holding (the entity, its table row), and every
      archetype row belongs to the entity whose location names it. */
  ghost predicate ArchetypesCoherent(archs: seq<ArchetypeView>, locs: map<Entity, Location>) {
    && (forall e | e in locs :: InArchetype(archs, locs[e], e))
    && (forall a, r | 0 <= a < |archs| && 0 <= r < |archs[a].entities| ::
          var e := archs[a].entities[r].entity;
          e in locs && locs[e].archetypeId == a && locs[e].archetypeRow == r)
  }

  ghost predicate InTable(tables: seq<TableView>, loc: Location, e: Entity) {
    && loc.tableId < |tables|
    && loc.tableRow < |tables[loc.tableId].rows|
    && tables[loc.tableId].rows[loc.tableRow].entity == e
  }

  /** Two locations of `e` name equal rows, each in its own list of tables. */
  ghost predicate SameRow(tables: seq<TableView>, loc: Location, tables': seq<TableView>, loc': Location, e: Entity) {
    && InTable(tables, loc, e) && InTable(tables', loc', e)
    && tables[loc.tableId].rows[loc.tableRow] == tables'[loc'.tableId].rows[loc'.tableRow]
  }

  /** The same agreement between locations and table rows. */
  ghost predicate TablesCoherent(tables: seq<TableView>, locs: map<Entity, Location>) {
    && (forall e | e in locs :: InTable(tables, locs[e], e))
    && (forall t, r | 0 <= t < |tables| && 0 <= r < |tables[t].rows| ::
          var e := tables[t].rows[r].entity;
          e in locs && locs[e].tableId == t && locs[e].tableRow == r)
  }

  // ----- the steps of a move, on values -----

  function WithoutRow(archs: seq<ArchetypeView>, a: nat, row: nat): seq<ArchetypeView>
    requires a < |archs| && row < |archs[a].entities|
  {
    archs[a := archs[a].(entities := SwapRemove(archs[a].entities, row))]
  }

  function WithEntity(archs: seq<ArchetypeView>, b: nat, ae: ArchetypeEntity): seq<ArchetypeView>
    requires b < |archs|
  {
    archs[b := archs[b].(entities := archs[b].entities + [ae])]
  }

  function WithTableRow(archs: seq<ArchetypeView>, a: nat, row: nat, tableRow: nat): seq<ArchetypeView>
    requires a < |archs| && row < |archs[a].entities|
  {
    var entities := archs[a].entities;
    archs[a := archs[a].(entities := entities[row := ArchetypeEntity(entities[row].entity, tableRow)])]
  }

  function ArchetypeRowFixed(locs: map<Entity, Location>, swapped: Option<Entity>, row: nat): map<Entity, Location>
    requires swapped.Some? ==> swapped.value in locs
  {
    if swapped.None? then locs
    else locs[swapped.value := locs[swapped.value].(archetypeRow := row)]
  }

  function TableRowFixed(locs: map<Entity, Location>, swapped: Option<Entity>, row: nat): map<Entity, Location>
    requires swapped.Some? ==> swapped.value in locs
  {
    if swapped.None? then locs
    else locs[swapped.value := locs[swapped.value].(tableRow := row)]
  }

  function RowMoved(tables: seq<TableView>, t: nat, row: nat, u: nat, moved: Row): seq<TableView>
    requires t < |tables| && u < |tables| && t != u && row < |tables[t].rows|
  {
    tables[t := tables[t].(rows := SwapRemove(tables[t].rows, row))]
          [u := tables[u].(rows := tables[u].rows + [moved])]
  }

  // ----- coherence along the steps -----

  lemma SwappedIsLive(archs: seq<ArchetypeView>, locs: map<Entity, Location>, e: Entity)
    requires ArchetypesCoherent(archs, locs) && e in locs
    ensures InArchetype(archs, locs[e], e)
    ensures var swapped := SwappedEntity(archs[locs[e].archetypeId].entities, locs[e].archetypeRow);
            swapped.Some? ==> swapped.value in locs && swapped.value != e
  {
    assert InArchetype(archs, locs[e], e);
    var a := locs[e].archetypeId;
    assert archs[a].entities[|archs[a].entities| - 1].entity in locs;
  }

  /** The archetypes after `e` leaves its row for a row of archetype `b` that names table row `q`. */
  ghost function HoppedArchs(archs: seq<ArchetypeView>, locs: map<Entity, Location>, e: Entity, b: nat, q: nat)
    : seq<ArchetypeView>
    requires e in locs && b < |archs| && InArchetype(archs, locs[e], e)
  {
    WithEntity(WithoutRow(archs, locs[e].archetypeId, locs[e].archetypeRow), b, ArchetypeEntity(e, q))
  }

  /** The locations after the same step, with the entity that took the freed row repaired. */
  ghost function HoppedLocs(archs: seq<ArchetypeView>, locs: map<Entity, Location>, e: Entity, b: nat, q: nat)
    : map<Entity, Location>
    requires ArchetypesCoherent(archs, locs) && e in locs && b < |archs|
  {
    SwappedIsLive(archs, locs, e);
    var swapped := SwappedEntity(archs[locs[e].archetypeId].entities, locs[e].archetypeRow);
    ArchetypeRowFixed(locs, swapped, locs[e].archetypeRow)[e := Location(b, |archs[b].entities|, archs[b].tableId, q)]
  }

  /** Leaving a row and joining archetype `b`, one after the other, is the hop. */
  lemma LeftThenJoined(archs: seq<ArchetypeView>, locs: map<Entity, Location>, e: Entity, b: nat, q: nat,
                       left: seq<ArchetypeView>, leftLocs: map<Entity, Location>, l: Location)
    requires ArchetypesCoherent(archs, locs) && e in locs && b < |archs| && b != locs[e].archetypeId
    requires InArchetype(archs, locs[e], e) && left == WithoutRow(archs, locs[e].archetypeId, locs[e].archetypeRow)
    requires var swapped := SwappedEntity(archs[locs[e].archetypeId].entities, locs[e].archetypeRow);
             && (swapped.Some? ==> swapped.value in locs)
             && leftLocs == ArchetypeRowFixed(locs, swapped, locs[e].archetypeRow)
    requires l == Location(b, |left[b].entities|, left[b].tableId, q)
    ensures WithEntity(left, b, ArchetypeEntity(e, q)) == HoppedArchs(archs, locs, e, b, q)
    ensures leftLocs[e := l] == HoppedLocs(archs, locs, e, b, q)
  {
  }

  /** Swap-removing `e` from its archetype, repairing the entity that took its row, and pushing
      `e` on archetype `b` with table row `q` keeps archetypes and locations in agreement. */
  lemma ArchetypeHop(archs: seq<ArchetypeView>, locs: map<Entity, Location>, e: Entity, b: nat, q: nat)
    requires ArchetypesCoherent(archs, locs)
    requires e in locs && b < |archs| && b != locs[e].archetypeId
    ensures InArchetype(archs, locs[e], e)
    ensures ArchetypesCoherent(HoppedArchs(archs, locs, e, b, q), HoppedLocs(archs, locs, e, b, q))
  {
    SwappedIsLive(archs, locs, e);
    var archs', locs' := HoppedArchs(archs, locs, e, b, q), HoppedLocs(archs, locs, e, b, q);
    var home, row := locs[e].archetypeId, locs[e].archetypeRow;
    var last := |archs[home].entities| - 1;
    forall x | x in locs'
      ensures InArchetype(archs', locs'[x], x)
    {
      if x != e {
        assert InArchetype(archs, locs[x], x);
        assert locs[x].archetypeId == home ==> locs[x].archetypeRow != row;
      }
    }
    forall a, r | 0 <= a < |archs'| && 0 <= r < |archs'[a].entities|
      ensures var x := archs'[a].entities[r].entity;
              x in locs' && locs'[x].archetypeId == a && locs'[x].archetypeRow == r
    {
      if a == home {
        assert archs'[a].entities[r] == archs[a].entities[if r == row then last else r];
      } else if a == b && r == |archs[b].entities| {
        assert archs'[a].entities[r].entity == e;
      } else {
        assert archs'[a].entities[r] == archs[a].entities[r];
      }
    }
  }

  /** `x` keeps its archetype and its table row, if not its archetype row. */
  ghost predicate SamePlace(locs: map<Entity, Location>, locs': map<Entity, Location>, x: Entity)
    requires x in locs && x in locs'
  {
    && locs'[x].archetypeId == locs[x].archetypeId
    && locs'[x].tableId == locs[x].tableId && locs'[x].tableRow == locs[x].tableRow
  }

  lemma ArchetypeRowFixedPlaces(locs: map<Entity, Location>, swapped: Option<Entity>, row: nat, e: Entity, l: Location)
    requires swapped.Some? ==> swapped.value in locs
    requires e in locs
    ensures var locs' := ArchetypeRowFixed(locs, swapped, row)[e := l];
            && locs'.Keys == locs.Keys && locs'[e] == l
            && forall x | x in locs && x != e :: SamePlace(locs, locs', x)
  {
  }

  lemma HopPlaces(archs: seq<ArchetypeView>, locs: map<Entity, Location>, e: Entity, b: nat, q: nat)
    requires ArchetypesCoherent(archs, locs) && e in locs && b < |archs|
    ensures var locs' := HoppedLocs(archs, locs, e, b, q);
            && locs'.Keys == locs.Keys
            && locs'[e] == Location(b, |archs[b].entities|, archs[b].tableId, q)
            && forall x | x in locs && x != e :: SamePlace(locs, locs', x)
  {
    SwappedIsLive(archs, locs, e);
    var swapped := SwappedEntity(archs[locs[e].archetypeId].entities, locs[e].archetypeRow);
    ArchetypeRowFixedPlaces(locs, swapped, locs[e].archetypeRow, e,
                            Location(b, |archs[b].entities|, archs[b].tableId, q));
  }

  /** The archetypes after the entity that took a freed table row, if any, is told so. */
  ghost function RepairedArchs(archs: seq<ArchetypeView>, locs: map<Entity, Location>, swapped: Option<Entity>,
                               row: nat)
    : seq<ArchetypeView>
    requires swapped.Some? ==> swapped.value in locs && InArchetype(archs, locs[swapped.value], swapped.value)
  {
    if swapped.None? then archs
    else
      WithTableRow(archs, locs[swapped.value].archetypeId, locs[swapped.value].archetypeRow, row)
  }

  /** Moving an entity to another row of its table is recorded in its archetype row and its location. */
  lemma TableRowRepair(archs: seq<ArchetypeView>, locs: map<Entity, Location>, swapped: Option<Entity>, row: nat)
    requires ArchetypesCoherent(archs, locs) && (swapped.Some? ==> swapped.value in locs)
    ensures swapped.Some? ==> InArchetype(archs, locs[swapped.value], swapped.value)
    ensures ArchetypesCoherent(RepairedArchs(archs, locs, swapped, row), TableRowFixed(locs, swapped, row))
  {
    if swapped.Some? {
      assert InArchetype(archs, locs[swapped.value], swapped.value);
    }
  }

  ghost predicate SameNode(x: ArchetypeView, y: ArchetypeView) {
    && x.tableId == y.tableId && x.edges == y.edges
    && x.tableComponents == y.tableComponents && x.sparseComponents == y.sparseComponents
  }

  ghost predicate SameNodes(archs: seq<ArchetypeView>, archs': seq<ArchetypeView>) {
    |archs| == |archs'| && forall a | 0 <= a < |archs| :: SameNode(archs[a], archs'[a])
  }

  lemma HopKeepsNodes(archs: seq<ArchetypeView>, locs: map<Entity, Location>, e: Entity, b: nat, q: nat)
    requires e in locs && b < |archs| && InArchetype(archs, locs[e], e)
    ensures SameNodes(archs, HoppedArchs(archs, locs, e, b, q))
  {
  }

  lemma HopAndRepairKeepNodes(archs: seq<ArchetypeView>, locs: map<Entity, Location>, e: Entity, b: nat, q: nat,
                              swapped: Option<Entity>, row: nat)
    requires ArchetypesCoherent(archs, locs)
    requires e in locs && b < |archs| && b != locs[e].archetypeId
    requires swapped.Some? ==> swapped.value in locs
    ensures InArchetype(archs, locs[e], e)
    ensures var archs', locs' := HoppedArchs(archs, locs, e, b, q), HoppedLocs(archs, locs, e, b, q);
            && ArchetypesCoherent(archs', locs') && locs'.Keys == locs.Keys
            && (swapped.Some? ==> InArchetype(archs', locs'[swapped.value], swapped.value))
            && SameNodes(archs, RepairedArchs(archs', locs', swapped, row))
  {
    ArchetypeHop(archs, locs, e, b, q);
    HopPlaces(archs, locs, e, b, q);
    HopKeepsNodes(archs, locs, e, b, q);
    var archs', locs' := HoppedArchs(archs, locs, e, b, q), HoppedLocs(archs, locs, e, b, q);
    if swapped.Some? {
      assert InArchetype(archs', locs'[swapped.value], swapped.value);
    }
  }

  /** Both archetype steps of a move to another table: the hop, then the repair of the entity
      that took the freed table row, in whichever archetype that entity is. */
  lemma HopAndRepair(archs: seq<ArchetypeView>, locs: map<Entity, Location>, e: Entity, b: nat, q: nat,
                     swapped: Option<Entity>, row: nat)
    requires ArchetypesCoherent(archs, locs)
    requires e in locs && b < |archs| && b != locs[e].archetypeId
    requires swapped.Some? ==> swapped.value in locs
    ensures InArchetype(archs, locs[e], e)
    ensures var archs', locs' := HoppedArchs(archs, locs, e, b, q), HoppedLocs(archs, locs, e, b, q);
            && ArchetypesCoherent(archs', locs') && locs'.Keys == locs.Keys
            && (swapped.Some? ==> InArchetype(archs', locs'[swapped.value], swapped.value))
            && ArchetypesCoherent(RepairedArchs(archs', locs', swapped, row), TableRowFixed(locs', swapped, row))
  {
    ArchetypeHop(archs, locs, e, b, q);
    HopPlaces(archs, locs, e, b, q);
    TableRowRepair(HoppedArchs(archs, locs, e, b, q), HoppedLocs(archs, locs, e, b, q), swapped, row);
  }

  /** Swap-removing `e`'s row from its table and pushing it on table `u` agrees with any locations
      that send `e` to the pushed row, the swapped entity to the freed row, and nobody else anywhere. */
  lemma TableHop(tables: seq<TableView>, locs: map<Entity, Location>, e: Entity, u: nat, moved: Row,
                 locs': map<Entity, Location>)
    requires TablesCoherent(tables, locs)
    requires e in locs && u < |tables| && u != locs[e].tableId && moved.entity == e
    requires InTable(tables, locs[e], e)
    requires locs'.Keys == locs.Keys
    requires locs'[e].tableId == u && locs'[e].tableRow == |tables[u].rows|
    requires forall x | x in locs && x != e ::
               && locs'[x].tableId == locs[x].tableId
               && locs'[x].tableRow == if SwappedRow(tables[locs[e].tableId].rows, locs[e].tableRow) == Some(x)
                                       then locs[e].tableRow else locs[x].tableRow
    ensures TablesCoherent(RowMoved(tables, locs[e].tableId, locs[e].tableRow, u, moved), locs')
    ensures forall x | x in locs && x != e ::
              SameRow(tables, locs[x], RowMoved(tables, locs[e].tableId, locs[e].tableRow, u, moved), locs'[x], x)
  {
    var t, row := locs[e].tableId, locs[e].tableRow;
    var rows := tables[t].rows;
    assert rows[|rows| - 1].entity in locs;
    var after := RowMoved(tables, t, row, u, moved);
    forall x | x in locs && x != e
      ensures SameRow(tables, locs[x], after, locs'[x], x)
    {
      assert InTable(tables, locs[x], x);
    }
    forall i, r | 0 <= i < |after| && 0 <= r < |after[i].rows|
      ensures var x := after[i].rows[r].entity; x in locs' && locs'[x].tableId == i && locs'[x].tableRow == r
    {
      var x := after[i].rows[r].entity;
      if i == t && r == row {
        assert x == rows[|rows| - 1].entity;
      } else if !(i == u && r == |tables[u].rows|) {
        assert x == tables[i].rows[r].entity;
      }
    }
  }

  /** Table agreement only depends on the table part of each location. */
  lemma TablesFollowPlaces(tables: seq<TableView>, locs: map<Entity, Location>, locs': map<Entity, Location>)
    requires TablesCoherent(tables, locs) && locs'.Keys == locs.Keys
    requires forall x | x in locs :: locs'[x].tableId == locs[x].tableId && locs'[x].tableRow == locs[x].tableRow
    ensures TablesCoherent(tables, locs')
    ensures forall x | x in locs :: SameRow(tables, locs[x], tables, locs'[x], x)
  {
    forall x | x in locs
      ensures SameRow(tables, locs[x], tables, locs'[x], x)
    {
      assert InTable(tables, locs[x], x);
    }
  }

  /** Pushing a new entity keeps both agreements. */
  lemma Arrival(archs: seq<ArchetypeView>, tables: seq<TableView>, locs: map<Entity, Location>, e: Entity, b: nat)
    requires ArchetypesCoherent(archs, locs) && TablesCoherent(tables, locs)
    requires e !in locs && b < |archs| && archs[b].tableId < |tables|
    ensures var t := archs[b].tableId;
            var q := |tables[t].rows|;
            var locs' := locs[e := Location(b, |archs[b].entities|, t, q)];
            && ArchetypesCoherent(WithEntity(archs, b, ArchetypeEntity(e, q)), locs')
            && TablesCoherent(tables[t := tables[t].(rows := tables[t].rows + [Row(e, map[])])], locs')
  {
    var t := archs[b].tableId;
    var q := |tables[t].rows|;
    var locs' := locs[e := Location(b, |archs[b].entities|, t, q)];
    var tables' := tables[t := tables[t].(rows := tables[t].rows + [Row(e, map[])])];
    var archs' := WithEntity(archs, b, ArchetypeEntity(e, q));
    forall x | x in locs'
      ensures InTable(tables', locs'[x], x) && InArchetype(archs', locs'[x], x)
    {
      assert x != e ==> InTable(tables, locs[x], x) && InArchetype(archs, locs[x], x);
    }
  }

  /** Coherence leaves no room for two entities in one archetype row or one table row. */
  lemma RowsAreExclusive(archs: seq<ArchetypeView>, tables: seq<TableView>, locs: map<Entity, Location>, x: Entity,
                         y: Entity)
    requires ArchetypesCoherent(archs, locs) && TablesCoherent(tables, locs)
    requires x in locs && y in locs && x != y
    ensures (locs[x].archetypeId, locs[x].archetypeRow) != (locs[y].archetypeId, locs[y].archetypeRow)
    ensures (locs[x].tableId, locs[x].tableRow) != (locs[y].tableId, locs[y].tableRow)
  {
    assert InArchetype(archs, locs[x], x) && InTable(tables, locs[x], x);
    assert InArchetype(archs, locs[y], y) && InTable(tables, locs[y], y);
  }

  /** The repair of a swapped entity may come before or after the moved entity's own location is set. */
  lemma RepairCommutes(locs: map<Entity, Location>, swapped: Option<Entity>, row: nat, e: Entity, l: Location)
    requires swapped.Some? ==> swapped.value in locs && swapped.value != e
    ensures TableRowFixed(locs, swapped, row)[e := l] == TableRowFixed(locs[e := l], swapped, row)
  {
  }
}

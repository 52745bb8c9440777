/** Table storage (`src/storage/table/mod.rs`), as the bundle moves use it: a sequence of rows with
    push and swap-remove, each row holding its entity and one cell per initialised column. That
    columns in lockstep keep the same contracts is proved in `Columns`. */
module Storage {
  import opened Collections

  type ComponentId = nat
  type Entity = nat

  /** A component's payload; nothing depends on what it is. */
  type Value = int

  datatype StorageType = TableStorage | SparseSetStorage

  /** A column cell that has not been initialised is absent from `cells`. */
  datatype Row = Row(entity: Entity, cells: map<ComponentId, Value>)

  datatype MoveResult = MoveResult(newRow: nat, swapped: Option<Entity>)

  datatype TableView = TableView(components: seq<ComponentId>, rows: seq<Row>)

  /** The cells that survive a move into a table with the given columns. */
  function Kept(cells: map<ComponentId, Value>, components: seq<ComponentId>): map<ComponentId, Value> {
    map c | c in cells && c in components :: cells[c]
  }

  /** The entity that takes over row `row` when that row is swap-removed. */
  function SwappedRow(rows: seq<Row>, row: nat): Option<Entity>
    requires row < |rows|
  {
    if row == |rows| - 1 then None else Some(rows[|rows| - 1].entity)
  }

  class Table {
    const components: seq<ComponentId>
    var rows: seq<Row>

    constructor (components: seq<ComponentId>)
      ensures this.components == components && rows == []
    {
      this.components := components;
      rows := [];
    }

    function View(): TableView
      reads this
    {
      TableView(components, rows)
    }

    method Allocate(entity: Entity) returns (row: nat)
      modifies this
      ensures row == |old(rows)|
      ensures rows == old(rows) + [Row(entity, map[])]
    {
      row := |rows|;
      rows := rows + [Row(entity, map[])];
    }

    /** Writes a cell that must not hold a value yet: the old bits are not dropped. */
    method Initialize(row: nat, c: ComponentId, v: Value)
      requires row < |rows| && c in components && c !in rows[row].cells
      modifies this
      ensures rows == old(rows)[row := old(rows[row]).(cells := old(rows[row]).cells[c := v])]
    {
      rows := rows[row := rows[row].(cells := rows[row].cells[c := v])];
    }

    /** Overwrites a cell that must hold a value: the old one is dropped. */
    method Replace(row: nat, c: ComponentId, v: Value)
      requires row < |rows| && c in rows[row].cells
      modifies this
      ensures rows == old(rows)[row := old(rows[row]).(cells := old(rows[row]).cells[c := v])]
    {
      rows := rows[row := rows[row].(cells := rows[row].cells[c := v])];
    }

    /** Removes a row and its values, and says which entity took its place. */
    method SwapRemoveUnchecked(row: nat) returns (swapped: Option<Entity>)
      requires row < |rows|
      modifies this
      ensures rows == SwapRemove(old(rows), row) && swapped == SwappedRow(old(rows), row)
    {
      swapped := SwappedRow(rows, row);
      rows := SwapRemove(rows, row);
    }

    /** Swap-removes a row and pushes it on a table that has every column this one has. */
    method MoveToSuperset(row: nat, target: Table) returns (moved: MoveResult)
      requires row < |rows| && target != this
      requires Elems(components) <= Elems(target.components)
      modifies this, target
      ensures rows == SwapRemove(old(rows), row)
      ensures target.rows == old(target.rows) + [old(rows)[row]]
      ensures moved == MoveResult(|old(target.rows)|, SwappedRow(old(rows), row))
    {
      moved := MoveResult(|target.rows|, SwappedRow(rows, row));
      target.rows := target.rows + [rows[row]];
      rows := SwapRemove(rows, row);
    }

    /** Swap-removes a row and pushes it on a table, dropping the cells the table has no column for. */
    method MoveToAndDropMissing(row: nat, target: Table) returns (moved: MoveResult)
      requires row < |rows| && target != this
      modifies this, target
      ensures rows == SwapRemove(old(rows), row)
      ensures target.rows == old(target.rows)
                             + [Row(old(rows)[row].entity, Kept(old(rows)[row].cells, target.components))]
      ensures moved == MoveResult(|old(target.rows)|, SwappedRow(old(rows), row))
    {
      moved := MoveResult(|target.rows|, SwappedRow(rows, row));
      target.rows := target.rows + [Row(rows[row].entity, Kept(rows[row].cells, target.components))];
      rows := SwapRemove(rows, row);
    }
  }
}

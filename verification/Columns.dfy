/** `src/storage/table/mod.rs` and `src/storage/table/column.rs`: a table as one column of slots per
    component, all in lockstep with the list of entities. Its methods keep the contracts that
    `Storage.Table` states for rows. */
module Columns {
  import opened Collections
  import opened Storage

  /** The slots of a column, up to the table's capacity. A slot that was never written, or whose
      value was moved out or dropped, is `None`. */
  type Column = seq<Option<Value>>

  type ColumnMap = map<ComponentId, Column>

  /** Every column has the table's capacity, and no value beyond its last entity. */
  ghost predicate Lockstep(es: seq<Entity>, cols: ColumnMap, capacity: nat) {
    && |es| <= capacity
    && forall c | c in cols :: |cols[c]| == capacity && forall i | |es| <= i < capacity :: cols[c][i].None?
  }

  ghost predicate AtLeast(cols: ColumnMap, n: nat) {
    forall c | c in cols :: n <= |cols[c]|
  }

  /** The initialised cells of a row. */
  function CellsAt(cols: ColumnMap, r: nat): map<ComponentId, Value> {
    map c | c in cols && r < |cols[c]| && cols[c][r].Some? :: cols[c][r].value
  }

  /** The rows that the columns mean. */
  function RowsOf(es: seq<Entity>, cols: ColumnMap): (rows: seq<Row>)
    ensures |rows| == |es| && forall r | 0 <= r < |es| :: rows[r] == Row(es[r], CellsAt(cols, r))
  {
    seq(|es|, r requires 0 <= r < |es| => Row(es[r], CellsAt(cols, r)))
  }

  /** `BlobArray::swap_remove_unchecked`: the last value takes the freed slot. */
  function SlotRemoved(col: Column, last: nat, row: nat): Column
    requires row <= last < |col|
  {
    col[row := col[last]][last := None]
  }

  function Grown(col: Column, capacity: nat): Column
    requires |col| <= capacity
  {
    col + seq(capacity - |col|, _ => None)
  }

  // ----- column steps mean row steps -----

  lemma SameCells(a: ColumnMap, b: ColumnMap, r: nat, k: nat)
    requires a.Keys == b.Keys
    requires forall c | c in a :: r < |a[c]| && k < |b[c]| && a[c][r] == b[c][k]
    ensures CellsAt(a, r) == CellsAt(b, k)
  {
  }

  lemma GrowingKeepsRows(es: seq<Entity>, cols: ColumnMap, cols': ColumnMap, capacity: nat, capacity': nat)
    requires Lockstep(es, cols, capacity) && capacity <= capacity' && cols'.Keys == cols.Keys
    requires forall c | c in cols :: cols'[c] == Grown(cols[c], capacity')
    ensures Lockstep(es, cols', capacity') && RowsOf(es, cols') == RowsOf(es, cols)
  {
    forall r | 0 <= r < |es|
      ensures CellsAt(cols', r) == CellsAt(cols, r)
    {
      SameCells(cols', cols, r, r);
    }
  }

  lemma AllocatingAddsARow(es: seq<Entity>, cols: ColumnMap, capacity: nat, e: Entity)
    requires Lockstep(es, cols, capacity) && |es| < capacity
    ensures Lockstep(es + [e], cols, capacity)
    ensures RowsOf(es + [e], cols) == RowsOf(es, cols) + [Row(e, map[])]
  {
    assert CellsAt(cols, |es|) == map[];
  }

  lemma WritingChangesOneCell(es: seq<Entity>, cols: ColumnMap, capacity: nat, row: nat, c: ComponentId, v: Value)
    requires Lockstep(es, cols, capacity) && row < |es| && c in cols
    ensures var cols' := cols[c := cols[c][row := Some(v)]];
            && Lockstep(es, cols', capacity)
            && RowsOf(es, cols') == RowsOf(es, cols)[row := Row(es[row], CellsAt(cols, row)[c := v])]
  {
    var cols' := cols[c := cols[c][row := Some(v)]];
    assert CellsAt(cols', row) == CellsAt(cols, row)[c := v];
    forall r | 0 <= r < |es| && r != row
      ensures CellsAt(cols', r) == CellsAt(cols, r)
    {
      SameCells(cols', cols, r, r);
    }
  }

  /** Each column on its own moving its last slot is the table moving its last row. */
  lemma RemovingSlotsRemovesTheRow(es: seq<Entity>, cols: ColumnMap, cols': ColumnMap, capacity: nat, row: nat)
    requires Lockstep(es, cols, capacity) && row < |es| && cols'.Keys == cols.Keys
    requires forall c | c in cols :: cols'[c] == SlotRemoved(cols[c], |es| - 1, row)
    ensures Lockstep(SwapRemove(es, row), cols', capacity)
    ensures RowsOf(SwapRemove(es, row), cols') == SwapRemove(RowsOf(es, cols), row)
  {
    forall r | 0 <= r < |es| - 1
      ensures CellsAt(cols', r) == CellsAt(cols, if r == row then |es| - 1 else r)
    {
      SameCells(cols', cols, r, if r == row then |es| - 1 else r);
    }
  }

  /** Slots moved into a row that was just allocated are its cells, in the columns there are. */
  lemma FillingTheLastRow(es: seq<Entity>, components: seq<ComponentId>, cols: ColumnMap, cols': ColumnMap,
                          capacity: nat,
                          src: ColumnMap, row: nat)
    requires es != [] && Lockstep(es, cols, capacity) && CellsAt(cols, |es| - 1) == map[]
    requires cols.Keys == cols'.Keys == Elems(components) && AtLeast(src, row + 1)
    requires forall c | c in cols :: cols'[c] == if c in src then cols[c][|es| - 1 := src[c][row]] else cols[c]
    ensures Lockstep(es, cols', capacity)
    ensures RowsOf(es, cols') == RowsOf(es, cols)[|es| - 1 := Row(es[|es| - 1], Kept(CellsAt(src, row), components))]
  {
    var last, cells := |es| - 1, CellsAt(src, row);
    forall c
      ensures c in CellsAt(cols', last) <==> c in cells && c in components
      ensures c in CellsAt(cols', last) ==> CellsAt(cols', last)[c] == cells[c]
    {
      assert c in cols && c !in src ==> c !in CellsAt(cols, last);
    }
    assert CellsAt(cols', last) == Kept(cells, components);
    forall r | 0 <= r < last
      ensures CellsAt(cols', r) == CellsAt(cols, r)
    {
      SameCells(cols', cols, r, r);
    }
  }

  // ----- the loops over a table's columns -----

  /** The columns among the first `i` have the new capacity. */
  ghost predicate GrownUpTo(components: seq<ComponentId>, i: nat, src: ColumnMap, now: ColumnMap, capacity: nat) {
    && i <= |components| && NoDup(components) && now.Keys == src.Keys == Elems(components)
    && forall c | c in src :: && |src[c]| <= capacity
                              && now[c] == if c in components[..i] then Grown(src[c], capacity) else src[c]
  }

  lemma GrownNext(components: seq<ComponentId>, i: nat, src: ColumnMap, now: ColumnMap, capacity: nat)
    requires i < |components| && GrownUpTo(components, i, src, now, capacity)
    ensures components[i] in now && |now[components[i]]| <= capacity
    ensures GrownUpTo(components, i + 1, src, now[components[i] := Grown(now[components[i]], capacity)], capacity)
  {
    assert components[i] in Elems(components) && components[..i + 1] == components[..i] + [components[i]];
  }

  lemma GrownAll(components: seq<ComponentId>, src: ColumnMap, now: ColumnMap, capacity: nat)
    requires GrownUpTo(components, |components|, src, now, capacity)
    ensures forall c | c in src :: now[c] == Grown(src[c], capacity)
  {
    assert components[..|components|] == components;
    assert forall c | c in src :: c in Elems(components);
  }

  /** The columns among the first `i` moved their last slot into the freed one, the others did not yet. */
  ghost predicate RemovedUpTo(components: seq<ComponentId>, i: nat, src: ColumnMap, now: ColumnMap, last: nat, row: nat)
    requires i <= |components| && row <= last && AtLeast(src, last + 1)
  {
    && now.Keys == src.Keys == Elems(components)
    && forall c | c in src :: now[c] == if c in components[..i] then SlotRemoved(src[c], last, row) else src[c]
  }

  lemma RemovedNext(components: seq<ComponentId>, i: nat, src: ColumnMap, now: ColumnMap, last: nat, row: nat)
    requires i < |components| && row <= last && AtLeast(src, last + 1) && NoDup(components)
    requires RemovedUpTo(components, i, src, now, last, row)
    ensures components[i] in src && components[i] in now && now[components[i]] == src[components[i]]
    ensures RemovedUpTo(components, i + 1, src, now[components[i] := SlotRemoved(src[components[i]], last, row)], last,
                        row)
  {
    assert components[i] in Elems(components) && components[..i + 1] == components[..i] + [components[i]];
  }

  lemma RemovedAll(components: seq<ComponentId>, src: ColumnMap, now: ColumnMap, last: nat, row: nat)
    requires row <= last && AtLeast(src, last + 1) && RemovedUpTo(components, |components|, src, now, last, row)
    ensures now.Keys == src.Keys && forall c | c in src :: now[c] == SlotRemoved(src[c], last, row)
  {
    assert components[..|components|] == components;
    assert forall c | c in src :: c in Elems(components);
  }

  /** The values of the columns among the first `i` that the other table has no place for. */
  function UnplacedUpTo(components: seq<ComponentId>, i: nat, cells: map<ComponentId, Value>, places: set<ComponentId>)
    : map<ComponentId, Value>
    requires i <= |components|
  {
    map c | c in cells && c in components[..i] && c !in places :: cells[c]
  }

  lemma UnplacedNext(components: seq<ComponentId>, i: nat, cells: map<ComponentId, Value>, places: set<ComponentId>)
    requires i < |components|
    ensures UnplacedUpTo(components, i + 1, cells, places) ==
            var c := components[i];
            if c in cells && c !in places then UnplacedUpTo(components, i, cells, places)[c := cells[c]]
            else UnplacedUpTo(components, i, cells, places)
  {
    assert components[..i + 1] == components[..i] + [components[i]];
  }

  lemma UnplacedAll(components: seq<ComponentId>, cells: map<ComponentId, Value>, places: set<ComponentId>)
    requires cells.Keys <= Elems(components)
    ensures UnplacedUpTo(components, |components|, cells, places) == cells - places
  {
    assert components[..|components|] == components;
    assert forall c | c in cells :: c in Elems(components);
  }

  /** So did the columns, and their values of the row were dropped. */
  ghost predicate DroppedUpTo(components: seq<ComponentId>, i: nat, src: ColumnMap, now: ColumnMap, last: nat, row: nat,
                              dropped: map<ComponentId, Value>)
  {
    && i <= |components| && NoDup(components) && row <= last && AtLeast(src, last + 1)
    && RemovedUpTo(components, i, src, now, last, row)
    && dropped == UnplacedUpTo(components, i, CellsAt(src, row), {})
  }

  lemma DroppedNext(components: seq<ComponentId>, i: nat, src: ColumnMap, now: ColumnMap, last: nat, row: nat,
                    dropped: map<ComponentId, Value>)
    requires i < |components| && DroppedUpTo(components, i, src, now, last, row, dropped)
    ensures var c := components[i];
            && c in now && row <= last < |now[c]|
            && DroppedUpTo(components, i + 1, src, now[c := SlotRemoved(now[c], last, row)], last, row,
                           if now[c][row].Some? then dropped[c := now[c][row].value] else dropped)
  {
    RemovedNext(components, i, src, now, last, row);
    UnplacedNext(components, i, CellsAt(src, row), {});
  }

  lemma DroppedAll(components: seq<ComponentId>, src: ColumnMap, now: ColumnMap, last: nat, row: nat,
                   dropped: map<ComponentId, Value>)
    requires DroppedUpTo(components, |components|, src, now, last, row, dropped)
    ensures dropped == CellsAt(src, row)
  {
    UnplacedAll(components, CellsAt(src, row), {});
    MapsAgree(CellsAt(src, row) - {}, CellsAt(src, row));
  }

  /** The target got the row's slots of the columns among the first `i`. */
  ghost predicate FilledUpTo(components: seq<ComponentId>, i: nat, src: ColumnMap, row: nat,
                             dst: ColumnMap, now: ColumnMap, newRow: nat)
    requires i <= |components| && AtLeast(src, row + 1) && AtLeast(dst, newRow + 1)
  {
    && now.Keys == dst.Keys
    && forall c | c in dst ::
         now[c] == if c in components[..i] && c in src then dst[c][newRow := src[c][row]] else dst[c]
  }

  lemma FilledNext(components: seq<ComponentId>, i: nat, src: ColumnMap, row: nat,
                   dst: ColumnMap, now: ColumnMap, newRow: nat)
    requires i < |components| && AtLeast(src, row + 1) && AtLeast(dst, newRow + 1) && NoDup(components)
    requires FilledUpTo(components, i, src, row, dst, now, newRow) && components[i] in src
    ensures var c := components[i];
            && (c in dst ==> now[c] == dst[c])
            && FilledUpTo(components, i + 1, src, row, dst,
                          if c in dst then now[c := dst[c][newRow := src[c][row]]] else now, newRow)
  {
    assert components[..i + 1] == components[..i] + [components[i]];
  }

  lemma FilledAll(components: seq<ComponentId>, src: ColumnMap, row: nat, dst: ColumnMap, now: ColumnMap, newRow: nat)
    requires AtLeast(src, row + 1) && AtLeast(dst, newRow + 1) && src.Keys == Elems(components)
    requires FilledUpTo(components, |components|, src, row, dst, now, newRow)
    ensures now.Keys == dst.Keys
    ensures forall c | c in dst :: now[c] == if c in src then dst[c][newRow := src[c][row]] else dst[c]
  {
    assert components[..|components|] == components;
    assert forall c | c in src :: c in Elems(components);
  }

  lemma AllPlaced(cells: map<ComponentId, Value>, components: seq<ComponentId>, components': seq<ComponentId>)
    requires cells.Keys <= Elems(components) <= Elems(components')
    ensures Kept(cells, components') == cells
  {
    assert forall c | c in cells :: c in Elems(components) && c in Elems(components');
  }

  /** A move in the middle of its loop: what both tables' columns were, and what they are now. */
  datatype Moving = Moving(src: ColumnMap, row: nat, last: nat, dst: ColumnMap, newRow: nat)

  ghost predicate MoveOk(m: Moving, components: seq<ComponentId>) {
    && NoDup(components) && m.src.Keys == Elems(components) && m.row <= m.last
    && AtLeast(m.src, m.last + 1) && AtLeast(m.src, m.row + 1) && AtLeast(m.dst, m.newRow + 1)
  }

  ghost predicate MovedUpTo(m: Moving, components: seq<ComponentId>, i: nat, now: ColumnMap, now': ColumnMap)
    requires MoveOk(m, components) && i <= |components|
  {
    && RemovedUpTo(components, i, m.src, now, m.last, m.row)
    && FilledUpTo(components, i, m.src, m.row, m.dst, now', m.newRow)
  }

  lemma MovedNext(m: Moving, components: seq<ComponentId>, i: nat, now: ColumnMap, now': ColumnMap)
    requires MoveOk(m, components) && i < |components| && MovedUpTo(m, components, i, now, now')
    ensures var c := components[i];
            && c in now && c in m.src && now[c] == m.src[c] && |now[c]| > m.last
            && (c in now' <==> c in m.dst)
            && (c in now' ==> |now'[c]| > m.newRow)
            && MovedUpTo(m, components, i + 1, now[c := SlotRemoved(now[c], m.last, m.row)],
                         if c in now' then now'[c := now'[c][m.newRow := now[c][m.row]]] else now')
  {
    RemovedNext(components, i, m.src, now, m.last, m.row);
    FilledNext(components, i, m.src, m.row, m.dst, now', m.newRow);
  }

  /** And what was removed from the columns among the first `i` without a counterpart is `missing`. */
  ghost predicate SharedUpTo(m: Moving, components: seq<ComponentId>, i: nat, now: ColumnMap, now': ColumnMap,
                             missing: map<ComponentId, Value>)
  {
    && MoveOk(m, components) && i <= |components| && MovedUpTo(m, components, i, now, now')
    && missing == UnplacedUpTo(components, i, CellsAt(m.src, m.row), m.dst.Keys)
  }

  lemma SharedNext(m: Moving, components: seq<ComponentId>, i: nat, now: ColumnMap, now': ColumnMap,
                   missing: map<ComponentId, Value>)
    requires i < |components| && SharedUpTo(m, components, i, now, now', missing)
    ensures var c := components[i];
            && c in now && m.row <= m.last < |now[c]|
            && if c in now' then
                 && m.newRow < |now'[c]|
                 && SharedUpTo(m, components, i + 1, now[c := SlotRemoved(now[c], m.last, m.row)],
                               now'[c := now'[c][m.newRow := now[c][m.row]]], missing)
               else
                 SharedUpTo(m, components, i + 1, now[c := SlotRemoved(now[c], m.last, m.row)], now',
                            if now[c][m.row].Some? then missing[c := now[c][m.row].value] else missing)
  {
    MovedNext(m, components, i, now, now');
    UnplacedNext(components, i, CellsAt(m.src, m.row), m.dst.Keys);
  }

  /** When every column has been gone through, both tables mean the row's move. */
  lemma MoveIsDone(m: Moving, es: seq<Entity>, components: seq<ComponentId>, now: ColumnMap, capacity: nat,
                   es': seq<Entity>, components': seq<ComponentId>, now': ColumnMap, capacity': nat)
    requires MoveOk(m, components) && MovedUpTo(m, components, |components|, now, now')
    requires Lockstep(es, m.src, capacity) && m.row <= m.last == |es| - 1
    requires Lockstep(es', m.dst, capacity') && m.dst.Keys == Elems(components')
    requires m.newRow == |es'| - 1 && CellsAt(m.dst, m.newRow) == map[]
    ensures now.Keys == m.src.Keys && Lockstep(SwapRemove(es, m.row), now, capacity)
    ensures RowsOf(SwapRemove(es, m.row), now) == SwapRemove(RowsOf(es, m.src), m.row)
    ensures now'.Keys == m.dst.Keys && Lockstep(es', now', capacity')
    ensures RowsOf(es', now') ==
            RowsOf(es', m.dst)[m.newRow := Row(es'[m.newRow], Kept(CellsAt(m.src, m.row), components'))]
  {
    assert m.newRow < |es'|;
    RemovedAll(components, m.src, now, m.last, m.row);
    RemovingSlotsRemovesTheRow(es, m.src, now, capacity, m.row);
    FilledAll(components, m.src, m.row, m.dst, now', m.newRow);
    FillingTheLastRow(es', components', m.dst, now', capacity', m.src, m.row);
  }

  lemma LastRowFilled(rows: seq<Row>, e: Entity, cells: map<ComponentId, Value>)
    ensures (rows + [Row(e, map[])])[|rows| := Row(e, cells)] == rows + [Row(e, cells)]
  {
  }

  class ColumnTable {
    /** The columns, in the order in which the table goes through them. */
    const components: seq<ComponentId>
    var entities: seq<Entity>
    var columns: ColumnMap
    var capacity: nat

    ghost predicate Valid()
      reads this
    {
      NoDup(components) && columns.Keys == Elems(components) && Lockstep(entities, columns, capacity)
    }

    ghost function Rows(): seq<Row>
      reads this
    {
      RowsOf(entities, columns)
    }

    constructor (components: seq<ComponentId>, capacity: nat)
      requires NoDup(components)
      ensures Valid() && this.components == components && Rows() == []
    {
      this.components := components;
      this.capacity := capacity;
      entities := [];
      columns := map c | c in components :: seq(capacity, _ => None);
    }

    /** Reallocates every column when the list of entities outgrows its capacity. */
    method Reserve(additional: nat)
      requires Valid()
      modifies this`columns, this`capacity
      ensures Valid() && Rows() == old(Rows()) && |entities| + additional <= capacity
    {
      if capacity - |entities| < additional {
        var grown :| grown >= |entities| + additional;
        ghost var before := columns;
        for i := 0 to |components|
          modifies this`columns
          invariant GrownUpTo(components, i, before, columns, grown)
        {
          GrownNext(components, i, before, columns, grown);
          columns := columns[components[i] := Grown(columns[components[i]], grown)];
        }
        GrownAll(components, before, columns, grown);
        GrowingKeepsRows(entities, before, columns, capacity, grown);
        capacity := grown;
      }
    }

    method Allocate(entity: Entity) returns (row: nat)
      requires Valid()
      modifies this
      ensures Valid() && row == |old(Rows())| && entities == old(entities) + [entity]
      ensures Rows() == old(Rows()) + [Row(entity, map[])]
    {
      Reserve(1);
      row := |entities|;
      AllocatingAddsARow(entities, columns, capacity, entity);
      entities := entities + [entity];
    }

    method Initialize(row: nat, c: ComponentId, v: Value)
      requires Valid() && row < |entities| && c in components && c !in Rows()[row].cells
      modifies this`columns
      ensures Valid() && Rows() == old(Rows())[row := old(Rows())[row].(cells := old(Rows())[row].cells[c := v])]
    {
      WritingChangesOneCell(entities, columns, capacity, row, c, v);
      columns := columns[c := columns[c][row := Some(v)]];
    }

    /** The value that was there is dropped. */
    method Replace(row: nat, c: ComponentId, v: Value) returns (dropped: Option<Value>)
      requires Valid() && row < |entities| && c in Rows()[row].cells
      modifies this`columns
      ensures Valid() && Rows() == old(Rows())[row := old(Rows())[row].(cells := old(Rows())[row].cells[c := v])]
      ensures dropped == Some(old(Rows())[row].cells[c])
    {
      dropped := columns[c][row];
      WritingChangesOneCell(entities, columns, capacity, row, c, v);
      columns := columns[c := columns[c][row := Some(v)]];
    }

    /** `ThinColumn::swap_remove_and_drop_unchecked_nonoverlapping`, or `drop_last_component`. */
    method DropSlot(c: ComponentId, last: nat, row: nat) returns (dropped: Option<Value>)
      requires c in columns && row <= last < |columns[c]|
      modifies this`columns
      ensures columns == old(columns)[c := SlotRemoved(old(columns)[c], last, row)]
      ensures dropped == old(columns)[c][row]
    {
      dropped := columns[c][row];
      if row != last {
        columns := columns[c := SlotRemoved(columns[c], last, row)];
      } else {
        columns := columns[c := columns[c][last := None]];
        assert columns[c] == SlotRemoved(old(columns)[c], last, row);
      }
    }

    method DropSlots(last: nat, row: nat) returns (dropped: map<ComponentId, Value>)
      requires NoDup(components) && columns.Keys == Elems(components) && row <= last && AtLeast(columns, last + 1)
      modifies this`columns
      ensures RemovedUpTo(components, |components|, old(columns), columns, last, row)
      ensures dropped == CellsAt(old(columns), row)
    {
      ghost var src := columns;
      dropped := map[];
      for i := 0 to |components|
        invariant DroppedUpTo(components, i, src, columns, last, row, dropped)
      {
        DroppedNext(components, i, src, columns, last, row, dropped);
        var slot := DropSlot(components[i], last, row);
        if slot.Some? {
          dropped := dropped[components[i] := slot.value];
        }
      }
      DroppedAll(components, src, columns, last, row, dropped);
    }

    /** Removes a row: every column drops its value and moves its last slot into the freed one, or,
        for the last row, just drops its last value. `dropped` is what was dropped. */
    method SwapRemoveUnchecked(row: nat) returns (swapped: Option<Entity>, dropped: map<ComponentId, Value>)
      requires Valid() && row < |entities|
      modifies this
      ensures Valid() && Rows() == SwapRemove(old(Rows()), row)
      ensures swapped == SwappedRow(old(Rows()), row) && dropped == old(Rows())[row].cells
    {
      ghost var src, es := columns, entities;
      var last := |entities| - 1;
      dropped := DropSlots(last, row);
      RemovedAll(components, src, columns, last, row);
      RemovingSlotsRemovesTheRow(es, src, columns, capacity, row);
      entities := SwapRemove(entities, row);
      swapped := if row == last then None else Some(entities[row]);
    }

    /** `ThinColumn::initialize_from_unchecked`: this table's column `c` gives up the slot of a row
        to the new row of the target's. */
    method MoveSlot(c: ComponentId, target: ColumnTable, last: nat, row: nat, newRow: nat)
      requires target != this && c in columns && c in target.columns
      requires row <= last < |columns[c]| && newRow < |target.columns[c]|
      modifies this`columns, target`columns
      ensures columns == old(columns)[c := SlotRemoved(old(columns)[c], last, row)]
      ensures target.columns == old(target.columns)[c := old(target.columns)[c][newRow := old(columns)[c][row]]]
    {
      target.columns := target.columns[c := target.columns[c][newRow := columns[c][row]]];
      columns := columns[c := SlotRemoved(columns[c], last, row)];
    }

    method MoveSlots(target: ColumnTable, ghost m: Moving, last: nat, row: nat, newRow: nat)
      requires target != this && m == Moving(columns, row, last, target.columns, newRow) && MoveOk(m, components)
      requires Elems(components) <= target.columns.Keys
      modifies this`columns, target`columns
      ensures MovedUpTo(m, components, |components|, columns, target.columns)
    {
      for i := 0 to |components|
        invariant MovedUpTo(m, components, i, columns, target.columns)
      {
        MovedNext(m, components, i, columns, target.columns);
        assert components[i] in Elems(components);
        MoveSlot(components[i], target, last, row, newRow);
      }
    }

    /** The entity leaves its row for a new one of the target, and takes the slots along. */
    method MoveToSuperset(row: nat, target: ColumnTable) returns (moved: MoveResult)
      requires Valid() && target.Valid() && row < |entities| && target != this
      requires Elems(components) <= Elems(target.components)
      modifies this, target
      ensures Valid() && target.Valid()
      ensures Rows() == SwapRemove(old(Rows()), row)
      ensures target.Rows() == old(target.Rows()) + [old(Rows())[row]]
      ensures moved == MoveResult(|old(target.Rows())|, SwappedRow(old(Rows()), row))
    {
      ghost var es, src, rows' := entities, columns, target.Rows();
      var last, entity := |entities| - 1, entities[row];
      entities := SwapRemove(entities, row);
      var newRow := target.Allocate(entity);
      ghost var m := Moving(src, row, last, target.columns, newRow);
      MoveSlots(target, m, last, row, newRow);
      MoveIsDone(m, es, components, columns, capacity, target.entities, target.components, target.columns,
                 target.capacity);
      AllPlaced(CellsAt(src, row), components, target.components);
      LastRowFilled(rows', entity, CellsAt(src, row));
      moved := MoveResult(newRow, if row == last then None else Some(entities[row]));
    }

    method MoveSharedSlots(target: ColumnTable, ghost m: Moving, last: nat, row: nat, newRow: nat)
      returns (missing: map<ComponentId, Value>)
      requires target != this && m == Moving(columns, row, last, target.columns, newRow) && MoveOk(m, components)
      modifies this`columns, target`columns
      ensures MovedUpTo(m, components, |components|, columns, target.columns)
      ensures missing == CellsAt(m.src, row) - m.dst.Keys
    {
      missing := map[];
      for i := 0 to |components|
        invariant SharedUpTo(m, components, i, columns, target.columns, missing)
      {
        SharedNext(m, components, i, columns, target.columns, missing);
        if components[i] in target.columns {
          MoveSlot(components[i], target, last, row, newRow);
        } else {
          var slot := DropSlot(components[i], last, row);
          if slot.Some? {
            missing := missing[components[i] := slot.value];
          }
        }
      }
      UnplacedAll(components, CellsAt(m.src, row), m.dst.Keys);
    }

    /** `move_to_and_drop_missing_unchecked` and `move_to_and_forget_missing_unchecked`: the slots
        the target has no column for are removed. The first drops their values, which are `missing`;
        the second leaves them to its caller. */
    method MoveShared(row: nat, target: ColumnTable) returns (moved: MoveResult, missing: map<ComponentId, Value>)
      requires Valid() && target.Valid() && row < |entities| && target != this
      modifies this, target
      ensures Valid() && target.Valid()
      ensures Rows() == SwapRemove(old(Rows()), row)
      ensures target.Rows() == old(target.Rows())
                               + [Row(old(Rows())[row].entity, Kept(old(Rows())[row].cells, target.components))]
      ensures moved == MoveResult(|old(target.Rows())|, SwappedRow(old(Rows()), row))
      ensures missing == old(Rows())[row].cells - Elems(target.components)
    {
      ghost var es, src, rows' := entities, columns, target.Rows();
      var last, entity := |entities| - 1, entities[row];
      entities := SwapRemove(entities, row);
      var newRow := target.Allocate(entity);
      ghost var m := Moving(src, row, last, target.columns, newRow);
      missing := MoveSharedSlots(target, m, last, row, newRow);
      MoveIsDone(m, es, components, columns, capacity, target.entities, target.components, target.columns,
                 target.capacity);
      LastRowFilled(rows', entity, Kept(CellsAt(src, row), target.components));
      moved := MoveResult(newRow, if row == last then None else Some(entities[row]));
    }
  }
}

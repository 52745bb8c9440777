/** `src/bundle.rs`: a world whose archetypes, tables, sparse sets and locations are updated in
    place by bundle inserts, removes and spawns. */
module Bundles {
  import opened Collections
  import opened Storage
  import opened Archetypes
  import opened Coherence
  import opened Graph
  import opened Meaning
  import opened Moves

  /** A bundle type, as its type id. */
  type TypeId = nat

  datatype ArchetypeMove =
    | SameArchetype
    | NewArchetypeSameTable(target: ArchetypeId)
    | NewArchetypeNewTable(target: ArchetypeId, table: nat)

  datatype Inserter = Inserter(bundle: BundleInfo, source: ArchetypeId, edge: AfterInsert, move: ArchetypeMove)

  /** `tables` is the old and the new table, when they differ. */
  datatype Remover = Remover(bundle: BundleInfo, source: ArchetypeId, target: ArchetypeId, tables: Option<(nat, nat)>)

  datatype Spawner = Spawner(bundle: BundleInfo, target: ArchetypeId, table: nat)

  datatype BundleCreation = Created(info: BundleInfo) | DuplicateComponents(dups: seq<ComponentId>)

  /** `c` occurs more than once in `ids`. */
  ghost predicate Repeated(ids: seq<ComponentId>, c: ComponentId) {
    exists i, j :: 0 <= i < j < |ids| && ids[i] == c && ids[j] == c
  }

  lemma RepeatedSnoc(ids: seq<ComponentId>, x: ComponentId)
    ensures forall c :: Repeated(ids + [x], c) <==> Repeated(ids, c) || (c == x && x in ids)
  {
    forall c
      ensures Repeated(ids + [x], c) <==> Repeated(ids, c) || (c == x && x in ids)
    {
      if Repeated(ids, c) {
        var i, j :| 0 <= i < j < |ids| && ids[i] == c && ids[j] == c;
        assert (ids + [x])[i] == c && (ids + [x])[j] == c;
      }
      if c == x && x in ids {
        var i :| 0 <= i < |ids| && ids[i] == x;
        assert (ids + [x])[i] == c && (ids + [x])[|ids|] == c;
      }
      if Repeated(ids + [x], c) {
        var i, j :| 0 <= i < j < |ids + [x]| && (ids + [x])[i] == c && (ids + [x])[j] == c;
        assert ids[i] == c;
        if j < |ids| {
          assert ids[j] == c;
        }
      }
    }
  }

  /** The components that are seen again while walking the list. */
  method FindDuplicates(ids: seq<ComponentId>) returns (dups: seq<ComponentId>)
    ensures forall c :: c in dups <==> Repeated(ids, c)
  {
    dups := [];
    var seen: set<ComponentId> := {};
    for i := 0 to |ids|
      invariant seen == Elems(ids[..i])
      invariant forall c :: c in dups <==> Repeated(ids[..i], c)
    {
      assert ids[..i + 1] == ids[..i] + [ids[i]];
      RepeatedSnoc(ids[..i], ids[i]);
      if ids[i] in seen {
        dups := dups + [ids[i]];
      }
      seen := seen + {ids[i]};
    }
    assert ids[..|ids|] == ids;
  }

  /** Lists a map of required components in some order, as iterating a hash map does. */
  method ListRequired(required: map<ComponentId, Value>) returns (ids: seq<ComponentId>, constructors: seq<Constructor>)
    ensures NoDup(ids) && Elems(ids) == required.Keys && |constructors| == |ids|
    ensures forall i | 0 <= i < |ids| :: constructors[i].component == ids[i]
    ensures RequiredValues(constructors) == required
  {
    ids, constructors := [], [];
    var rest := required.Keys;
    while rest != {}
      invariant rest <= required.Keys
      invariant NoDup(ids) && Elems(ids) == required.Keys - rest && |constructors| == |ids|
      invariant forall i | 0 <= i < |ids| :: constructors[i].component == ids[i]
      invariant RequiredValues(constructors) == required - rest
    {
      var c :| c in rest;
      RequiredWritesSnoc(constructors, Constructor(c, required[c]));
      assert c !in Elems(ids) && Elems(ids + [c]) == Elems(ids) + {c};
      ids, constructors := ids + [c], constructors + [Constructor(c, required[c])];
      rest := rest - {c};
    }
  }

  /** `BundleInfo::new`: `merged` is what the components require, all together. A list with
      duplicates is refused and names them; otherwise the components that are not explicit are
      required, each with its constructor. */
  method NewBundleInfo(explicit: seq<ComponentId>, merged: map<ComponentId, Value>, id: BundleId)
    returns (r: BundleCreation)
    ensures r.Created? <==> NoDup(explicit)
    ensures r.DuplicateComponents? ==> forall c :: c in r.dups <==> Repeated(explicit, c)
    ensures r.Created? ==>
              && r.info.Ok() && r.info.id == id && r.info.Explicit() == explicit
              && RequiredValues(r.info.constructors) == merged - Elems(explicit)
  {
    DedupShortens(explicit);
    AscendingElems(Elems(explicit));
    var deduped := Ascending(Elems(explicit));
    if |deduped| != |explicit| {
      var dups := FindDuplicates(explicit);
      return DuplicateComponents(dups);
    }
    var required, constructors := ListRequired(merged - Elems(explicit));
    NoDupConcat(explicit, required);
    r := Created(BundleInfo(id, explicit + required, constructors, |explicit|));
  }

  function ArchetypeViews(s: seq<Archetype>): (r: seq<ArchetypeView>)
    reads s
    ensures |r| == |s| && forall i | 0 <= i < |s| :: r[i] == s[i].View()
  {
    seq(|s|, i requires 0 <= i < |s| reads s => s[i].View())
  }

  function TableViews(s: seq<Table>): (r: seq<TableView>)
    reads s
    ensures |r| == |s| && forall i | 0 <= i < |s| :: r[i] == s[i].View()
  {
    seq(|s|, i requires 0 <= i < |s| reads s => s[i].View())
  }

  method SortedRemove(source: seq<ComponentId>, remove: seq<ComponentId>) returns (kept: seq<ComponentId>)
    requires StrictlySorted(source) && StrictlySorted(remove)
    ensures kept == Outside(source, Elems(remove))
  {
    kept := [];
    var removeIndex := 0;
    for i := 0 to |source|
      invariant 0 <= removeIndex <= |remove|
      invariant kept == Outside(source[..i], Elems(remove))
      invariant forall k | 0 <= k < removeIndex :: i < |source| ==> remove[k] < source[i]
    {
      var value := source[i];
      while removeIndex < |remove| && value > remove[removeIndex]
        invariant 0 <= removeIndex <= |remove|
        invariant forall k | 0 <= k < removeIndex :: remove[k] < value
      {
        removeIndex := removeIndex + 1;
      }
      OutsideSnoc(source[..i], value, Elems(remove));
      assert source[..i + 1] == source[..i] + [value];
      if removeIndex < |remove| {
        assert value in remove <==> value == remove[removeIndex];
        if value != remove[removeIndex] {
          kept := kept + [value];
        }
      } else {
        kept := kept + [value];
      }
    }
    assert source[..|source|] == source;
  }

  function EmptyView(): View {
    Graph.View([ArchetypeView(0, [], [], Edges(map[], map[], map[]), [])], map[([], []) := 0],
               [TableView([], [])], map[[] := 0], [], map[], map[])
  }

  lemma EmptyWorldIsOk(st: ComponentId -> StorageType)
    ensures WorldOk(EmptyView(), st) && Meaning.Model(EmptyView()) == map[]
  {
    var v := EmptyView();
    assert v.archs[0].Components() == {};
    assert ArchetypeOk(v, st, 0) && TableOk(v, 0) && EdgesOf(v, 0);
  }

  /** A bundle with the given explicit components, that requires the rest of `merged`, was appended. */
  ghost predicate OneMoreBundle(before: seq<BundleInfo>, after: seq<BundleInfo>, explicit: seq<ComponentId>,
                                merged: map<ComponentId, Value>)
  {
    && |after| == |before| + 1 && after[..|before|] == before
    && after[|before|].Ok() && after[|before|].Explicit() == explicit
    && RequiredValues(after[|before|].constructors) == merged - Elems(explicit)
  }

  lemma LastBundle(before: seq<BundleInfo>, info: BundleInfo, explicit: seq<ComponentId>,
                   merged: map<ComponentId, Value>)
    requires info.Ok() && info.Explicit() == explicit && RequiredValues(info.constructors) == merged - Elems(explicit)
    ensures OneMoreBundle(before, before + [info], explicit, merged)
  {
  }

  lemma WritesAreDisjoint(info: BundleInfo, status: seq<ComponentStatus>, values: seq<Value>, mode: InsertMode,
                          have: set<ComponentId>)
    requires info.Ok() && |values| == info.explicitLen && |status| == info.explicitLen
    ensures RequiredValues(Missing(info.constructors, have)).Keys
         !! ExplicitWrites(info.Explicit(), status, values, mode, info.explicitLen).Keys
  {
    MissingWrites(info.constructors, have);
    RequiredAreNotExplicit(info);
    assert NoDup(info.Explicit());
    ExplicitWritesAt(info.Explicit(), status, values, mode, info.explicitLen);
  }

  /** Everything a bundle writes on an entity with the values of `have`. */
  function InsertWrites(ins: Inserter, values: seq<Value>, mode: InsertMode, have: set<ComponentId>)
    : map<ComponentId, Value>
    requires ins.bundle.explicitLen <= |ins.bundle.componentIds|
    requires |values| == |ins.edge.bundleStatus| == ins.bundle.explicitLen
  {
    ExplicitWrites(ins.bundle.Explicit(), ins.edge.bundleStatus, values, mode, ins.bundle.explicitLen)
    + RequiredValues(Missing(ins.bundle.constructors, have))
  }

  /** The edge's record of the bundle is right for the entity being inserted into. */
  lemma InsertMeaning(v: View, st: ComponentId -> StorageType, e: Entity, ins: Inserter, values: seq<Value>,
                      mode: InsertMode)
    requires HasRow(v, e) && Initialised(v, e) && v.locs[e].archetypeId == ins.source
    requires InsertEdgeOk(v.archs, ins.source, ins.bundle, ins.edge) && |values| == ins.bundle.explicitLen
    ensures var m, w := ValuesOf(v, e), InsertWrites(ins, values, mode, v.archs[ins.source].Components());
            && m + w == Inserted(m, ins.bundle, values, mode)
            && v.archs[ins.edge.archetypeId].Components() == (m + w).Keys
  {
    assert ValuesOf(v, e).Keys == v.archs[ins.source].Components();
    WritesMeanInsertion(ValuesOf(v, e), ins.bundle, ins.edge.bundleStatus, values, mode);
  }

  /** The whole insertion, once the entity was moved and its bundle written. */
  lemma InsertionIsDone(v: View, moved: View, st: ComponentId -> StorageType, e: Entity, b: nat,
                        w: map<ComponentId, Value>,
                        info: BundleInfo, values: seq<Value>, mode: InsertMode)
    requires WorldOk(v, st) && HasRow(v, e) && Initialised(v, e)
    requires MovedWell(v, moved, e, b, CellsOf(v, e))
    requires info.Ok() && |values| == info.explicitLen
    requires ValuesOf(v, e) + w == Inserted(ValuesOf(v, e), info, values, mode)
    requires v.archs[b].Components() == (ValuesOf(v, e) + w).Keys
    ensures var after := Written(moved, st, moved.locs[e].tableId, moved.locs[e].tableRow, e, w);
            && WorldOk(after, st) && SameGraph(v, after) && after.locs == moved.locs
            && InsertedAt(Meaning.Model(v), Meaning.Model(after), e, info, values, mode)
  {
    MoveThenWrite(v, moved, st, e, b, w);
    ModelAt(v, e);
  }

  /** The target of an insert has every table column of its source. */
  lemma InsertedColumns(v: View, st: ComponentId -> StorageType, a: nat, b: nat, info: BundleInfo)
    requires StructureOk(v, st) && a < |v.archs| && b < |v.archs|
    requires v.archs[b].Components() == v.archs[a].Components() + Elems(info.componentIds)
    ensures v.archs[a].tableId < |v.tables| && v.archs[b].tableId < |v.tables|
    ensures Elems(v.tables[v.archs[a].tableId].components) <= Elems(v.tables[v.archs[b].tableId].components)
  {
    assert ArchetypeOk(v, st, a) && ArchetypeOk(v, st, b);
    forall c | c in v.archs[a].tableComponents
      ensures c in v.archs[b].tableComponents
    {
      assert c in v.archs[b].Components();
    }
  }

  /** The table has a column for everything the bundle contributes, and the row holds exactly the
      cells of the components in `have`. */
  ghost predicate RowReady(v: View, st: ComponentId -> StorageType, loc: Location, info: BundleInfo,
                           have: set<ComponentId>)
    requires loc.tableId < |v.tables| && loc.tableRow < |v.tables[loc.tableId].rows|
  {
    && (forall c | c in info.componentIds && st(c) == TableStorage :: c in v.tables[loc.tableId].components)
    && (forall c :: c in v.tables[loc.tableId].rows[loc.tableRow].cells <==> c in have && st(c) == TableStorage)
  }

  /** After the move, the entity's row is ready for the bundle's writes. */
  lemma ReadyToWrite(v: View, moved: View, st: ComponentId -> StorageType, e: Entity, b: nat, info: BundleInfo)
    requires GraphOk(v, st) && HasRow(v, e) && Initialised(v, e) && b < |v.archs|
    requires MovedWell(v, moved, e, b, CellsOf(v, e))
    requires v.archs[b].Components() == ArchOf(v, e).Components() + Elems(info.componentIds)
    ensures RowReady(moved, st, moved.locs[e], info, ArchOf(v, e).Components())
  {
    InitialisedStoresItsValues(v, st, e);
    assert ValuesOf(v, e).Keys == ArchOf(v, e).Components();
    ContributedHaveColumns(v, st, b, info, ArchOf(v, e).Components());
    assert ArchetypeOk(v, st, b) && SameNode(v.archs[b], moved.archs[b]);
  }

  lemma ContributedHaveColumns(v: View, st: ComponentId -> StorageType, b: nat, info: BundleInfo,
                               have: set<ComponentId>)
    requires GraphOk(v, st) && b < |v.archs| && v.archs[b].Components() == have + Elems(info.componentIds)
    ensures forall c | c in info.componentIds && st(c) == TableStorage :: c in v.archs[b].tableComponents
  {
    assert ArchetypeOk(v, st, b);
    forall c | c in info.componentIds && st(c) == TableStorage
      ensures c in v.archs[b].tableComponents
    {
      assert c in v.archs[b].Components();
    }
  }

  ghost predicate SplitByStorage(s: seq<ComponentId>, st: ComponentId -> StorageType, table: seq<ComponentId>,
                                 sparse: seq<ComponentId>)
  {
    table == OfStorage(s, st, TableStorage) && sparse == OfStorage(s, st, SparseSetStorage)
  }

  lemma SplitNext(s: seq<ComponentId>, st: ComponentId -> StorageType, table: seq<ComponentId>,
                  sparse: seq<ComponentId>, c: ComponentId)
    requires SplitByStorage(s, st, table, sparse)
    ensures st(c) == TableStorage ==> SplitByStorage(s + [c], st, table + [c], sparse)
    ensures st(c) == SparseSetStorage ==> SplitByStorage(s + [c], st, table, sparse + [c])
  {
    OfStorageSnoc(s, c, st, TableStorage);
    OfStorageSnoc(s, c, st, SparseSetStorage);
  }

  lemma StatusNext(status: seq<ComponentStatus>, ids: seq<ComponentId>, have: set<ComponentId>, c: ComponentId)
    requires StatusOk(status, ids, have)
    ensures StatusOk(status + [if c in have then Existing else Added], ids + [c], have)
  {
  }

  lemma WholeLists(ids: seq<ComponentId>, constructors: seq<Constructor>)
    ensures ids[..|ids|] == ids && constructors[..|constructors|] == constructors
  {
  }

  lemma AppendAssociates(a: seq<ComponentId>, b: seq<ComponentId>, c: ComponentId)
    ensures a + b + [c] == a + (b + [c])
  {
  }

  lemma ClassifyNext(have: set<ComponentId>, ids: seq<ComponentId>, constructors: seq<Constructor>, i: nat)
    requires |ids| == |constructors| && i < |ids| && constructors[i].component == ids[i]
    ensures Outside(ids[..i + 1], have) == if ids[i] in have then Outside(ids[..i], have)
            else Outside(ids[..i], have) + [ids[i]]
    ensures Missing(constructors[..i + 1], have) ==
            if ids[i] in have then Missing(constructors[..i], have)
              else Missing(constructors[..i], have) + [constructors[i]]
  {
    assert ids[..i + 1] == ids[..i] + [ids[i]];
    assert constructors[..i + 1] == constructors[..i] + [constructors[i]];
    OutsideSnoc(ids[..i], ids[i], have);
    MissingSnoc(constructors[..i], constructors[i], have);
  }

  lemma SparseRemovedOne(sparse: map<(ComponentId, Entity), Value>, e: Entity, drop: set<ComponentId>, c: ComponentId)
    ensures SparseRemoved(sparse, e, drop + {c}) == SparseRemoved(sparse, e, drop) - {(c, e)}
  {
  }

  /** Everything written for a spawned bundle: its values and all required constructors. */
  function SpawnWrites(info: BundleInfo, values: seq<Value>): map<ComponentId, Value>
    requires info.explicitLen <= |info.componentIds| && |values| == info.explicitLen
  {
    ExplicitWrites(info.Explicit(), seq(info.explicitLen, _ => Added), values, Replace, info.explicitLen)
    + RequiredValues(Missing(info.constructors, {}))
  }

  lemma SpawnWritesMean(info: BundleInfo, values: seq<Value>)
    requires info.Ok() && |values| == info.explicitLen
    ensures SpawnWrites(info, values) == Inserted(map[], info, values, Replace)
    ensures SpawnWrites(info, values).Keys == Elems(info.componentIds)
  {
    var nothing: map<ComponentId, Value> := map[];
    WritesMeanInsertion(nothing, info, seq(info.explicitLen, _ => Added), values, Replace);
    EmptySum(SpawnWrites(info, values));
    assert nothing.Keys == {};
  }

  lemma DroppedStaysCoherent(v: View, dropped: View, st: ComponentId -> StorageType)
    requires GraphOk(v, st) && Coherent(v) && dropped == v.(sparse := dropped.sparse)
    ensures GraphOk(dropped, st) && Coherent(dropped)
  {
    SameGraphStaysOk(v, dropped, st);
  }

  /** `values` are the values of the components listed, in their order. */
  ghost predicate ReadOff(m: map<ComponentId, Value>, ids: seq<ComponentId>, values: seq<Value>) {
    |values| == |ids| && forall i | 0 <= i < |ids| :: ids[i] in m && values[i] == m[ids[i]]
  }

  /** The next value a take reads is where its storage type says, and nothing read before took it. */
  lemma ReadNext(cells: map<ComponentId, Value>, sparse: map<(ComponentId, Entity), Value>,
                 st: ComponentId -> StorageType, e: Entity, m: map<ComponentId, Value>, ids: seq<ComponentId>, i: nat)
    requires i < |ids| && NoDup(ids) && ids[i] in m
    requires forall c :: c in cells <==> c in m && st(c) == TableStorage
    requires forall c | c in cells :: cells[c] == m[c]
    requires forall c :: (c, e) in sparse <==> c in m && st(c) == SparseSetStorage
    requires forall c | (c, e) in sparse :: sparse[(c, e)] == m[c]
    ensures st(ids[i]) == TableStorage ==>
              && ids[i] in cells && cells[ids[i]] == m[ids[i]]
              && SparseRemoved(sparse, e, Elems(ids[..i + 1])) == SparseRemoved(sparse, e, Elems(ids[..i]))
    ensures st(ids[i]) == SparseSetStorage ==>
              && (ids[i], e) in SparseRemoved(sparse, e, Elems(ids[..i]))
              && SparseRemoved(sparse, e, Elems(ids[..i]))[(ids[i], e)] == m[ids[i]]
    ensures SparseRemoved(sparse, e, Elems(ids[..i + 1])) == SparseRemoved(sparse, e, Elems(ids[..i])) - {(ids[i], e)}
    ensures forall values | ReadOff(m, ids[..i], values) :: ReadOff(m, ids[..i + 1], values + [m[ids[i]]])
  {
    assert Elems(ids[..i + 1]) == Elems(ids[..i]) + {ids[i]};
    SparseRemovedOne(sparse, e, Elems(ids[..i]), ids[i]);
    if st(ids[i]) == TableStorage {
      WithoutNothing(SparseRemoved(sparse, e, Elems(ids[..i])), (ids[i], e));
    }
  }

  lemma RemovedTwice(sparse: map<(ComponentId, Entity), Value>, e: Entity, drop: set<ComponentId>)
    ensures SparseRemoved(SparseRemoved(sparse, e, drop), e, drop) == SparseRemoved(sparse, e, drop)
  {
  }

  lemma RequiredAreContributed(info: BundleInfo)
    requires info.Ok()
    ensures forall c | c in info.Required() :: c in info.componentIds
  {
  }

  class World {
    const storageOf: ComponentId -> StorageType
    var archetypes: seq<Archetype>
    var byComponents: map<ComponentKey, ArchetypeId>
    var tables: seq<Table>
    var tableIds: map<seq<ComponentId>, nat>
    var bundles: seq<BundleInfo>
    /** All sparse sets, as one map keyed by component and entity. */
    var sparseSets: map<(ComponentId, Entity), Value>
    var locations: map<Entity, Location>

    /** The lists own their elements: every archetype sits at its id, and no table is listed twice. */
    ghost predicate Owned()
      reads this`archetypes, this`tables
    {
      && (forall i | 0 <= i < |archetypes| :: archetypes[i].id == i)
      && (forall i, j | 0 <= i < j < |tables| :: tables[i] != tables[j])
    }

    ghost function View(): View
      reads this, archetypes, tables
    {
      Graph.View(ArchetypeViews(archetypes), byComponents, TableViews(tables), tableIds, bundles, sparseSets, locations)
    }

    ghost predicate Valid()
      reads this, archetypes, tables
    {
      Owned() && WorldOk(View(), storageOf)
    }

    /** The meaning of the world: one map from entity and component to value. */
    ghost function Model(): map<Entity, map<ComponentId, Value>>
      reads this, archetypes, tables
      requires Valid()
    {
      Meaning.Model(View())
    }

    constructor (storageOf: ComponentId -> StorageType)
      ensures Valid() && Model() == map[]
      ensures this.storageOf == storageOf && bundles == []
      ensures fresh(archetypes) && fresh(tables)
    {
      this.storageOf := storageOf;
      var table := new Table([]);
      var empty := new Archetype(0, 0, [], []);
      archetypes, tables := [empty], [table];
      byComponents, tableIds := map[([], []) := 0], map[[] := 0];
      bundles, sparseSets, locations := [], map[], map[];
      new;
      assert View() == EmptyView();
      EmptyWorldIsOk(storageOf);
    }

    // ----- single in-place steps -----

    method SwapRemoveEntity(a: nat, row: nat) returns (result: SwapRemoveResult)
      requires Owned() && a < |archetypes| && row < |archetypes[a].entities|
      modifies archetypes[a]
      ensures Owned()
      ensures View() == old(View()).(archs := WithoutRow(old(View()).archs, a, row))
      ensures result == SwapRemoveResult(SwappedEntity(old(View()).archs[a].entities, row),
                                         old(View()).archs[a].entities[row].tableRow)
    {
      result := archetypes[a].SwapRemove(row);
      assert View().archs == WithoutRow(old(View()).archs, a, row);
    }

    method AllocateEntity(a: nat, entity: Entity, tableRow: nat) returns (location: Location)
      requires Owned() && a < |archetypes|
      modifies archetypes[a]
      ensures Owned()
      ensures View() == old(View()).(archs := WithEntity(old(View()).archs, a, ArchetypeEntity(entity, tableRow)))
      ensures location == Location(a, |old(View()).archs[a].entities|, old(View()).archs[a].tableId, tableRow)
    {
      location := archetypes[a].Allocate(entity, tableRow);
      assert View().archs == WithEntity(old(View()).archs, a, ArchetypeEntity(entity, tableRow));
    }

    method SetTableRow(a: nat, row: nat, tableRow: nat)
      requires Owned() && a < |archetypes| && row < |archetypes[a].entities|
      modifies archetypes[a]
      ensures Owned()
      ensures View() == old(View()).(archs := WithTableRow(old(View()).archs, a, row, tableRow))
    {
      archetypes[a].SetEntityTableRow(row, tableRow);
      assert View().archs == WithTableRow(old(View()).archs, a, row, tableRow);
    }

    method MoveRowToSuperset(t: nat, row: nat, u: nat) returns (moved: MoveResult)
      requires Owned() && t < |tables| && u < |tables| && t != u && row < |tables[t].rows|
      requires Elems(tables[t].components) <= Elems(tables[u].components)
      modifies tables[t], tables[u]
      ensures Owned()
      ensures var v := old(View());
              && View() == v.(tables := RowMoved(v.tables, t, row, u, v.tables[t].rows[row]))
              && moved == MoveResult(|v.tables[u].rows|, SwappedRow(v.tables[t].rows, row))
    {
      assert tables[t] != tables[u];
      ghost var v := View();
      assert v.tables[t] == tables[t].View() && v.tables[u] == tables[u].View();
      moved := tables[t].MoveToSuperset(row, tables[u]);
      assert View().tables == RowMoved(v.tables, t, row, u, v.tables[t].rows[row]);
    }

    method MoveRowAndDropMissing(t: nat, row: nat, u: nat) returns (moved: MoveResult)
      requires Owned() && t < |tables| && u < |tables| && t != u && row < |tables[t].rows|
      modifies tables[t], tables[u]
      ensures Owned()
      ensures var v := old(View());
              var before := v.tables[t].rows[row];
              && View() == v.(tables := RowMoved(v.tables, t, row, u,
                                                 Row(before.entity, Kept(before.cells, v.tables[u].components))))
              && moved == MoveResult(|v.tables[u].rows|, SwappedRow(v.tables[t].rows, row))
    {
      assert tables[t] != tables[u];
      ghost var v := View();
      assert v.tables[t] == tables[t].View() && v.tables[u] == tables[u].View();
      moved := tables[t].MoveToAndDropMissing(row, tables[u]);
      ghost var before := v.tables[t].rows[row];
      assert View().tables == RowMoved(v.tables, t, row, u,
                                       Row(before.entity, Kept(before.cells, v.tables[u].components)));
    }

    method SetLocation(entity: Entity, location: Location)
      requires Owned()
      modifies this`locations
      ensures View() == old(View()).(locs := old(locations)[entity := location])
    {
      locations := locations[entity := location];
    }

    /** Tells the entity that took a freed archetype row, if any, its new row. */
    method FixArchetypeRow(swapped: Option<Entity>, row: nat)
      requires Owned() && (swapped.Some? ==> swapped.value in locations)
      modifies this`locations
      ensures View() == old(View()).(locs := ArchetypeRowFixed(old(locations), swapped, row))
    {
      if swapped.Some? {
        SetLocation(swapped.value, locations[swapped.value].(archetypeRow := row));
      }
    }

    // ----- the archetype graph -----

    method GetOrInsertTable(components: seq<ComponentId>) returns (t: nat)
      requires Owned() && GraphOk(View(), storageOf)
      modifies this`tables, this`tableIds
      ensures Owned() && GraphOk(View(), storageOf) && Grown(old(View()), View())
      ensures View().archs == old(View()).archs && View().byComponents == old(View()).byComponents
      ensures t < |tables| && tables[t].components == components
      ensures old(tables) <= tables && fresh(tables[|old(tables)|..])
    {
      if components in tableIds {
        t := tableIds[components];
        assert View().tables[t].components == components;
      } else {
        t := |tables|;
        var table := new Table(components);
        tables := tables + [table];
        tableIds := tableIds[components := t];
        TableAppendedIsOk(old(View()), storageOf, components);
        assert View().tables == old(View()).tables + [table.View()];
        assert View() == TableAppended(old(View()), components);
      }
    }

    method AppendArchetype(tableId: nat, tc: seq<ComponentId>, sc: seq<ComponentId>)
      requires Owned()
      modifies this`archetypes, this`byComponents
      ensures Owned() && View() == ArchetypeAppended(old(View()), tableId, tc, sc)
      ensures |archetypes| == |old(archetypes)| + 1 && old(archetypes) <= archetypes
              && fresh(archetypes[|old(archetypes)|..])
      ensures archetypes[|old(archetypes)|].tableComponents == tc
              && archetypes[|old(archetypes)|].sparseComponents == sc
    {
      var archetype := new Archetype(|archetypes|, tableId, tc, sc);
      byComponents := byComponents[(tc, sc) := |archetypes|];
      archetypes := archetypes + [archetype];
      assert View().archs == old(View()).archs + [archetype.View()];
    }

    method GetOrInsertArchetype(tableId: nat, tc: seq<ComponentId>, sc: seq<ComponentId>)
      returns (id: ArchetypeId, created: bool)
      requires Owned() && GraphOk(View(), storageOf) && Admissible(View(), storageOf, tableId, tc, sc)
      modifies this`archetypes, this`byComponents
      ensures Owned() && GraphOk(View(), storageOf) && Grown(old(View()), View())
      ensures View().tables == old(View()).tables
      ensures id < |archetypes| && archetypes[id].tableComponents == tc && archetypes[id].sparseComponents == sc
      ensures old(archetypes) <= archetypes && fresh(archetypes[|old(archetypes)|..])
      ensures created <==> id == |old(archetypes)|
      ensures forall a | 0 <= a < |old(archetypes)| :: View().archs[a] == old(View()).archs[a]
    {
      if (tc, sc) in byComponents {
        id, created := byComponents[(tc, sc)], false;
        assert View().archs[id].tableComponents == tc && View().archs[id].sparseComponents == sc;
      } else {
        id, created := |archetypes|, true;
        AppendArchetype(tableId, tc, sc);
        ArchetypeAppendedIsOk(old(View()), storageOf, tableId, tc, sc);
      }
    }

    // What an insert edge records about a bundle and an archetype, as the two loops find it:
    // first the explicit components, then the required ones.

    method ClassifyExplicit(have: set<ComponentId>, explicit: seq<ComponentId>)
      returns (newTable: seq<ComponentId>, newSparse: seq<ComponentId>, status: seq<ComponentStatus>,
               added: seq<ComponentId>, existing: seq<ComponentId>)
      ensures StatusOk(status, explicit, have)
      ensures existing == Within(explicit, have) && added == Outside(explicit, have)
      ensures newTable == OfStorage(added, storageOf, TableStorage)
      ensures newSparse == OfStorage(added, storageOf, SparseSetStorage)
    {
      newTable, newSparse, status, added, existing := [], [], [], [], [];
      for i := 0 to |explicit|
        invariant StatusOk(status, explicit[..i], have)
        invariant existing == Within(explicit[..i], have) && added == Outside(explicit[..i], have)
        invariant newTable == OfStorage(added, storageOf, TableStorage)
        invariant newSparse == OfStorage(added, storageOf, SparseSetStorage)
      {
        var c := explicit[i];
        assert explicit[..i + 1] == explicit[..i] + [c];
        StatusNext(status, explicit[..i], have, c);
        WithinSnoc(explicit[..i], c, have);
        OutsideSnoc(explicit[..i], c, have);
        OfStorageSnoc(added, c, storageOf, TableStorage);
        OfStorageSnoc(added, c, storageOf, SparseSetStorage);
        if c in have {
          status, existing := status + [Existing], existing + [c];
        } else {
          status, added := status + [Added], added + [c];
          match storageOf(c)
          case TableStorage => newTable := newTable + [c];
          case SparseSetStorage => newSparse := newSparse + [c];
        }
      }
      assert explicit[..|explicit|] == explicit;
    }

    method ClassifyRequired(have: set<ComponentId>, ids: seq<ComponentId>, constructors: seq<Constructor>,
                            addedBefore: seq<ComponentId>, tableBefore: seq<ComponentId>,
                            sparseBefore: seq<ComponentId>)
      returns (newTable: seq<ComponentId>, newSparse: seq<ComponentId>, required: seq<Constructor>,
               added: seq<ComponentId>)
      requires |ids| == |constructors|
      requires forall i | 0 <= i < |ids| :: constructors[i].component == ids[i]
      requires tableBefore == OfStorage(addedBefore, storageOf, TableStorage)
      requires sparseBefore == OfStorage(addedBefore, storageOf, SparseSetStorage)
      ensures required == Missing(constructors, have) && added == addedBefore + Outside(ids, have)
      ensures newTable == OfStorage(added, storageOf, TableStorage)
      ensures newSparse == OfStorage(added, storageOf, SparseSetStorage)
    {
      newTable, newSparse, required, added := tableBefore, sparseBefore, [], addedBefore;
      ghost var more: seq<ComponentId> := [];
      for i := 0 to |ids|
        invariant required == Missing(constructors[..i], have) && more == Outside(ids[..i], have)
        invariant added == addedBefore + more && SplitByStorage(added, storageOf, newTable, newSparse)
      {
        var c := ids[i];
        ClassifyNext(have, ids, constructors, i);
        if c !in have {
          SplitNext(added, storageOf, newTable, newSparse, c);
          AppendAssociates(addedBefore, more, c);
          required, added, more := required + [constructors[i]], added + [c], more + [c];
          match storageOf(c)
          case TableStorage => newTable := newTable + [c];
          case SparseSetStorage => newSparse := newSparse + [c];
        }
      }
      WholeLists(ids, constructors);
    }

    // Caching one edge.

    method CacheInsertEdge(a: ArchetypeId, b: BundleId, edge: AfterInsert)
      requires Owned() && GraphOk(View(), storageOf) && a < |archetypes| && b < |bundles|
      requires InsertEdgeOk(View().archs, a, bundles[b], edge)
      modifies archetypes[a]
      ensures Owned() && GraphOk(View(), storageOf) && Grown(old(View()), View())
      ensures archetypes[a].edges
              == old(archetypes[a].edges).(insertBundle := old(archetypes[a].edges).insertBundle[b := edge])
    {
      ghost var v := View();
      assert v.archs[a] == archetypes[a].View();
      InsertEdgeCached(v, storageOf, a, b, edge);
      archetypes[a].CacheInsert(b, edge);
      assert View().archs == EdgesSet(v, a, archetypes[a].edges).archs;
      assert View() == EdgesSet(v, a, archetypes[a].edges);
    }

    method CacheRemoveEdge(a: ArchetypeId, b: BundleId, edge: Option<ArchetypeId>)
      requires Owned() && GraphOk(View(), storageOf) && a < |archetypes| && b < |bundles|
      requires RemoveEdgeOk(View().archs, a, bundles[b], edge)
      modifies archetypes[a]
      ensures Owned() && GraphOk(View(), storageOf) && Grown(old(View()), View())
      ensures archetypes[a].edges
              == old(archetypes[a].edges).(removeBundle := old(archetypes[a].edges).removeBundle[b := edge])
    {
      ghost var v := View();
      assert v.archs[a] == archetypes[a].View();
      RemoveEdgeCached(v, storageOf, a, b, edge);
      archetypes[a].CacheRemove(b, edge);
      assert View().archs == EdgesSet(v, a, archetypes[a].edges).archs;
      assert View() == EdgesSet(v, a, archetypes[a].edges);
    }

    method CacheTakeEdge(a: ArchetypeId, b: BundleId, edge: Option<ArchetypeId>)
      requires Owned() && GraphOk(View(), storageOf) && a < |archetypes| && b < |bundles|
      requires TakeEdgeOk(View().archs, a, bundles[b], edge)
      modifies archetypes[a]
      ensures Owned() && GraphOk(View(), storageOf) && Grown(old(View()), View())
      ensures archetypes[a].edges
              == old(archetypes[a].edges).(takeBundle := old(archetypes[a].edges).takeBundle[b := edge])
    {
      ghost var v := View();
      assert v.archs[a] == archetypes[a].View();
      TakeEdgeCached(v, storageOf, a, b, edge);
      archetypes[a].CacheTake(b, edge);
      assert View().archs == EdgesSet(v, a, archetypes[a].edges).archs;
      assert View() == EdgesSet(v, a, archetypes[a].edges);
    }

    /** Prepares the archetype with the given components, keeping table `keptTable` when its
        columns already are the table components. */
    method PrepareArchetype(keptTable: Option<nat>, tc: seq<ComponentId>, sc: seq<ComponentId>)
      returns (target: ArchetypeId, created: bool)
      requires Owned() && GraphOk(View(), storageOf)
      requires StrictlySorted(tc) && StrictlySorted(sc)
      requires forall c | c in tc :: storageOf(c) == TableStorage
      requires forall c | c in sc :: storageOf(c) == SparseSetStorage
      requires keptTable.Some? ==> keptTable.value < |tables| && tables[keptTable.value].components == tc
      modifies this`archetypes, this`byComponents, this`tables, this`tableIds
      ensures Owned() && GraphOk(View(), storageOf) && Grown(old(View()), View())
      ensures target < |archetypes| && archetypes[target].tableComponents == tc
              && archetypes[target].sparseComponents == sc
      ensures old(archetypes) <= archetypes && fresh(archetypes[|old(archetypes)|..])
      ensures old(tables) <= tables && fresh(tables[|old(tables)|..])
      ensures created <==> target == |old(archetypes)|
    {
      ghost var before := View();
      var tableId;
      if keptTable.Some? {
        tableId := keptTable.value;
      } else {
        tableId := GetOrInsertTable(tc);
      }
      ghost var middle := View();
      assert middle.tables[tableId] == tables[tableId].View();
      assert Grown(before, middle);
      target, created := GetOrInsertArchetype(tableId, tc, sc);
      GrownIsTransitive(before, middle, View());
    }

    /** Classifies a bundle's components against an archetype. The edge it returns still has to be
        given its target. */
    method DescribeInsert(arch: ArchetypeView, info: BundleInfo)
      returns (newTable: seq<ComponentId>, newSparse: seq<ComponentId>, edge: AfterInsert)
      requires info.Ok()
      ensures EdgeLists(info, arch.Components(), edge)
      ensures newTable == OfStorage(edge.added, storageOf, TableStorage)
      ensures newSparse == OfStorage(edge.added, storageOf, SparseSetStorage)
    {
      var status, addedExplicit, existing, required, added;
      newTable, newSparse, status, addedExplicit, existing := ClassifyExplicit(arch.Components(), info.Explicit());
      newTable, newSparse, required, added :=
        ClassifyRequired(arch.Components(), info.Required(), info.constructors, addedExplicit, newTable, newSparse);
      edge := AfterInsert(0, status, required, added, existing);
    }

    /** Computes an insert edge, creating the archetype it leads to if need be. */
    method ComputeInsertEdge(info: BundleInfo, a: ArchetypeId) returns (edge: AfterInsert, created: bool)
      requires Owned() && GraphOk(View(), storageOf) && info.Ok() && a < |archetypes|
      modifies this`archetypes, this`byComponents, this`tables, this`tableIds
      ensures Owned() && GraphOk(View(), storageOf) && Grown(old(View()), View())
      ensures InsertEdgeOk(View().archs, a, info, edge)
      ensures old(archetypes) <= archetypes && fresh(archetypes[|old(archetypes)|..])
      ensures old(tables) <= tables && fresh(tables[|old(tables)|..])
      ensures created <==> edge.archetypeId == |old(archetypes)|
    {
      var arch := archetypes[a].View();
      ghost var before := View();
      assert before.archs[a] == arch && ArchetypeOk(before, storageOf, a);
      var newTable, newSparse;
      newTable, newSparse, edge := DescribeInsert(arch, info);
      InsertionTarget(arch, storageOf, info, edge.added);
      if newTable == [] && newSparse == [] {
        edge, created := edge.(archetypeId := a), false;
        return;
      }
      var tc, sc := Merged(newTable, arch.tableComponents), Merged(newSparse, arch.sparseComponents);
      var keptTable := if newTable == [] then Some(arch.tableId) else None;
      assert before.tables[arch.tableId] == tables[arch.tableId].View();
      var target;
      target, created := PrepareArchetype(keptTable, tc, sc);
      assert View().archs[target] == archetypes[target].View();
      InsertEdgeFound(before, View(), a, info, edge, target);
      edge := edge.(archetypeId := target);
    }

    /** Finds the archetype that inserting a bundle leads to, creating it and its table if they do
        not exist, and memoises the move. */
    method InsertBundleIntoArchetype(b: BundleId, a: ArchetypeId) returns (target: ArchetypeId, created: bool)
      requires Owned() && GraphOk(View(), storageOf) && b < |bundles| && a < |archetypes|
      modifies this`archetypes, this`byComponents, this`tables, this`tableIds, archetypes[a]
      ensures Owned() && GraphOk(View(), storageOf) && Grown(old(View()), View())
      ensures old(archetypes) <= archetypes && fresh(archetypes[|old(archetypes)|..])
      ensures old(tables) <= tables && fresh(tables[|old(tables)|..])
      ensures created <==> target == |old(archetypes)|
      ensures b in archetypes[a].edges.insertBundle && archetypes[a].edges.insertBundle[b].archetypeId == target
      ensures b in old(archetypes[a].edges.insertBundle) ==> View() == old(View())
    {
      assert View().archs[a] == archetypes[a].View();
      if b in archetypes[a].edges.insertBundle {
        target, created := archetypes[a].edges.insertBundle[b].archetypeId, false;
        assert EdgesOf(View(), a);
      } else {
        ghost var before := View();
        assert BundleAt(before, b);
        var edge;
        edge, created := ComputeInsertEdge(bundles[b], a);
        ghost var middle := View();
        target := edge.archetypeId;
        CacheInsertEdge(a, b, edge);
        GrownIsTransitive(before, middle, View());
      }
    }

    /** The explicit components present, by storage type; fails on an absent one unless only the
        intersection is wanted. */
    method CollectRemoved(have: set<ComponentId>, explicit: seq<ComponentId>, intersection: bool)
      returns (ok: bool, removedTable: seq<ComponentId>, removedSparse: seq<ComponentId>)
      ensures ok <==> intersection || Elems(explicit) <= have
      ensures ok ==> removedTable == OfStorage(Within(explicit, have), storageOf, TableStorage)
      ensures ok ==> removedSparse == OfStorage(Within(explicit, have), storageOf, SparseSetStorage)
    {
      removedTable, removedSparse := [], [];
      for i := 0 to |explicit|
        invariant !intersection ==> Elems(explicit[..i]) <= have
        invariant removedTable == OfStorage(Within(explicit[..i], have), storageOf, TableStorage)
        invariant removedSparse == OfStorage(Within(explicit[..i], have), storageOf, SparseSetStorage)
      {
        var c := explicit[i];
        assert explicit[..i + 1] == explicit[..i] + [c];
        WithinSnoc(explicit[..i], c, have);
        assert Within(explicit[..i], have) + [] == Within(explicit[..i], have);
        if c in have {
          OfStorageSnoc(Within(explicit[..i], have), c, storageOf, TableStorage);
          OfStorageSnoc(Within(explicit[..i], have), c, storageOf, SparseSetStorage);
          match storageOf(c)
          case TableStorage => removedTable := removedTable + [c];
          case SparseSetStorage => removedSparse := removedSparse + [c];
        } else if !intersection {
          assert c in Elems(explicit);
          return false, [], [];
        }
      }
      assert explicit[..|explicit|] == explicit;
      ok := true;
    }

    method DropRemoved(ids: seq<ComponentId>, removed: seq<ComponentId>) returns (kept: seq<ComponentId>)
      requires StrictlySorted(ids) && NoDup(removed)
      ensures kept == Outside(ids, Elems(removed))
    {
      SortSorts(removed);
      SortElems(removed);
      kept := SortedRemove(ids, Sort(removed));
    }

    /** The component lists that removing a bundle leaves, and whether the table stays. */
    method DescribeRemoval(arch: ArchetypeView, info: BundleInfo, intersection: bool)
      returns (ok: bool, sameTable: bool, tc: seq<ComponentId>, sc: seq<ComponentId>)
      requires info.Ok()
      requires StrictlySorted(arch.tableComponents) && StrictlySorted(arch.sparseComponents)
      requires forall c | c in arch.tableComponents :: storageOf(c) == TableStorage
      requires forall c | c in arch.sparseComponents :: storageOf(c) == SparseSetStorage
      ensures ok <==> intersection || Elems(info.Explicit()) <= arch.Components()
      ensures ok ==>
                && StrictlySorted(tc) && StrictlySorted(sc)
                && (forall c | c in tc :: storageOf(c) == TableStorage)
                && (forall c | c in sc :: storageOf(c) == SparseSetStorage)
                && Elems(tc) + Elems(sc) == arch.Components() - Elems(info.Explicit())
                && (sameTable ==> tc == arch.tableComponents)
    {
      var have, explicit := arch.Components(), info.Explicit();
      var removedTable, removedSparse;
      ok, removedTable, removedSparse := CollectRemoved(have, explicit, intersection);
      if !ok {
        return false, true, [], [];
      }
      ghost var removed := Within(explicit, have);
      WithinNoDup(explicit, have);
      WithinElems(explicit, have);
      assert have - Elems(removed) == have - Elems(explicit);
      OfStorageElems(removed, storageOf, TableStorage);
      OfStorageElems(removed, storageOf, SparseSetStorage);
      RemovalTarget(arch, storageOf, removed);
      sameTable := removedTable == [];
      tc := DropRemoved(arch.tableComponents, removedTable);
      sc := DropRemoved(arch.sparseComponents, removedSparse);
    }

    /** Computes where removing a bundle leads, creating that archetype if need be. */
    method ComputeRemoval(info: BundleInfo, a: ArchetypeId, intersection: bool)
      returns (target: Option<ArchetypeId>, created: bool)
      requires Owned() && GraphOk(View(), storageOf) && info.Ok() && a < |archetypes|
      modifies this`archetypes, this`byComponents, this`tables, this`tableIds
      ensures Owned() && GraphOk(View(), storageOf) && Grown(old(View()), View())
      ensures if intersection then RemoveEdgeOk(View().archs, a, info, target)
              else TakeEdgeOk(View().archs, a, info, target)
      ensures old(archetypes) <= archetypes && fresh(archetypes[|old(archetypes)|..])
      ensures old(tables) <= tables && fresh(tables[|old(tables)|..])
      ensures created <==> target == Some(|old(archetypes)|)
    {
      var arch := archetypes[a].View();
      ghost var v := View();
      assert v.archs[a] == arch && ArchetypeOk(v, storageOf, a);
      var ok, sameTable, tc, sc := DescribeRemoval(arch, info, intersection);
      if !ok {
        return None, false;
      }
      assert v.tables[arch.tableId] == tables[arch.tableId].View();
      var id;
      id, created := PrepareArchetype(if sameTable then Some(arch.tableId) else None, tc, sc);
      target := Some(id);
      assert View().archs[id] == archetypes[id].View();
      RemovalFound(v, View(), a, info, id);
    }

    /** The memoised answer, which is what a computation would give. */
    method CachedRemoval(b: BundleId, a: ArchetypeId, intersection: bool) returns (cached: Option<Option<ArchetypeId>>)
      requires GraphOk(View(), storageOf) && b < |bundles| && a < |archetypes|
      ensures cached.Some? ==>
                if intersection then RemoveEdgeOk(View().archs, a, bundles[b], cached.value)
                else TakeEdgeOk(View().archs, a, bundles[b], cached.value)
      ensures cached.Some? && cached.value.Some? ==> cached.value.value < |archetypes|
    {
      assert View().archs[a] == archetypes[a].View() && EdgesOf(View(), a);
      var edges := archetypes[a].edges;
      if intersection {
        cached := if b in edges.removeBundle then Some(edges.removeBundle[b]) else None;
      } else {
        cached := if b in edges.takeBundle then Some(edges.takeBundle[b]) else None;
      }
    }

    /** Finds the archetype that removing a bundle leads to, or `None` if a component to be taken is
        absent, and memoises the answer. */
    method RemoveBundleFromArchetype(b: BundleId, a: ArchetypeId, intersection: bool)
      returns (target: Option<ArchetypeId>, created: bool)
      requires Owned() && GraphOk(View(), storageOf) && b < |bundles| && a < |archetypes|
      modifies this`archetypes, this`byComponents, this`tables, this`tableIds, archetypes[a]
      ensures Owned() && GraphOk(View(), storageOf) && Grown(old(View()), View())
      ensures old(archetypes) <= archetypes && fresh(archetypes[|old(archetypes)|..])
      ensures old(tables) <= tables && fresh(tables[|old(tables)|..])
      ensures created <==> target == Some(|old(archetypes)|)
      ensures if intersection then b in archetypes[a].edges.removeBundle
              && archetypes[a].edges.removeBundle[b] == target
              else b in archetypes[a].edges.takeBundle && archetypes[a].edges.takeBundle[b] == target
    {
      ghost var before := View();
      assert BundleAt(before, b);
      var cached := CachedRemoval(b, a, intersection);
      if cached.Some? {
        target, created := cached.value, false;
      } else {
        target, created := ComputeRemoval(bundles[b], a, intersection);
      }
      ghost var middle := View();
      if intersection {
        CacheRemoveEdge(a, b, target);
      } else {
        CacheTakeEdge(a, b, target);
      }
      GrownIsTransitive(before, middle, View());
    }

    // ----- writing a bundle -----

    method InitializeCell(t: nat, row: nat, c: ComponentId, x: Value)
      requires Owned() && t < |tables| && row < |tables[t].rows|
      requires c in tables[t].components && c !in tables[t].rows[row].cells
      modifies tables[t]
      ensures Owned() && View() == CellSet(old(View()), t, row, c, x)
    {
      tables[t].Initialize(row, c, x);
      assert View().tables == CellSet(old(View()), t, row, c, x).tables;
    }

    method ReplaceCell(t: nat, row: nat, c: ComponentId, x: Value)
      requires Owned() && t < |tables| && row < |tables[t].rows|
      requires c in tables[t].rows[row].cells
      modifies tables[t]
      ensures Owned() && View() == CellSet(old(View()), t, row, c, x)
    {
      tables[t].Replace(row, c, x);
      assert View().tables == CellSet(old(View()), t, row, c, x).tables;
    }

    /** The table half of writing one component: initialise, replace or leave the cell. */
    method WriteColumn(t: nat, row: nat, entity: Entity, c: ComponentId, x: Value, status: ComponentStatus,
                       mode: InsertMode,
                       ghost v0: View, ghost w: map<ComponentId, Value>)
      requires Owned() && t < |tables| && t < |v0.tables| && row < |v0.tables[t].rows|
      requires View() == Written(v0, storageOf, t, row, entity, w) && c !in w && storageOf(c) == TableStorage
      requires c in v0.tables[t].components && (status == Added <==> c !in v0.tables[t].rows[row].cells)
      modifies tables[t]
      ensures Owned()
      ensures View() == if status == Existing && mode == Keep then old(View()) else CellSet(old(View()), t, row, c, x)
    {
      assert tables[t].View() == View().tables[t];
      match (status, mode) {
        case (Added, _) => InitializeCell(t, row, c, x);
        case (Existing, Replace) => ReplaceCell(t, row, c, x);
        case (Existing, Keep) =>
      }
    }

    method WriteSparse(entity: Entity, c: ComponentId, x: Value)
      requires Owned()
      modifies this`sparseSets
      ensures Owned() && View() == old(View()).(sparse := old(View()).sparse[(c, entity) := x])
    {
      sparseSets := sparseSets[(c, entity) := x];
    }

    /** One component of a bundle, on top of the writes `w` since view `v0`. An added component must
        have no value yet, an existing one must have one. */
    method WriteOne(t: nat, row: nat, entity: Entity, c: ComponentId, x: Value, status: ComponentStatus,
                    mode: InsertMode,
                    ghost v0: View, ghost w: map<ComponentId, Value>)
      requires Owned() && t < |tables| && t < |v0.tables| && row < |v0.tables[t].rows|
      requires View() == Written(v0, storageOf, t, row, entity, w) && c !in w
      requires storageOf(c) == TableStorage ==>
                 c in v0.tables[t].components && (status == Added <==> c !in v0.tables[t].rows[row].cells)
      modifies tables[t], this`sparseSets
      ensures Owned()
      ensures View() == Written(v0, storageOf, t, row, entity,
                                if status == Existing && mode == Keep then w else w[c := x])
    {
      OneMoreWrite(v0, storageOf, t, row, entity, w, c, x);
      match storageOf(c) {
        case TableStorage => WriteColumn(t, row, entity, c, x, status, mode, v0, w);
        case SparseSetStorage =>
          match (status, mode) {
            case (Existing, Keep) =>
            case (_, _) => WriteSparse(entity, c, x);
          }
      }
    }

    method WriteExplicit(t: nat, row: nat, entity: Entity, info: BundleInfo, status: seq<ComponentStatus>,
                         values: seq<Value>, mode: InsertMode, ghost v0: View)
      requires Owned() && View() == v0 && info.Ok() && t < |tables| && t < |v0.tables| && row < |v0.tables[t].rows|
      requires |status| == |values| == info.explicitLen
      requires forall i | 0 <= i < info.explicitLen && storageOf(info.componentIds[i]) == TableStorage ::
                 && info.componentIds[i] in v0.tables[t].components
                 && (status[i] == Added <==> info.componentIds[i] !in v0.tables[t].rows[row].cells)
      modifies tables[t], this`sparseSets
      ensures Owned()
      ensures View() == Written(v0, storageOf, t, row, entity,
                                ExplicitWrites(info.Explicit(), status, values, mode, info.explicitLen))
    {
      var ids := info.Explicit();
      NothingWritten(v0, storageOf, t, row, entity);
      for i := 0 to |ids|
        invariant Owned()
        invariant View() == Written(v0, storageOf, t, row, entity, ExplicitWrites(ids, status, values, mode, i))
      {
        ExplicitWritesAt(ids, status, values, mode, i);
        assert ids[i] !in ids[..i];
        WriteOne(t, row, entity, ids[i], values[i], status[i], mode, v0, ExplicitWrites(ids, status, values, mode, i));
      }
    }

    /** Required components are initialised on top of the explicit writes `w`. */
    method WriteRequired(t: nat, row: nat, entity: Entity, required: seq<Constructor>,
                         ghost v0: View, ghost w: map<ComponentId, Value>)
      requires Owned() && t < |tables| && t < |v0.tables| && row < |v0.tables[t].rows|
      requires View() == Written(v0, storageOf, t, row, entity, w)
      requires RequiredValues(required).Keys !! w.Keys
      requires forall i, j | 0 <= i < j < |required| :: required[i].component != required[j].component
      requires forall i | 0 <= i < |required| && storageOf(required[i].component) == TableStorage ::
                 && required[i].component in v0.tables[t].components
                 && required[i].component !in v0.tables[t].rows[row].cells
      modifies tables[t], this`sparseSets
      ensures Owned()
      ensures View() == Written(v0, storageOf, t, row, entity, w + RequiredValues(required))
    {
      ghost var written := w;
      EmptySum(w);
      for i := 0 to |required|
        invariant Owned() && written == w + RequiredWrites(required, i)
        invariant View() == Written(v0, storageOf, t, row, entity, written)
      {
        var c, x := required[i].component, required[i].value;
        RequiredWritesNext(required, i, w);
        WriteOne(t, row, entity, c, x, Added, Replace, v0, written);
        written := written[c := x];
      }
    }

    // ----- moving an entity, as each caller does it -----

    /** Swap-removes an entity from its archetype and repairs the entity that took its row. */
    method LeaveArchetype(entity: Entity, location: Location) returns (tableRow: nat)
      requires Owned() && ArchetypesCoherent(View().archs, locations)
      requires entity in locations && locations[entity] == location
      modifies this`locations, archetypes
      ensures Owned() && InArchetype(old(View()).archs, location, entity) && tableRow == location.tableRow
      ensures var v := old(View());
              var swapped := SwappedEntity(v.archs[location.archetypeId].entities, location.archetypeRow);
              && (swapped.Some? ==> swapped.value in v.locs)
              && View() == v.(archs := WithoutRow(v.archs, location.archetypeId, location.archetypeRow),
                              locs := ArchetypeRowFixed(v.locs, swapped, location.archetypeRow))
    {
      ghost var v := View();
      SwappedIsLive(v.archs, v.locs, entity);
      assert v.archs[location.archetypeId] == archetypes[location.archetypeId].View();
      var result := SwapRemoveEntity(location.archetypeId, location.archetypeRow);
      FixArchetypeRow(result.swapped, location.archetypeRow);
      tableRow := result.tableRow;
    }

    /** Pushes an entity on an archetype and records its new location. */
    method JoinArchetype(entity: Entity, b: ArchetypeId, tableRow: nat)
      requires Owned() && b < |archetypes|
      modifies this`locations, archetypes[b]
      ensures Owned()
      ensures var v := old(View());
              View() == v.(archs := WithEntity(v.archs, b, ArchetypeEntity(entity, tableRow)),
                           locs := v.locs[entity := Location(b, |v.archs[b].entities|, v.archs[b].tableId, tableRow)])
    {
      var newLocation := AllocateEntity(b, entity, tableRow);
      SetLocation(entity, newLocation);
    }

    /** The part of an insert that only changes archetype: sparse-set components were added. */
    method InsertIntoSameTable(entity: Entity, location: Location, b: ArchetypeId)
      requires Owned() && Coherent(View())
      requires entity in locations && locations[entity] == location
      requires b < |archetypes| && b != location.archetypeId && archetypes[b].tableId == location.tableId < |tables|
      modifies this`locations, archetypes
      ensures Owned() && View() == Moved(old(View()), entity, b, map[])
    {
      assert View().archs[b] == archetypes[b].View();
      var tableRow := LeaveArchetype(entity, location);
      JoinArchetype(entity, b, tableRow);
    }

    /** Tells the entity that took a freed table row its new row, in its location and in its
        archetype, which is the source, the target, or a third one sharing the table. */
    method RepairSwappedRow(a: ArchetypeId, b: ArchetypeId, swapped: Option<Entity>, row: nat)
      requires Owned() && a < |archetypes| && b < |archetypes|
      requires swapped.Some? ==> swapped.value in locations
      requires swapped.Some? ==> InArchetype(View().archs, locations[swapped.value], swapped.value)
      modifies this`locations, archetypes
      ensures Owned()
      ensures View() == old(View()).(archs := RepairedArchs(old(View()).archs, old(locations), swapped, row),
                                     locs := TableRowFixed(old(locations), swapped, row))
    {
      if swapped.Some? {
        var swappedLocation := locations[swapped.value];
        assert View().archs[swappedLocation.archetypeId] == archetypes[swappedLocation.archetypeId].View();
        SetLocation(swapped.value, swappedLocation.(tableRow := row));
        if archetypes[a].id == swappedLocation.archetypeId {
          SetTableRow(a, swappedLocation.archetypeRow, row);
        } else if archetypes[b].id == swappedLocation.archetypeId {
          SetTableRow(b, swappedLocation.archetypeRow, row);
        } else {
          SetTableRow(swappedLocation.archetypeId, swappedLocation.archetypeRow, row);
        }
      }
    }

    method HopToNewTable(entity: Entity, location: Location, b: ArchetypeId, u: nat) returns (moved: MoveResult)
      requires Owned() && Coherent(View())
      requires entity in locations && locations[entity] == location
      requires b < |archetypes| && b != location.archetypeId && archetypes[b].tableId == u < |tables|
      requires location.tableId < |tables| && u != location.tableId
      requires Elems(tables[location.tableId].components) <= Elems(tables[u].components)
      modifies this`locations, archetypes, tables
      ensures Owned() && HasRow(old(View()), entity)
      ensures var v := old(View());
              var q := |v.tables[u].rows|;
              && moved == MoveResult(q, SwappedRow(v.tables[location.tableId].rows, location.tableRow))
              && View() == v.(archs := HoppedArchs(v.archs, v.locs, entity, b, q),
                              locs := HoppedLocs(v.archs, v.locs, entity, b, q),
                              tables := RowMoved(v.tables, location.tableId, location.tableRow, u,
                                                 Row(entity, CellsOf(v, entity))))
    {
      ghost var v := View();
      HasItsRow(v, entity);
      assert v.archs[b] == archetypes[b].View();
      assert v.tables[location.tableId] == tables[location.tableId].View() && v.tables[u] == tables[u].View();
      var tableRow := LeaveArchetype(entity, location);
      moved := MoveRowToSuperset(location.tableId, tableRow, u);
      JoinArchetype(entity, b, moved.newRow);
    }

    /** The part of an insert that changes archetype and table. */
    method InsertIntoNewTable(entity: Entity, location: Location, b: ArchetypeId, u: nat)
      requires Owned() && Coherent(View())
      requires entity in locations && locations[entity] == location
      requires b < |archetypes| && b != location.archetypeId && archetypes[b].tableId == u < |tables|
      requires location.tableId < |tables| && u != location.tableId
      requires Elems(tables[location.tableId].components) <= Elems(tables[u].components)
      modifies this`locations, archetypes, tables
      ensures Owned() && HasRow(old(View()), entity)
      ensures View() == Moved(old(View()), entity, b, CellsOf(old(View()), entity))
    {
      ghost var v := View();
      HasItsRow(v, entity);
      assert v.archs[b] == archetypes[b].View();
      MovedAcrossSteps(v, entity, b, CellsOf(v, entity));
      var moved := HopToNewTable(entity, location, b, u);
      RepairSwappedRow(location.archetypeId, b, moved.swapped, location.tableRow);
    }

    // ----- inserting a bundle -----

    function MoveTo(source: ArchetypeId, target: ArchetypeId): ArchetypeMove
      requires source < |archetypes| && target < |archetypes|
      reads this, archetypes
    {
      if source == target then SameArchetype
      else if archetypes[source].tableId == archetypes[target].tableId then NewArchetypeSameTable(target)
      else NewArchetypeNewTable(target, archetypes[target].tableId)
    }

    /** An inserter is good for any entity of its source archetype, as long as the graph only grows. */
    ghost predicate InserterOk(ins: Inserter)
      reads this, archetypes
    {
      var b := ins.bundle.id;
      && ins.source < |archetypes| && b < |bundles| && bundles[b] == ins.bundle
      && b in archetypes[ins.source].edges.insertBundle && archetypes[ins.source].edges.insertBundle[b] == ins.edge
      && ins.edge.archetypeId < |archetypes|
      && ins.move == MoveTo(ins.source, ins.edge.archetypeId)
    }

    /** `BundleInserter::new_with_id`. */
    method NewInserter(source: ArchetypeId, b: BundleId) returns (ins: Inserter)
      requires Valid() && b < |bundles| && source < |archetypes|
      modifies this`archetypes, this`byComponents, this`tables, this`tableIds, archetypes[source]
      ensures Valid() && Grown(old(View()), View()) && Model() == old(Model())
      ensures old(archetypes) <= archetypes && fresh(archetypes[|old(archetypes)|..])
      ensures old(tables) <= tables && fresh(tables[|old(tables)|..])
      ensures InserterOk(ins) && ins.source == source && ins.bundle == bundles[b]
    {
      ghost var before := View();
      var target, created := InsertBundleIntoArchetype(b, source);
      GrowthPreservesMeaning(before, View(), storageOf);
      assert View().archs[source] == archetypes[source].View() && EdgesOf(View(), source) && BundleAt(View(), b);
      ins := Inserter(bundles[b], source, archetypes[source].edges.insertBundle[b], MoveTo(source, target));
    }

    /** `write_components`: the table must have a column for everything the bundle contributes, and
        the row must hold exactly the cells of the components in `have`. */
    method WriteComponents(t: nat, row: nat, entity: Entity, info: BundleInfo, status: seq<ComponentStatus>,
                           required: seq<Constructor>, values: seq<Value>, mode: InsertMode,
                           ghost v0: View, ghost have: set<ComponentId>)
      requires Owned() && View() == v0 && info.Ok() && t < |tables| && t < |v0.tables| && row < |v0.tables[t].rows|
      requires |values| == info.explicitLen && StatusOk(status, info.Explicit(), have)
      requires required == Missing(info.constructors, have)
      requires forall c | c in info.componentIds && storageOf(c) == TableStorage :: c in v0.tables[t].components
      requires forall c :: c in v0.tables[t].rows[row].cells <==> c in have && storageOf(c) == TableStorage
      modifies tables[t], this`sparseSets
      ensures Owned()
      ensures View() == Written(v0, storageOf, t, row, entity,
                                ExplicitWrites(info.Explicit(), status, values, mode, info.explicitLen)
                                + RequiredValues(Missing(info.constructors, have)))
    {
      ghost var explicit := ExplicitWrites(info.Explicit(), status, values, mode, info.explicitLen);
      forall i | 0 <= i < info.explicitLen
        ensures info.componentIds[i] in info.componentIds && info.Explicit()[i] == info.componentIds[i]
      {
      }
      WriteExplicit(t, row, entity, info, status, values, mode, v0);
      WritesAreDisjoint(info, status, values, mode, have);
      MissingFit(info, have);
      RequiredAreContributed(info);
      WriteRequired(t, row, entity, required, v0, explicit);
    }

    lemma InserterFacts(ins: Inserter)
      requires GraphOk(View(), storageOf) && InserterOk(ins)
      ensures View().archs[ins.source] == archetypes[ins.source].View()
      ensures ins.bundle.Ok() && InsertEdgeOk(View().archs, ins.source, ins.bundle, ins.edge)
    {
      assert View().archs[ins.source] == archetypes[ins.source].View();
      assert EdgesOf(View(), ins.source) && BundleAt(View(), ins.bundle.id);
    }

    /** Moves an entity as an inserter says, before its bundle is written. */
    method MoveForInsert(ins: Inserter, entity: Entity, location: Location)
      requires Owned() && WorldOk(View(), storageOf) && InserterOk(ins)
      requires entity in locations && locations[entity] == location && location.archetypeId == ins.source
      modifies this`locations, archetypes, tables
      ensures Owned() && HasRow(old(View()), entity)
      ensures MovedWell(old(View()), View(), entity, ins.edge.archetypeId, CellsOf(old(View()), entity))
    {
      ghost var v := View();
      var b := ins.edge.archetypeId;
      HasItsRow(v, entity);
      InserterFacts(ins);
      assert v.archs[b] == archetypes[b].View();
      assert ArchetypeOk(v, storageOf, ins.source) && ArchetypeOk(v, storageOf, b);
      match ins.move
      case SameArchetype =>
        NothingMoved(v, entity);
      case NewArchetypeSameTable(target) =>
        MovedIsCoherent(v, entity, b, map[]);
        InsertIntoSameTable(entity, location, target);
      case NewArchetypeNewTable(target, table) =>
        InsertedColumns(v, storageOf, ins.source, b, ins.bundle);
        assert v.tables[location.tableId] == tables[location.tableId].View() && v.tables[table] == tables[table].View();
        MovedIsCoherent(v, entity, b, CellsOf(v, entity));
        InsertIntoNewTable(entity, location, target, table);
    }

    /** Writes the bundle on the moved entity. */
    method WriteAfterMove(ins: Inserter, entity: Entity, values: seq<Value>, mode: InsertMode,
                          ghost have: set<ComponentId>)
      requires Owned() && entity in locations && ins.bundle.Ok() && |values| == ins.bundle.explicitLen
      requires InTable(View().tables, locations[entity], entity)
      requires StatusOk(ins.edge.bundleStatus, ins.bundle.Explicit(), have)
      requires ins.edge.required == Missing(ins.bundle.constructors, have)
      requires RowReady(View(), storageOf, locations[entity], ins.bundle, have)
      modifies this`sparseSets, tables
      ensures Owned()
      ensures View() == Written(old(View()), storageOf, locations[entity].tableId, locations[entity].tableRow, entity,
                                InsertWrites(ins, values, mode, have))
    {
      ghost var moved := View();
      var location := locations[entity];
      assert moved.tables[location.tableId] == tables[location.tableId].View();
      WriteComponents(location.tableId, location.tableRow, entity, ins.bundle, ins.edge.bundleStatus,
                      ins.edge.required, values, mode, moved, have);
    }

    /** Both halves of an insertion; `moved` is the world between them. */
    method MoveAndWrite(ins: Inserter, entity: Entity, values: seq<Value>, mode: InsertMode) returns (ghost moved: View)
      requires Owned() && WorldOk(View(), storageOf) && InserterOk(ins)
      requires entity in locations && locations[entity].archetypeId == ins.source && |values| == ins.bundle.explicitLen
      requires HasRow(View(), entity) && Initialised(View(), entity)
      requires ins.source < |View().archs| && InsertEdgeOk(View().archs, ins.source, ins.bundle, ins.edge)
      modifies this`locations, this`sparseSets, archetypes, tables
      ensures Owned() && MovedWell(old(View()), moved, entity, ins.edge.archetypeId, CellsOf(old(View()), entity))
      ensures View() == Written(moved, storageOf, moved.locs[entity].tableId, moved.locs[entity].tableRow, entity,
                                InsertWrites(ins, values, mode, old(View()).archs[ins.source].Components()))
    {
      ghost var v := View();
      MoveForInsert(ins, entity, locations[entity]);
      moved := View();
      ghost var have := v.archs[ins.source].Components();
      assert RowReady(moved, storageOf, moved.locs[entity], ins.bundle, have) by {
        ReadyToWrite(v, moved, storageOf, entity, ins.edge.archetypeId, ins.bundle);
      }
      WriteAfterMove(ins, entity, values, mode, have);
    }

    /** `BundleInserter::insert`: whatever the move, the entity ends with its old values overlaid by
        the bundle as the insert mode says, and no other entity's values change. */
    method InsertWith(ins: Inserter, entity: Entity, values: seq<Value>, mode: InsertMode)
      returns (newLocation: Location)
      requires Valid() && InserterOk(ins)
      requires entity in locations && locations[entity].archetypeId == ins.source && |values| == ins.bundle.explicitLen
      modifies this`locations, this`sparseSets, archetypes, tables
      ensures Valid()
      ensures InsertedAt(old(Model()), Model(), entity, ins.bundle, values, mode)
      ensures entity in locations && newLocation == locations[entity] && newLocation.archetypeId == ins.edge.archetypeId
      ensures SameGraph(old(View()), View())
    {
      ghost var v := View();
      ModelAt(v, entity);
      InserterFacts(ins);
      ghost var moved := MoveAndWrite(ins, entity, values, mode);
      ghost var w := InsertWrites(ins, values, mode, v.archs[ins.source].Components());
      InsertMeaning(v, storageOf, entity, ins, values, mode);
      InsertionIsDone(v, moved, storageOf, entity, ins.edge.archetypeId, w, ins.bundle, values, mode);
      newLocation := locations[entity];
    }

    // ----- removing a bundle -----

    ghost predicate RemoverOk(rem: Remover)
      reads this, archetypes
    {
      && rem.source < |archetypes| && rem.target < |archetypes| && rem.source != rem.target
      && rem.bundle.Ok()
      && archetypes[rem.target].View().Components() == archetypes[rem.source].View().Components()
         - Elems(rem.bundle.Explicit())
      && rem.tables == if archetypes[rem.source].tableId == archetypes[rem.target].tableId then None
                       else Some((archetypes[rem.source].tableId, archetypes[rem.target].tableId))
    }

    /** `BundleRemover::new_with_id`: there is a remover exactly when removing would do something
        and, if everything is required, everything is there. */
    method NewRemover(source: ArchetypeId, b: BundleId, requireAll: bool) returns (rem: Option<Remover>)
      requires Valid() && b < |bundles| && source < |archetypes|
      modifies this`archetypes, this`byComponents, this`tables, this`tableIds, archetypes[source]
      ensures Valid() && Grown(old(View()), View()) && Model() == old(Model())
      ensures old(archetypes) <= archetypes && fresh(archetypes[|old(archetypes)|..])
      ensures old(tables) <= tables && fresh(tables[|old(tables)|..])
      ensures bundles[b].Ok()
      ensures var have, explicit := archetypes[source].View().Components(), Elems(bundles[b].Explicit());
              rem.Some? <==> have * explicit != {} && (requireAll ==> explicit <= have)
      ensures rem.Some? ==> RemoverOk(rem.value) && rem.value.source == source && rem.value.bundle == bundles[b]
    {
      ghost var before := View();
      assert before.archs[source] == archetypes[source].View();
      var target, created := RemoveBundleFromArchetype(b, source, !requireAll);
      ghost var after := View();
      GrowthPreservesMeaning(before, after, storageOf);
      assert SameShape(before.archs[source], after.archs[source]) && after.archs[source] == archetypes[source].View();
      RemovalAnswer(after, storageOf, source, b, !requireAll, target);
      if target.None? || target.value == source {
        return None;
      }
      assert after.archs[target.value] == archetypes[target.value].View();
      var oldTable, newTable := archetypes[source].tableId, archetypes[target.value].tableId;
      var tables := if oldTable == newTable then None else Some((oldTable, newTable));
      rem := Some(Remover(bundles[b], source, target.value, tables));
    }

    /** Drops the removed components that are kept in sparse sets. */
    method RemoveSparse(entity: Entity, have: ArchetypeView, explicit: seq<ComponentId>)
      requires Owned()
      requires forall c | (c, entity) in sparseSets :: c in have.sparseComponents
      modifies this`sparseSets
      ensures View() == old(View()).(sparse := SparseRemoved(old(sparseSets), entity, Elems(explicit)))
    {
      for i := 0 to |explicit|
        invariant sparseSets == SparseRemoved(old(sparseSets), entity, Elems(explicit[..i]))
      {
        var c := explicit[i];
        assert Elems(explicit[..i + 1]) == Elems(explicit[..i]) + {c};
        SparseRemovedOne(old(sparseSets), entity, Elems(explicit[..i]), c);
        if c in have.Components() && c in have.sparseComponents {
          sparseSets := sparseSets - {(c, entity)};
        }
      }
      assert explicit[..|explicit|] == explicit;
    }

    /** Tells the entity that took a freed table row its new row, in its location and in its archetype. */
    method RepairAfterRemove(swapped: Option<Entity>, row: nat)
      requires Owned()
      requires swapped.Some? ==> swapped.value in locations
      requires swapped.Some? ==> InArchetype(View().archs, locations[swapped.value], swapped.value)
      modifies this`locations, archetypes
      ensures Owned()
      ensures View() == old(View()).(archs := RepairedArchs(old(View()).archs, old(locations), swapped, row),
                                     locs := TableRowFixed(old(locations), swapped, row))
    {
      if swapped.Some? {
        var swappedLocation := locations[swapped.value];
        assert View().archs[swappedLocation.archetypeId] == archetypes[swappedLocation.archetypeId].View();
        SetLocation(swapped.value, swappedLocation.(tableRow := row));
        SetTableRow(swappedLocation.archetypeId, swappedLocation.archetypeRow, row);
      }
    }

    /** Both swap-removes of a removal: the entity is in no archetype, and its row in the new table. */
    method LeaveWithRow(entity: Entity, location: Location, u: nat) returns (moved: MoveResult)
      requires Owned() && Coherent(View())
      requires entity in locations && locations[entity] == location
      requires location.tableId < |tables| && u < |tables| && u != location.tableId
      modifies this`locations, archetypes, tables
      ensures Owned() && HasRow(old(View()), entity) && archetypes == old(archetypes) && tables == old(tables)
      ensures var v := old(View());
              var swapped := SwappedEntity(v.archs[location.archetypeId].entities, location.archetypeRow);
              && (swapped.Some? ==> swapped.value in v.locs)
              && moved == MoveResult(|v.tables[u].rows|, SwappedRow(v.tables[location.tableId].rows, location.tableRow))
              && View() == v.(archs := WithoutRow(v.archs, location.archetypeId, location.archetypeRow),
                              locs := ArchetypeRowFixed(v.locs, swapped, location.archetypeRow),
                              tables := RowMoved(v.tables, location.tableId, location.tableRow, u,
                                                 Row(entity, Kept(CellsOf(v, entity), v.tables[u].components))))
    {
      ghost var v := View();
      HasItsRow(v, entity);
      assert v.tables[location.tableId] == tables[location.tableId].View() && v.tables[u] == tables[u].View();
      var tableRow := LeaveArchetype(entity, location);
      moved := MoveRowAndDropMissing(location.tableId, location.tableRow, u);
    }

    /** The steps of a removal up to the new archetype row; the entity's location is still the old one. */
    method LeaveForNewTable(entity: Entity, location: Location, b: ArchetypeId, u: nat)
      returns (newLocation: Location, swapped: Option<Entity>)
      requires Owned() && Coherent(View())
      requires entity in locations && locations[entity] == location
      requires b < |archetypes| && b != location.archetypeId && archetypes[b].tableId == u < |tables|
      requires location.tableId < |tables| && u != location.tableId
      modifies this`locations, archetypes, tables
      ensures Owned() && HasRow(old(View()), entity)
      ensures var v := old(View());
              var q := |v.tables[u].rows|;
              && swapped == SwappedRow(v.tables[location.tableId].rows, location.tableRow)
              && locations[entity := newLocation] == HoppedLocs(v.archs, v.locs, entity, b, q)
              && View() == v.(archs := HoppedArchs(v.archs, v.locs, entity, b, q), locs := locations,
                              tables := RowMoved(v.tables, location.tableId, location.tableRow, u,
                                                 Row(entity, Kept(CellsOf(v, entity), v.tables[u].components))))
    {
      ghost var v := View();
      HasItsRow(v, entity);
      assert v.archs[b] == archetypes[b].View();
      var moved := LeaveWithRow(entity, location, u);
      ghost var left := View();
      newLocation := AllocateEntity(b, entity, moved.newRow);
      swapped := moved.swapped;
      LeftThenJoined(v.archs, v.locs, entity, b, moved.newRow, left.archs, left.locs, newLocation);
    }

    /** The repair comes first, then the entity's own location. */
    method RepairThenSettle(entity: Entity, newLocation: Location, swapped: Option<Entity>, row: nat)
      requires Owned()
      requires swapped.Some? ==> swapped.value in locations && swapped.value != entity
      requires swapped.Some? ==> InArchetype(View().archs, locations[swapped.value], swapped.value)
      modifies this`locations, archetypes
      ensures Owned()
      ensures var v, locs := old(View()), old(locations)[entity := newLocation];
              View() == v.(archs := RepairedArchs(v.archs, locs, swapped, row),
                           locs := TableRowFixed(locs, swapped, row))
    {
      RepairCommutes(locations, swapped, row, entity, newLocation);
      RepairAfterRemove(swapped, row);
      SetLocation(entity, newLocation);
    }

    /** The part of a removal that changes archetype and table. */
    method RemoveAcrossTables(entity: Entity, location: Location, b: ArchetypeId, u: nat)
      requires Owned() && Coherent(View())
      requires entity in locations && locations[entity] == location
      requires b < |archetypes| && b != location.archetypeId && archetypes[b].tableId == u < |tables|
      requires location.tableId < |tables| && u != location.tableId
      modifies this`locations, archetypes, tables
      ensures Owned() && HasRow(old(View()), entity)
      ensures View()
              == Moved(old(View()), entity, b, Kept(CellsOf(old(View()), entity), old(View()).tables[u].components))
    {
      ghost var v := View();
      HasItsRow(v, entity);
      assert v.archs[b] == archetypes[b].View();
      MovedAcrossSteps(v, entity, b, Kept(CellsOf(v, entity), v.tables[u].components));
      var newLocation, swapped := LeaveForNewTable(entity, location, b, u);
      RepairThenSettle(entity, newLocation, swapped, location.tableRow);
    }

    /** The part of a removal that keeps the table: only sparse-set components went. */
    method RemoveWithinTable(entity: Entity, location: Location, b: ArchetypeId)
      requires Owned() && Coherent(View())
      requires entity in locations && locations[entity] == location
      requires b < |archetypes| && b != location.archetypeId && archetypes[b].tableId == location.tableId < |tables|
      modifies this`locations, archetypes
      ensures Owned() && View() == Moved(old(View()), entity, b, map[])
    {
      assert View().archs[b] == archetypes[b].View();
      var tableRow := LeaveArchetype(entity, location);
      JoinArchetype(entity, b, location.tableRow);
    }

    /** Moves an entity as a remover says, after its sparse values were dropped. */
    method MoveForRemove(rem: Remover, entity: Entity, location: Location)
      requires Owned() && Coherent(View()) && GraphOk(View(), storageOf) && RemoverOk(rem)
      requires entity in locations && locations[entity] == location && location.archetypeId == rem.source
      modifies this`locations, archetypes, tables
      ensures Owned() && HasRow(old(View()), entity) && rem.target < |old(View()).archs|
      ensures old(View()).archs[rem.target].tableId < |old(View()).tables|
      ensures var v := old(View());
              var u := v.archs[rem.target].tableId;
              MovedWell(v, View(), entity, rem.target,
                        if u == location.tableId then CellsOf(v, entity)
                          else Kept(CellsOf(v, entity), v.tables[u].components))
    {
      ghost var v := View();
      HasItsRow(v, entity);
      assert v.archs[rem.source] == archetypes[rem.source].View()
        && v.archs[rem.target] == archetypes[rem.target].View();
      assert ArchetypeOk(v, storageOf, rem.source) && ArchetypeOk(v, storageOf, rem.target);
      match rem.tables
      case Some((oldTable, newTable)) =>
        MovedIsCoherent(v, entity, rem.target, Kept(CellsOf(v, entity), v.tables[newTable].components));
        RemoveAcrossTables(entity, location, rem.target, newTable);
      case None =>
        MovedIsCoherent(v, entity, rem.target, map[]);
        RemoveWithinTable(entity, location, rem.target);
    }

    lemma RemoverFacts(rem: Remover)
      requires RemoverOk(rem)
      ensures View().archs[rem.target].Components() == View().archs[rem.source].Components()
              - Elems(rem.bundle.Explicit())
    {
      assert View().archs[rem.source] == archetypes[rem.source].View()
        && View().archs[rem.target] == archetypes[rem.target].View();
    }

    /** What is left of a removal when the sparse values were taken out already: nothing more is
        dropped, and the entity is moved. `v` is the world before. */
    method DropForgottenAndMove(rem: Remover, entity: Entity, ghost v: View)
      requires Owned() && WorldOk(v, storageOf) && RemoverOk(rem)
      requires View() == v.(sparse := SparseRemoved(v.sparse, entity, Elems(rem.bundle.Explicit())))
      requires entity in locations && locations[entity].archetypeId == rem.source
      requires HasRow(v, entity) && Initialised(v, entity)
      modifies this`locations, this`sparseSets, archetypes, tables
      ensures Owned() && rem.target < |v.archs| && v.archs[rem.target].tableId < |v.tables|
      ensures var dropped := v.(sparse := SparseRemoved(v.sparse, entity, Elems(rem.bundle.Explicit())));
              var u := v.archs[rem.target].tableId;
              MovedWell(dropped, View(), entity, rem.target,
                        if u == v.locs[entity].tableId then CellsOf(v, entity)
                          else Kept(CellsOf(v, entity), v.tables[u].components))
    {
      ghost var dropped := View();
      assert v.archs[rem.source] == archetypes[rem.source].View();
      RemovedTwice(v.sparse, entity, Elems(rem.bundle.Explicit()));
      RemoveSparse(entity, archetypes[rem.source].View(), rem.bundle.Explicit());
      assert View() == dropped;
      DroppedStaysCoherent(v, View(), storageOf);
      MoveForRemove(rem, entity, locations[entity]);
    }

    /** Both halves of a removal: sparse values are dropped, then the entity is moved. */
    method DropAndMove(rem: Remover, entity: Entity)
      requires Owned() && WorldOk(View(), storageOf) && RemoverOk(rem)
      requires entity in locations && locations[entity].archetypeId == rem.source
      requires HasRow(View(), entity) && Initialised(View(), entity)
      modifies this`locations, this`sparseSets, archetypes, tables
      ensures Owned() && rem.target < |old(View()).archs|
              && old(View()).archs[rem.target].tableId < |old(View()).tables|
      ensures var v := old(View());
              var dropped := v.(sparse := SparseRemoved(v.sparse, entity, Elems(rem.bundle.Explicit())));
              var u := v.archs[rem.target].tableId;
              MovedWell(dropped, View(), entity, rem.target,
                        if u == v.locs[entity].tableId then CellsOf(v, entity)
                          else Kept(CellsOf(v, entity), v.tables[u].components))
    {
      ghost var v := View();
      assert v.archs[rem.source] == archetypes[rem.source].View();
      RemoveSparse(entity, archetypes[rem.source].View(), rem.bundle.Explicit());
      DroppedStaysCoherent(v, View(), storageOf);
      MoveForRemove(rem, entity, locations[entity]);
    }

    /** `BundleRemover::remove`: the entity loses exactly the explicit components it has, and no
        other entity's values change. */
    method RemoveWith(rem: Remover, entity: Entity) returns (newLocation: Location)
      requires Valid() && RemoverOk(rem)
      requires entity in locations && locations[entity].archetypeId == rem.source
      modifies this`locations, this`sparseSets, archetypes, tables
      ensures Valid()
      ensures RemovedAt(old(Model()), Model(), entity, rem.bundle)
      ensures entity in locations && newLocation == locations[entity] && newLocation.archetypeId == rem.target
      ensures SameGraph(old(View()), View())
    {
      ghost var v := View();
      ModelAt(v, entity);
      RemoverFacts(rem);
      DropAndMove(rem, entity);
      DropThenMove(v, View(), storageOf, entity, rem.target, Elems(rem.bundle.Explicit()));
      newLocation := locations[entity];
    }

    /** The `pre_remove` of a take: each explicit component's value in bundle order, read from the row
        or taken out of its sparse set. */
    method ReadForTake(entity: Entity, explicit: seq<ComponentId>) returns (values: seq<Value>)
      requires Owned() && GraphOk(View(), storageOf) && HasRow(View(), entity) && Initialised(View(), entity)
      requires NoDup(explicit) && Elems(explicit) <= ArchOf(View(), entity).Components()
      modifies this`sparseSets
      ensures View() == old(View()).(sparse := SparseRemoved(old(sparseSets), entity, Elems(explicit)))
      ensures ReadOff(ValuesOf(old(View()), entity), explicit, values)
    {
      ghost var m := ValuesOf(View(), entity);
      var location := locations[entity];
      assert View().tables[location.tableId] == tables[location.tableId].View();
      InitialisedStoresItsValues(View(), storageOf, entity);
      var cells := tables[location.tableId].rows[location.tableRow].cells;
      ghost var sparse := sparseSets;
      values := [];
      for i := 0 to |explicit|
        invariant sparseSets == SparseRemoved(sparse, entity, Elems(explicit[..i]))
        invariant ReadOff(m, explicit[..i], values)
      {
        var c := explicit[i];
        ReadNext(cells, sparse, storageOf, entity, m, explicit, i);
        match storageOf(c)
        case TableStorage => values := values + [cells[c]];
        case SparseSetStorage =>
          values := values + [sparseSets[(c, entity)]];
          sparseSets := sparseSets - {(c, entity)};
      }
      assert explicit[..|explicit|] == explicit;
    }

    /** Both halves of a take: the values are read and sparse ones taken out, then the entity is moved. */
    method ReadAndMove(rem: Remover, entity: Entity) returns (values: seq<Value>)
      requires Owned() && WorldOk(View(), storageOf) && RemoverOk(rem)
      requires entity in locations && locations[entity].archetypeId == rem.source
      requires HasRow(View(), entity) && Initialised(View(), entity)
      requires Elems(rem.bundle.Explicit()) <= archetypes[rem.source].View().Components()
      modifies this`locations, this`sparseSets, archetypes, tables
      ensures Owned() && rem.target < |old(View()).archs|
              && old(View()).archs[rem.target].tableId < |old(View()).tables|
      ensures var v := old(View());
              var dropped := v.(sparse := SparseRemoved(v.sparse, entity, Elems(rem.bundle.Explicit())));
              var u := v.archs[rem.target].tableId;
              MovedWell(dropped, View(), entity, rem.target,
                        if u == v.locs[entity].tableId then CellsOf(v, entity)
                          else Kept(CellsOf(v, entity), v.tables[u].components))
      ensures ReadOff(ValuesOf(old(View()), entity), rem.bundle.Explicit(), values)
    {
      ghost var v := View();
      assert v.archs[rem.source] == archetypes[rem.source].View();
      values := ReadForTake(entity, rem.bundle.Explicit());
      DropForgottenAndMove(rem, entity, v);
    }

    /** `BundleRemover::remove` for a take: as a removal, and gives the values the entity had. */
    method TakeWith(rem: Remover, entity: Entity) returns (newLocation: Location, values: seq<Value>)
      requires Valid() && RemoverOk(rem)
      requires entity in locations && locations[entity].archetypeId == rem.source
      requires Elems(rem.bundle.Explicit()) <= archetypes[rem.source].View().Components()
      modifies this`locations, this`sparseSets, archetypes, tables
      ensures Valid()
      ensures RemovedAt(old(Model()), Model(), entity, rem.bundle)
      ensures ReadOff(old(Model())[entity], rem.bundle.Explicit(), values)
      ensures entity in locations && newLocation == locations[entity] && newLocation.archetypeId == rem.target
      ensures SameGraph(old(View()), View())
    {
      ghost var v := View();
      ModelAt(v, entity);
      RemoverFacts(rem);
      values := ReadAndMove(rem, entity);
      DropThenMove(v, View(), storageOf, entity, rem.target, Elems(rem.bundle.Explicit()));
      newLocation := locations[entity];
    }

    // ----- spawning a bundle -----

    ghost predicate SpawnerOk(sp: Spawner)
      reads this, archetypes
    {
      && sp.target < |archetypes| && sp.bundle.Ok()
      && archetypes[sp.target].View().Components() == Elems(sp.bundle.componentIds)
      && archetypes[sp.target].tableId == sp.table
    }

    /** The cached edge of the empty archetype leads to the bundle's own components. */
    lemma EmptyLeadsToBundle(b: BundleId)
      requires Owned() && GraphOk(View(), storageOf) && b < |bundles| && b in archetypes[0].edges.insertBundle
      ensures var target := archetypes[0].edges.insertBundle[b].archetypeId;
              && target < |archetypes| && bundles[b].Ok()
              && archetypes[target].View().Components() == Elems(bundles[b].componentIds)
    {
      var v := View();
      assert v.archs[0] == archetypes[0].View() && EdgesOf(v, 0) && BundleAt(v, b);
      var target := archetypes[0].edges.insertBundle[b].archetypeId;
      assert v.archs[target] == archetypes[target].View();
      assert {} + Elems(bundles[b].componentIds) == Elems(bundles[b].componentIds);
    }

    /** `BundleSpawner::new_with_id`: the bundle is inserted into the empty archetype. */
    method NewSpawner(b: BundleId) returns (sp: Spawner)
      requires Valid() && b < |bundles|
      modifies this`archetypes, this`byComponents, this`tables, this`tableIds, archetypes
      ensures Valid() && Grown(old(View()), View()) && Model() == old(Model())
      ensures old(archetypes) <= archetypes && fresh(archetypes[|old(archetypes)|..])
      ensures old(tables) <= tables && fresh(tables[|old(tables)|..])
      ensures SpawnerOk(sp) && sp.bundle == bundles[b]
    {
      ghost var before := View();
      var target, created := InsertBundleIntoArchetype(b, 0);
      ghost var after := View();
      GrowthPreservesMeaning(before, after, storageOf);
      EmptyLeadsToBundle(b);
      sp := Spawner(bundles[b], target, archetypes[target].tableId);
    }

    method AllocateRow(t: nat, entity: Entity) returns (row: nat)
      requires Owned() && t < |tables|
      modifies tables[t]
      ensures Owned() && row == |old(View()).tables[t].rows|
      ensures var v := old(View());
              View() == v.(tables := v.tables[t := v.tables[t].(rows := v.tables[t].rows + [Row(entity, map[])])])
    {
      ghost var v := View();
      row := tables[t].Allocate(entity);
      assert View().tables == v.tables[t := v.tables[t].(rows := v.tables[t].rows + [Row(entity, map[])])];
    }

    /** Both rows of a new entity; its location is not recorded yet. */
    method AllocateRows(b: ArchetypeId, entity: Entity) returns (location: Location)
      requires Owned() && b < |archetypes| && archetypes[b].tableId < |tables|
      modifies archetypes[b], tables[archetypes[b].tableId]
      ensures Owned() && b < |old(View()).archs| && old(View()).archs[b].tableId < |old(View()).tables|
      ensures archetypes[b].tableId == old(archetypes[b].tableId)
      ensures tables[archetypes[b].tableId].components == old(tables[archetypes[b].tableId].components)
      ensures var spawned := SpawnedView(old(View()), entity, b);
              && location == spawned.locs[entity] && location.tableId == archetypes[b].tableId
              && View() == spawned.(locs := old(locations))
    {
      ghost var v := View();
      var t := archetypes[b].tableId;
      assert v.archs[b] == archetypes[b].View() && v.tables[t] == tables[t].View();
      var tableRow := AllocateRow(t, entity);
      location := AllocateEntity(b, entity, tableRow);
    }

    /** Both rows of a new entity, its bundle written, and its location set. */
    method SpawnAndWrite(sp: Spawner, entity: Entity, values: seq<Value>) returns (location: Location)
      requires Owned() && SpawnerOk(sp) && sp.table < |tables| && |values| == sp.bundle.explicitLen
      requires forall c | c in sp.bundle.componentIds && storageOf(c) == TableStorage ::
               c in tables[sp.table].components
      modifies this`locations, this`sparseSets, archetypes, tables
      ensures Owned() && sp.target < |old(View()).archs| && old(View()).archs[sp.target].tableId < |old(View()).tables|
      ensures var spawned := SpawnedView(old(View()), entity, sp.target);
              && location == spawned.locs[entity]
              && View() == Written(spawned, storageOf, location.tableId, location.tableRow, entity,
                                   SpawnWrites(sp.bundle, values))
    {
      location := AllocateRows(sp.target, entity);
      ghost var unwritten := View();
      assert unwritten.tables[sp.table].rows[location.tableRow] == Row(entity, map[]);
      var status := seq(sp.bundle.explicitLen, _ => Added);
      MissingFromNothing(sp.bundle.constructors);
      WriteComponents(sp.table, location.tableRow, entity, sp.bundle, status, sp.bundle.constructors, values, Replace,
                      unwritten, {});
      SetLocation(entity, location);
    }

    lemma SpawnerFacts(sp: Spawner)
      requires GraphOk(View(), storageOf) && SpawnerOk(sp)
      ensures View().archs[sp.target] == archetypes[sp.target].View()
      ensures sp.table < |tables| && sp.table < |View().tables|
      ensures forall c | c in sp.bundle.componentIds && storageOf(c) == TableStorage :: c in tables[sp.table].components
    {
      var v := View();
      assert v.archs[sp.target] == archetypes[sp.target].View() && ArchetypeOk(v, storageOf, sp.target);
      assert v.tables[sp.table] == tables[sp.table].View();
      forall c | c in sp.bundle.componentIds && storageOf(c) == TableStorage
        ensures c in v.archs[sp.target].tableComponents
      {
        assert c in v.archs[sp.target].Components();
      }
    }

    /** `BundleSpawner::spawn_non_existent`: the new entity has exactly the bundle's values and those
        its required constructors build. */
    method SpawnNonExistent(sp: Spawner, entity: Entity, values: seq<Value>) returns (location: Location)
      requires Valid() && SpawnerOk(sp) && entity !in locations && |values| == sp.bundle.explicitLen
      modifies this`locations, this`sparseSets, archetypes, tables
      ensures Valid()
      ensures SpawnedAt(old(Model()), Model(), entity, sp.bundle, values)
      ensures entity in locations && location == locations[entity] && location.archetypeId == sp.target
      ensures SameGraph(old(View()), View())
    {
      ghost var v := View();
      SpawnerFacts(sp);
      location := SpawnAndWrite(sp, entity, values);
      SpawnWritesMean(sp.bundle, values);
      SpawnThenWrite(v, storageOf, entity, sp.target, SpawnWrites(sp.bundle, values));
    }

    // ----- registering a bundle -----

    method AppendBundle(info: BundleInfo)
      requires Valid() && info.Ok() && info.id == |bundles|
      modifies this`bundles
      ensures Valid() && Grown(old(View()), View()) && Model() == old(Model())
      ensures bundles == old(bundles) + [info]
    {
      ghost var before := View();
      BundleAppendedIsOk(before, storageOf, info);
      bundles := bundles + [info];
      assert View() == BundleAppended(before, info);
      GrowthPreservesMeaning(before, View(), storageOf);
    }

    /** Creates a bundle's metadata and appends it; a refused bundle changes nothing. */
    method RegisterBundle(explicit: seq<ComponentId>, merged: map<ComponentId, Value>) returns (r: BundleCreation)
      requires Valid()
      modifies this`bundles
      ensures Valid() && Model() == old(Model())
      ensures r.Created? <==> NoDup(explicit)
      ensures bundles == if r.Created? then old(bundles) + [r.info] else old(bundles)
      ensures r.Created? ==>
                && Grown(old(View()), View())
                && r.info.Ok() && r.info.id == |old(bundles)| && r.info.Explicit() == explicit
                && RequiredValues(r.info.constructors) == merged - Elems(explicit)
    {
      r := NewBundleInfo(explicit, merged, |bundles|);
      if r.Created? {
        AppendBundle(r.info);
      }
    }

    /** `register_info`: a type that is known keeps its bundle; otherwise its bundle is created and the
        type remembered. A bundle with duplicates is refused. `ids` are the bundles of known types. */
    method RegisterInfo(ids: map<TypeId, BundleId>, t: TypeId, explicit: seq<ComponentId>,
                        merged: map<ComponentId, Value>)
      returns (id: Option<BundleId>, ids': map<TypeId, BundleId>)
      requires Valid()
      modifies this`bundles
      ensures Valid() && Model() == old(Model())
      ensures t in ids || !NoDup(explicit) ==> bundles == old(bundles) && ids' == ids
      ensures t in ids ==> id == Some(ids[t])
      ensures t !in ids && !NoDup(explicit) ==> id == None
      ensures t !in ids && NoDup(explicit) ==>
                && id == Some(|old(bundles)|) && ids' == ids[t := |old(bundles)|]
                && OneMoreBundle(old(bundles), bundles, explicit, merged)
    {
      if t in ids {
        return Some(ids[t]), ids;
      }
      var r := RegisterBundle(explicit, merged);
      if r.DuplicateComponents? {
        return None, ids;
      }
      LastBundle(old(bundles), r.info, explicit, merged);
      return Some(r.info.id), ids[t := r.info.id];
    }
  }
}

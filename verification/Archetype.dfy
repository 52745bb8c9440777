/** `src/archetype.rs`: archetypes, their entity rows and their cached graph edges. */
module Archetypes {
  import opened Collections
  import opened Storage

  type BundleId = nat
  type ArchetypeId = nat

  datatype ArchetypeEntity = ArchetypeEntity(entity: Entity, tableRow: nat)

  datatype Location = Location(archetypeId: ArchetypeId, archetypeRow: nat, tableId: nat, tableRow: nat)

  datatype SwapRemoveResult = SwapRemoveResult(swapped: Option<Entity>, tableRow: nat)

  datatype ComponentStatus = Added | Existing

  /** A required component and the value its constructor produces. */
  datatype Constructor = Constructor(component: ComponentId, value: Value)

  datatype AfterInsert = AfterInsert(
    archetypeId: ArchetypeId,
    bundleStatus: seq<ComponentStatus>,
    required: seq<Constructor>,
    added: seq<ComponentId>,
    existing: seq<ComponentId>)

  /** The memoised moves of one archetype. A remove or take edge may cache `None`. */
  datatype Edges = Edges(
    insertBundle: map<BundleId, AfterInsert>,
    removeBundle: map<BundleId, Option<ArchetypeId>>,
    takeBundle: map<BundleId, Option<ArchetypeId>>)

  datatype ArchetypeView = ArchetypeView(
    tableId: nat,
    tableComponents: seq<ComponentId>,
    sparseComponents: seq<ComponentId>,
    edges: Edges,
    entities: seq<ArchetypeEntity>)
  {
    function Components(): set<ComponentId> {
      Elems(tableComponents) + Elems(sparseComponents)
    }
  }

  /** The entity that takes over row `row` when that row is swap-removed. */
  function SwappedEntity(entities: seq<ArchetypeEntity>, row: nat): Option<Entity>
    requires row < |entities|
  {
    if row == |entities| - 1 then None else Some(entities[|entities| - 1].entity)
  }

  class Archetype {
    const id: ArchetypeId
    const tableId: nat
    const tableComponents: seq<ComponentId>
    const sparseComponents: seq<ComponentId>
    var edges: Edges
    var entities: seq<ArchetypeEntity>

    constructor (id: ArchetypeId, tableId: nat, tableComponents: seq<ComponentId>, sparseComponents: seq<ComponentId>)
      ensures this.id == id
      ensures View() == ArchetypeView(tableId, tableComponents, sparseComponents, Edges(map[], map[], map[]), [])
    {
      this.id := id;
      this.tableId := tableId;
      this.tableComponents := tableComponents;
      this.sparseComponents := sparseComponents;
      edges := Edges(map[], map[], map[]);
      entities := [];
    }

    function View(): ArchetypeView
      reads this
    {
      ArchetypeView(tableId, tableComponents, sparseComponents, edges, entities)
    }

    predicate Contains(c: ComponentId)
      reads this
      ensures Contains(c) <==> c in View().Components()
    {
      c in tableComponents || c in sparseComponents
    }

    method Allocate(entity: Entity, tableRow: nat) returns (location: Location)
      modifies this`entities
      ensures entities == old(entities) + [ArchetypeEntity(entity, tableRow)]
      ensures location == Location(id, |old(entities)|, tableId, tableRow)
    {
      location := Location(id, |entities|, tableId, tableRow);
      entities := entities + [ArchetypeEntity(entity, tableRow)];
    }

    method SwapRemove(row: nat) returns (result: SwapRemoveResult)
      requires row < |entities|
      modifies this`entities
      ensures entities == Collections.SwapRemove(old(entities), row)
      ensures result == SwapRemoveResult(SwappedEntity(old(entities), row), old(entities)[row].tableRow)
    {
      var isLast := row == |entities| - 1;
      var entity := entities[row];
      entities := Collections.SwapRemove(entities, row);
      result := SwapRemoveResult(if isLast then None else Some(entities[row].entity), entity.tableRow);
    }

    method SetEntityTableRow(row: nat, tableRow: nat)
      requires row < |entities|
      modifies this`entities
      ensures entities == old(entities)[row := ArchetypeEntity(old(entities)[row].entity, tableRow)]
    {
      entities := entities[row := entities[row].(tableRow := tableRow)];
    }

    method CacheInsert(bundle: BundleId, edge: AfterInsert)
      modifies this`edges
      ensures edges == old(edges).(insertBundle := old(edges).insertBundle[bundle := edge])
    {
      edges := edges.(insertBundle := edges.insertBundle[bundle := edge]);
    }

    method CacheRemove(bundle: BundleId, target: Option<ArchetypeId>)
      modifies this`edges
      ensures edges == old(edges).(removeBundle := old(edges).removeBundle[bundle := target])
    {
      edges := edges.(removeBundle := edges.removeBundle[bundle := target]);
    }

    method CacheTake(bundle: BundleId, target: Option<ArchetypeId>)
      modifies this`edges
      ensures edges == old(edges).(takeBundle := old(edges).takeBundle[bundle := target])
    {
      edges := edges.(takeBundle := edges.takeBundle[bundle := target]);
    }
  }
}

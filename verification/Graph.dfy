/** The archetype graph: which archetypes and tables exist, how they are found by their
    components, and what each memoised edge must say. */
module Graph {
  import opened Collections
  import opened Storage
  import opened Archetypes
  import opened Coherence

  datatype InsertMode = Replace | Keep

  /** Metadata of a registered bundle. `componentIds` lists the explicit components in bundle
      order, then the required ones, one per constructor. */
  datatype BundleInfo = BundleInfo(
    id: BundleId,
    componentIds: seq<ComponentId>,
    constructors: seq<Constructor>,
    explicitLen: nat)
  {
    ghost predicate Ok() {
      && explicitLen + |constructors| == |componentIds|
      && NoDup(componentIds)
      && forall i | 0 <= i < |constructors| :: constructors[i].component == componentIds[explicitLen + i]
    }

    function Explicit(): seq<ComponentId>
      requires explicitLen <= |componentIds|
    {
      componentIds[..explicitLen]
    }

    function Required(): seq<ComponentId>
      requires explicitLen <= |componentIds|
    {
      componentIds[explicitLen..]
    }
  }

  type ComponentKey = (seq<ComponentId>, seq<ComponentId>)

  datatype View = View(
    archs: seq<ArchetypeView>,
    byComponents: map<ComponentKey, ArchetypeId>,
    tables: seq<TableView>,
    tableIds: map<seq<ComponentId>, nat>,
    bundles: seq<BundleInfo>,
    sparse: map<(ComponentId, Entity), Value>,
    locs: map<Entity, Location>)

  // ----- structure -----

  ghost predicate ArchetypeOk(v: View, st: ComponentId -> StorageType, a: nat)
    requires a < |v.archs|
  {
    var arch := v.archs[a];
    && StrictlySorted(arch.tableComponents) && StrictlySorted(arch.sparseComponents)
    && (forall c | c in arch.tableComponents :: st(c) == TableStorage)
    && (forall c | c in arch.sparseComponents :: st(c) == SparseSetStorage)
    && arch.tableId < |v.tables|
    && v.tables[arch.tableId].components == arch.tableComponents
    && (arch.tableComponents, arch.sparseComponents) in v.byComponents
    && v.byComponents[(arch.tableComponents, arch.sparseComponents)] == a
  }

  ghost predicate TableOk(v: View, t: nat)
    requires t < |v.tables|
  {
    v.tables[t].components in v.tableIds && v.tableIds[v.tables[t].components] == t
  }

  ghost predicate BundleAt(v: View, b: nat)
    requires b < |v.bundles|
  {
    v.bundles[b].Ok() && v.bundles[b].id == b
  }

  /** Both lookups are inverse to the archetype and table lists, and the empty archetype is first. */
  ghost predicate StructureOk(v: View, st: ComponentId -> StorageType) {
    && |v.archs| > 0 && v.archs[0].Components() == {}
    && (forall a | 0 <= a < |v.archs| :: ArchetypeOk(v, st, a))
    && (forall k | k in v.byComponents ::
          && v.byComponents[k] < |v.archs|
          && k == (v.archs[v.byComponents[k]].tableComponents, v.archs[v.byComponents[k]].sparseComponents))
    && (forall t | 0 <= t < |v.tables| :: TableOk(v, t))
    && (forall k | k in v.tableIds :: v.tableIds[k] < |v.tables| && v.tables[v.tableIds[k]].components == k)
    && (forall b | 0 <= b < |v.bundles| :: BundleAt(v, b))
  }

  /** A world has one archetype for each combination of components. */
  lemma ArchetypesAreCanonical(v: View, st: ComponentId -> StorageType, a: nat, b: nat)
    requires StructureOk(v, st)
    requires a < |v.archs| && b < |v.archs|
    requires v.archs[a].Components() == v.archs[b].Components()
    ensures a == b
  {
    assert ArchetypeOk(v, st, a) && ArchetypeOk(v, st, b);
    SameComponents(v.archs[a], v.archs[b], st);
  }

  lemma SameComponents(x: ArchetypeView, y: ArchetypeView, st: ComponentId -> StorageType)
    requires StrictlySorted(x.tableComponents) && StrictlySorted(x.sparseComponents)
    requires StrictlySorted(y.tableComponents) && StrictlySorted(y.sparseComponents)
    requires forall c | c in x.tableComponents + y.tableComponents :: st(c) == TableStorage
    requires forall c | c in x.sparseComponents + y.sparseComponents :: st(c) == SparseSetStorage
    requires x.Components() == y.Components()
    ensures x.tableComponents == y.tableComponents && x.sparseComponents == y.sparseComponents
  {
    forall c
      ensures c in x.tableComponents <==> c in y.tableComponents
      ensures c in x.sparseComponents <==> c in y.sparseComponents
    {
      assert c in x.Components() <==> c in y.Components();
      assert c in x.tableComponents ==> c in x.tableComponents + y.tableComponents;
      assert c in y.tableComponents ==> c in x.tableComponents + y.tableComponents;
      assert c in x.sparseComponents ==> c in x.sparseComponents + y.sparseComponents;
      assert c in y.sparseComponents ==> c in x.sparseComponents + y.sparseComponents;
    }
    SortedUnique(x.tableComponents, y.tableComponents);
    SortedUnique(x.sparseComponents, y.sparseComponents);
  }

  /** The table an archetype uses is a function of its table components. */
  lemma TableIsCanonical(v: View, st: ComponentId -> StorageType, a: nat, b: nat)
    requires StructureOk(v, st)
    requires a < |v.archs| && b < |v.archs|
    ensures v.archs[a].tableId == v.archs[b].tableId
       <==> Elems(v.archs[a].tableComponents) == Elems(v.archs[b].tableComponents)
  {
    assert ArchetypeOk(v, st, a) && ArchetypeOk(v, st, b);
    if Elems(v.archs[a].tableComponents) == Elems(v.archs[b].tableComponents) {
      SortedUnique(v.archs[a].tableComponents, v.archs[b].tableComponents);
      assert TableOk(v, v.archs[a].tableId) && TableOk(v, v.archs[b].tableId);
    }
  }

  /** The components of `s` kept in one kind of storage, in order. */
  function OfStorage(s: seq<ComponentId>, st: ComponentId -> StorageType, kind: StorageType): seq<ComponentId> {
    if s == [] then []
    else
      var last := s[|s| - 1];
      OfStorage(s[..|s| - 1], st, kind) + (if st(last) == kind then [last] else [])
  }

  lemma OfStorageElems(s: seq<ComponentId>, st: ComponentId -> StorageType, kind: StorageType)
    ensures forall c :: c in OfStorage(s, st, kind) <==> c in s && st(c) == kind
    ensures NoDup(s) ==> NoDup(OfStorage(s, st, kind))
  {
    if s != [] {
      var front, last := s[..|s| - 1], s[|s| - 1];
      OfStorageElems(front, st, kind);
      assert s == front + [last];
      assert NoDup(s) ==> last !in front;
    }
  }

  lemma OfStorageSnoc(s: seq<ComponentId>, c: ComponentId, st: ComponentId -> StorageType, kind: StorageType)
    ensures OfStorage(s + [c], st, kind) == if st(c) == kind then OfStorage(s, st, kind) + [c]
            else OfStorage(s, st, kind)
  {
    assert (s + [c])[..|s|] == s;
  }

  // ----- edges -----

  /** The constructors of the required components an archetype lacks, in order. */
  function Missing(constructors: seq<Constructor>, have: set<ComponentId>): seq<Constructor> {
    if constructors == [] then []
    else
      var last := constructors[|constructors| - 1];
      Missing(constructors[..|constructors| - 1], have) + (if last.component in have then [] else [last])
  }

  lemma MissingSnoc(constructors: seq<Constructor>, x: Constructor, have: set<ComponentId>)
    ensures Missing(constructors + [x], have)
         == Missing(constructors, have) + (if x.component in have then [] else [x])
  {
    assert (constructors + [x])[..|constructors|] == constructors;
  }

  ghost predicate StatusOk(status: seq<ComponentStatus>, ids: seq<ComponentId>, have: set<ComponentId>) {
    && |status| == |ids|
    && forall i | 0 <= i < |ids| :: status[i] == if ids[i] in have then Existing else Added
  }

  /** The lists an insert edge keeps compare the bundle with the archetype's components. */
  ghost predicate EdgeLists(info: BundleInfo, have: set<ComponentId>, edge: AfterInsert)
    requires info.Ok()
  {
    && StatusOk(edge.bundleStatus, info.Explicit(), have)
    && edge.required == Missing(info.constructors, have)
    && edge.added == Outside(info.Explicit(), have) + Outside(info.Required(), have)
    && edge.existing == Within(info.Explicit(), have)
  }

  /** What recomputing the insertion of `info` into archetype `a` would give. */
  ghost predicate InsertEdgeOk(archs: seq<ArchetypeView>, a: nat, info: BundleInfo, edge: AfterInsert)
    requires a < |archs|
  {
    var have := archs[a].Components();
    && info.Ok()
    && edge.archetypeId < |archs|
    && archs[edge.archetypeId].Components() == have + Elems(info.componentIds)
    && EdgeLists(info, have, edge)
  }

  /** What an edge's lists say of a bundle and an archetype, component by component: the status of each
      explicit component in bundle order, which of the bundle's components are new, which explicit ones
      were there, and the constructors of the required ones that were not, in bundle order. */
  lemma EdgeListsMean(info: BundleInfo, have: set<ComponentId>, edge: AfterInsert)
    requires info.Ok() && EdgeLists(info, have, edge)
    ensures |edge.bundleStatus| == info.explicitLen
    ensures forall i | 0 <= i < info.explicitLen ::
              edge.bundleStatus[i] == if info.componentIds[i] in have then Existing else Added
    ensures InOrderOf(edge.added, info.componentIds)
    ensures forall c :: c in edge.added <==> c in info.componentIds && c !in have
    ensures InOrderOf(edge.existing, info.componentIds[..info.explicitLen])
    ensures forall c :: c in edge.existing <==> c in info.componentIds[..info.explicitLen] && c in have
    ensures forall x :: x in edge.required <==> x in info.constructors && x.component !in have
  {
    var explicit, required := info.Explicit(), info.Required();
    assert info.componentIds == explicit + required && NoDup(explicit) && NoDup(required);
    OutsideConcat(explicit, required, have);
    FiltersKeepOrder(info.componentIds, have);
    OutsideElems(info.componentIds, have);
    FiltersKeepOrder(explicit, have);
    WithinElems(explicit, have);
    assert forall c :: c in edge.added <==> c in Elems(edge.added);
    assert forall c :: c in edge.existing <==> c in Elems(edge.existing);
    MissingElems(info.constructors, have);
  }

  lemma {:induction false} OutsideConcat(a: seq<ComponentId>, b: seq<ComponentId>, drop: set<ComponentId>)
    ensures Outside(a + b, drop) == Outside(a, drop) + Outside(b, drop)
  {
    if b == [] {
      assert a + b == a;
    } else {
      var front, last := b[..|b| - 1], b[|b| - 1];
      OutsideConcat(a, front, drop);
      assert a + b == (a + front) + [last] && b == front + [last];
      OutsideSnoc(a + front, last, drop);
      OutsideSnoc(front, last, drop);
    }
  }

  lemma {:induction false} MissingElems(constructors: seq<Constructor>, have: set<ComponentId>)
    ensures forall x :: x in Missing(constructors, have) <==> x in constructors && x.component !in have
  {
    if constructors != [] {
      var n := |constructors| - 1;
      assert constructors == constructors[..n] + [constructors[n]];
      MissingElems(constructors[..n], have);
    }
  }

  lemma InsertEdgeFound(v: View, w: View, a: nat, info: BundleInfo, edge: AfterInsert, target: ArchetypeId)
    requires Grown(v, w) && a < |v.archs| && target < |w.archs| && info.Ok()
    requires EdgeLists(info, v.archs[a].Components(), edge)
    requires w.archs[target].Components() == v.archs[a].Components() + Elems(info.componentIds)
    ensures InsertEdgeOk(w.archs, a, info, edge.(archetypeId := target))
  {
    assert SameShape(v.archs[a], w.archs[a]);
  }

  /** What recomputing a removal would give: the explicit components present are dropped. */
  ghost predicate RemoveEdgeOk(archs: seq<ArchetypeView>, a: nat, info: BundleInfo, edge: Option<ArchetypeId>)
    requires a < |archs|
  {
    && info.Ok()
    && edge.Some? && edge.value < |archs|
    && archs[edge.value].Components() == archs[a].Components() - Elems(info.Explicit())
  }

  /** What recomputing a take would give: as a removal, but `None` iff an explicit component is absent. */
  ghost predicate TakeEdgeOk(archs: seq<ArchetypeView>, a: nat, info: BundleInfo, edge: Option<ArchetypeId>)
    requires a < |archs|
  {
    && info.Ok()
    && (edge.Some? <==> Elems(info.Explicit()) <= archs[a].Components())
    && (edge.Some? ==> RemoveEdgeOk(archs, a, info, edge))
  }

  lemma RemovalFound(v: View, w: View, a: nat, info: BundleInfo, target: ArchetypeId)
    requires Grown(v, w) && a < |v.archs| && target < |w.archs| && info.Ok()
    requires w.archs[target].Components() == v.archs[a].Components() - Elems(info.Explicit())
    ensures RemoveEdgeOk(w.archs, a, info, Some(target))
    ensures Elems(info.Explicit()) <= v.archs[a].Components() ==> TakeEdgeOk(w.archs, a, info, Some(target))
  {
    assert SameShape(v.archs[a], w.archs[a]);
  }

  ghost predicate EdgesRight(v: View, a: nat, edges: Edges)
    requires a < |v.archs|
  {
    && (forall b | b in edges.insertBundle ::
          b < |v.bundles| && InsertEdgeOk(v.archs, a, v.bundles[b], edges.insertBundle[b]))
    && (forall b | b in edges.removeBundle ::
          b < |v.bundles| && RemoveEdgeOk(v.archs, a, v.bundles[b], edges.removeBundle[b]))
    && (forall b | b in edges.takeBundle ::
          b < |v.bundles| && TakeEdgeOk(v.archs, a, v.bundles[b], edges.takeBundle[b]))
  }

  ghost predicate EdgesOf(v: View, a: nat)
    requires a < |v.archs|
  {
    EdgesRight(v, a, v.archs[a].edges)
  }

  ghost predicate EdgesOk(v: View) {
    forall a | 0 <= a < |v.archs| :: EdgesOf(v, a)
  }

  ghost predicate GraphOk(v: View, st: ComponentId -> StorageType) {
    StructureOk(v, st) && EdgesOk(v)
  }

  // ----- growth -----

  ghost predicate SameShape(x: ArchetypeView, y: ArchetypeView) {
    && x.tableId == y.tableId && x.tableComponents == y.tableComponents
    && x.sparseComponents == y.sparseComponents && x.entities == y.entities
  }

  /** Graph operations only append empty archetypes and tables, bundles, and edges. */
  ghost predicate Grown(v: View, w: View) {
    && |v.archs| <= |w.archs| && |v.tables| <= |w.tables| && v.bundles <= w.bundles
    && (forall a | 0 <= a < |v.archs| :: SameShape(v.archs[a], w.archs[a]))
    && (forall a | |v.archs| <= a < |w.archs| :: w.archs[a].entities == [])
    && (forall t | 0 <= t < |v.tables| :: v.tables[t] == w.tables[t])
    && (forall t | |v.tables| <= t < |w.tables| :: w.tables[t].rows == [])
    && v.sparse == w.sparse && v.locs == w.locs
  }

  /** An edge of one view is right in every grown view: archetypes are never cleaned up. */
  lemma EdgesSurviveGrowth(v: View, w: View, a: nat)
    requires a < |v.archs| && EdgesOf(v, a)
    requires Grown(v, w)
    requires w.archs[a].edges == v.archs[a].edges
    ensures EdgesOf(w, a)
  {
    assert forall i | 0 <= i < |v.archs| :: SameShape(v.archs[i], w.archs[i])
                                            && v.archs[i].Components() == w.archs[i].Components();
  }

  /** A cached insert edge leads to the one archetype with the union of the components, so it is
      the answer a fresh computation would give, however much the graph has grown since. */
  lemma CachedInsertIsRecomputed(v: View, st: ComponentId -> StorageType, a: nat, b: BundleId, target: ArchetypeId)
    requires GraphOk(v, st)
    requires a < |v.archs| && b in v.archs[a].edges.insertBundle
    requires b < |v.bundles| && target < |v.archs|
    requires v.archs[target].Components() == v.archs[a].Components() + Elems(v.bundles[b].componentIds)
    ensures v.archs[a].edges.insertBundle[b].archetypeId == target
  {
    assert EdgesOf(v, a);
    ArchetypesAreCanonical(v, st, v.archs[a].edges.insertBundle[b].archetypeId, target);
  }

  /** Likewise for the remove and take edges, which agree with each other when both succeed. */
  lemma CachedRemovalIsRecomputed(v: View, st: ComponentId -> StorageType, a: nat, b: BundleId, target: ArchetypeId)
    requires GraphOk(v, st)
    requires a < |v.archs| && b < |v.bundles| && target < |v.archs|
    requires v.bundles[b].Ok()
    requires v.archs[target].Components() == v.archs[a].Components() - Elems(v.bundles[b].Explicit())
    ensures b in v.archs[a].edges.removeBundle ==> v.archs[a].edges.removeBundle[b] == Some(target)
    ensures b in v.archs[a].edges.takeBundle ==>
              v.archs[a].edges.takeBundle[b]
              == if Elems(v.bundles[b].Explicit()) <= v.archs[a].Components() then Some(target) else None
  {
    assert EdgesOf(v, a);
    if b in v.archs[a].edges.removeBundle {
      ArchetypesAreCanonical(v, st, v.archs[a].edges.removeBundle[b].value, target);
    }
    if b in v.archs[a].edges.takeBundle && v.archs[a].edges.takeBundle[b].Some? {
      ArchetypesAreCanonical(v, st, v.archs[a].edges.takeBundle[b].value, target);
    }
  }

  /** What a cached removal answers: `None` exactly when something to be taken is absent, and the
      archetype itself exactly when nothing would be removed. */
  lemma RemovalAnswer(v: View, st: ComponentId -> StorageType, a: nat, b: BundleId, intersection: bool,
                      answer: Option<ArchetypeId>)
    requires GraphOk(v, st) && a < |v.archs| && b < |v.bundles|
    requires if intersection then b in v.archs[a].edges.removeBundle && v.archs[a].edges.removeBundle[b] == answer
             else b in v.archs[a].edges.takeBundle && v.archs[a].edges.takeBundle[b] == answer
    ensures v.bundles[b].Ok()
    ensures var have, explicit := v.archs[a].Components(), Elems(v.bundles[b].Explicit());
            && (answer.None? <==> !intersection && !(explicit <= have))
            && (answer.Some? ==>
                  && answer.value < |v.archs|
                  && v.archs[answer.value].Components() == have - explicit
                  && (answer.value == a <==> have * explicit == {}))
  {
    assert BundleAt(v, b) && EdgesOf(v, a);
    var have, explicit := v.archs[a].Components(), Elems(v.bundles[b].Explicit());
    if answer.Some? && have * explicit == {} {
      forall c | c in have
        ensures c !in explicit
      {
        assert c !in have * explicit;
      }
      ArchetypesAreCanonical(v, st, answer.value, a);
    }
  }

  /** Inserting a bundle without required components into an archetype that has none of its
      components, and later removing or taking it, leads back to the same archetype id, from
      every later state of the graph. */
  lemma InsertThenRemoveReturns(v: View, w: View, st: ComponentId -> StorageType, a: nat, b: BundleId)
    requires GraphOk(v, st) && GraphOk(w, st) && Grown(v, w)
    requires a < |v.archs| && b in v.archs[a].edges.insertBundle
    requires b < |v.bundles| && v.bundles[b].constructors == []
    requires Elems(v.bundles[b].componentIds) !! v.archs[a].Components()
    ensures var t := v.archs[a].edges.insertBundle[b].archetypeId;
            && t < |w.archs|
            && (b in w.archs[t].edges.removeBundle ==> w.archs[t].edges.removeBundle[b] == Some(a))
            && (b in w.archs[t].edges.takeBundle ==> w.archs[t].edges.takeBundle[b] == Some(a))
  {
    assert EdgesOf(v, a);
    var t := v.archs[a].edges.insertBundle[b].archetypeId;
    var info := v.bundles[b];
    assert info.Explicit() == info.componentIds;
    assert w.bundles[b] == info;
    assert SameShape(v.archs[a], w.archs[a]) && SameShape(v.archs[t], w.archs[t]);
    assert w.archs[t].Components() == w.archs[a].Components() + Elems(info.componentIds);
    assert w.archs[a].Components() == w.archs[t].Components() - Elems(info.Explicit());
    CachedRemovalIsRecomputed(w, st, t, b, a);
  }

  // ----- the ways a graph grows -----

  lemma GrownIsTransitive(u: View, v: View, w: View)
    requires Grown(u, v) && Grown(v, w)
    ensures Grown(u, w)
  {
    forall a | 0 <= a < |u.archs|
      ensures SameShape(u.archs[a], w.archs[a])
    {
      assert SameShape(u.archs[a], v.archs[a]) && SameShape(v.archs[a], w.archs[a]);
    }
    forall a | |u.archs| <= a < |w.archs|
      ensures w.archs[a].entities == []
    {
      assert a < |v.archs| ==> SameShape(v.archs[a], w.archs[a]);
    }
  }

  function TableAppended(v: View, components: seq<ComponentId>): View {
    v.(tables := v.tables + [TableView(components, [])], tableIds := v.tableIds[components := |v.tables|])
  }

  lemma TableAppendedIsOk(v: View, st: ComponentId -> StorageType, components: seq<ComponentId>)
    requires GraphOk(v, st) && components !in v.tableIds
    ensures GraphOk(TableAppended(v, components), st) && Grown(v, TableAppended(v, components))
  {
    var w := TableAppended(v, components);
    forall a | 0 <= a < |w.archs|
      ensures ArchetypeOk(w, st, a) && EdgesOf(w, a)
    {
      assert ArchetypeOk(v, st, a) && EdgesOf(v, a);
    }
    forall t | 0 <= t < |w.tables|
      ensures TableOk(w, t)
    {
      assert t < |v.tables| ==> TableOk(v, t);
    }
    forall b | 0 <= b < |w.bundles|
      ensures BundleAt(w, b)
    {
      assert BundleAt(v, b);
    }
  }

  function ArchetypeAppended(v: View, tableId: nat, tc: seq<ComponentId>, sc: seq<ComponentId>): View {
    v.(archs := v.archs + [ArchetypeView(tableId, tc, sc, Edges(map[], map[], map[]), [])],
       byComponents := v.byComponents[(tc, sc) := |v.archs|])
  }

  /** What an archetype with these components must satisfy to join the graph. */
  ghost predicate Admissible(v: View, st: ComponentId -> StorageType, tableId: nat, tc: seq<ComponentId>,
                             sc: seq<ComponentId>)
  {
    && StrictlySorted(tc) && StrictlySorted(sc)
    && (forall c | c in tc :: st(c) == TableStorage)
    && (forall c | c in sc :: st(c) == SparseSetStorage)
    && tableId < |v.tables| && v.tables[tableId].components == tc
  }

  lemma ArchetypeAppendedIsOk(v: View, st: ComponentId -> StorageType, tableId: nat, tc: seq<ComponentId>,
                              sc: seq<ComponentId>)
    requires GraphOk(v, st) && Admissible(v, st, tableId, tc, sc) && (tc, sc) !in v.byComponents
    ensures GraphOk(ArchetypeAppended(v, tableId, tc, sc), st) && Grown(v, ArchetypeAppended(v, tableId, tc, sc))
  {
    var w := ArchetypeAppended(v, tableId, tc, sc);
    assert Grown(v, w);
    forall a | 0 <= a < |w.archs|
      ensures ArchetypeOk(w, st, a) && EdgesOf(w, a)
    {
      if a < |v.archs| {
        assert ArchetypeOk(v, st, a);
        EdgesSurviveGrowth(v, w, a);
      }
    }
    forall t | 0 <= t < |w.tables|
      ensures TableOk(w, t)
    {
      assert TableOk(v, t);
    }
    forall b | 0 <= b < |w.bundles|
      ensures BundleAt(w, b)
    {
      assert BundleAt(v, b);
    }
  }

  function BundleAppended(v: View, info: BundleInfo): View {
    v.(bundles := v.bundles + [info])
  }

  lemma BundleAppendedIsOk(v: View, st: ComponentId -> StorageType, info: BundleInfo)
    requires GraphOk(v, st) && info.Ok() && info.id == |v.bundles|
    ensures GraphOk(BundleAppended(v, info), st) && Grown(v, BundleAppended(v, info))
  {
    var w := BundleAppended(v, info);
    assert Grown(v, w);
    forall a | 0 <= a < |w.archs|
      ensures ArchetypeOk(w, st, a) && EdgesOf(w, a)
    {
      assert ArchetypeOk(v, st, a) && EdgesOf(v, a);
      EdgesSurviveGrowth(v, w, a);
    }
    forall t | 0 <= t < |w.tables|
      ensures TableOk(w, t)
    {
      assert TableOk(v, t);
    }
    forall b | 0 <= b < |w.bundles|
      ensures BundleAt(w, b)
    {
      assert b < |v.bundles| ==> BundleAt(v, b);
    }
  }

  function EdgesSet(v: View, a: nat, edges: Edges): View
    requires a < |v.archs|
  {
    v.(archs := v.archs[a := v.archs[a].(edges := edges)])
  }

  lemma EdgesSetIsOk(v: View, st: ComponentId -> StorageType, a: nat, edges: Edges)
    requires GraphOk(v, st) && a < |v.archs|
    requires EdgesOf(EdgesSet(v, a, edges), a)
    ensures GraphOk(EdgesSet(v, a, edges), st) && Grown(v, EdgesSet(v, a, edges))
  {
    var w := EdgesSet(v, a, edges);
    assert Grown(v, w);
    forall i | 0 <= i < |w.archs|
      ensures ArchetypeOk(w, st, i) && EdgesOf(w, i)
    {
      assert ArchetypeOk(v, st, i) && EdgesOf(v, i);
      if i != a {
        EdgesSurviveGrowth(v, w, i);
      }
    }
    forall t | 0 <= t < |w.tables|
      ensures TableOk(w, t)
    {
      assert TableOk(v, t);
    }
    forall b | 0 <= b < |w.bundles|
      ensures BundleAt(w, b)
    {
      assert BundleAt(v, b);
    }
  }

  // The three ways one edge is cached; the edge may be checked against the graph as it was,
  // since caching changes no components.

  lemma InsertEdgeCached(v: View, st: ComponentId -> StorageType, a: nat, b: BundleId, edge: AfterInsert)
    requires GraphOk(v, st) && a < |v.archs| && b < |v.bundles|
    requires InsertEdgeOk(v.archs, a, v.bundles[b], edge)
    ensures var w := EdgesSet(v, a, v.archs[a].edges.(insertBundle := v.archs[a].edges.insertBundle[b := edge]));
            GraphOk(w, st) && Grown(v, w)
  {
    var edges := v.archs[a].edges.(insertBundle := v.archs[a].edges.insertBundle[b := edge]);
    assert EdgesOf(v, a);
    CachedOverOldEdges(v, a, edges);
    EdgesSetIsOk(v, st, a, edges);
  }

  lemma RemoveEdgeCached(v: View, st: ComponentId -> StorageType, a: nat, b: BundleId, edge: Option<ArchetypeId>)
    requires GraphOk(v, st) && a < |v.archs| && b < |v.bundles|
    requires RemoveEdgeOk(v.archs, a, v.bundles[b], edge)
    ensures var w := EdgesSet(v, a, v.archs[a].edges.(removeBundle := v.archs[a].edges.removeBundle[b := edge]));
            GraphOk(w, st) && Grown(v, w)
  {
    var edges := v.archs[a].edges.(removeBundle := v.archs[a].edges.removeBundle[b := edge]);
    assert EdgesOf(v, a);
    CachedOverOldEdges(v, a, edges);
    EdgesSetIsOk(v, st, a, edges);
  }

  lemma TakeEdgeCached(v: View, st: ComponentId -> StorageType, a: nat, b: BundleId, edge: Option<ArchetypeId>)
    requires GraphOk(v, st) && a < |v.archs| && b < |v.bundles|
    requires TakeEdgeOk(v.archs, a, v.bundles[b], edge)
    ensures var w := EdgesSet(v, a, v.archs[a].edges.(takeBundle := v.archs[a].edges.takeBundle[b := edge]));
            GraphOk(w, st) && Grown(v, w)
  {
    var edges := v.archs[a].edges.(takeBundle := v.archs[a].edges.takeBundle[b := edge]);
    assert EdgesOf(v, a);
    CachedOverOldEdges(v, a, edges);
    EdgesSetIsOk(v, st, a, edges);
  }

  /** Setting the edges of `a` to edges that are right for the components keeps them right. */
  /** Whether edges are right depends only on the components of archetypes and on the bundles. */
  lemma EdgesRightAlike(v: View, w: View, a: nat, edges: Edges)
    requires a < |v.archs| == |w.archs| && v.bundles == w.bundles
    requires forall i | 0 <= i < |v.archs| :: v.archs[i].Components() == w.archs[i].Components()
    requires EdgesRight(v, a, edges)
    ensures EdgesRight(w, a, edges)
  {
    forall b | b in edges.insertBundle
      ensures InsertEdgeOk(w.archs, a, w.bundles[b], edges.insertBundle[b])
    {
      assert InsertEdgeOk(v.archs, a, v.bundles[b], edges.insertBundle[b]);
    }
    forall b | b in edges.takeBundle
      ensures TakeEdgeOk(w.archs, a, w.bundles[b], edges.takeBundle[b])
    {
      assert TakeEdgeOk(v.archs, a, v.bundles[b], edges.takeBundle[b]);
    }
  }

  lemma CachedOverOldEdges(v: View, a: nat, edges: Edges)
    requires a < |v.archs| && EdgesRight(v, a, edges)
    ensures EdgesOf(EdgesSet(v, a, edges), a)
  {
    EdgesRightAlike(v, EdgesSet(v, a, edges), a, edges);
  }

  // ----- the components of a neighbouring archetype -----

  /** A sorted component list with new components merged in; sorted to ignore order while hashing. */
  function Merged(newIds: seq<ComponentId>, ids: seq<ComponentId>): seq<ComponentId> {
    if newIds == [] then ids else Sort(newIds + ids)
  }

  lemma MergedIsUnion(added: seq<ComponentId>, ids: seq<ComponentId>, st: ComponentId -> StorageType, kind: StorageType)
    requires NoDup(added) && StrictlySorted(ids) && Elems(added) !! Elems(ids)
    requires forall c | c in ids :: st(c) == kind
    ensures var merged := Merged(OfStorage(added, st, kind), ids);
            && StrictlySorted(merged) && (forall c | c in merged :: st(c) == kind)
            && Elems(merged) == Elems(OfStorage(added, st, kind)) + Elems(ids)
  {
    var newIds := OfStorage(added, st, kind);
    OfStorageElems(added, st, kind);
    if newIds != [] {
      assert Elems(newIds) <= Elems(added);
      NoDupConcat(newIds, ids);
      SortSorts(newIds + ids);
      SortElems(newIds + ids);
      forall c | c in Sort(newIds + ids)
        ensures st(c) == kind
      {
        assert c in Elems(newIds) + Elems(ids);
      }
    }
  }

  lemma OfStorageSplits(s: seq<ComponentId>, st: ComponentId -> StorageType)
    ensures Elems(OfStorage(s, st, TableStorage)) + Elems(OfStorage(s, st, SparseSetStorage)) == Elems(s)
  {
    OfStorageElems(s, st, TableStorage);
    OfStorageElems(s, st, SparseSetStorage);
  }

  /** The components an insertion adds, merged by storage type, lead to the union. */
  lemma InsertionTarget(arch: ArchetypeView, st: ComponentId -> StorageType, info: BundleInfo, added: seq<ComponentId>)
    requires StrictlySorted(arch.tableComponents) && StrictlySorted(arch.sparseComponents)
    requires forall c | c in arch.tableComponents :: st(c) == TableStorage
    requires forall c | c in arch.sparseComponents :: st(c) == SparseSetStorage
    requires info.Ok()
    requires added == Outside(info.Explicit(), arch.Components()) + Outside(info.Required(), arch.Components())
    ensures var tc := Merged(OfStorage(added, st, TableStorage), arch.tableComponents);
            var sc := Merged(OfStorage(added, st, SparseSetStorage), arch.sparseComponents);
            && StrictlySorted(tc) && StrictlySorted(sc)
            && (forall c | c in tc :: st(c) == TableStorage)
            && (forall c | c in sc :: st(c) == SparseSetStorage)
            && Elems(tc) + Elems(sc) == arch.Components() + Elems(info.componentIds)
  {
    AddedComponents(info, arch.Components());
    MergedIsUnion(added, arch.tableComponents, st, TableStorage);
    MergedIsUnion(added, arch.sparseComponents, st, SparseSetStorage);
    OfStorageSplits(added, st);
  }

  lemma AddedComponents(info: BundleInfo, have: set<ComponentId>)
    requires info.Ok()
    ensures var added := Outside(info.Explicit(), have) + Outside(info.Required(), have);
            NoDup(added) && Elems(added) == Elems(info.componentIds) - have
  {
    BundleComponents(info);
    OutsideNoDup(info.Explicit(), have);
    OutsideNoDup(info.Required(), have);
    OutsideElems(info.Explicit(), have);
    OutsideElems(info.Required(), have);
    NoDupConcat(Outside(info.Explicit(), have), Outside(info.Required(), have));
  }

  lemma BundleComponents(info: BundleInfo)
    requires info.Ok()
    ensures NoDup(info.Explicit()) && NoDup(info.Required())
    ensures Elems(info.Explicit()) !! Elems(info.Required())
    ensures Elems(info.componentIds) == Elems(info.Explicit()) + Elems(info.Required())
  {
    assert info.componentIds == info.Explicit() + info.Required();
  }

  /** Dropping the removed components of each storage type leads to the difference. */
  lemma RemovalTarget(arch: ArchetypeView, st: ComponentId -> StorageType, removed: seq<ComponentId>)
    requires StrictlySorted(arch.tableComponents) && StrictlySorted(arch.sparseComponents)
    requires forall c | c in arch.tableComponents :: st(c) == TableStorage
    requires forall c | c in arch.sparseComponents :: st(c) == SparseSetStorage
    ensures var tc := Outside(arch.tableComponents, Elems(OfStorage(removed, st, TableStorage)));
            var sc := Outside(arch.sparseComponents, Elems(OfStorage(removed, st, SparseSetStorage)));
            && StrictlySorted(tc) && StrictlySorted(sc)
            && (forall c | c in tc :: st(c) == TableStorage)
            && (forall c | c in sc :: st(c) == SparseSetStorage)
            && Elems(tc) + Elems(sc) == arch.Components() - Elems(removed)
            && (OfStorage(removed, st, TableStorage) == [] ==> tc == arch.tableComponents)
  {
    var rt, rs := OfStorage(removed, st, TableStorage), OfStorage(removed, st, SparseSetStorage);
    OfStorageElems(removed, st, TableStorage);
    OfStorageElems(removed, st, SparseSetStorage);
    OutsideSorted(arch.tableComponents, Elems(rt));
    OutsideSorted(arch.sparseComponents, Elems(rs));
    OutsideElems(arch.tableComponents, Elems(rt));
    OutsideElems(arch.sparseComponents, Elems(rs));
    var tc, sc := Outside(arch.tableComponents, Elems(rt)), Outside(arch.sparseComponents, Elems(rs));
    forall c
      ensures c in tc <==> c in arch.tableComponents && c !in removed
      ensures c in sc <==> c in arch.sparseComponents && c !in removed
    {
      assert c in Elems(tc) <==> c in Elems(arch.tableComponents) - Elems(rt);
      assert c in Elems(sc) <==> c in Elems(arch.sparseComponents) - Elems(rs);
    }
    if rt == [] {
      OutsideNothing(arch.tableComponents);
    }
  }
}

/** What a world of archetypes and tables means: one map from entity and component to value. */
module Meaning {
  import opened Collections
  import opened Storage
  import opened Archetypes
  import opened Coherence
  import opened Graph

  ghost predicate Coherent(v: View) {
    ArchetypesCoherent(v.archs, v.locs) && TablesCoherent(v.tables, v.locs)
  }

  /** The row where an entity's table components are stored. */
  ghost predicate HasRow(v: View, e: Entity) {
    e in v.locs && InArchetype(v.archs, v.locs[e], e) && InTable(v.tables, v.locs[e], e)
  }

  ghost function ArchOf(v: View, e: Entity): ArchetypeView
    requires HasRow(v, e)
  {
    v.archs[v.locs[e].archetypeId]
  }

  ghost function CellsOf(v: View, e: Entity): map<ComponentId, Value>
    requires HasRow(v, e)
  {
    v.tables[v.locs[e].tableId].rows[v.locs[e].tableRow].cells
  }

  /** An entity's initialised storage is exactly its archetype's components: every table column
      of its row holds a value, and so does every sparse set of its archetype. */
  ghost predicate Initialised(v: View, e: Entity)
    requires HasRow(v, e)
  {
    && CellsOf(v, e).Keys == Elems(ArchOf(v, e).tableComponents)
    && forall c :: c in ArchOf(v, e).sparseComponents <==> (c, e) in v.sparse
  }

  ghost predicate SparseOwned(v: View) {
    forall k | k in v.sparse :: k.1 in v.locs
  }

  ghost predicate AllInitialised(v: View) {
    && SparseOwned(v)
    && forall e | e in v.locs :: HasRow(v, e) && Initialised(v, e)
  }

  ghost predicate WorldOk(v: View, st: ComponentId -> StorageType) {
    GraphOk(v, st) && Coherent(v) && AllInitialised(v)
  }

  ghost function Fetch(v: View, e: Entity, c: ComponentId): Value
    requires HasRow(v, e) && Initialised(v, e) && c in ArchOf(v, e).Components()
  {
    if c in ArchOf(v, e).tableComponents then CellsOf(v, e)[c] else v.sparse[(c, e)]
  }

  ghost function ValuesOf(v: View, e: Entity): map<ComponentId, Value>
    requires HasRow(v, e) && Initialised(v, e)
  {
    map c | c in ArchOf(v, e).Components() :: Fetch(v, e, c)
  }

  /** The meaning of a world: the values of every entity, wherever they are stored. */
  ghost function Model(v: View): map<Entity, map<ComponentId, Value>>
    requires AllInitialised(v)
  {
    map e | e in v.locs :: ValuesOf(v, e)
  }

  lemma ModelAt(v: View, e: Entity)
    requires AllInitialised(v) && e in v.locs
    ensures HasRow(v, e) && Initialised(v, e) && e in Model(v) && Model(v)[e] == ValuesOf(v, e)
  {
  }

  /** An operation that leaves an entity's archetype components, row and sparse values alone
      leaves its meaning alone. */
  lemma SameStorageSameValues(v: View, w: View, e: Entity)
    requires HasRow(v, e) && Initialised(v, e)
    requires HasRow(w, e)
    requires ArchOf(v, e).tableComponents == ArchOf(w, e).tableComponents
    requires ArchOf(v, e).sparseComponents == ArchOf(w, e).sparseComponents
    requires CellsOf(v, e) == CellsOf(w, e)
    requires forall c :: (c, e) in v.sparse <==> (c, e) in w.sparse
    requires forall c | (c, e) in v.sparse :: v.sparse[(c, e)] == w.sparse[(c, e)]
    ensures Initialised(w, e)
    ensures ValuesOf(w, e) == ValuesOf(v, e)
  {
    assert Initialised(w, e);
    forall c | c in ArchOf(v, e).Components()
      ensures Fetch(v, e, c) == Fetch(w, e, c)
    {
    }
  }

  lemma GrowthPreservesCoherence(v: View, w: View)
    requires Coherent(v) && Grown(v, w)
    ensures Coherent(w)
  {
    forall e | e in w.locs
      ensures InArchetype(w.archs, w.locs[e], e) && InTable(w.tables, w.locs[e], e)
    {
      assert InArchetype(v.archs, v.locs[e], e) && InTable(v.tables, v.locs[e], e);
      assert SameShape(v.archs[v.locs[e].archetypeId], w.archs[v.locs[e].archetypeId]);
    }
    forall a, r | 0 <= a < |w.archs| && 0 <= r < |w.archs[a].entities|
      ensures var e := w.archs[a].entities[r].entity;
              e in w.locs && w.locs[e].archetypeId == a && w.locs[e].archetypeRow == r
    {
      assert a < |v.archs| && SameShape(v.archs[a], w.archs[a]);
    }
    forall t, r | 0 <= t < |w.tables| && 0 <= r < |w.tables[t].rows|
      ensures var e := w.tables[t].rows[r].entity;
              e in w.locs && w.locs[e].tableId == t && w.locs[e].tableRow == r
    {
      assert t < |v.tables| && v.tables[t] == w.tables[t];
    }
  }

  lemma GrowthPreservesValues(v: View, w: View, e: Entity)
    requires Grown(v, w) && HasRow(v, e) && Initialised(v, e)
    ensures HasRow(w, e) && Initialised(w, e) && ValuesOf(w, e) == ValuesOf(v, e)
  {
    assert SameShape(v.archs[v.locs[e].archetypeId], w.archs[v.locs[e].archetypeId]);
    SameStorageSameValues(v, w, e);
  }

  /** Growing the graph moves nobody and means nothing. */
  lemma GrowthPreservesMeaning(v: View, w: View, st: ComponentId -> StorageType)
    requires WorldOk(v, st) && GraphOk(w, st) && Grown(v, w)
    ensures WorldOk(w, st) && Model(w) == Model(v)
  {
    GrowthPreservesCoherence(v, w);
    GrowthPreservesInitialised(v, w);
  }

  lemma GrowthPreservesInitialised(v: View, w: View)
    requires AllInitialised(v) && Grown(v, w)
    ensures AllInitialised(w) && Model(w) == Model(v)
  {
    forall e | e in w.locs
      ensures HasRow(w, e) && Initialised(w, e) && ValuesOf(w, e) == ValuesOf(v, e)
    {
      assert HasRow(v, e) && Initialised(v, e);
      GrowthPreservesValues(v, w, e);
    }
    MapsAgree(Model(w), Model(v));
  }

  // ----- what writing a bundle means -----

  /** The writes of the first `n` explicit components: an existing value is only overwritten in
      mode Replace. */
  function ExplicitWrites(ids: seq<ComponentId>, status: seq<ComponentStatus>, values: seq<Value>, mode: InsertMode,
                          n: nat)
    : (w: map<ComponentId, Value>)
    requires n <= |ids| && n <= |status| && n <= |values|
  {
    if n == 0 then map[]
    else
      var w := ExplicitWrites(ids, status, values, mode, n - 1);
      if status[n - 1] == Added || mode == Replace then w[ids[n - 1] := values[n - 1]] else w
  }

  function RequiredWrites(required: seq<Constructor>, n: nat): (w: map<ComponentId, Value>)
    requires n <= |required|
  {
    if n == 0 then map[]
    else RequiredWrites(required, n - 1)[required[n - 1].component := required[n - 1].value]
  }

  /** The bundle's own values, as a map. */
  function BundleValues(ids: seq<ComponentId>, values: seq<Value>): map<ComponentId, Value>
    requires |ids| == |values|
  {
    ExplicitWrites(ids, seq(|ids|, _ => Added), values, Replace, |ids|)
  }

  function RequiredValues(constructors: seq<Constructor>): map<ComponentId, Value> {
    RequiredWrites(constructors, |constructors|)
  }

  /** The meaning of inserting a bundle on an entity that has the values `m`: constructors only
      supply what is missing, and the bundle wins over existing values in mode Replace only. */
  function Inserted(m: map<ComponentId, Value>, info: BundleInfo, values: seq<Value>, mode: InsertMode)
    : map<ComponentId, Value>
    requires info.explicitLen <= |info.componentIds| && |values| == info.explicitLen
  {
    var bundle := BundleValues(info.Explicit(), values);
    match mode
    case Replace => RequiredValues(info.constructors) + m + bundle
    case Keep => RequiredValues(info.constructors) + bundle + m
  }

  /** `m'` is `m` after inserting a bundle on entity `e`, and nothing else. */
  ghost predicate InsertedAt(m: map<Entity, map<ComponentId, Value>>, m': map<Entity, map<ComponentId, Value>>,
                             e: Entity,
                             info: BundleInfo, values: seq<Value>, mode: InsertMode)
  {
    && e in m && info.Ok() && |values| == info.explicitLen
    && m' == m[e := Inserted(m[e], info, values, mode)]
  }

  /** `m'` is `m` after removing a bundle's explicit components from entity `e`, and nothing else. */
  ghost predicate RemovedAt(m: map<Entity, map<ComponentId, Value>>, m': map<Entity, map<ComponentId, Value>>,
                            e: Entity,
                            info: BundleInfo)
  {
    && e in m && info.Ok()
    && m' == m[e := m[e] - Elems(info.Explicit())]
  }

  /** `m'` is `m` plus the new entity `e` holding exactly a bundle and what it requires. */
  ghost predicate SpawnedAt(m: map<Entity, map<ComponentId, Value>>, m': map<Entity, map<ComponentId, Value>>,
                            e: Entity,
                            info: BundleInfo, values: seq<Value>)
  {
    && e !in m && info.Ok() && |values| == info.explicitLen
    && m' == m[e := Inserted(map[], info, values, Replace)]
  }

  lemma ExplicitWritesAt(ids: seq<ComponentId>, status: seq<ComponentStatus>, values: seq<Value>, mode: InsertMode,
                         n: nat)
    requires NoDup(ids) && n <= |ids| && n <= |status| && n <= |values|
    ensures var w := ExplicitWrites(ids, status, values, mode, n);
            && (forall i | 0 <= i < n :: ids[i] in w <==> status[i] == Added || mode == Replace)
            && (forall i | 0 <= i < n && ids[i] in w :: w[ids[i]] == values[i])
            && (forall c | c in w :: c in ids[..n])
  {
    if n > 0 {
      ExplicitWritesAt(ids, status, values, mode, n - 1);
      var w, last := ExplicitWrites(ids, status, values, mode, n - 1), ids[n - 1];
      assert ids[..n] == ids[..n - 1] + [last];
      assert last !in ids[..n - 1] && last !in w;
      var w' := ExplicitWrites(ids, status, values, mode, n);
      assert w' == if status[n - 1] == Added || mode == Replace then w[last := values[n - 1]] else w;
      forall i | 0 <= i < n
        ensures ids[i] in w' <==> status[i] == Added || mode == Replace
        ensures ids[i] in w' ==> w'[ids[i]] == values[i]
      {
        assert i < n - 1 ==> ids[i] != last && (ids[i] in w <==> status[i] == Added || mode == Replace);
      }
    }
  }

  lemma RequiredWritesKeys(required: seq<Constructor>, ids: seq<ComponentId>, n: nat)
    requires n <= |required| == |ids|
    requires forall i | 0 <= i < |ids| :: required[i].component == ids[i]
    ensures RequiredWrites(required, n).Keys == Elems(ids[..n])
  {
    if n > 0 {
      RequiredWritesKeys(required, ids, n - 1);
      assert ids[..n] == ids[..n - 1] + [ids[n - 1]];
    }
  }

  lemma RequiredWritesFresh(required: seq<Constructor>, i: nat, w: map<ComponentId, Value>)
    requires i < |required| && RequiredValues(required).Keys !! w.Keys
    requires forall p, q | 0 <= p < q < |required| :: required[p].component != required[q].component
    ensures required[i].component !in w && required[i].component !in RequiredWrites(required, i)
  {
    var ids := seq(|required|, k requires 0 <= k < |required| => required[k].component);
    RequiredWritesKeys(required, ids, i);
    RequiredWritesKeys(required, ids, |required|);
    assert ids[i] in Elems(ids[..|required|]);
  }

  /** One more required write on top of other writes that do not touch required components. */
  lemma RequiredWritesNext(required: seq<Constructor>, i: nat, w: map<ComponentId, Value>)
    requires i < |required| && RequiredValues(required).Keys !! w.Keys
    requires forall p, q | 0 <= p < q < |required| :: required[p].component != required[q].component
    ensures required[i].component !in w + RequiredWrites(required, i)
    ensures (w + RequiredWrites(required, i))[required[i].component := required[i].value]
            == w + RequiredWrites(required, i + 1)
  {
    RequiredWritesFresh(required, i, w);
    var before, c := RequiredWrites(required, i), required[i].component;
    assert RequiredWrites(required, i + 1) == before[c := required[i].value];
    MapUpdatedAt(w + before, w + before[c := required[i].value], c, required[i].value);
  }

  /** The constructors an edge keeps write exactly what all of them would, minus what is there. */
  lemma MissingWrites(required: seq<Constructor>, have: set<ComponentId>)
    ensures RequiredValues(Missing(required, have)) == RequiredValues(required) - have
  {
    if required != [] {
      var n := |required| - 1;
      var front, last := required[..n], required[n];
      assert required == front + [last];
      MissingSnoc(front, last, have);
      MissingWrites(front, have);
      RequiredWritesSnoc(front, last);
      RequiredWritesSnoc(Missing(front, have), last);
      if last.component in have {
        assert Missing(required, have) == Missing(front, have);
      }
    }
  }

  lemma RequiredWritesSnoc(required: seq<Constructor>, last: Constructor)
    ensures RequiredValues(required + [last]) == RequiredValues(required)[last.component := last.value]
  {
    RequiredWritesPrefix(required, last, |required|);
  }

  lemma RequiredWritesPrefix(required: seq<Constructor>, last: Constructor, n: nat)
    requires n <= |required|
    ensures RequiredWrites(required + [last], n) == RequiredWrites(required, n)
  {
  }

  lemma RequiredAreNotExplicit(info: BundleInfo)
    requires info.Ok()
    ensures RequiredValues(info.constructors).Keys == Elems(info.Required())
    ensures Elems(info.Required()) !! Elems(info.Explicit())
    ensures Elems(info.componentIds) == Elems(info.Explicit()) + Elems(info.Required())
  {
    var ids := info.Required();
    BundleComponents(info);
    forall i | 0 <= i < |ids|
      ensures ids[i] == info.constructors[i].component
    {
      assert ids[i] == info.componentIds[info.explicitLen + i];
    }
    RequiredWritesKeys(info.constructors, ids, |ids|);
    assert ids[..|ids|] == ids;
  }

  /** The constructors an edge keeps build distinct required components that are not there yet. */
  lemma MissingFit(info: BundleInfo, have: set<ComponentId>)
    requires info.Ok()
    ensures var missing := Missing(info.constructors, have);
            && (forall i | 0 <= i < |missing| ::
                  missing[i].component in info.Required() && missing[i].component !in have)
            && (forall i, j | 0 <= i < j < |missing| :: missing[i].component != missing[j].component)
  {
    BundleComponents(info);
    assert forall i | 0 <= i < |info.constructors| :: info.Required()[i] == info.constructors[i].component;
    MissingDistinct(info.constructors, info.Required(), have);
    var missing := Missing(info.constructors, have);
    assert forall i | 0 <= i < |missing| :: missing[i] in missing;
  }

  lemma MissingDistinct(constructors: seq<Constructor>, ids: seq<ComponentId>, have: set<ComponentId>)
    requires |constructors| == |ids| && NoDup(ids)
    requires forall i | 0 <= i < |ids| :: ids[i] == constructors[i].component
    ensures forall x | x in Missing(constructors, have) :: x.component in ids && x.component !in have
    ensures forall i, j | 0 <= i < j < |Missing(constructors, have)| ::
              Missing(constructors, have)[i].component != Missing(constructors, have)[j].component
  {
    if ids != [] {
      var n := |ids| - 1;
      MissingDistinct(constructors[..n], ids[..n], have);
      var front := Missing(constructors[..n], have);
      assert ids[n] !in ids[..n];
      assert forall i | 0 <= i < |front| :: front[i] in front;
    }
  }

  lemma MissingFromNothing(constructors: seq<Constructor>)
    ensures Missing(constructors, {}) == constructors
  {
    if constructors != [] {
      MissingFromNothing(constructors[..|constructors| - 1]);
    }
  }

  lemma WritesOnTop(m: map<ComponentId, Value>, bundle: map<ComponentId, Value>, explicit: map<ComponentId, Value>,
                    required: map<ComponentId, Value>, mode: InsertMode)
    requires required.Keys !! bundle.Keys
    requires forall c :: c in explicit <==> c in bundle && (c !in m || mode == Replace)
    requires forall c | c in explicit :: explicit[c] == bundle[c]
    ensures m + (explicit + (required - m.Keys))
         == if mode == Replace then required + m + bundle else required + bundle + m
  {
  }

  lemma ExplicitAgainstBundle(m: map<ComponentId, Value>, ids: seq<ComponentId>, status: seq<ComponentStatus>,
                              values: seq<Value>, mode: InsertMode)
    requires NoDup(ids) && |values| == |ids| && StatusOk(status, ids, m.Keys)
    ensures BundleValues(ids, values).Keys == Elems(ids)
    ensures var bundle, explicit := BundleValues(ids, values), ExplicitWrites(ids, status, values, mode, |ids|);
            && (forall c :: c in explicit <==> c in bundle && (c !in m || mode == Replace))
            && (forall c | c in explicit :: explicit[c] == bundle[c])
  {
    var bundle, explicit := BundleValues(ids, values), ExplicitWrites(ids, status, values, mode, |ids|);
    ExplicitWritesAt(ids, status, values, mode, |ids|);
    ExplicitWritesAt(ids, seq(|ids|, _ => Added), values, Replace, |ids|);
    assert ids[..|ids|] == ids;
    forall c
      ensures c in bundle <==> c in ids
      ensures c in explicit <==> c in bundle && (c !in m || mode == Replace)
      ensures c in explicit ==> explicit[c] == bundle[c]
    {
      if c in ids {
        var i :| 0 <= i < |ids| && ids[i] == c;
        assert status[i] == if c in m.Keys then Existing else Added;
      }
    }
  }

  lemma InsertedKeys(m: map<ComponentId, Value>, info: BundleInfo, values: seq<Value>, mode: InsertMode)
    requires info.Ok() && |values| == info.explicitLen
    ensures Inserted(m, info, values, mode).Keys == m.Keys + Elems(info.componentIds)
  {
    var ids := info.Explicit();
    ExplicitAgainstBundle(map[], ids, seq(|ids|, _ => Added), values, mode);
    RequiredAreNotExplicit(info);
  }

  lemma {:induction false} RequiredWritesAt(required: seq<Constructor>, n: nat, i: nat)
    requires i < n <= |required|
    requires forall p, q | 0 <= p < q < |required| :: required[p].component != required[q].component
    ensures required[i].component in RequiredWrites(required, n)
    ensures RequiredWrites(required, n)[required[i].component] == required[i].value
  {
    if i < n - 1 {
      RequiredWritesAt(required, n - 1, i);
    }
  }

  lemma ConstructorsDistinct(info: BundleInfo)
    requires info.Ok()
    ensures forall p, q | 0 <= p < q < |info.constructors| ::
              info.constructors[p].component != info.constructors[q].component
  {
    forall p, q | 0 <= p < q < |info.constructors|
      ensures info.constructors[p].component != info.constructors[q].component
    {
      assert info.componentIds[info.explicitLen + p] != info.componentIds[info.explicitLen + q];
    }
  }

  /** What an insertion makes of an entity, component by component: an explicit component has the
      bundle's value, unless the entity had one and the mode is Keep; any other component the entity had
      is unchanged; and a required one it had not is built by its constructor. */
  lemma InsertionMeans(m: map<ComponentId, Value>, info: BundleInfo, values: seq<Value>, mode: InsertMode)
    requires info.Ok() && |values| == info.explicitLen
    ensures var r := Inserted(m, info, values, mode);
            && (forall c :: c in r <==> c in m || c in info.componentIds)
            && (forall i | 0 <= i < info.explicitLen ::
                  var c := info.componentIds[i];
                  r[c] == if mode == Keep && c in m then m[c] else values[i])
            && (forall c | c in m && c !in info.componentIds[..info.explicitLen] :: r[c] == m[c])
            && (forall i | 0 <= i < |info.constructors| && info.constructors[i].component !in m ::
                  r[info.constructors[i].component] == info.constructors[i].value)
  {
    var ids, r := info.Explicit(), Inserted(m, info, values, mode);
    InsertedKeys(m, info, values, mode);
    RequiredAreNotExplicit(info);
    ExplicitWritesAt(ids, seq(|ids|, _ => Added), values, Replace, |ids|);
    assert ids[..|ids|] == ids;
    forall c
      ensures c in r <==> c in m || c in info.componentIds
    {
      assert c in r.Keys <==> c in m.Keys + Elems(info.componentIds);
    }
    forall i | 0 <= i < info.explicitLen
      ensures var c := info.componentIds[i]; c in r && r[c] == if mode == Keep && c in m then m[c] else values[i]
    {
      assert ids[i] == info.componentIds[i];
    }
    ConstructorsDistinct(info);
    forall i | 0 <= i < |info.constructors| && info.constructors[i].component !in m
      ensures var c := info.constructors[i].component; c in r && r[c] == info.constructors[i].value
    {
      RequiredWritesAt(info.constructors, |info.constructors|, i);
      assert info.Required()[i] == info.constructors[i].component;
      assert info.constructors[i].component in Elems(info.Required());
      assert info.constructors[i].component !in Elems(ids);
    }
  }

  /** The writes of an insertion, on top of the values already there, are its meaning. */
  lemma WritesMeanInsertion(m: map<ComponentId, Value>, info: BundleInfo, status: seq<ComponentStatus>,
                            values: seq<Value>, mode: InsertMode)
    requires info.Ok() && |values| == info.explicitLen
    requires StatusOk(status, info.Explicit(), m.Keys)
    ensures var w := ExplicitWrites(info.Explicit(), status, values, mode, info.explicitLen)
                     + RequiredValues(Missing(info.constructors, m.Keys));
            && m + w == Inserted(m, info, values, mode)
            && (m + w).Keys == m.Keys + Elems(info.componentIds)
  {
    var ids := info.Explicit();
    var explicit := ExplicitWrites(ids, status, values, mode, |ids|);
    var required := RequiredValues(info.constructors);
    assert NoDup(ids);
    ExplicitAgainstBundle(m, ids, status, values, mode);
    MissingWrites(info.constructors, m.Keys);
    RequiredAreNotExplicit(info);
    WritesOnTop(m, BundleValues(ids, values), explicit, required, mode);
    InsertedKeys(m, info, values, mode);
  }

  /** Removing a bundle's explicit components undoes its insertion on an entity that had none of
      its components, when it requires none. */
  lemma RemovalUndoesInsertion(m: map<ComponentId, Value>, info: BundleInfo, values: seq<Value>, mode: InsertMode)
    requires info.Ok() && info.constructors == [] && |values| == info.explicitLen
    requires m.Keys !! Elems(info.componentIds)
    ensures Inserted(m, info, values, mode) - Elems(info.Explicit()) == m
  {
    var ids := info.Explicit();
    ExplicitWritesAt(ids, seq(|ids|, _ => Added), values, Replace, |ids|);
    forall c
      ensures c in Inserted(m, info, values, mode) - Elems(ids) <==> c in m
    {
      assert c in ids ==> c in Elems(info.componentIds);
    }
  }

  /** The two insert modes agree exactly when no explicit component is already there with a
      different value. */
  lemma ModesAgree(m: map<ComponentId, Value>, info: BundleInfo, values: seq<Value>)
    requires info.Ok() && |values| == info.explicitLen
    ensures Inserted(m, info, values, Replace) == Inserted(m, info, values, Keep)
       <==> forall i | 0 <= i < info.explicitLen && info.componentIds[i] in m :: m[info.componentIds[i]] == values[i]
  {
    var ids := info.Explicit();
    var bundle := BundleValues(ids, values);
    var replaced, kept := Inserted(m, info, values, Replace), Inserted(m, info, values, Keep);
    ExplicitWritesAt(ids, seq(|ids|, _ => Added), values, Replace, |ids|);
    forall i | 0 <= i < info.explicitLen
      ensures replaced[ids[i]] == values[i]
      ensures ids[i] in m ==> kept[ids[i]] == m[ids[i]]
    {
      assert ids[i] in bundle && bundle[ids[i]] == values[i];
    }
    if forall i | 0 <= i < info.explicitLen && info.componentIds[i] in m :: m[info.componentIds[i]] == values[i] {
      forall c | c in replaced
        ensures c in kept && replaced[c] == kept[c]
      {
        if c in bundle && c in m {
          var i :| 0 <= i < |ids| && ids[i] == c;
          assert info.componentIds[i] == c;
        }
      }
      MapsAgree(replaced, kept);
    }
  }
}

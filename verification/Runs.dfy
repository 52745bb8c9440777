/** Whole runs of operations on a world (`src/bundle.rs`, `src/world/entity_ref.rs`): bundles are
    registered, and entities spawned, changed by inserts, removals and takes, and despawned, in any
    order. They refine one map from entities to component values. */
module Runs {
  import opened Collections
  import opened Storage
  import opened Archetypes
  import opened Graph
  import opened Meaning
  import opened Bundles
  import opened Despawns

  type WorldModel = map<Entity, map<ComponentId, Value>>

  /** What a registered bundle contributes: explicit components in order, and the values its
      constructors give to the components it requires. */
  datatype BundleSpec = BundleSpec(explicit: seq<ComponentId>, required: map<ComponentId, Value>)

  datatype State = State(model: WorldModel, bundles: seq<BundleSpec>, ids: map<TypeId, BundleId>)

  /** A bundle type is registered; a bundle is spawned with a new entity, or inserted into, removed
      from or taken from a live one; or a live entity is despawned. */
  datatype Operation =
    | Register(typeId: TypeId, explicit: seq<ComponentId>, merged: map<ComponentId, Value>)
    | Spawn(entity: Entity, bundle: BundleId, values: seq<Value>)
    | Insert(entity: Entity, bundle: BundleId, values: seq<Value>, mode: InsertMode)
    | Remove(entity: Entity, bundle: BundleId)
    | Take(entity: Entity, bundle: BundleId)
    | Despawn(entity: Entity)

  /** The bundle is registered, there is a value for each explicit component, and the entity is new
      or live as it should be. Other operations are not asked for. */
  ghost predicate Applicable(s: State, op: Operation) {
    match op
    case Register(_, explicit, _) => true
    case Spawn(e, b, values) => e !in s.model && b < |s.bundles| && |values| == |s.bundles[b].explicit|
    case Insert(e, b, values, _) => e in s.model && b < |s.bundles| && |values| == |s.bundles[b].explicit|
    case Remove(e, b) => e in s.model && b < |s.bundles|
    case Take(e, b) => e in s.model && b < |s.bundles|
    case Despawn(e) => e in s.model
  }

  /** An entity's values with a bundle on top, or beneath in mode Keep. What the bundle requires is
      always beneath. */
  function Overlaid(m: map<ComponentId, Value>, b: BundleSpec, values: seq<Value>, mode: InsertMode)
    : map<ComponentId, Value>
    requires |values| == |b.explicit|
  {
    match mode
    case Replace => b.required + m + BundleValues(b.explicit, values)
    case Keep => b.required + BundleValues(b.explicit, values) + m
  }

  /** What a removal or take makes of an entity's values. */
  ghost function Taken(m: WorldModel, e: Entity, drop: set<ComponentId>, requireAll: bool): WorldModel
    requires e in m
  {
    if requireAll && !(drop <= m[e].Keys) then m else m[e := m[e] - drop]
  }

  /** A known type keeps its bundle, and a bundle with duplicates is refused. */
  ghost function Registered(s: State, t: TypeId, explicit: seq<ComponentId>, merged: map<ComponentId, Value>): State {
    if t in s.ids || !NoDup(explicit) then s
    else s.(bundles := s.bundles + [BundleSpec(explicit, merged - Elems(explicit))], ids := s.ids[t := |s.bundles|])
  }

  /** What an operation means: nothing here knows of archetypes, tables or edges. */
  ghost function Applied(s: State, op: Operation): State {
    if !Applicable(s, op) then s
    else
      match op
      case Register(t, explicit, merged) => Registered(s, t, explicit, merged)
      case Spawn(e, b, values) => s.(model := s.model[e := Overlaid(map[], s.bundles[b], values, Replace)])
      case Insert(e, b, values, mode) => s.(model := s.model[e := Overlaid(s.model[e], s.bundles[b], values, mode)])
      case Remove(e, b) => s.(model := Taken(s.model, e, Elems(s.bundles[b].explicit), false))
      case Take(e, b) => s.(model := Taken(s.model, e, Elems(s.bundles[b].explicit), true))
      case Despawn(e) => s.(model := s.model - {e})
  }

  ghost function AppliedAll(s: State, ops: seq<Operation>): State {
    if ops == [] then s else Applied(AppliedAll(s, ops[..|ops| - 1]), ops[|ops| - 1])
  }

  lemma AppliedNext(s: State, ops: seq<Operation>, i: nat)
    requires i < |ops|
    ensures AppliedAll(s, ops[..i + 1]) == Applied(AppliedAll(s, ops[..i]), ops[i])
  {
    assert ops[..i + 1][..i] == ops[..i];
  }

  lemma {:induction false} BundleKeys(ids: seq<ComponentId>, values: seq<Value>, n: nat)
    requires |ids| == |values| && n <= |ids|
    ensures ExplicitWrites(ids, seq(|ids|, _ => Added), values, Replace, n).Keys == Elems(ids[..n])
  {
    if n > 0 {
      BundleKeys(ids, values, n - 1);
      assert ids[..n] == ids[..n - 1] + [ids[n - 1]];
    }
  }

  /** Operations on different entities can be done in either order, though each may move rows of
      the other's archetypes and tables. */
  lemma DifferentEntitiesCommute(s: State, x: Operation, y: Operation)
    requires !x.Register? && !y.Register? && x.entity != y.entity
    ensures Applied(Applied(s, x), y) == Applied(Applied(s, y), x)
  {
    var xy, yx := Applied(Applied(s, x), y).model, Applied(Applied(s, y), x).model;
    forall e: Entity
      ensures e in xy <==> e in yx
      ensures e in xy ==> xy[e] == yx[e]
    {
      if e == y.entity {
        CommuteAt(s, x, y);
      } else {
        CommuteAt(s, y, x);
        AppliedElsewhere(Applied(s, x), y, e);
        AppliedElsewhere(s, y, e);
        if e != x.entity {
          AppliedElsewhere(s, x, e);
          AppliedElsewhere(Applied(s, y), x, e);
        }
      }
    }
    MapsAgree(xy, yx);
    OnlyTheModel(s, x);
    OnlyTheModel(s, y);
    OnlyTheModel(Applied(s, x), y);
    OnlyTheModel(Applied(s, y), x);
  }

  lemma OnlyTheModel(s: State, op: Operation)
    requires !op.Register?
    ensures Applied(s, op) == s.(model := Applied(s, op).model)
  {
  }

  /** The entity of the later operation, in either order. */
  lemma CommuteAt(s: State, x: Operation, y: Operation)
    requires !x.Register? && !y.Register? && x.entity != y.entity
    ensures var xy, yx, e := Applied(Applied(s, x), y).model, Applied(Applied(s, y), x).model, y.entity;
            (e in xy <==> e in yx) && (e in xy ==> xy[e] == yx[e])
  {
    AppliedElsewhere(s, x, y.entity);
    OnlyTheModel(s, x);
    AppliedAlike(s, Applied(s, x), y);
    AppliedElsewhere(Applied(s, y), x, y.entity);
  }

  lemma AppliedElsewhere(s: State, op: Operation, e: Entity)
    requires !op.Register? && e != op.entity
    ensures e in Applied(s, op).model <==> e in s.model
    ensures e in s.model ==> Applied(s, op).model[e] == s.model[e]
  {
  }

  /** What an operation makes of its entity depends on that entity and the bundles only. */
  lemma AppliedAlike(s: State, s': State, op: Operation)
    requires !op.Register? && s.bundles == s'.bundles
    requires op.entity in s.model <==> op.entity in s'.model
    requires op.entity in s.model ==> s.model[op.entity] == s'.model[op.entity]
    ensures op.entity in Applied(s, op).model <==> op.entity in Applied(s', op).model
    ensures op.entity in Applied(s, op).model ==> Applied(s, op).model[op.entity] == Applied(s', op).model[op.entity]
  {
    assert Applicable(s, op) == Applicable(s', op);
  }

  /** Taking a bundle that was just inserted, disjoint from the entity and requiring nothing, undoes
      the insertion. */
  lemma TakeUndoesInsert(s: State, e: Entity, b: BundleId, values: seq<Value>, mode: InsertMode)
    requires Applicable(s, Insert(e, b, values, mode))
    requires s.bundles[b].required == map[] && s.model[e].Keys !! Elems(s.bundles[b].explicit)
    ensures Applied(Applied(s, Insert(e, b, values, mode)), Take(e, b)) == s
  {
    var m, ids := s.model[e], s.bundles[b].explicit;
    BundleKeys(ids, values, |ids|);
    assert ids[..|ids|] == ids;
    var inserted := Overlaid(m, s.bundles[b], values, mode);
    assert inserted.Keys == m.Keys + Elems(ids);
    MapsAgree(inserted - Elems(ids), m);
    assert s.model[e := m] == s.model;
  }

  /** And gives the values that were inserted, if the insertion replaced what was there. */
  lemma TakeReadsWhatWasInserted(m: map<ComponentId, Value>, b: BundleSpec, values: seq<Value>)
    requires NoDup(b.explicit) && |values| == |b.explicit|
    ensures ReadOff(Overlaid(m, b, values, Replace), b.explicit, values)
  {
    ExplicitWritesAt(b.explicit, seq(|b.explicit|, _ => Added), values, Replace, |b.explicit|);
  }

  /** Despawning an entity just spawned gives the state back. */
  lemma DespawnUndoesSpawn(s: State, e: Entity, b: BundleId, values: seq<Value>)
    requires Applicable(s, Spawn(e, b, values))
    ensures Applied(Applied(s, Spawn(e, b, values)), Despawn(e)) == s
  {
    MapsAgree(Applied(Applied(s, Spawn(e, b, values)), Despawn(e)).model, s.model);
  }

  /** A bundle type is registered at most once, whatever comes between. */
  lemma {:induction false} RegisteredOnce(s: State, ops: seq<Operation>, t: TypeId, explicit: seq<ComponentId>,
                                          merged: map<ComponentId, Value>)
    requires t in s.ids
    ensures var after := AppliedAll(s, ops);
            && t in after.ids && after.ids[t] == s.ids[t]
            && s.bundles <= after.bundles && Applied(after, Register(t, explicit, merged)) == after
  {
    if ops != [] {
      RegisteredOnce(s, ops[..|ops| - 1], t, explicit, merged);
    }
  }

  lemma LiveEntity(v: View, e: Entity)
    requires AllInitialised(v)
    ensures e in Model(v) <==> e in v.locs
    ensures e in v.locs ==>
              && HasRow(v, e) && Initialised(v, e) && v.locs[e].archetypeId < |v.archs|
              && Model(v)[e].Keys == v.archs[v.locs[e].archetypeId].Components()
  {
    if e in v.locs {
      ModelAt(v, e);
    }
  }

  lemma IsHoused(w: World, e: Entity)
    requires w.Valid() && e in w.locations
    ensures w.locations[e].archetypeId < |w.archetypes|
    ensures w.View().archs[w.locations[e].archetypeId] == w.archetypes[w.locations[e].archetypeId].View()
    ensures e in w.Model() && w.Model()[e].Keys == w.archetypes[w.locations[e].archetypeId].View().Components()
  {
    LiveEntity(w.View(), e);
  }

  /** Without a remover there is nothing to remove, or not all of it is there. */
  lemma NothingTaken(m: WorldModel, e: Entity, drop: set<ComponentId>, requireAll: bool)
    requires e in m && !(m[e].Keys * drop != {} && (requireAll ==> drop <= m[e].Keys))
    ensures Taken(m, e, drop, requireAll) == m
  {
    if m[e].Keys * drop == {} {
      forall c | c in m[e]
        ensures c !in drop
      {
        assert c !in m[e].Keys * drop;
      }
      assert m[e] - drop == m[e];
    }
  }

  /** The world's archetypes and tables are those from before, and after them ones allocated since. */
  twostate predicate OldThenNew(w: World)
    reads w
  {
    && |old(w.archetypes)| <= |w.archetypes| && |old(w.tables)| <= |w.tables|
    && (forall i {:trigger w.archetypes[i]} | 0 <= i < |w.archetypes| ::
          if i < |old(w.archetypes)| then w.archetypes[i] == old(w.archetypes)[i] else fresh(w.archetypes[i]))
    && (forall i {:trigger w.tables[i]} | 0 <= i < |w.tables| ::
          if i < |old(w.tables)| then w.tables[i] == old(w.tables)[i] else fresh(w.tables[i]))
  }

  twostate lemma GrownIsOldThenNew(w: World)
    requires old(w.archetypes) <= w.archetypes && fresh(w.archetypes[|old(w.archetypes)|..])
    requires old(w.tables) <= w.tables && fresh(w.tables[|old(w.tables)|..])
    ensures OldThenNew(w)
  {
    forall i | |old(w.archetypes)| <= i < |w.archetypes|
      ensures fresh(w.archetypes[i])
    {
      assert w.archetypes[i] == w.archetypes[|old(w.archetypes)|..][i - |old(w.archetypes)|];
    }
    forall i | |old(w.tables)| <= i < |w.tables|
      ensures fresh(w.tables[i])
    {
      assert w.tables[i] == w.tables[|old(w.tables)|..][i - |old(w.tables)|];
    }
  }

  // Each operation in two steps: the graph part may add archetypes and tables, the move may not.

  method FindInserter(w: World, e: Entity, b: BundleId) returns (ins: Inserter)
    requires w.Valid() && e in w.locations && b < |w.bundles|
    modifies w, w.archetypes
    ensures w.Valid() && w.Model() == old(w.Model()) && w.bundles == old(w.bundles) && w.locations == old(w.locations)
    ensures w.InserterOk(ins) && ins.source == w.locations[e].archetypeId && ins.bundle == w.bundles[b]
    ensures OldThenNew(w)
  {
    IsHoused(w, e);
    ins := w.NewInserter(w.locations[e].archetypeId, b);
    GrownIsOldThenNew(w);
  }

  method DoInsert(w: World, ins: Inserter, e: Entity, values: seq<Value>, mode: InsertMode)
    requires w.Valid() && w.InserterOk(ins)
    requires e in w.locations && w.locations[e].archetypeId == ins.source && |values| == ins.bundle.explicitLen
    modifies w`locations, w`sparseSets, w.archetypes, w.tables
    ensures w.archetypes == old(w.archetypes) && w.tables == old(w.tables) && w.bundles == old(w.bundles)
    ensures w.Valid() && InsertedAt(old(w.Model()), w.Model(), e, ins.bundle, values, mode)
  {
    var location := w.InsertWith(ins, e, values, mode);
  }

  method InsertInto(w: World, e: Entity, b: BundleId, values: seq<Value>, mode: InsertMode)
    requires w.Valid() && e in w.locations && b < |w.bundles| && |values| == w.bundles[b].explicitLen
    modifies w, w.archetypes, w.tables
    ensures w.Valid() && w.bundles == old(w.bundles)
    ensures InsertedAt(old(w.Model()), w.Model(), e, w.bundles[b], values, mode)
    ensures OldThenNew(w)
  {
    var ins := FindInserter(w, e, b);
    DoInsert(w, ins, e, values, mode);
  }

  method SpawnWith(w: World, e: Entity, b: BundleId, values: seq<Value>)
    requires w.Valid() && e !in w.locations && b < |w.bundles| && |values| == w.bundles[b].explicitLen
    modifies w, w.archetypes, w.tables
    ensures w.Valid() && w.bundles == old(w.bundles)
    ensures SpawnedAt(old(w.Model()), w.Model(), e, w.bundles[b], values)
    ensures OldThenNew(w)
  {
    var sp := w.NewSpawner(b);
    GrownIsOldThenNew(w);
    var location := w.SpawnNonExistent(sp, e, values);
  }

  method FindRemover(w: World, e: Entity, b: BundleId, requireAll: bool) returns (rem: Option<Remover>)
    requires w.Valid() && e in w.locations && b < |w.bundles|
    modifies w, w.archetypes
    ensures w.Valid() && w.Model() == old(w.Model()) && w.bundles == old(w.bundles) && w.locations == old(w.locations)
    ensures e in w.Model() && w.bundles[b].Ok()
    ensures var have, drop := w.Model()[e].Keys, Elems(w.bundles[b].Explicit());
            rem.Some? <==> have * drop != {} && (requireAll ==> drop <= have)
    ensures rem.Some? ==> w.RemoverOk(rem.value) && rem.value.bundle == w.bundles[b]
    ensures rem.Some? ==> rem.value.source == w.locations[e].archetypeId
    ensures rem.Some? && requireAll ==>
              Elems(rem.value.bundle.Explicit()) <= w.archetypes[rem.value.source].View().Components()
    ensures OldThenNew(w)
  {
    IsHoused(w, e);
    rem := w.NewRemover(w.locations[e].archetypeId, b, requireAll);
    IsHoused(w, e);
    GrownIsOldThenNew(w);
  }

  method DoRemove(w: World, rem: Remover, e: Entity)
    requires w.Valid() && w.RemoverOk(rem)
    requires e in w.locations && w.locations[e].archetypeId == rem.source
    modifies w`locations, w`sparseSets, w.archetypes, w.tables
    ensures w.archetypes == old(w.archetypes) && w.tables == old(w.tables) && w.bundles == old(w.bundles)
    ensures w.Valid() && RemovedAt(old(w.Model()), w.Model(), e, rem.bundle)
  {
    var location := w.RemoveWith(rem, e);
  }

  ghost predicate TakenAt(m: WorldModel, m': WorldModel, e: Entity, info: BundleInfo, requireAll: bool) {
    e in m && info.Ok() && m' == Taken(m, e, Elems(info.Explicit()), requireAll)
  }

  method RemoveFrom(w: World, e: Entity, b: BundleId)
    requires w.Valid() && e in w.locations && b < |w.bundles|
    modifies w, w.archetypes, w.tables
    ensures w.Valid() && w.bundles == old(w.bundles)
    ensures RemovedAt(old(w.Model()), w.Model(), e, w.bundles[b])
    ensures TakenAt(old(w.Model()), w.Model(), e, w.bundles[b], false)
    ensures OldThenNew(w)
  {
    var rem := FindRemover(w, e, b, false);
    if rem.Some? {
      DoRemove(w, rem.value, e);
    } else {
      NothingTaken(w.Model(), e, Elems(w.bundles[b].Explicit()), false);
    }
  }

  method DoTake(w: World, rem: Remover, e: Entity) returns (values: seq<Value>)
    requires w.Valid() && w.RemoverOk(rem)
    requires e in w.locations && w.locations[e].archetypeId == rem.source
    requires Elems(rem.bundle.Explicit()) <= w.archetypes[rem.source].View().Components()
    modifies w`locations, w`sparseSets, w.archetypes, w.tables
    ensures w.archetypes == old(w.archetypes) && w.tables == old(w.tables) && w.bundles == old(w.bundles)
    ensures w.Valid() && RemovedAt(old(w.Model()), w.Model(), e, rem.bundle)
    ensures ReadOff(old(w.Model())[e], rem.bundle.Explicit(), values)
  {
    var location;
    location, values := w.TakeWith(rem, e);
  }

  /** `EntityWorldMut::take`: nothing without a remover, and otherwise the bundle's values. */
  method TakeFrom(w: World, e: Entity, b: BundleId) returns (taken: Option<seq<Value>>)
    requires w.Valid() && e in w.locations && b < |w.bundles|
    modifies w, w.archetypes, w.tables
    ensures w.Valid() && w.bundles == old(w.bundles)
    ensures TakenAt(old(w.Model()), w.Model(), e, w.bundles[b], true)
    ensures var have, explicit := old(w.Model())[e].Keys, Elems(w.bundles[b].Explicit());
            taken.Some? <==> have * explicit != {} && explicit <= have
    ensures taken.Some? ==> RemovedAt(old(w.Model()), w.Model(), e, w.bundles[b])
    ensures taken.Some? ==> ReadOff(old(w.Model())[e], w.bundles[b].Explicit(), taken.value)
    ensures taken.None? ==> w.Model() == old(w.Model())
    ensures OldThenNew(w)
  {
    var rem := FindRemover(w, e, b, true);
    if rem.Some? {
      var values := DoTake(w, rem.value, e);
      taken := Some(values);
    } else {
      NothingTaken(w.Model(), e, Elems(w.bundles[b].Explicit()), true);
      taken := None;
    }
  }

  // ----- the state a world means -----

  function SpecOf(info: BundleInfo): BundleSpec {
    BundleSpec(if info.explicitLen <= |info.componentIds| then info.Explicit() else [],
               RequiredValues(info.constructors))
  }

  function SpecsOf(bundles: seq<BundleInfo>): seq<BundleSpec> {
    seq(|bundles|, b requires 0 <= b < |bundles| => SpecOf(bundles[b]))
  }

  ghost function StateOf(w: World, ids: map<TypeId, BundleId>): State
    requires w.Valid()
    reads w, w.archetypes, w.tables
  {
    State(w.Model(), SpecsOf(w.bundles), ids)
  }

  lemma SpawnIsApplied(s: State, m: WorldModel, info: BundleInfo, op: Operation)
    requires op.Spawn? && op.bundle < |s.bundles| && s.bundles[op.bundle] == SpecOf(info)
    requires SpawnedAt(s.model, m, op.entity, info, op.values)
    ensures Applied(s, op) == s.(model := m)
  {
  }

  lemma InsertIsApplied(s: State, m: WorldModel, info: BundleInfo, op: Operation)
    requires op.Insert? && op.bundle < |s.bundles| && s.bundles[op.bundle] == SpecOf(info)
    requires InsertedAt(s.model, m, op.entity, info, op.values, op.mode)
    ensures Applied(s, op) == s.(model := m)
  {
  }

  lemma TakeIsApplied(s: State, m: WorldModel, info: BundleInfo, op: Operation)
    requires (op.Remove? || op.Take?) && op.bundle < |s.bundles| && s.bundles[op.bundle] == SpecOf(info)
    requires TakenAt(s.model, m, op.entity, info, op.Take?)
    ensures Applied(s, op) == s.(model := m)
  {
  }

  lemma DespawnIsApplied(s: State, m: WorldModel, op: Operation)
    requires op.Despawn? && op.entity in s.model && m == s.model - {op.entity}
    ensures Applied(s, op) == s.(model := m)
  {
  }

  lemma RegisterIsApplied(bundles: seq<BundleInfo>, bundles': seq<BundleInfo>, explicit: seq<ComponentId>,
                          merged: map<ComponentId, Value>)
    requires OneMoreBundle(bundles, bundles', explicit, merged)
    ensures SpecsOf(bundles') == SpecsOf(bundles) + [BundleSpec(explicit, merged - Elems(explicit))]
  {
    forall b | 0 <= b < |bundles|
      ensures bundles'[b] == bundles[b]
    {
      assert bundles'[..|bundles|][b] == bundles[b];
    }
  }

  lemma LiveInModel(w: World, e: Entity)
    requires w.Valid()
    ensures e in w.Model() <==> e in w.locations
  {
    LiveEntity(w.View(), e);
  }

  /** A bundle that a valid world has registered. */
  lemma RegisteredIsOk(w: World, b: BundleId)
    requires w.Valid() && b < |w.bundles|
    ensures w.bundles[b].Ok() && SpecsOf(w.bundles)[b] == SpecOf(w.bundles[b])
    ensures |SpecsOf(w.bundles)[b].explicit| == w.bundles[b].explicitLen
  {
    assert BundleAt(w.View(), b);
  }

  // ----- the run -----

  method ApplyRegister(w: World, ids: map<TypeId, BundleId>, op: Operation) returns (ids': map<TypeId, BundleId>)
    requires w.Valid() && op.Register?
    modifies w`bundles
    ensures w.Valid() && OldThenNew(w)
    ensures StateOf(w, ids') == Applied(old(StateOf(w, ids)), op)
  {
    var id;
    id, ids' := w.RegisterInfo(ids, op.typeId, op.explicit, op.merged);
    if op.typeId !in ids && NoDup(op.explicit) {
      RegisterIsApplied(old(w.bundles), w.bundles, op.explicit, op.merged);
    }
  }

  method DoDespawn(w: World, e: Entity)
    requires w.Valid() && e in w.locations
    modifies w`locations, w`sparseSets, w.archetypes, w.tables
    ensures w.archetypes == old(w.archetypes) && w.tables == old(w.tables) && w.bundles == old(w.bundles)
    ensures w.Valid() && w.Model() == old(w.Model()) - {e}
  {
    Despawns.Despawn(w, e);
  }

  lemma ApplicableToWorld(w: World, ids: map<TypeId, BundleId>, op: Operation)
    requires w.Valid() && !op.Register? && Applicable(StateOf(w, ids), op)
    ensures op.Spawn? <==> op.entity !in w.locations
    ensures !op.Despawn? ==> op.bundle < |w.bundles| && SpecsOf(w.bundles)[op.bundle] == SpecOf(w.bundles[op.bundle])
    ensures op.Spawn? || op.Insert? ==> |op.values| == w.bundles[op.bundle].explicitLen
  {
    LiveInModel(w, op.entity);
    if !op.Despawn? {
      RegisteredIsOk(w, op.bundle);
    }
  }

  /** An operation on an entity that can be asked for, by its inserter, remover or spawner, or a despawn. */
  method ApplyToEntity(w: World, ghost ids: map<TypeId, BundleId>, op: Operation)
    requires w.Valid() && !op.Register? && Applicable(StateOf(w, ids), op)
    modifies w, w.archetypes, w.tables
    ensures w.Valid() && OldThenNew(w)
    ensures StateOf(w, ids) == Applied(old(StateOf(w, ids)), op)
  {
    ghost var s := StateOf(w, ids);
    ApplicableToWorld(w, ids, op);
    match op
    case Spawn(e, b, values) =>
      SpawnWith(w, e, b, values);
      SpawnIsApplied(s, w.Model(), w.bundles[b], op);
    case Insert(e, b, values, mode) =>
      InsertInto(w, e, b, values, mode);
      InsertIsApplied(s, w.Model(), w.bundles[b], op);
    case Remove(e, b) =>
      RemoveFrom(w, e, b);
      TakeIsApplied(s, w.Model(), w.bundles[b], op);
    case Take(e, b) =>
      var taken := TakeFrom(w, e, b);
      TakeIsApplied(s, w.Model(), w.bundles[b], op);
    case Despawn(e) =>
      DoDespawn(w, e);
      DespawnIsApplied(s, w.Model(), op);
  }

  /** The test that decides whether an operation can be asked for. */
  predicate CanApply(w: World, op: Operation)
    requires !op.Register?
    reads w
  {
    var live := op.entity in w.locations;
    if op.Despawn? then live
    else
      && op.bundle < |w.bundles| && live != op.Spawn?
      && (op.Spawn? || op.Insert? ==> |op.values| == w.bundles[op.bundle].explicitLen)
  }

  lemma CanApplyIsApplicable(w: World, ids: map<TypeId, BundleId>, op: Operation)
    requires w.Valid() && !op.Register?
    ensures CanApply(w, op) <==> Applicable(StateOf(w, ids), op)
  {
    LiveInModel(w, op.entity);
    if !op.Despawn? && op.bundle < |w.bundles| {
      RegisteredIsOk(w, op.bundle);
    }
  }

  lemma NotApplied(s: State, op: Operation)
    requires !Applicable(s, op)
    ensures Applied(s, op) == s
  {
  }

  /** One operation, if it can be asked for. `ids` are the bundles of known types. */
  method Apply(w: World, ids: map<TypeId, BundleId>, op: Operation) returns (ids': map<TypeId, BundleId>)
    requires w.Valid()
    modifies w, w.archetypes, w.tables
    ensures w.Valid() && OldThenNew(w)
    ensures StateOf(w, ids') == Applied(old(StateOf(w, ids)), op)
  {
    if op.Register? {
      ids' := ApplyRegister(w, ids, op);
    } else {
      ids' := ids;
      CanApplyIsApplicable(w, ids, op);
      if CanApply(w, op) {
        ApplyToEntity(w, ids, op);
      } else {
        NotApplied(StateOf(w, ids), op);
      }
    }
  }

  /** Any run keeps the world valid, locations, rows and cached edges alike, and means what its
      operations mean one after the other. */
  method Run(w: World, ids: map<TypeId, BundleId>, ops: seq<Operation>) returns (ids': map<TypeId, BundleId>)
    requires w.Valid()
    modifies w, w.archetypes, w.tables
    ensures w.Valid()
    ensures StateOf(w, ids') == AppliedAll(old(StateOf(w, ids)), ops)
  {
    ids' := ids;
    for i := 0 to |ops|
      invariant w.Valid() && OldThenNew(w)
      invariant StateOf(w, ids') == AppliedAll(old(StateOf(w, ids)), ops[..i])
    {
      AppliedNext(old(StateOf(w, ids)), ops, i);
      ids' := Apply(w, ids', ops[i]);
    }
    assert ops[..|ops|] == ops;
  }
}

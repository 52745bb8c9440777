/** `src/storage/sparse_set.rs`: the values of one sparse-set component, dense and in no order, found
    through an array indexed by entity. It means a map from entities to values, and all sets together
    mean the one map that a world keeps. */
module SparseSets {
  import opened Collections
  import opened Storage

  /** `SparseArray`: optional values at indices, with nothing beyond its length. */
  type SparseArray = seq<Option<nat>>

  function Get(sparse: SparseArray, i: nat): Option<nat> {
    if i < |sparse| then sparse[i] else None
  }

  /** The array grows if it has to. */
  function Put(sparse: SparseArray, i: nat, v: nat): (r: SparseArray)
    ensures forall j: nat :: Get(r, j) == if j == i then Some(v) else Get(sparse, j)
  {
    var room := if i < |sparse| then sparse else sparse + seq(i + 1 - |sparse|, _ => None);
    room[i := Some(v)]
  }

  function TakenOut(sparse: SparseArray, i: nat): (r: SparseArray)
    ensures forall j: nat :: Get(r, j) == if j == i then None else Get(sparse, j)
  {
    if i < |sparse| then sparse[i := None] else sparse
  }

  /** The array sends each listed entity to its index, and nothing else anywhere. */
  ghost predicate Indexed(entities: seq<Entity>, sparse: SparseArray) {
    && (forall i: nat | i < |entities| :: Get(sparse, entities[i]) == Some(i))
    && (forall e: Entity {:trigger Get(sparse, e)} | Get(sparse, e).Some? ::
          Get(sparse, e).value < |entities| && entities[Get(sparse, e).value] == e)
  }

  /** What the set means. */
  ghost function Contents(entities: seq<Entity>, dense: seq<Value>, sparse: SparseArray): map<Entity, Value>
    requires Indexed(entities, sparse) && |dense| == |entities|
  {
    map e | e in entities :: dense[Get(sparse, e).value]
  }

  lemma ContentsAt(entities: seq<Entity>, dense: seq<Value>, sparse: SparseArray, e: Entity)
    requires Indexed(entities, sparse) && |dense| == |entities|
    ensures e in Contents(entities, dense, sparse) <==> Get(sparse, e).Some?
    ensures e in Contents(entities, dense, sparse) ==>
              Get(sparse, e).value < |dense| && Contents(entities, dense, sparse)[e] == dense[Get(sparse, e).value]
  {
    if Get(sparse, e).Some? {
      assert entities[Get(sparse, e).value] == e;
    }
    if e in entities {
      var i :| 0 <= i < |entities| && entities[i] == e;
      assert Get(sparse, entities[i]) == Some(i);
    }
  }

  lemma ReplacedAt(entities: seq<Entity>, dense: seq<Value>, sparse: SparseArray, e: Entity, v: Value)
    requires Indexed(entities, sparse) && |dense| == |entities| && Get(sparse, e).Some?
    ensures Get(sparse, e).value < |dense|
    ensures Contents(entities, dense[Get(sparse, e).value := v], sparse) == Contents(entities, dense, sparse)[e := v]
  {
    var at := Get(sparse, e).value;
    forall x: Entity
      ensures x in Contents(entities, dense[at := v], sparse) <==> x == e || x in Contents(entities, dense, sparse)
      ensures x in Contents(entities, dense[at := v], sparse) ==>
                Contents(entities, dense[at := v], sparse)[x] == if x == e then v
                  else Contents(entities, dense, sparse)[x]
    {
      ContentsAt(entities, dense, sparse, x);
      ContentsAt(entities, dense[at := v], sparse, x);
    }
  }

  lemma Pushed(entities: seq<Entity>, dense: seq<Value>, sparse: SparseArray, e: Entity, v: Value)
    requires Indexed(entities, sparse) && |dense| == |entities| && Get(sparse, e).None?
    ensures Indexed(entities + [e], Put(sparse, e, |entities|))
    ensures Contents(entities + [e], dense + [v], Put(sparse, e, |entities|))
            == Contents(entities, dense, sparse)[e := v]
  {
    var sparse' := Put(sparse, e, |entities|);
    forall i: nat | i < |entities + [e]|
      ensures Get(sparse', (entities + [e])[i]) == Some(i)
    {
      assert i < |entities| ==> Get(sparse, entities[i]) == Some(i);
    }
    var after, before := Contents(entities + [e], dense + [v], sparse'), Contents(entities, dense, sparse);
    forall x: Entity
      ensures x in after <==> x == e || x in before
      ensures x in after ==> after[x] == if x == e then v else before[x]
    {
      ContentsAt(entities, dense, sparse, x);
      ContentsAt(entities + [e], dense + [v], sparse', x);
    }
  }

  /** Where the array points after index `at` was swap-removed: the entity that took its place, if
      another one did, is repointed. */
  function Repointed(entities: seq<Entity>, sparse: SparseArray, at: nat): SparseArray
    requires at < |entities|
  {
    var rest := TakenOut(sparse, entities[at]);
    if at == |entities| - 1 then rest else Put(rest, entities[|entities| - 1], at)
  }

  lemma RepointedIsIndexed(entities: seq<Entity>, sparse: SparseArray, at: nat)
    requires Indexed(entities, sparse) && at < |entities|
    ensures Indexed(SwapRemove(entities, at), Repointed(entities, sparse, at))
  {
    var last := |entities| - 1;
    var sparse' := Repointed(entities, sparse, at);
    forall i: nat | i < last
      ensures Get(sparse', SwapRemove(entities, at)[i]) == Some(i)
    {
      assert Get(sparse, entities[i]) == Some(i);
      assert Get(sparse, entities[at]) == Some(at) && Get(sparse, entities[last]) == Some(last);
    }
    forall e: Entity | Get(sparse', e).Some?
      ensures Get(sparse', e).value < last && SwapRemove(entities, at)[Get(sparse', e).value] == e
    {
      assert Get(sparse, entities[at]) == Some(at) && Get(sparse, entities[last]) == Some(last);
      assert e != entities[last] ==> Get(sparse, e) == Get(sparse', e);
    }
  }

  /** Swap-removing the entity and its value, each from its own list, removes the entity's value. */
  lemma SwapRemovedAt(entities: seq<Entity>, dense: seq<Value>, sparse: SparseArray, at: nat)
    requires Indexed(entities, sparse) && |dense| == |entities| && at < |entities|
    ensures Indexed(SwapRemove(entities, at), Repointed(entities, sparse, at))
    ensures Contents(SwapRemove(entities, at), SwapRemove(dense, at), Repointed(entities, sparse, at))
         == Contents(entities, dense, sparse) - {entities[at]}
  {
    RepointedIsIndexed(entities, sparse, at);
    var last, sparse' := |entities| - 1, Repointed(entities, sparse, at);
    var after := Contents(SwapRemove(entities, at), SwapRemove(dense, at), sparse');
    var before := Contents(entities, dense, sparse);
    assert Get(sparse, entities[at]) == Some(at) && Get(sparse, entities[last]) == Some(last);
    forall x: Entity
      ensures x in after <==> x in before && x != entities[at]
      ensures x in after ==> after[x] == before[x]
    {
      ContentsAt(entities, dense, sparse, x);
      ContentsAt(SwapRemove(entities, at), SwapRemove(dense, at), sparse', x);
    }
    MapsAgree(after, before - {entities[at]});
  }

  class ComponentSparseSet {
    var dense: seq<Value>
    var entities: seq<Entity>
    var sparse: SparseArray

    ghost predicate Valid()
      reads this
    {
      Indexed(entities, sparse) && |dense| == |entities|
    }

    ghost function Values(): map<Entity, Value>
      reads this
      requires Valid()
    {
      Contents(entities, dense, sparse)
    }

    constructor ()
      ensures Valid() && Values() == map[]
    {
      dense, entities, sparse := [], [], [];
    }

    /** Replaces the entity's value, or pushes it. */
    method Insert(e: Entity, v: Value)
      requires Valid()
      modifies this
      ensures Valid() && Values() == old(Values())[e := v]
    {
      var index := Get(sparse, e);
      if index.Some? {
        ReplacedAt(entities, dense, sparse, e, v);
        dense := dense[index.value := v];
      } else {
        Pushed(entities, dense, sparse, e, v);
        var denseIndex := |dense|;
        dense := dense + [v];
        sparse := Put(sparse, e, denseIndex);
        entities := entities + [e];
      }
    }

    method Contains(e: Entity) returns (found: bool)
      requires Valid()
      ensures found <==> e in Values()
    {
      ContentsAt(entities, dense, sparse, e);
      found := Get(sparse, e).Some?;
    }

    method GetValue(e: Entity) returns (v: Option<Value>)
      requires Valid()
      ensures v == if e in Values() then Some(Values()[e]) else None
    {
      ContentsAt(entities, dense, sparse, e);
      var index := Get(sparse, e);
      v := if index.Some? then Some(dense[index.value]) else None;
    }

    /** Gives up the entity's value, if it has one. */
    method RemoveAndForget(e: Entity) returns (v: Option<Value>)
      requires Valid()
      modifies this
      ensures Valid() && Values() == old(Values()) - {e}
      ensures v == if e in old(Values()) then Some(old(Values())[e]) else None
    {
      ContentsAt(entities, dense, sparse, e);
      var index := Get(sparse, e);
      if index.None? {
        WithoutNothing(Values(), e);
        return None;
      }
      var at := index.value;
      SwapRemovedAt(entities, dense, sparse, at);
      sparse := TakenOut(sparse, e);
      v := Some(dense[at]);
      var isLast := at == |dense| - 1;
      entities, dense := SwapRemove(entities, at), SwapRemove(dense, at);
      if !isLast {
        sparse := Put(sparse, entities[at], at);
      }
    }

    /** Drops the entity's value and says whether it had one. */
    method Remove(e: Entity) returns (removed: bool)
      requires Valid()
      modifies this
      ensures Valid() && Values() == old(Values()) - {e}
      ensures removed <==> e in old(Values())
    {
      var v := RemoveAndForget(e);
      removed := v.Some?;
    }
  }

  // ----- all sets as one map -----

  /** The one map that all sparse sets mean together. */
  ghost function Together(sets: map<ComponentId, map<Entity, Value>>): map<(ComponentId, Entity), Value> {
    map k | k in (set c, e | c in sets && e in sets[c] :: (c, e)) :: sets[k.0][k.1]
  }

  lemma TogetherAt(sets: map<ComponentId, map<Entity, Value>>, k: (ComponentId, Entity))
    ensures k in Together(sets) <==> k.0 in sets && k.1 in sets[k.0]
    ensures k in Together(sets) ==> Together(sets)[k] == sets[k.0][k.1]
  {
    assert k == (k.0, k.1);
  }

  /** Inserting into one set is one update of that map. */
  lemma OneSetInserted(sets: map<ComponentId, map<Entity, Value>>, c: ComponentId, e: Entity, v: Value,
                       after: map<Entity, Value>)
    requires c in sets && after == sets[c][e := v]
    ensures Together(sets[c := after]) == Together(sets)[(c, e) := v]
  {
    var m, expected := Together(sets[c := after]), Together(sets)[(c, e) := v];
    forall k: (ComponentId, Entity)
      ensures k in m <==> k in expected
      ensures k in m ==> m[k] == expected[k]
    {
      TogetherAt(sets, k);
      TogetherAt(sets[c := after], k);
    }
    MapsAgree(m, expected);
  }

  /** Removing from one set is one deletion from that map. */
  lemma OneSetRemoved(sets: map<ComponentId, map<Entity, Value>>, c: ComponentId, e: Entity, after: map<Entity, Value>)
    requires c in sets && after == sets[c] - {e}
    ensures Together(sets[c := after]) == Together(sets) - {(c, e)}
  {
    var m, expected := Together(sets[c := after]), Together(sets) - {(c, e)};
    forall k: (ComponentId, Entity)
      ensures k in m <==> k in expected
      ensures k in m ==> m[k] == expected[k]
    {
      TogetherAt(sets, k);
      TogetherAt(sets[c := after], k);
    }
    MapsAgree(m, expected);
  }
}

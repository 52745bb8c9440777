/** `src/debug/snapshot.rs`: snapshots of a simple world, and the difference between two. */
module Snapshots {
  import opened Collections
  import opened SimpleWorlds

  type Component = (Symbol, Bytes)

  type EntityStates = map<EntityId, seq<Component>>

  datatype WorldSnapshot = WorldSnapshot(version: nat, entityCount: nat, entityStates: EntityStates)

  datatype WorldDiff = WorldDiff(
    addedEntities: seq<EntityId>,
    removedEntities: seq<EntityId>,
    addedComponents: seq<Key>,
    removedComponents: seq<Key>,
    modifiedComponents: seq<Key>)

  const NO_CHANGE := WorldDiff([], [], [], [], [])

  // ----- meaning -----

  /** The data of the first component of a type. */
  function Find(l: seq<Component>, t: Symbol): Option<Bytes> {
    if l == [] then None
    else
      var found, last := Find(l[..|l| - 1], t), l[|l| - 1];
      if found.Some? then found else if last.0 == t then Some(last.1) else None
  }

  /** No type occurs twice. */
  ghost predicate Distinct(l: seq<Component>) {
    forall i, j :: 0 <= i < j < |l| ==> l[i].0 != l[j].0
  }

  function Of(m: EntityStates, e: EntityId): seq<Component> {
    if e in m then m[e] else []
  }

  ghost predicate SnapshotOk(m: EntityStates) {
    forall e | e in m :: m[e] != [] && Distinct(m[e])
  }

  /** The flat map a snapshot holds. */
  function FlatOf(m: EntityStates): map<Key, Bytes> {
    map k | k in (set e, i | e in m && 0 <= i < |m[e]| :: (e, m[e][i].0)) && Find(Of(m, k.0), k.1).Some? ::
      Find(Of(m, k.0), k.1).value
  }

  lemma {:induction false} FindAt(l: seq<Component>, t: Symbol)
    ensures Find(l, t).Some? <==> exists i :: 0 <= i < |l| && l[i].0 == t
    ensures Distinct(l) ==> forall i | 0 <= i < |l| && l[i].0 == t :: Find(l, t) == Some(l[i].1)
  {
    if l != [] {
      var front := l[..|l| - 1];
      FindAt(front, t);
      if i :| 0 <= i < |l| && l[i].0 == t {
        assert i < |front| ==> front[i].0 == t;
      }
      if i :| 0 <= i < |front| && front[i].0 == t {
        assert l[i].0 == t;
      }
    }
  }

  /** The component found is the first of its type, also in a list where a type occurs twice. */
  lemma {:induction false} FoundFirst(l: seq<Component>, t: Symbol) returns (i: nat)
    requires Find(l, t).Some?
    ensures i < |l| && l[i] == (t, Find(l, t).value) && forall j | 0 <= j < i :: l[j].0 != t
  {
    var front := l[..|l| - 1];
    if Find(front, t).Some? {
      i := FoundFirst(front, t);
    } else {
      i := |l| - 1;
      FindAt(front, t);
      assert forall j | 0 <= j < i :: front[j] == l[j];
    }
  }

  lemma FlatOfAt(m: EntityStates, k: Key)
    ensures k in FlatOf(m) <==> Find(Of(m, k.0), k.1).Some?
    ensures k in FlatOf(m) ==> FlatOf(m)[k] == Find(Of(m, k.0), k.1).value
  {
    FindAt(Of(m, k.0), k.1);
    if i :| 0 <= i < |Of(m, k.0)| && Of(m, k.0)[i].0 == k.1 {
      assert (k.0, m[k.0][i].0) == k;
    }
  }

  // ----- taking a snapshot -----

  /** Each component is listed with the data a lookup finds. */
  ghost predicate Captures(s: SimpleState, types: seq<Symbol>, e: EntityId, l: seq<Component>) {
    && |l| == |types|
    && forall i | 0 <= i < |l| :: l[i].0 == types[i] && (e, types[i]) in Model(s) && l[i].1 == Model(s)[(e, types[i])]
  }

  lemma CapturedAt(s: SimpleState, e: EntityId, l: seq<Component>, t: Symbol)
    requires e in s.lists && NoDup(s.lists[e]) && Captures(s, s.lists[e], e, l)
    ensures Distinct(l)
    ensures Find(l, t) == if t in s.lists[e] then Some(Model(s)[(e, t)]) else None
  {
    FindAt(l, t);
    if t in s.lists[e] {
      var i :| 0 <= i < |l| && s.lists[e][i] == t;
      assert l[i].0 == t;
    }
  }

  ghost predicate AllCaptured(s: SimpleState, m: EntityStates) {
    forall e {:trigger m[e]} | e in m :: e in s.lists && Captures(s, s.lists[e], e, m[e])
  }

  /** A snapshot holds exactly the listed part of the world. */
  lemma SnapshotIsListedPart(s: SimpleState, m: EntityStates)
    requires Ok(s) && m.Keys == s.lists.Keys && AllCaptured(s, m)
    ensures SnapshotOk(m) && FlatOf(m) == ListedPart(s)
  {
    forall e | e in m
      ensures m[e] != [] && Distinct(m[e])
    {
      CapturedAt(s, e, m[e], 0);
    }
    forall k: Key
      ensures k in FlatOf(m) <==> k in ListedPart(s)
      ensures k in FlatOf(m) ==> FlatOf(m)[k] == ListedPart(s)[k]
    {
      FlatOfAt(m, k);
      if k.0 in m {
        CapturedAt(s, k.0, m[k.0], k.1);
        assert k.1 in s.lists[k.0] ==> Stored(s, k.0, k.1);
      }
    }
    MapsAgree(FlatOf(m), ListedPart(s));
  }

  lemma CapturedOneMore(s: SimpleState, m: EntityStates, e: EntityId, l: seq<Component>)
    requires AllCaptured(s, m) && e in s.lists && Captures(s, s.lists[e], e, l)
    ensures AllCaptured(s, m[e := l])
  {
  }

  lemma ElemsOneMore(es: seq<EntityId>, i: nat)
    requires i < |es|
    ensures Elems(es[..i + 1]) == Elems(es[..i]) + {es[i]}
  {
    assert es[..i + 1] == es[..i] + [es[i]];
  }

  ghost predicate ListedStored(s: SimpleState, e: EntityId) {
    e in s.lists && forall t | t in s.lists[e] :: Stored(s, e, t)
  }

  lemma AllListedStored(s: SimpleState)
    requires Ok(s)
    ensures forall e {:trigger ListedStored(s, e)} | e in s.lists :: ListedStored(s, e)
  {
  }

  method TakeEntity(world: SimpleWorld, e: EntityId) returns (components: seq<Component>)
    requires ListedStored(world.State(), e)
    ensures Captures(world.State(), world.entityComponents[e], e, components)
  {
    var types := world.entityComponents[e];
    components := [];
    for i := 0 to |types|
      invariant Captures(world.State(), types[..i], e, components)
    {
      assert types[i] in types && Stored(world.State(), e, types[i]);
      var data := world.GetComponent(e, types[i]);
      if data.Some? {
        components := components + [(types[i], data.value)];
      }
    }
    assert types[..|types|] == types;
  }

  method TakeSnapshot(world: SimpleWorld) returns (snapshot: WorldSnapshot)
    requires Ok(world.State())
    ensures SnapshotOk(snapshot.entityStates) && FlatOf(snapshot.entityStates) == ListedPart(world.State())
    ensures AllCaptured(world.State(), snapshot.entityStates)
    ensures snapshot.entityStates.Keys == world.entityComponents.Keys
    ensures snapshot.version == world.version && snapshot.entityCount == |world.entityComponents|
  {
    AllListedStored(world.State());
    AscendingElems(world.entityComponents.Keys);
    var states := TakeEntities(world, Ascending(world.entityComponents.Keys));
    SnapshotIsListedPart(world.State(), states);
    snapshot := WorldSnapshot(world.version, |world.entityComponents|, states);
  }

  method TakeEntities(world: SimpleWorld, keys: seq<EntityId>) returns (states: EntityStates)
    requires forall e {:trigger ListedStored(world.State(), e)} | e in keys :: ListedStored(world.State(), e)
    ensures states.Keys == Elems(keys) && AllCaptured(world.State(), states)
  {
    states := map[];
    ghost var s := world.State();
    for k := 0 to |keys|
      invariant states.Keys == Elems(keys[..k]) && AllCaptured(s, states)
    {
      assert keys[k] in keys && ListedStored(s, keys[k]);
      ElemsOneMore(keys, k);
      var components := TakeEntity(world, keys[k]);
      CapturedOneMore(s, states, keys[k], components);
      states := states[keys[k] := components];
    }
    assert keys[..|keys|] == keys;
  }

  // ----- what differs -----

  /** A component of one side is missing on the other, or there with different data. */
  datatype Change = Missing | Different

  predicate Changed(change: Change, d: Bytes, other: Option<Bytes>) {
    match change
    case Missing => other.None?
    case Different => other.Some? && other.value != d
  }

  /** The components of `a` so changed in `b`, in their order in `a`. */
  function Changes(change: Change, e: EntityId, a: seq<Component>, b: seq<Component>): seq<Key> {
    if a == [] then []
    else
      var last := a[|a| - 1];
      Changes(change, e, a[..|a| - 1], b) + (if Changed(change, last.1, Find(b, last.0)) then [(e, last.0)] else [])
  }

  function ChangesAmong(change: Change, es: seq<EntityId>, a: EntityStates, b: EntityStates): seq<Key> {
    if es == [] then []
    else
      var e := es[|es| - 1];
      ChangesAmong(change, es[..|es| - 1], a, b) + Changes(change, e, Of(a, e), Of(b, e))
  }

  ghost predicate ChangedKey(change: Change, a: map<Key, Bytes>, b: map<Key, Bytes>, k: Key) {
    k in a && Changed(change, a[k], if k in b then Some(b[k]) else None)
  }

  /** `ks` are the keys of the given entities so changed, each once. */
  ghost predicate ChangedKeys(ks: seq<Key>, change: Change, a: EntityStates, b: EntityStates, es: set<EntityId>) {
    && NoDup(ks)
    && forall k: Key {:trigger k in ks} :: k in ks <==> k.0 in es && ChangedKey(change, FlatOf(a), FlatOf(b), k)
  }

  lemma ChangesOneMore(change: Change, e: EntityId, a: seq<Component>, c: Component, b: seq<Component>)
    ensures Changes(change, e, a + [c], b) == Changes(change, e, a, b)
            + (if Changed(change, c.1, Find(b, c.0)) then [(e, c.0)] else [])
  {
    assert (a + [c])[..|a|] == a;
  }

  lemma {:induction false} ChangesAt(change: Change, e: EntityId, a: seq<Component>, b: seq<Component>)
    requires Distinct(a)
    ensures NoDup(Changes(change, e, a, b))
    ensures forall k: Key :: k in Changes(change, e, a, b) <==>
              k.0 == e && Find(a, k.1).Some? && Changed(change, Find(a, k.1).value, Find(b, k.1))
  {
    if a != [] {
      var front, last := a[..|a| - 1], a[|a| - 1];
      assert a == front + [last];
      ChangesAt(change, e, front, b);
      FindAt(front, last.0);
      ChangesOneMore(change, e, front, last, b);
      forall k: Key
        ensures k in Changes(change, e, a, b) <==>
                  k.0 == e && Find(a, k.1).Some? && Changed(change, Find(a, k.1).value, Find(b, k.1))
      {
        assert k == (e, last.0) <==> k.0 == e && k.1 == last.0;
      }
      assert (e, last.0) !in Changes(change, e, front, b);
    }
  }

  lemma ChangesAmongNext(change: Change, es: seq<EntityId>, a: EntityStates, b: EntityStates, i: nat)
    requires i < |es|
    ensures ChangesAmong(change, es[..i + 1], a, b) ==
            ChangesAmong(change, es[..i], a, b) + Changes(change, es[i], Of(a, es[i]), Of(b, es[i]))
  {
    assert es[..i + 1][..i] == es[..i];
  }

  lemma {:induction false} ChangesAmongAt(change: Change, es: seq<EntityId>, a: EntityStates, b: EntityStates)
    requires NoDup(es) && SnapshotOk(a)
    ensures ChangedKeys(ChangesAmong(change, es, a, b), change, a, b, Elems(es))
  {
    if es != [] {
      var front, e := es[..|es| - 1], es[|es| - 1];
      assert es == front + [e];
      var before, now := ChangesAmong(change, front, a, b), Changes(change, e, Of(a, e), Of(b, e));
      ChangesAmongAt(change, front, a, b);
      ChangesAt(change, e, Of(a, e), Of(b, e));
      NoDupConcat(before, now);
      forall k: Key
        ensures k in before + now <==> k.0 in es && ChangedKey(change, FlatOf(a), FlatOf(b), k)
      {
        FlatOfAt(a, k);
        FlatOfAt(b, k);
      }
    }
  }

  // ----- the difference is exact -----

  /** What a difference lists, in the terms of the two flat maps. */
  ghost predicate DiffOf(d: WorldDiff, before: EntityStates, after: EntityStates) {
    && NoDup(d.addedEntities) && Elems(d.addedEntities) == after.Keys - before.Keys
    && NoDup(d.removedEntities) && Elems(d.removedEntities) == before.Keys - after.Keys
    && ChangedKeys(d.addedComponents, Missing, after, before, after.Keys)
    && ChangedKeys(d.removedComponents, Missing, before, after, after.Keys)
    && ChangedKeys(d.modifiedComponents, Different, after, before, after.Keys)
  }

  /** The five lists, one by one and without duplicates: entities that only one side has, components that
      only one side has of an entity the later one has, and components both have with different data. */
  lemma DiffLists(d: WorldDiff, before: EntityStates, after: EntityStates)
    requires DiffOf(d, before, after)
    ensures NoDup(d.addedEntities) && NoDup(d.removedEntities)
    ensures NoDup(d.addedComponents) && NoDup(d.removedComponents) && NoDup(d.modifiedComponents)
    ensures forall e: EntityId :: e in d.addedEntities <==> e in after && e !in before
    ensures forall e: EntityId :: e in d.removedEntities <==> e in before && e !in after
    ensures forall k: Key :: k in d.addedComponents <==> k in FlatOf(after) && k !in FlatOf(before)
    ensures forall k: Key :: k in d.removedComponents <==> k.0 in after && k in FlatOf(before) && k !in FlatOf(after)
    ensures forall k: Key :: k in d.modifiedComponents
              <==> k in FlatOf(before) && k in FlatOf(after) && FlatOf(before)[k] != FlatOf(after)[k]
  {
    forall e: EntityId
      ensures e in d.addedEntities <==> e in after && e !in before
      ensures e in d.removedEntities <==> e in before && e !in after
    {
      assert e in d.addedEntities <==> e in Elems(d.addedEntities);
      assert e in d.removedEntities <==> e in Elems(d.removedEntities);
    }
    forall k: Key
      ensures k in FlatOf(after) ==> k.0 in after
    {
      FlatOfAt(after, k);
    }
  }

  /** What was there before, without the removed components and entities, with the added and
      modified components as they are afterwards: a difference carries keys only, so their data is
      read from the later state. */
  ghost function Patched(d: WorldDiff, before: map<Key, Bytes>, after: map<Key, Bytes>): map<Key, Bytes> {
    (map k | k in before && k !in d.removedComponents && k.0 !in d.removedEntities :: before[k])
    + (map k | k in after && (k in d.addedComponents || k in d.modifiedComponents) :: after[k])
  }

  lemma EntityOfKey(m: EntityStates, k: Key)
    ensures k in FlatOf(m) ==> k.0 in m
  {
    FlatOfAt(m, k);
  }

  /** The difference names every key whose data is needed: the earlier state, patched at the added
      and modified keys with the later data, is the later state. And the keys are those before, less
      the removed ones and all of removed entities, and the added ones. */
  lemma DiffIsExact(d: WorldDiff, before: EntityStates, after: EntityStates)
    requires DiffOf(d, before, after)
    ensures Patched(d, FlatOf(before), FlatOf(after)) == FlatOf(after)
    ensures forall k: Key :: k in FlatOf(after) <==>
              (k in FlatOf(before) && k !in d.removedComponents && k.0 !in d.removedEntities) || k in d.addedComponents
    ensures forall k: Key :: k in d.modifiedComponents <==>
              k in FlatOf(before) && k in FlatOf(after) && FlatOf(before)[k] != FlatOf(after)[k]
  {
    forall k: Key
      ensures k in FlatOf(after) <==>
                (k in FlatOf(before) && k !in d.removedComponents && k.0 !in d.removedEntities)
                  || k in d.addedComponents
      ensures k in FlatOf(after) && k !in d.addedComponents && k !in d.modifiedComponents ==>
                k in FlatOf(before) && FlatOf(before)[k] == FlatOf(after)[k]
    {
      EntityOfKey(before, k);
      EntityOfKey(after, k);
      assert k.0 in d.removedEntities <==> k.0 in Elems(d.removedEntities);
    }
    MapsAgree(Patched(d, FlatOf(before), FlatOf(after)), FlatOf(after));
  }

  lemma EntityHasKey(m: EntityStates, e: EntityId)
    requires SnapshotOk(m) && e in m
    ensures (e, m[e][0].0) in FlatOf(m)
  {
    FindAt(m[e], m[e][0].0);
    FlatOfAt(m, (e, m[e][0].0));
  }

  /** The difference is empty exactly when the two states are the same map. */
  lemma EmptyDiffMeansEqual(d: WorldDiff, before: EntityStates, after: EntityStates)
    requires DiffOf(d, before, after) && SnapshotOk(before) && SnapshotOk(after)
    ensures d == NO_CHANGE <==> FlatOf(before) == FlatOf(after)
  {
    if d == NO_CHANGE {
      DiffIsExact(d, before, after);
      MapsAgree(FlatOf(before), FlatOf(after));
    }
    if FlatOf(before) == FlatOf(after) {
      forall e: EntityId
        ensures e in before <==> e in after
      {
        if e in before {
          EntityHasKey(before, e);
          EntityOfKey(after, (e, before[e][0].0));
        }
        if e in after {
          EntityHasKey(after, e);
          EntityOfKey(before, (e, after[e][0].0));
        }
      }
      assert forall e {:trigger e in d.addedEntities} :: e in d.addedEntities ==> e in Elems(d.addedEntities);
      assert forall e {:trigger e in d.removedEntities} :: e in d.removedEntities ==> e in Elems(d.removedEntities);
      NothingIn(d.addedEntities);
      NothingIn(d.removedEntities);
      NothingIn(d.addedComponents);
      NothingIn(d.removedComponents);
      NothingIn(d.modifiedComponents);
    }
  }

  // ----- computing the difference -----

  /** The index loop that looks for a type in a list. */
  method FindType(l: seq<Component>, t: Symbol) returns (found: Option<Bytes>)
    ensures found == Find(l, t)
  {
    for j := 0 to |l|
      invariant Find(l[..j], t) == None
    {
      FindAt(l[..j + 1], t);
      assert l[..j + 1][..j] == l[..j] && l[..j + 1][j] == l[j];
      if l[j].0 == t {
        FoundEarly(l, j + 1, t);
        return Some(l[j].1);
      }
    }
    assert l[..|l|] == l;
    return None;
  }

  lemma {:induction false} FoundEarly(l: seq<Component>, n: nat, t: Symbol)
    requires n <= |l| && Find(l[..n], t).Some?
    ensures Find(l, t) == Find(l[..n], t)
  {
    if n < |l| {
      assert l[..|l| - 1][..n] == l[..n];
      FoundEarly(l[..|l| - 1], n, t);
    } else {
      assert l[..n] == l;
    }
  }

  /** The loop over an entity's later components. */
  method CompareLater(e: EntityId, after: seq<Component>, before: seq<Component>)
    returns (added: seq<Key>, modified: seq<Key>)
    ensures added == Changes(Missing, e, after, before) && modified == Changes(Different, e, after, before)
  {
    added, modified := [], [];
    for i := 0 to |after|
      invariant added == Changes(Missing, e, after[..i], before)
                && modified == Changes(Different, e, after[..i], before)
    {
      assert after[..i + 1] == after[..i] + [after[i]];
      ChangesOneMore(Missing, e, after[..i], after[i], before);
      ChangesOneMore(Different, e, after[..i], after[i], before);
      var found := FindType(before, after[i].0);
      if found.Some? {
        if after[i].1 != found.value {
          modified := modified + [(e, after[i].0)];
        }
      } else {
        added := added + [(e, after[i].0)];
      }
    }
    assert after[..|after|] == after;
  }

  /** The loop over an entity's earlier components. */
  method CompareEarlier(e: EntityId, before: seq<Component>, after: seq<Component>) returns (removed: seq<Key>)
    ensures removed == Changes(Missing, e, before, after)
  {
    removed := [];
    for j := 0 to |before|
      invariant removed == Changes(Missing, e, before[..j], after)
    {
      assert before[..j + 1] == before[..j] + [before[j]];
      ChangesOneMore(Missing, e, before[..j], before[j], after);
      var found := FindType(after, before[j].0);
      if found.None? {
        removed := removed + [(e, before[j].0)];
      }
    }
    assert before[..|before|] == before;
  }

  /** All components of an entity that is new. */
  method AllAdded(e: EntityId, after: seq<Component>) returns (added: seq<Key>)
    ensures added == Changes(Missing, e, after, [])
    ensures Changes(Different, e, after, []) == []
  {
    added := [];
    for i := 0 to |after|
      invariant added == Changes(Missing, e, after[..i], []) && Changes(Different, e, after[..i], []) == []
    {
      assert after[..i + 1] == after[..i] + [after[i]];
      ChangesOneMore(Missing, e, after[..i], after[i], []);
      ChangesOneMore(Different, e, after[..i], after[i], []);
      added := added + [(e, after[i].0)];
    }
    assert after[..|after|] == after;
  }

  /** The keys of one side that the other does not have. */
  method OnlyIn(keys: seq<EntityId>, other: EntityStates) returns (only: seq<EntityId>)
    ensures only == Outside(keys, other.Keys)
  {
    only := [];
    for i := 0 to |keys|
      invariant only == Outside(keys[..i], other.Keys)
    {
      assert keys[..i + 1] == keys[..i] + [keys[i]];
      OutsideSnoc(keys[..i], keys[i], other.Keys);
      if keys[i] !in other {
        only := only + [keys[i]];
      }
    }
    assert keys[..|keys|] == keys;
  }

  method CompareComponents(keys: seq<EntityId>, before: EntityStates, after: EntityStates)
    returns (added: seq<Key>, removed: seq<Key>, modified: seq<Key>)
    requires Elems(keys) <= after.Keys
    ensures added == ChangesAmong(Missing, keys, after, before)
    ensures removed == ChangesAmong(Missing, keys, before, after)
    ensures modified == ChangesAmong(Different, keys, after, before)
  {
    added, removed, modified := [], [], [];
    for i := 0 to |keys|
      invariant added == ChangesAmong(Missing, keys[..i], after, before)
      invariant removed == ChangesAmong(Missing, keys[..i], before, after)
      invariant modified == ChangesAmong(Different, keys[..i], after, before)
    {
      var e := keys[i];
      assert e in Elems(keys);
      ChangesAmongNext(Missing, keys, after, before, i);
      ChangesAmongNext(Missing, keys, before, after, i);
      ChangesAmongNext(Different, keys, after, before, i);
      if e in after && e in before {
        var added', modified' := CompareLater(e, after[e], before[e]);
        added := added + added';
        modified := modified + modified';
        var removed' := CompareEarlier(e, before[e], after[e]);
        removed := removed + removed';
      } else if e in after && e !in before {
        var added' := AllAdded(e, after[e]);
        added := added + added';
        assert Changes(Missing, e, [], after[e]) == [];
        assert removed + [] == removed && modified + [] == modified;
      }
    }
    assert keys[..|keys|] == keys;
  }

  lemma OnlyInElems(a: EntityStates, b: EntityStates)
    ensures NoDup(Outside(Ascending(a.Keys), b.Keys)) && Elems(Outside(Ascending(a.Keys), b.Keys)) == a.Keys - b.Keys
  {
    AscendingElems(a.Keys);
    OutsideNoDup(Ascending(a.Keys), b.Keys);
    OutsideElems(Ascending(a.Keys), b.Keys);
  }

  /** The five lists as the loops build them, whatever the snapshots hold. */
  ghost function Difference(before: EntityStates, after: EntityStates): WorldDiff {
    WorldDiff(Outside(Ascending(after.Keys), before.Keys),
              Outside(Ascending(before.Keys), after.Keys),
              ChangesAmong(Missing, Ascending(after.Keys), after, before),
              ChangesAmong(Missing, Ascending(after.Keys), before, after),
              ChangesAmong(Different, Ascending(after.Keys), after, before))
  }

  lemma DifferenceIsDiff(before: EntityStates, after: EntityStates)
    requires SnapshotOk(before) && SnapshotOk(after)
    ensures DiffOf(Difference(before, after), before, after)
  {
    AscendingElems(after.Keys);
    OnlyInElems(after, before);
    OnlyInElems(before, after);
    ChangesAmongAt(Missing, Ascending(after.Keys), after, before);
    ChangesAmongAt(Missing, Ascending(after.Keys), before, after);
    ChangesAmongAt(Different, Ascending(after.Keys), after, before);
  }

  /** The difference of any two snapshots. Of two as `TakeSnapshot` makes them, every list is exact:
      the difference with the later data patches the earlier map into the later one, and it is empty
      exactly when both hold the same map. */
  method DiffSnapshots(before: WorldSnapshot, after: WorldSnapshot) returns (d: WorldDiff)
    ensures d == Difference(before.entityStates, after.entityStates)
    ensures SnapshotOk(before.entityStates) && SnapshotOk(after.entityStates) ==>
              && DiffOf(d, before.entityStates, after.entityStates)
              && Patched(d, FlatOf(before.entityStates), FlatOf(after.entityStates)) == FlatOf(after.entityStates)
              && (d == NO_CHANGE <==> FlatOf(before.entityStates) == FlatOf(after.entityStates))
  {
    var beforeKeys, afterKeys := Ascending(before.entityStates.Keys), Ascending(after.entityStates.Keys);
    AscendingElems(after.entityStates.Keys);
    var addedEntities := OnlyIn(afterKeys, before.entityStates);
    var removedEntities := OnlyIn(beforeKeys, after.entityStates);
    var added, removed, modified := CompareComponents(afterKeys, before.entityStates, after.entityStates);
    d := WorldDiff(addedEntities, removedEntities, added, removed, modified);
    if SnapshotOk(before.entityStates) && SnapshotOk(after.entityStates) {
      DifferenceIsDiff(before.entityStates, after.entityStates);
      DiffIsExact(d, before.entityStates, after.entityStates);
      EmptyDiffMeansEqual(d, before.entityStates, after.entityStates);
    }
  }

  // ----- what snapshots say about worlds -----

  /** A snapshot of a world holds the world's whole map exactly when everything stored is listed. */
  lemma SnapshotsSeeEverything(s: SimpleState)
    ensures ListedPart(s) == Model(s) <==> AllListed(s)
  {
    if AllListed(s) {
      MapsAgree(ListedPart(s), Model(s));
    }
  }

  /** For two worlds: the difference of their snapshots is empty exactly when their listed parts are
      the same map, hence, if each lists what it stores, exactly when they mean the same map. */
  lemma EmptyDiffMeansSameWorld(s: SimpleState, m: EntityStates, s': SimpleState, m': EntityStates, d: WorldDiff)
    requires SnapshotOk(m) && FlatOf(m) == ListedPart(s)
    requires SnapshotOk(m') && FlatOf(m') == ListedPart(s')
    requires DiffOf(d, m, m')
    ensures d == NO_CHANGE <==> ListedPart(s) == ListedPart(s')
    ensures AllListed(s) && AllListed(s') ==> (d == NO_CHANGE <==> Model(s) == Model(s'))
  {
    EmptyDiffMeansEqual(d, m, m');
    if AllListed(s) && AllListed(s') {
      SnapshotsSeeEverything(s);
      SnapshotsSeeEverything(s');
    }
  }

  /** Without that a change can go unseen: removing a component that is in both storages leaves a
      world that stores it and has the listed part of an empty one. */
  lemma OrphanIsUnseen(e: EntityId, t: Symbol, x: Bytes, y: Bytes, next: EntityId)
    ensures var s0 := SimpleState(next, map[], map[], map[], 0);
            var s := Removed(Added(Added(s0, e, t, x, Table), e, t, y, Sparse), e, t);
            Ok(s) && ListedPart(s) == ListedPart(s0) && Model(s) != Model(s0)
  {
    var s0 := SimpleState(next, map[], map[], map[], 0);
    var s := Removed(Added(Added(s0, e, t, x, Table), e, t, y, Sparse), e, t);
    MixedStorageLeavesAnOrphan(e, t, x, y, next);
    assert (e, t) in Model(s);
    MapsAgree(ListedPart(s), map[]);
  }
}

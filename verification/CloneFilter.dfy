/** The opt-in filter of `src/entity/clone_entities.rs`: which components of a source entity are
    cloned, decided by reference counts over index ranges. */
module CloneFilter {
  import opened Collections
  import opened Graph
  import opened Storage

  /** `range` delimits this component's required components in the shared list. */
  datatype Explicit = Explicit(mode: InsertMode, range: Option<(nat, nat)>)

  /** How many allowed components require this one; `reduced` is counted down while cloning. */
  datatype Required = Required(requiredBy: nat, reduced: nat)

  // ----- what the filter is asked for -----

  /** What was allowed for one component: its strongest mode, and whether its required components
      come along. */
  datatype Wish = Wish(mode: InsertMode, attached: bool)

  type Wishes = map<ComponentId, Wish>

  type Registry = map<ComponentId, seq<ComponentId>>

  /** Required components are listed once, never include the component itself, and are registered. */
  ghost predicate RegistryOk(registry: Registry) {
    forall k | k in registry ::
      NoDup(registry[k]) && k !in registry[k] && forall c | c in registry[k] :: c in registry
  }

  function Stronger(x: InsertMode, y: InsertMode): InsertMode {
    if x == Replace then Replace else y
  }

  /** The wishes after one more `allow` call. A component that is not registered gets no required
      components, and asking for them leaves its wish as it was. */
  function Wished(w: Wishes, registry: Registry, id: ComponentId, mode: InsertMode, attach: bool): Wishes {
    if attach && !(id in w && w[id].attached) && id !in registry then w
    else if id in w then w[id := Wish(Stronger(w[id].mode, mode), w[id].attached || attach)]
    else w[id := Wish(mode, attach)]
  }

  /** An allowed component is cloned if the source has it and the mode lets it reach the target. */
  ghost predicate Cloned(w: Wishes, source: set<ComponentId>, target: set<ComponentId>, a: ComponentId) {
    a in w && a in source && (w[a].mode == Replace || a !in target)
  }

  /** `a` is cloned, was allowed together with its required components, and requires `r`. */
  ghost predicate ClonedRequirer(w: Wishes, registry: Registry, source: set<ComponentId>, target: set<ComponentId>,
                                 a: ComponentId, r: ComponentId)
  {
    Cloned(w, source, target, a) && w[a].attached && a in registry && r in registry[a]
  }

  /** A component that is not allowed itself is cloned if some cloned component requires it, the
      source has it, and the target does not. */
  ghost predicate ClonedAlong(w: Wishes, registry: Registry, source: set<ComponentId>, target: set<ComponentId>,
                              r: ComponentId)
  {
    && r !in w && r in source && r !in target
    && exists a :: ClonedRequirer(w, registry, source, target, a, r)
  }

  ghost function Expected(w: Wishes, registry: Registry, source: set<ComponentId>, target: set<ComponentId>)
    : set<ComponentId>
  {
    set c | c in source && (Cloned(w, source, target, c) || ClonedAlong(w, registry, source, target, c))
  }

  /** The order of allow calls does not matter for registered components: the wishes only record
      the strongest mode and whether required components were ever wanted. */
  lemma AllowOrderIsIrrelevant(w: Wishes, registry: Registry, x: ComponentId, xm: InsertMode, xa: bool,
                               y: ComponentId, ym: InsertMode, ya: bool)
    requires x in registry && y in registry
    ensures Wished(Wished(w, registry, x, xm, xa), registry, y, ym, ya)
         == Wished(Wished(w, registry, y, ym, ya), registry, x, xm, xa)
  {
    var xy := Wished(Wished(w, registry, x, xm, xa), registry, y, ym, ya);
    var yx := Wished(Wished(w, registry, y, ym, ya), registry, x, xm, xa);
    MapsAgree(xy, yx);
  }

  /** One `allow` call changes the wish of its component only: it is wished from then on, in mode Replace
      if it was or is asked for so, attached if it was or is. Only asking for the required components of
      a component that is not registered does nothing. */
  lemma AllowMeans(w: Wishes, registry: Registry, id: ComponentId, mode: InsertMode, attach: bool)
    ensures var w' := Wished(w, registry, id, mode, attach);
            && w' - {id} == w - {id}
            && (attach && id !in registry && (id in w ==> !w[id].attached) ==> w' == w)
            && (!attach || id in registry || (id in w && w[id].attached) ==>
                  && id in w'
                  && (w'[id].mode == Replace <==> mode == Replace || (id in w && w[id].mode == Replace))
                  && (w'[id].attached <==> attach || (id in w && w[id].attached)))
  {
  }

  /** An `allow` call, and whether required components are attached at that moment. */
  datatype AllowCall = AllowCall(id: ComponentId, mode: InsertMode, attach: bool)

  function WishesAfter(registry: Registry, calls: seq<AllowCall>): Wishes {
    if calls == [] then map[]
    else
      var last := calls[|calls| - 1];
      Wished(WishesAfter(registry, calls[..|calls| - 1]), registry, last.id, last.mode, last.attach)
  }

  /** Some call named the component, and did not ask for required components nobody knows of. */
  ghost predicate Allowed(registry: Registry, calls: seq<AllowCall>, c: ComponentId) {
    exists i :: 0 <= i < |calls| && calls[i].id == c && (c in registry || !calls[i].attach)
  }

  /** Some such call was in mode Replace. */
  ghost predicate AllowedReplacing(registry: Registry, calls: seq<AllowCall>, c: ComponentId) {
    exists i :: 0 <= i < |calls| && calls[i].id == c && (c in registry || !calls[i].attach) && calls[i].mode == Replace
  }

  /** Some call allowed the component, which is registered, with its required ones. */
  ghost predicate AllowedAttached(registry: Registry, calls: seq<AllowCall>, c: ComponentId) {
    c in registry && exists i :: 0 <= i < |calls| && calls[i].id == c && calls[i].attach
  }

  lemma AllowedNext(registry: Registry, calls: seq<AllowCall>, c: ComponentId)
    requires calls != []
    ensures var front, last := calls[..|calls| - 1], calls[|calls| - 1];
            && (Allowed(registry, calls, c)
                <==> Allowed(registry, front, c) || (last.id == c && (c in registry || !last.attach)))
            && (AllowedReplacing(registry, calls, c)
                <==> || AllowedReplacing(registry, front, c)
                     || (last.id == c && (c in registry || !last.attach) && last.mode == Replace))
            && (AllowedAttached(registry, calls, c)
                <==> AllowedAttached(registry, front, c) || (c in registry && last.id == c && last.attach))
  {
    var n := |calls| - 1;
    assert calls == calls[..n] + [calls[n]];
    assert forall i | 0 <= i < n :: calls[..n][i] == calls[i];
  }

  /** After any calls, a component is wished exactly if some call allowed it, in mode Replace exactly if
      some call asked for that, and with its required components exactly if some call did. */
  lemma {:induction false} WishesRecordTheCalls(registry: Registry, calls: seq<AllowCall>, c: ComponentId)
    ensures var w := WishesAfter(registry, calls);
            && (c in w <==> Allowed(registry, calls, c))
            && (c in w && w[c].mode == Replace <==> AllowedReplacing(registry, calls, c))
            && (c in w && w[c].attached <==> AllowedAttached(registry, calls, c))
  {
    if calls != [] {
      WishesRecordTheCalls(registry, calls[..|calls| - 1], c);
      AllowedNext(registry, calls, c);
    }
  }

  /** Source and mode let a component that some call allowed reach the target. */
  ghost predicate Reaches(registry: Registry, calls: seq<AllowCall>, source: set<ComponentId>, target: set<ComponentId>,
                          c: ComponentId)
  {
    && c in source && Allowed(registry, calls, c)
    && (AllowedReplacing(registry, calls, c) || c !in target)
  }

  /** What is cloned, in terms of the calls: the source's components that some call allowed, unless the
      target has them and no call was to replace them; and those no call allowed, that the target lacks
      and that some such component requires, which was allowed with its required ones. */
  lemma ClonedAsAllowed(registry: Registry, calls: seq<AllowCall>, source: set<ComponentId>, target: set<ComponentId>,
                        c: ComponentId)
    ensures c in Expected(WishesAfter(registry, calls), registry, source, target)
       <==> || Reaches(registry, calls, source, target, c)
            || (&& c in source && c !in target && !Allowed(registry, calls, c)
                && exists a :: && Reaches(registry, calls, source, target, a) && AllowedAttached(registry, calls, a)
                               && c in registry[a])
  {
    var w := WishesAfter(registry, calls);
    forall a
      ensures Cloned(w, source, target, a) <==> Reaches(registry, calls, source, target, a)
      ensures a in w && w[a].attached <==> AllowedAttached(registry, calls, a)
      ensures a in w <==> Allowed(registry, calls, a)
    {
      WishesRecordTheCalls(registry, calls, a);
    }
    forall a
      ensures ClonedRequirer(w, registry, source, target, a, c)
         <==> && Reaches(registry, calls, source, target, a) && AllowedAttached(registry, calls, a)
              && c in registry[a]
    {
      WishesRecordTheCalls(registry, calls, a);
    }
  }

  ghost function WishesOf(allow: map<ComponentId, Explicit>): Wishes {
    map a | a in allow :: Wish(allow[a].mode, allow[a].range.Some?)
  }

  // ----- the reference counts -----

  /** The required components a range delimits. */
  function SliceOf(list: seq<ComponentId>, e: Explicit): seq<ComponentId> {
    match e.range
    case None => []
    case Some((lo, hi)) => if lo <= hi <= |list| then list[lo..hi] else []
  }

  ghost function Requirers(allow: map<ComponentId, Explicit>, list: seq<ComponentId>, c: ComponentId): set<ComponentId>
  {
    set a | a in allow && c in SliceOf(list, allow[a])
  }

  /** A range is inside the list and holds the component's required ones, except perhaps those
      that are allowed themselves. */
  ghost predicate RangeOk(allow: map<ComponentId, Explicit>, list: seq<ComponentId>, registry: Registry, a: ComponentId)
    requires a in allow
  {
    match allow[a].range
    case None => true
    case Some((lo, hi)) =>
      && lo <= hi <= |list| && NoDup(list[lo..hi]) && a in registry
      && (forall c | c in list[lo..hi] :: c in registry[a])
      && (forall c | c in registry[a] && c !in allow :: c in list[lo..hi])
  }

  /** A component that is not allowed is counted exactly when some allowed component requires it,
      and the count is how many do. */
  ghost predicate CountOk(allow: map<ComponentId, Explicit>, list: seq<ComponentId>,
                          required: map<ComponentId, Required>,
                          c: ComponentId)
  {
    && (c in required <==> Requirers(allow, list, c) != {})
    && (c in required ==> required[c].requiredBy == |Requirers(allow, list, c)|)
  }

  /** Counts never overlap the allowed components, and every other component's count is right.
      Component `but`, if any, is about to be allowed and has no count. */
  ghost predicate Counted(registry: Registry, allow: map<ComponentId, Explicit>, list: seq<ComponentId>,
                          required: map<ComponentId, Required>, but: Option<ComponentId>)
  {
    && RegistryOk(registry) && allow.Keys !! required.Keys && (but.Some? ==> but.value !in required)
    && (forall a {:trigger RangeOk(allow, list, registry, a)} | a in allow :: RangeOk(allow, list, registry, a))
    && (forall c {:trigger CountOk(allow, list, required, c)} | c !in allow && Some(c) != but ::
        CountOk(allow, list, required, c))
  }

  ghost predicate Whole(required: map<ComponentId, Required>) {
    forall c | c in required :: required[c].reduced == required[c].requiredBy
  }

  /** Every counted component is registered, being required by an allowed one. */
  lemma CountedIsRegistered(registry: Registry, allow: map<ComponentId, Explicit>, list: seq<ComponentId>,
                            required: map<ComponentId, Required>, c: ComponentId)
    requires Counted(registry, allow, list, required, None) && c in required
    ensures c in registry
  {
    assert CountOk(allow, list, required, c);
    var a :| a in Requirers(allow, list, c);
    assert RangeOk(allow, list, registry, a);
  }

  lemma ForgettingKeepsCounts(registry: Registry, allow: map<ComponentId, Explicit>, list: seq<ComponentId>,
                              required: map<ComponentId, Required>, id: ComponentId)
    requires Counted(registry, allow, list, required, None) && Whole(required) && id !in allow
    ensures Counted(registry, allow, list, required - {id}, Some(id)) && Whole(required - {id})
    ensures id !in registry ==> required - {id} == required
  {
    if id in required {
      CountedIsRegistered(registry, allow, list, required, id);
    }
    forall c | c !in allow && c != id
      ensures CountOk(allow, list, required - {id}, c)
    {
      assert CountOk(allow, list, required, c);
    }
  }

  lemma AllowingAloneKeepsCounts(registry: Registry, allow: map<ComponentId, Explicit>, list: seq<ComponentId>,
                                 required: map<ComponentId, Required>, id: ComponentId, mode: InsertMode)
    requires Counted(registry, allow, list, required, Some(id)) && Whole(required)
    requires id !in allow && id !in required
    ensures Counted(registry, allow[id := Explicit(mode, None)], list, required, None)
  {
    var allow' := allow[id := Explicit(mode, None)];
    forall c | c !in allow'
      ensures CountOk(allow', list, required, c)
    {
      assert Requirers(allow', list, c) == Requirers(allow, list, c);
      assert CountOk(allow, list, required, c);
    }
    forall a | a in allow'
      ensures RangeOk(allow', list, registry, a)
    {
      assert a != id ==> RangeOk(allow, list, registry, a);
    }
  }

  lemma ModeKeepsCounts(registry: Registry, allow: map<ComponentId, Explicit>, list: seq<ComponentId>,
                        required: map<ComponentId, Required>, id: ComponentId, mode: InsertMode)
    requires Counted(registry, allow, list, required, None) && id in allow
    ensures Counted(registry, allow[id := allow[id].(mode := mode)], list, required, None)
  {
    var allow' := allow[id := allow[id].(mode := mode)];
    forall a | a in allow'
      ensures RangeOk(allow', list, registry, a) && SliceOf(list, allow'[a]) == SliceOf(list, allow[a])
    {
      assert RangeOk(allow, list, registry, a);
    }
    forall c | c !in allow'
      ensures CountOk(allow', list, required, c)
    {
      assert Requirers(allow', list, c) == Requirers(allow, list, c);
      assert CountOk(allow, list, required, c);
    }
  }

  function OneMore(required: map<ComponentId, Required>, c: ComponentId): Required {
    if c in required then Required(required[c].requiredBy + 1, required[c].reduced + 1) else Required(1, 1)
  }

  /** `required'` is `required` with one more requirer for each component of `added`. */
  ghost predicate CountedUp(required: map<ComponentId, Required>, required': map<ComponentId, Required>,
                            added: set<ComponentId>)
  {
    && required'.Keys == required.Keys + added
    && forall c | c in required' :: required'[c] == if c in added then OneMore(required, c) else required[c]
  }

  lemma AttachingKeepsSlices(allow: map<ComponentId, Explicit>, list: seq<ComponentId>, registry: Registry,
                             added: seq<ComponentId>, a: ComponentId)
    requires a in allow && RangeOk(allow, list, registry, a)
    ensures SliceOf(list + added, allow[a]) == SliceOf(list, allow[a])
  {
    match allow[a].range
    case None =>
    case Some((lo, hi)) => assert (list + added)[lo..hi] == list[lo..hi];
  }

  lemma AttachingAddsARequirer(registry: Registry, allow: map<ComponentId, Explicit>, list: seq<ComponentId>,
                               id: ComponentId, e: Explicit, added: seq<ComponentId>, c: ComponentId)
    requires forall a | a in allow :: RangeOk(allow, list, registry, a)
    requires id in allow ==> allow[id].range.None?
    requires e.range == Some((|list|, |list| + |added|))
    ensures Requirers(allow[id := e], list + added, c) == Requirers(allow, list, c) + (if c in added then {id} else {})
    ensures id !in Requirers(allow, list, c)
  {
    assert (list + added)[|list|..|list| + |added|] == added;
    forall a | a in allow
      ensures SliceOf(list + added, allow[a]) == SliceOf(list, allow[a])
    {
      AttachingKeepsSlices(allow, list, registry, added, a);
    }
  }

  lemma AttachingKeepsRange(registry: Registry, allow: map<ComponentId, Explicit>, list: seq<ComponentId>,
                            id: ComponentId, e: Explicit, added: seq<ComponentId>, a: ComponentId)
    requires a in allow && a != id && RangeOk(allow, list, registry, a)
    ensures RangeOk(allow[id := e], list + added, registry, a)
  {
    if allow[a].range.Some? {
      var (lo, hi) := allow[a].range.value;
      assert (list + added)[lo..hi] == list[lo..hi];
    }
  }

  lemma AttachedRange(registry: Registry, allow: map<ComponentId, Explicit>, list: seq<ComponentId>,
                      id: ComponentId, e: Explicit, added: seq<ComponentId>)
    requires RegistryOk(registry) && id in registry && added == Outside(registry[id], allow.Keys)
    requires e.range == Some((|list|, |list| + |added|))
    ensures RangeOk(allow[id := e], list + added, registry, id)
  {
    assert (list + added)[|list|..|list| + |added|] == added;
    OutsideElems(registry[id], allow.Keys);
    OutsideNoDup(registry[id], allow.Keys);
    assert forall c :: c in added <==> c in Elems(added);
  }

  lemma AttachingCounts(registry: Registry, allow: map<ComponentId, Explicit>, list: seq<ComponentId>,
                        required: map<ComponentId, Required>, required': map<ComponentId, Required>,
                        id: ComponentId, e: Explicit, added: seq<ComponentId>, c: ComponentId)
    requires forall a | a in allow :: RangeOk(allow, list, registry, a)
    requires id in allow ==> allow[id].range.None?
    requires e.range == Some((|list|, |list| + |added|))
    requires CountOk(allow, list, required, c) && CountedUp(required, required', Elems(added))
    ensures CountOk(allow[id := e], list + added, required', c)
  {
    AttachingAddsARequirer(registry, allow, list, id, e, added, c);
    assert c in added <==> c in Elems(added);
  }

  lemma AttachingKeepsApart(registry: Registry, allow: map<ComponentId, Explicit>, required: map<ComponentId, Required>,
                            required': map<ComponentId, Required>, id: ComponentId)
    requires id in registry && id !in registry[id] && allow.Keys !! required.Keys && id !in required
    requires CountedUp(required, required', Elems(Outside(registry[id], allow.Keys)))
    ensures id !in required' && allow.Keys !! required'.Keys
  {
    OutsideElems(registry[id], allow.Keys);
  }

  lemma AttachingKeepsCounts(registry: Registry, allow: map<ComponentId, Explicit>, list: seq<ComponentId>,
                             required: map<ComponentId, Required>, required': map<ComponentId, Required>,
                             id: ComponentId, mode: InsertMode)
    requires Counted(registry, allow, list, required, Some(id))
    requires id in registry && (id in allow ==> allow[id].range.None?)
    requires CountedUp(required, required', Elems(Outside(registry[id], allow.Keys)))
    ensures var added := Outside(registry[id], allow.Keys);
            var e := Explicit(mode, Some((|list|, |list| + |added|)));
            Counted(registry, allow[id := e], list + added, required', None)
  {
    var added := Outside(registry[id], allow.Keys);
    var e := Explicit(mode, Some((|list|, |list| + |added|)));
    var allow' := allow[id := e];
    AttachingKeepsApart(registry, allow, required, required', id);
    forall a | a in allow'
      ensures RangeOk(allow', list + added, registry, a)
    {
      if a == id {
        AttachedRange(registry, allow, list, id, e, added);
      } else {
        AttachingKeepsRange(registry, allow, list, id, e, added, a);
      }
    }
    forall c | c !in allow'
      ensures CountOk(allow', list + added, required', c)
    {
      AttachingCounts(registry, allow, list, required, required', id, e, added, c);
    }
  }

  lemma WishSet(allow: map<ComponentId, Explicit>, id: ComponentId, e: Explicit)
    ensures WishesOf(allow[id := e]) == WishesOf(allow)[id := Wish(e.mode, e.range.Some?)]
  {
  }

  lemma CountNext(ids: seq<ComponentId>, allowed: set<ComponentId>, i: nat)
    requires NoDup(ids) && i < |ids|
    ensures ids[i] in allowed ==> Outside(ids[..i + 1], allowed) == Outside(ids[..i], allowed)
    ensures ids[i] !in allowed ==>
              && Outside(ids[..i + 1], allowed) == Outside(ids[..i], allowed) + [ids[i]]
              && ids[i] !in Elems(Outside(ids[..i], allowed))
              && Elems(Outside(ids[..i + 1], allowed)) == Elems(Outside(ids[..i], allowed)) + {ids[i]}
  {
    assert ids[..i + 1] == ids[..i] + [ids[i]] && ids[i] !in ids[..i];
    OutsideSnoc(ids[..i], ids[i], allowed);
    OutsideElems(ids[..i], allowed);
  }

  lemma CountUpOne(before: map<ComponentId, Required>, required: map<ComponentId, Required>, added: set<ComponentId>,
                   c: ComponentId)
    requires CountedUp(before, required, added) && c !in added
    ensures CountedUp(before, required[c := OneMore(required, c)], added + {c})
  {
  }

  lemma CountedUpStaysWhole(required: map<ComponentId, Required>, required': map<ComponentId, Required>,
                            added: set<ComponentId>)
    requires Whole(required) && CountedUp(required, required', added)
    ensures Whole(required')
  {
  }

  // ----- counting down while cloning -----

  /** The requirers of `r` that have not been skipped. */
  ghost function Left(allow: map<ComponentId, Explicit>, list: seq<ComponentId>, skipped: set<ComponentId>,
                      r: ComponentId)
    : set<ComponentId>
  {
    set a | a in allow && r in SliceOf(list, allow[a]) && a !in skipped
  }

  /** Every count has been reduced by the requirers in `skipped`, and by nothing else. */
  ghost predicate ReducedBy(allow: map<ComponentId, Explicit>, list: seq<ComponentId>,
                            whole: map<ComponentId, Required>,
                            required: map<ComponentId, Required>, skipped: set<ComponentId>)
  {
    && required.Keys == whole.Keys
    && forall r {:trigger required[r]} | r in required ::
         required[r] == Required(whole[r].requiredBy, |Left(allow, list, skipped, r)|)
  }

  /** The requirers of `r` left while skipping `c`, when only the components of `seen` were reduced for it. */
  ghost function LeftFor(allow: map<ComponentId, Explicit>, list: seq<ComponentId>, skipped: set<ComponentId>,
                         c: ComponentId, seen: set<ComponentId>, r: ComponentId): set<ComponentId>
  {
    set a | a in allow && r in SliceOf(list, allow[a]) && a !in skipped && !(a == c && r in seen)
  }

  ghost predicate ReducedPartly(allow: map<ComponentId, Explicit>, list: seq<ComponentId>,
                                whole: map<ComponentId, Required>,
                                required: map<ComponentId, Required>, skipped: set<ComponentId>, c: ComponentId,
                                seen: set<ComponentId>)
  {
    && required.Keys == whole.Keys
    && forall r {:trigger required[r]} | r in required ::
         required[r] == Required(whole[r].requiredBy, |LeftFor(allow, list, skipped, c, seen, r)|)
  }

  lemma LeftForOthers(allow: map<ComponentId, Explicit>, list: seq<ComponentId>, skipped: set<ComponentId>,
                      c: ComponentId, seen: set<ComponentId>, r: ComponentId, x: ComponentId)
    requires x != r
    ensures LeftFor(allow, list, skipped, c, seen + {r}, x) == LeftFor(allow, list, skipped, c, seen, x)
  {
  }

  lemma LeftForSeen(allow: map<ComponentId, Explicit>, list: seq<ComponentId>, skipped: set<ComponentId>,
                    c: ComponentId, seen: set<ComponentId>, r: ComponentId)
    requires c in allow && c !in skipped && r in SliceOf(list, allow[c]) && r !in seen
    ensures |LeftFor(allow, list, skipped, c, seen + {r}, r)| == |LeftFor(allow, list, skipped, c, seen, r)| - 1
  {
    assert LeftFor(allow, list, skipped, c, seen + {r}, r) == LeftFor(allow, list, skipped, c, seen, r) - {c};
  }

  lemma ReduceOne(allow: map<ComponentId, Explicit>, list: seq<ComponentId>, whole: map<ComponentId, Required>,
                  required: map<ComponentId, Required>, skipped: set<ComponentId>, c: ComponentId,
                  seen: set<ComponentId>, r: ComponentId)
    requires ReducedPartly(allow, list, whole, required, skipped, c, seen)
    requires c in allow && c !in skipped && r in SliceOf(list, allow[c]) && r !in seen && r in required
    ensures required[r].reduced > 0
    ensures ReducedPartly(allow, list, whole, required[r := Required(required[r].requiredBy, required[r].reduced - 1)],
                          skipped, c, seen + {r})
  {
    LeftForSeen(allow, list, skipped, c, seen, r);
    var required' := required[r := Required(required[r].requiredBy, required[r].reduced - 1)];
    forall x | x in required'
      ensures required'[x] == Required(whole[x].requiredBy, |LeftFor(allow, list, skipped, c, seen + {r}, x)|)
    {
      if x != r {
        LeftForOthers(allow, list, skipped, c, seen, r, x);
      }
    }
  }

  lemma SeenUncounted(allow: map<ComponentId, Explicit>, list: seq<ComponentId>, whole: map<ComponentId, Required>,
                      required: map<ComponentId, Required>, skipped: set<ComponentId>, c: ComponentId,
                      seen: set<ComponentId>, r: ComponentId)
    requires ReducedPartly(allow, list, whole, required, skipped, c, seen) && r !in required
    ensures ReducedPartly(allow, list, whole, required, skipped, c, seen + {r})
  {
    forall x | x in required
      ensures LeftFor(allow, list, skipped, c, seen + {r}, x) == LeftFor(allow, list, skipped, c, seen, x)
    {
      LeftForOthers(allow, list, skipped, c, seen, r, x);
    }
  }

  lemma SkippingStarts(allow: map<ComponentId, Explicit>, list: seq<ComponentId>, whole: map<ComponentId, Required>,
                       required: map<ComponentId, Required>, skipped: set<ComponentId>, c: ComponentId)
    requires ReducedBy(allow, list, whole, required, skipped)
    ensures ReducedPartly(allow, list, whole, required, skipped, c, {})
  {
    forall r | r in required
      ensures LeftFor(allow, list, skipped, c, {}, r) == Left(allow, list, skipped, r)
    {
    }
  }

  lemma SkippingIsDone(allow: map<ComponentId, Explicit>, list: seq<ComponentId>, whole: map<ComponentId, Required>,
                       required: map<ComponentId, Required>, skipped: set<ComponentId>, c: ComponentId)
    requires c in allow
    requires ReducedPartly(allow, list, whole, required, skipped, c, Elems(SliceOf(list, allow[c])))
    ensures ReducedBy(allow, list, whole, required, skipped + {c})
  {
    forall r | r in required
      ensures LeftFor(allow, list, skipped, c, Elems(SliceOf(list, allow[c])), r) == Left(allow, list, skipped + {c}, r)
    {
    }
  }

  lemma WholeIsUnreduced(registry: Registry, allow: map<ComponentId, Explicit>, list: seq<ComponentId>,
                         required: map<ComponentId, Required>)
    requires Counted(registry, allow, list, required, None) && Whole(required)
    ensures ReducedBy(allow, list, required, required, {})
  {
    forall r | r in required
      ensures required[r] == Required(required[r].requiredBy, |Left(allow, list, {}, r)|)
    {
      assert CountOk(allow, list, required, r);
      assert Requirers(allow, list, r) == Left(allow, list, {}, r);
    }
  }

  /** For a component that is not allowed, its requirers are the allowed components that were
      allowed with their required ones and require it. */
  lemma RequirersMeanRequiring(registry: Registry, allow: map<ComponentId, Explicit>, list: seq<ComponentId>,
                               a: ComponentId, r: ComponentId)
    requires a in allow && RangeOk(allow, list, registry, a) && r !in allow
    ensures a in Requirers(allow, list, r) <==> allow[a].range.Some? && a in registry && r in registry[a]
  {
  }

  ghost function Skipped(w: Wishes, source: set<ComponentId>, target: set<ComponentId>): set<ComponentId> {
    set a | a in w && !Cloned(w, source, target, a)
  }

  lemma UnskippedRequirers(registry: Registry, allow: map<ComponentId, Explicit>, list: seq<ComponentId>,
                           source: set<ComponentId>, target: set<ComponentId>, a: ComponentId, r: ComponentId)
    requires forall x | x in allow :: RangeOk(allow, list, registry, x)
    requires r !in allow
    ensures a in Left(allow, list, Skipped(WishesOf(allow), source, target), r)
       <==> ClonedRequirer(WishesOf(allow), registry, source, target, a, r)
  {
    if a in allow {
      RequirersMeanRequiring(registry, allow, list, a, r);
    }
  }

  lemma UnskippedMeansAlong(registry: Registry, allow: map<ComponentId, Explicit>, list: seq<ComponentId>,
                            source: set<ComponentId>, target: set<ComponentId>, r: ComponentId)
    requires forall x | x in allow :: RangeOk(allow, list, registry, x)
    requires r !in allow
    ensures Left(allow, list, Skipped(WishesOf(allow), source, target), r) != {}
       <==> exists a :: ClonedRequirer(WishesOf(allow), registry, source, target, a, r)
  {
    var left := Left(allow, list, Skipped(WishesOf(allow), source, target), r);
    if left != {} {
      var a :| a in left;
      UnskippedRequirers(registry, allow, list, source, target, a, r);
    }
    forall a | ClonedRequirer(WishesOf(allow), registry, source, target, a, r)
      ensures a in left
    {
      UnskippedRequirers(registry, allow, list, source, target, a, r);
    }
  }

  /** After all explicit components were visited, a count is positive exactly when a cloned
      component requires it. */
  lemma PositiveMeansAlong(registry: Registry, allow: map<ComponentId, Explicit>, list: seq<ComponentId>,
                           whole: map<ComponentId, Required>, required: map<ComponentId, Required>,
                           source: set<ComponentId>, target: set<ComponentId>, r: ComponentId)
    requires Counted(registry, allow, list, whole, None)
    requires ReducedBy(allow, list, whole, required, Skipped(WishesOf(allow), source, target))
    ensures r in required && required[r].reduced > 0 && r in source && r !in target
       <==> ClonedAlong(WishesOf(allow), registry, source, target, r)
  {
    if r !in allow {
      assert CountOk(allow, list, whole, r);
      UnskippedMeansAlong(registry, allow, list, source, target, r);
      assert Left(allow, list, Skipped(WishesOf(allow), source, target), r) <= Requirers(allow, list, r);
    }
  }

  ghost function ClonedOf(w: Wishes, source: set<ComponentId>, target: set<ComponentId>, visited: set<ComponentId>)
    : set<ComponentId>
  {
    set a | a in visited && Cloned(w, source, target, a)
  }

  lemma OneMoreVisited(w: Wishes, source: set<ComponentId>, target: set<ComponentId>, visited: set<ComponentId>,
                       c: ComponentId)
    requires c in w
    ensures Cloned(w, source, target, c) ==>
              && ClonedOf(w, source, target, visited + {c}) == ClonedOf(w, source, target, visited) + {c}
              && Skipped(w, source, target) * (visited + {c}) == Skipped(w, source, target) * visited
    ensures !Cloned(w, source, target, c) ==>
              && ClonedOf(w, source, target, visited + {c}) == ClonedOf(w, source, target, visited)
              && Skipped(w, source, target) * (visited + {c}) == Skipped(w, source, target) * visited + {c}
  {
  }

  lemma CallOneMore(calls: seq<ComponentId>, c: ComponentId)
    requires NoDup(calls) && c !in Elems(calls)
    ensures NoDup(calls + [c]) && Elems(calls + [c]) == Elems(calls) + {c}
  {
  }

  /** The components among `looked` that are called for by their counts. */
  ghost function Wanted(required: map<ComponentId, Required>, source: set<ComponentId>, target: set<ComponentId>,
                        looked: set<ComponentId>): set<ComponentId>
  {
    set r | r in looked && r in required && required[r].reduced > 0 && r in source && r !in target
  }

  lemma OneMoreWanted(required: map<ComponentId, Required>, source: set<ComponentId>, target: set<ComponentId>,
                      looked: set<ComponentId>, r: ComponentId)
    requires r in required && r !in looked
    ensures required[r].reduced > 0 && r in source && r !in target ==>
              Wanted(required, source, target, looked + {r}) == Wanted(required, source, target, looked) + {r}
    ensures !(required[r].reduced > 0 && r in source && r !in target) ==>
              Wanted(required, source, target, looked + {r}) == Wanted(required, source, target, looked)
    ensures r !in Wanted(required, source, target, looked)
  {
  }

  /** The counts made whole again, except those of `rest`. */
  ghost function Restored(required: map<ComponentId, Required>, whole: map<ComponentId, Required>,
                          rest: set<ComponentId>)
    : map<ComponentId, Required>
    requires required.Keys == whole.Keys
  {
    map r | r in required :: if r in rest then required[r] else whole[r]
  }

  lemma SubsetOfSameSize<T>(x: set<T>, y: set<T>)
    requires x <= y && |x| == |y|
    ensures x == y
  {
    assert y == x + (y - x);
    assert |y - x| == 0;
  }

  /** Once there are as many calls as source components, none is missing. */
  lemma ExhaustedIsExact(w: Wishes, registry: Registry, source: set<ComponentId>, target: set<ComponentId>,
                         calls: seq<ComponentId>)
    requires NoDup(calls) && Elems(calls) <= Expected(w, registry, source, target) && |calls| == |source|
    ensures Elems(calls) == Expected(w, registry, source, target)
  {
    NoDupCardinality(calls);
    SubsetOfSameSize(Elems(calls), source);
  }

  /** What the counts call for, after the explicit components, is what the wishes call for. */
  lemma WantedIsAlong(registry: Registry, allow: map<ComponentId, Explicit>, list: seq<ComponentId>,
                      whole: map<ComponentId, Required>, required: map<ComponentId, Required>,
                      source: set<ComponentId>, target: set<ComponentId>)
    requires Counted(registry, allow, list, whole, None)
    requires ReducedBy(allow, list, whole, required, Skipped(WishesOf(allow), source, target))
    ensures forall l :: l <= required.Keys ==>
              Wanted(required, source, target, l) == set r | r in l
                && ClonedAlong(WishesOf(allow), registry, source, target, r)
    ensures forall r | ClonedAlong(WishesOf(allow), registry, source, target, r) :: r in required
  {
    forall r
      ensures r in required && required[r].reduced > 0 && r in source && r !in target
         <==> ClonedAlong(WishesOf(allow), registry, source, target, r)
    {
      PositiveMeansAlong(registry, allow, list, whole, required, source, target, r);
    }
  }

  /** Explicit and required calls never coincide; together they are expected, and all that is
      expected when both loops ran to the end. */
  lemma ExplicitThenAlong(w: Wishes, registry: Registry, source: set<ComponentId>, target: set<ComponentId>,
                          calls: seq<ComponentId>, more: seq<ComponentId>)
    requires NoDup(calls) && Elems(calls) == ClonedOf(w, source, target, w.Keys)
    requires NoDup(more) && forall r | r in Elems(more) :: ClonedAlong(w, registry, source, target, r)
    ensures NoDup(calls + more) && Elems(calls + more) == Elems(calls) + Elems(more)
    ensures Elems(calls + more) <= Expected(w, registry, source, target)
    ensures (forall r | ClonedAlong(w, registry, source, target, r) :: r in Elems(more)) ==>
              Elems(calls + more) == Expected(w, registry, source, target)
  {
    NoDupConcat(calls, more);
  }

  lemma SliceNext(slice: seq<ComponentId>, i: nat)
    requires NoDup(slice) && i < |slice|
    ensures slice[i] !in Elems(slice[..i]) && Elems(slice[..i + 1]) == Elems(slice[..i]) + {slice[i]}
  {
    assert slice[..i + 1] == slice[..i] + [slice[i]];
  }

  class OptIn {
    const registry: Registry
    var allow: map<ComponentId, Explicit>
    var requiredOfAllow: seq<ComponentId>
    var required: map<ComponentId, Required>
    var attachRequired: bool

    /** Between clones every count is whole. */
    ghost predicate Valid()
      reads this
    {
      Counted(registry, allow, requiredOfAllow, required, None) && Whole(required)
    }

    ghost function Wishes(): Wishes
      reads this
    {
      WishesOf(allow)
    }

    constructor (registry: Registry)
      requires RegistryOk(registry)
      ensures Valid() && Wishes() == map[] && this.registry == registry && attachRequired
    {
      this.registry := registry;
      allow, requiredOfAllow, required, attachRequired := map[], [], map[], true;
    }

    /** Allows a component, with its required ones if those are attached at the moment. */
    method FilterAllow(id: ComponentId, mode: InsertMode)
      requires Valid()
      modifies this`allow, this`required, this`requiredOfAllow
      ensures Valid()
      ensures Wishes() == Wished(old(Wishes()), registry, id, mode, attachRequired)
    {
      if id !in allow {
        ForgettingKeepsCounts(registry, allow, requiredOfAllow, required, id);
        required := required - {id};
        if !attachRequired {
          AllowingAloneKeepsCounts(registry, allow, requiredOfAllow, required, id, mode);
          WishSet(allow, id, Explicit(mode, None));
          allow := allow[id := Explicit(mode, None)];
        } else {
          FilterAllowWithRequired(id, mode);
        }
      } else if attachRequired && allow[id].range.None? {
        FilterAllowWithRequired(id, if allow[id].mode == Replace then Replace else mode);
      } else if allow[id].mode == Keep {
        ModeKeepsCounts(registry, allow, requiredOfAllow, required, id, mode);
        WishSet(allow, id, allow[id].(mode := mode));
        allow := allow[id := allow[id].(mode := mode)];
      } else {
        WishSet(allow, id, allow[id]);
        assert allow[id := allow[id]] == allow;
      }
    }

    /** Appends the required components that are not allowed themselves, counting each, and allows
        the component with their range. Nothing happens for a component that is not registered. */
    method FilterAllowWithRequired(id: ComponentId, mode: InsertMode)
      requires id in registry ==> Counted(registry, allow, requiredOfAllow, required, if id in allow then None
                                          else Some(id))
      requires id !in registry ==> Valid()
      requires Whole(required) && (id in allow ==> allow[id].range.None?)
      modifies this`allow, this`required, this`requiredOfAllow
      ensures Valid()
      ensures WishesOf(allow) == if id in registry then WishesOf(old(allow))[id := Wish(mode, true)]
              else WishesOf(old(allow))
    {
      if id !in registry {
        return;
      }
      var start := |requiredOfAllow|;
      CountRequired(registry[id]);
      AttachingKeepsCounts(registry, allow, old(requiredOfAllow), old(required), required, id, mode);
      CountedUpStaysWhole(old(required), required, Elems(Outside(registry[id], allow.Keys)));
      WishSet(allow, id, Explicit(mode, Some((start, |requiredOfAllow|))));
      allow := allow[id := Explicit(mode, Some((start, |requiredOfAllow|)))];
    }

    /** The loop that counts and lists the required components of one component. */
    method CountRequired(ids: seq<ComponentId>)
      requires NoDup(ids)
      modifies this`required, this`requiredOfAllow
      ensures requiredOfAllow == old(requiredOfAllow) + Outside(ids, allow.Keys)
      ensures CountedUp(old(required), required, Elems(Outside(ids, allow.Keys)))
    {
      for i := 0 to |ids|
        invariant requiredOfAllow == old(requiredOfAllow) + Outside(ids[..i], allow.Keys)
        invariant CountedUp(old(required), required, Elems(Outside(ids[..i], allow.Keys)))
      {
        var c := ids[i];
        ghost var counted := Outside(ids[..i], allow.Keys);
        CountNext(ids, allow.Keys, i);
        if c !in allow {
          CountUpOne(old(required), required, Elems(counted), c);
          required := required[c := OneMore(required, c)];
          requiredOfAllow := requiredOfAllow + [c];
          assert requiredOfAllow == old(requiredOfAllow) + (counted + [c]);
        }
      }
      assert ids[..|ids|] == ids;
    }

    // ----- cloning -----

    /** Resets the counts of the given components, in any order. */
    method ResetCounts(ids: set<ComponentId>)
      requires ids <= required.Keys
      modifies this`required
      ensures required == map r | r in old(required) ::
                            if r in ids then Required(old(required)[r].requiredBy, old(required)[r].requiredBy)
                              else old(required)[r]
    {
      var rest := ids;
      while rest != {}
        invariant rest <= ids
        invariant required == map r | r in old(required) ::
                                if r in ids - rest then Required(old(required)[r].requiredBy,
                                                                 old(required)[r].requiredBy)
                                else old(required)[r]
      {
        var r :| r in rest;
        required := required[r := Required(required[r].requiredBy, required[r].requiredBy)];
        rest := rest - {r};
      }
    }

    /** An allowed component is not cloned: every count in its range goes down by one. A component
        of the range may have no count, being allowed itself. */
    method SkipExplicit(c: ComponentId, ghost whole: map<ComponentId, Required>, ghost skipped: set<ComponentId>)
      returns (reducedAny: bool)
      requires c in allow && c !in skipped && RangeOk(allow, requiredOfAllow, registry, c)
      requires ReducedBy(allow, requiredOfAllow, whole, required, skipped)
      modifies this`required
      ensures ReducedBy(allow, requiredOfAllow, whole, required, skipped + {c})
      ensures !reducedAny ==> required == old(required)
    {
      reducedAny := false;
      var slice := SliceOf(requiredOfAllow, allow[c]);
      SkippingStarts(allow, requiredOfAllow, whole, required, skipped, c);
      for i := 0 to |slice|
        invariant ReducedPartly(allow, requiredOfAllow, whole, required, skipped, c, Elems(slice[..i]))
        invariant !reducedAny ==> required == old(required)
      {
        var r := slice[i];
        SliceNext(slice, i);
        if r in required {
          ReduceOne(allow, requiredOfAllow, whole, required, skipped, c, Elems(slice[..i]), r);
          required := required[r := Required(required[r].requiredBy, required[r].reduced - 1)];
          reducedAny := true;
        } else {
          SeenUncounted(allow, requiredOfAllow, whole, required, skipped, c, Elems(slice[..i]), r);
        }
      }
      assert slice[..|slice|] == slice;
      SkippingIsDone(allow, requiredOfAllow, whole, required, skipped, c);
    }

    /** The loop over the allowed components. `visited` is where it stopped: everything, unless the
        source was exhausted first. */
    method CloneExplicit(source: set<ComponentId>, target: set<ComponentId>)
      returns (calls: seq<ComponentId>, reducedAny: bool, exhausted: bool, ghost visited: set<ComponentId>)
      requires Valid()
      modifies this`required
      ensures visited <= allow.Keys && (if exhausted then |calls| == |source| else visited == allow.Keys)
      ensures NoDup(calls) && Elems(calls) == ClonedOf(Wishes(), source, target, visited) && |calls| <= |source|
      ensures ReducedBy(allow, requiredOfAllow, old(required), required, Skipped(Wishes(), source, target) * visited)
      ensures !reducedAny ==> required == old(required)
    {
      var uncloned := |source|;
      calls, reducedAny := [], false;
      visited := {};
      var rest := allow.Keys;
      ghost var w := Wishes();
      WholeIsUnreduced(registry, allow, requiredOfAllow, required);
      assert Skipped(w, source, target) * {} == {};
      while rest != {} && uncloned != 0
        invariant rest <= allow.Keys && visited == allow.Keys - rest
        invariant NoDup(calls) && Elems(calls) == ClonedOf(w, source, target, visited)
        invariant uncloned + |calls| == |source| && uncloned >= 0
        invariant ReducedBy(allow, requiredOfAllow, old(required), required, Skipped(w, source, target) * visited)
        invariant !reducedAny ==> required == old(required)
      {
        var c :| c in rest;
        OneMoreVisited(w, source, target, visited, c);
        assert c in source && (allow[c].mode == Replace || c !in target) <==> Cloned(w, source, target, c);
        if c in source && (allow[c].mode == Replace || c !in target) {
          CallOneMore(calls, c);
          calls := calls + [c];
          uncloned := uncloned - 1;
        } else {
          var reduced := SkipExplicit(c, old(required), Skipped(w, source, target) * visited);
          reducedAny := reducedAny || reduced;
        }
        rest := rest - {c};
        visited := visited + {c};
      }
      exhausted := rest != {};
    }

    /** The loop over the required components, which stops after `limit` calls. Every component it
        looked at has its count whole again; `rest` was not looked at. */
    method CloneRequired(source: set<ComponentId>, target: set<ComponentId>, limit: nat,
                         ghost whole: map<ComponentId, Required>)
      returns (calls: seq<ComponentId>, rest: set<ComponentId>)
      requires Whole(whole) && required.Keys == whole.Keys
      requires forall r | r in required :: required[r].requiredBy == whole[r].requiredBy
      modifies this`required
      ensures rest <= required.Keys && (rest == {} || |calls| == limit) && |calls| <= limit
      ensures NoDup(calls) && Elems(calls) == Wanted(old(required), source, target, old(required).Keys - rest)
      ensures required == Restored(old(required), whole, rest)
    {
      calls := [];
      rest := required.Keys;
      while |calls| < limit && rest != {}
        invariant rest <= old(required).Keys && |calls| <= limit
        invariant NoDup(calls) && Elems(calls) == Wanted(old(required), source, target, old(required).Keys - rest)
        invariant required == Restored(old(required), whole, rest)
      {
        var r :| r in rest;
        var doClone := required[r].reduced > 0 && r in source && r !in target;
        required := required[r := Required(required[r].requiredBy, required[r].requiredBy)];
        OneMoreWanted(old(required), source, target, old(required).Keys - rest, r);
        assert old(required).Keys - (rest - {r}) == old(required).Keys - rest + {r};
        assert required == Restored(old(required), whole, rest - {r});
        rest := rest - {r};
        if doClone {
          CallOneMore(calls, r);
          calls := calls + [r];
        }
      }
    }

    /** Calls back exactly once for every component to be cloned, whatever the iteration orders, and
        leaves every count as it was, so that the filter can be used again. */
    method CloneComponents(source: set<ComponentId>, target: set<ComponentId>) returns (calls: seq<ComponentId>)
      requires Valid()
      modifies this`required
      ensures Valid() && required == old(required)
      ensures NoDup(calls) && Elems(calls) == Expected(Wishes(), registry, source, target)
    {
      var reducedAny, exhausted;
      ghost var visited;
      calls, reducedAny, exhausted, visited := CloneExplicit(source, target);
      if exhausted {
        ExhaustedIsExact(Wishes(), registry, source, target, calls);
        if reducedAny {
          ResetCounts(required.Keys);
          assert required == old(required);
        }
        return;
      }
      ghost var reduced := required;
      assert Skipped(Wishes(), source, target) * allow.Keys == Skipped(Wishes(), source, target);
      WantedIsAlong(registry, allow, requiredOfAllow, old(required), reduced, source, target);
      var more, rest := CloneRequired(source, target, |source| - |calls|, old(required));
      if reducedAny {
        ResetCounts(rest);
      }
      assert required == old(required);
      ExplicitThenAlong(Wishes(), registry, source, target, calls, more);
      if rest != {} {
        ExhaustedIsExact(Wishes(), registry, source, target, calls + more);
      } else {
        assert reduced.Keys - rest == reduced.Keys;
      }
      calls := calls + more;
    }
  }
}

/** `src/accounts/recovery.rs` and `src/accounts/recovery_storage.rs`: guardians recover an account
    by approving a new owner, who takes over after a delay. */
module Recovery {
  import opened Collections

  type Address = nat

  datatype Guardian = Guardian(address: Address, addedAt: nat)

  datatype RecoveryRequest = RecoveryRequest(
    newOwner: Address,
    approvals: seq<Address>,
    initiatedAt: nat,
    timelockUntil: nat,
    cancelled: bool)

  datatype RecoveryConfig = RecoveryConfig(threshold: nat, timelockPeriod: nat, maxGuardians: nat)

  datatype AccountError =
    | StorageError | MaxGuardiansReached | GuardianAlreadyExists | InvalidScope | RecoveryAlreadyActive
    | RecoveryNotInitiated | Unauthorized | ThresholdNotMet | TimelockNotExpired

  datatype Outcome<+T> = Ok(value: T) | Err(error: AccountError)

  /** The persistent storage, keyed by account address. */
  datatype Store = Store(
    guardians: map<Address, seq<Guardian>>,
    configs: map<Address, RecoveryConfig>,
    requests: map<Address, RecoveryRequest>)

  // ----- the operations -----

  function GuardiansOf(s: Store, a: Address): seq<Guardian> {
    if a in s.guardians then s.guardians[a] else []
  }

  predicate IsGuardian(s: Store, a: Address, g: Address) {
    exists i :: 0 <= i < |GuardiansOf(s, a)| && GuardiansOf(s, a)[i].address == g
  }

  function Without(gs: seq<Guardian>, g: Address): seq<Guardian> {
    if gs == [] then []
    else
      var last := gs[|gs| - 1];
      Without(gs[..|gs| - 1], g) + (if last.address == g then [] else [last])
  }

  /** A request is pending if it is stored and not cancelled. */
  predicate Pending(s: Store, a: Address) {
    a in s.requests && !s.requests[a].cancelled
  }

  /** A new account has no guardians; what was requested at its address stays. */
  function Created(s: Store, a: Address, config: RecoveryConfig): Store {
    s.(configs := s.configs[a := config], guardians := s.guardians[a := []])
  }

  function AddGuardianError(s: Store, a: Address, g: Address): Option<AccountError> {
    if a !in s.configs then Some(StorageError)
    else if |GuardiansOf(s, a)| >= s.configs[a].maxGuardians then Some(MaxGuardiansReached)
    else if IsGuardian(s, a, g) then Some(GuardianAlreadyExists)
    else None
  }

  function GuardianAdded(s: Store, a: Address, g: Address, now: nat): Store {
    if AddGuardianError(s, a, g).Some? then s
    else s.(guardians := s.guardians[a := GuardiansOf(s, a) + [Guardian(g, now)]])
  }

  function GuardianRemoved(s: Store, a: Address, g: Address): Store {
    if !IsGuardian(s, a, g) then s else s.(guardians := s.guardians[a := Without(GuardiansOf(s, a), g)])
  }

  function InitiateError(s: Store, a: Address): Option<AccountError> {
    if a in s.requests then Some(RecoveryAlreadyActive) else if a !in s.configs then Some(StorageError) else None
  }

  function Initiated(s: Store, a: Address, newOwner: Address, now: nat): Store {
    if InitiateError(s, a).Some? then s
    else s.(requests := s.requests[a := RecoveryRequest(newOwner, [], now, now + s.configs[a].timelockPeriod, false)])
  }

  function ApproveError(s: Store, a: Address, g: Address): Option<AccountError> {
    if !Pending(s, a) then Some(RecoveryNotInitiated) else if !IsGuardian(s, a, g) then Some(Unauthorized) else None
  }

  function Approved(s: Store, a: Address, g: Address): Store {
    if ApproveError(s, a, g).Some? || g in s.requests[a].approvals then s
    else s.(requests := s.requests[a := s.requests[a].(approvals := s.requests[a].approvals + [g])])
  }

  function Cancelled(s: Store, a: Address): Store {
    if !Pending(s, a) then s else s.(requests := s.requests - {a})
  }

  function ExecuteError(s: Store, a: Address, now: nat): Option<AccountError> {
    if !Pending(s, a) then Some(RecoveryNotInitiated)
    else if a !in s.configs then Some(StorageError)
    else if |s.requests[a].approvals| < s.configs[a].threshold then Some(ThresholdNotMet)
    else if now < s.requests[a].timelockUntil then Some(TimelockNotExpired)
    else None
  }

  /** The account changes its address before it removes the request, so the request that goes is
      one at the new address. */
  function Executed(s: Store, a: Address, now: nat): Store {
    if ExecuteError(s, a, now).Some? then s else s.(requests := s.requests - {s.requests[a].newOwner})
  }

  // ----- what each operation does, in terms of what is stored -----

  /** Creating an account stores its configuration and an empty guardian list, and nothing else. */
  lemma CreatedMeans(s: Store, a: Address, config: RecoveryConfig)
    ensures var s' := Created(s, a, config);
            && a in s'.configs && s'.configs[a] == config && a in s'.guardians && s'.guardians[a] == []
            && s'.configs - {a} == s.configs - {a} && s'.guardians - {a} == s.guardians - {a}
            && s'.requests == s.requests
  {
  }

  /** The account's guardians are those stored for it, if any. */
  lemma GuardiansMean(s: Store, a: Address, g: Address)
    ensures a in s.guardians ==> GuardiansOf(s, a) == s.guardians[a]
    ensures a !in s.guardians ==> GuardiansOf(s, a) == []
    ensures IsGuardian(s, a, g) <==> a in s.guardians && exists x :: x in s.guardians[a] && x.address == g
  {
    if a in s.guardians {
      var gs := s.guardians[a];
      if IsGuardian(s, a, g) {
        var i :| 0 <= i < |gs| && gs[i].address == g;
        assert gs[i] in gs;
      }
      if x :| x in gs && x.address == g {
        var i :| 0 <= i < |gs| && gs[i] == x;
        assert GuardiansOf(s, a)[i].address == g;
      }
    }
  }

  /** Adding a guardian fails without a configuration, for a full list, or for a guardian already
      listed, in this order; otherwise it appends exactly that guardian. */
  lemma AddGuardianMeans(s: Store, a: Address, g: Address, now: nat)
    ensures var gs, error, s' := GuardiansOf(s, a), AddGuardianError(s, a, g), GuardianAdded(s, a, g, now);
            && (error == Some(StorageError) <==> a !in s.configs)
            && (error == Some(MaxGuardiansReached) <==> a in s.configs && |gs| >= s.configs[a].maxGuardians)
            && (error == Some(GuardianAlreadyExists)
                <==> && a in s.configs && |gs| < s.configs[a].maxGuardians
                     && exists i :: 0 <= i < |gs| && gs[i].address == g)
            && (error == None
                <==> && a in s.configs && |gs| < s.configs[a].maxGuardians
                     && forall i | 0 <= i < |gs| :: gs[i].address != g)
            && (error == None ==>
                  && a in s'.guardians && s'.guardians[a] == gs + [Guardian(g, now)] && IsGuardian(s', a, g)
                  && s'.guardians - {a} == s.guardians - {a})
            && (error != None ==> s'.guardians == s.guardians)
            && s'.configs == s.configs && s'.requests == s.requests
  {
    var gs, s' := GuardiansOf(s, a), GuardianAdded(s, a, g, now);
    if AddGuardianError(s, a, g) == None {
      assert s'.guardians[a][|gs|].address == g && GuardiansOf(s', a) == gs + [Guardian(g, now)];
    }
  }

  /** Removing a guardian takes exactly those with its address out of the list, in order, and changes
      nothing if there is none. */
  lemma {:induction false} RemoveGuardianMeans(s: Store, a: Address, g: Address)
    ensures var gs, s' := GuardiansOf(s, a), GuardianRemoved(s, a, g);
            && (forall x :: x in GuardiansOf(s', a) <==> x in gs && x.address != g)
            && !IsGuardian(s', a, g)
            && ((forall i | 0 <= i < |gs| :: gs[i].address != g) ==> s' == s)
            && s'.guardians - {a} == s.guardians - {a} && s'.configs == s.configs && s'.requests == s.requests
  {
    var gs, s' := GuardiansOf(s, a), GuardianRemoved(s, a, g);
    WithoutElems(gs, g);
    if IsGuardian(s, a, g) {
      assert GuardiansOf(s', a) == Without(gs, g);
    }
    var left := GuardiansOf(s', a);
    forall i | 0 <= i < |left|
      ensures left[i].address != g
    {
      assert left[i] in left;
    }
    forall x
      ensures x in left <==> x in gs && x.address != g
    {
      if !IsGuardian(s, a, g) && x in gs {
        var i :| 0 <= i < |gs| && gs[i] == x;
      }
    }
  }

  lemma {:induction false} WithoutElems(gs: seq<Guardian>, g: Address)
    ensures forall x :: x in Without(gs, g) <==> x in gs && x.address != g
  {
    if gs != [] {
      assert gs == gs[..|gs| - 1] + [gs[|gs| - 1]];
      WithoutElems(gs[..|gs| - 1], g);
    }
  }

  /** The guardians that stay keep their order: removal distributes over the list. */
  lemma {:induction false} WithoutKeepsOrder(xs: seq<Guardian>, ys: seq<Guardian>, g: Address)
    ensures Without(xs + ys, g) == Without(xs, g) + Without(ys, g)
  {
    if ys == [] {
      assert xs + ys == xs;
    } else {
      var front, last := ys[..|ys| - 1], ys[|ys| - 1];
      WithoutKeepsOrder(xs, front, g);
      assert (xs + ys)[..|xs + ys| - 1] == xs + front;
      assert (xs + ys)[|xs + ys| - 1] == last;
    }
  }

  /** Initiating a recovery fails while a request is stored, or without a configuration; otherwise it
      stores a request without approvals that can be executed once the account's period is over. */
  lemma InitiateMeans(s: Store, a: Address, newOwner: Address, now: nat)
    ensures var error, s' := InitiateError(s, a), Initiated(s, a, newOwner, now);
            && (error == Some(RecoveryAlreadyActive) <==> a in s.requests)
            && (error == Some(StorageError) <==> a !in s.requests && a !in s.configs)
            && (error == None <==> a !in s.requests && a in s.configs)
            && (error == None ==>
                  && s'.requests.Keys == s.requests.Keys + {a} && s'.requests - {a} == s.requests
                  && s'.requests[a] == RecoveryRequest(newOwner, [], now, now + s.configs[a].timelockPeriod, false))
            && (error != None ==> s'.requests == s.requests)
            && s'.configs == s.configs && s'.guardians == s.guardians
  {
    if InitiateError(s, a) == None {
      MapsAgree(Initiated(s, a, newOwner, now).requests - {a}, s.requests);
    }
  }

  /** An approval fails without a request that is not cancelled, or from an address that is no
      guardian; otherwise the guardian is among the approvals afterwards, once. */
  lemma ApproveMeans(s: Store, a: Address, g: Address)
    ensures var error, s' := ApproveError(s, a, g), Approved(s, a, g);
            && (error == Some(RecoveryNotInitiated) <==> a !in s.requests || s.requests[a].cancelled)
            && (error == Some(Unauthorized)
                <==> a in s.requests && !s.requests[a].cancelled && forall i | 0 <= i < |GuardiansOf(s, a)| ::
                       GuardiansOf(s, a)[i].address != g)
            && (error == None
                <==> a in s.requests && !s.requests[a].cancelled && exists i ::
                       0 <= i < |GuardiansOf(s, a)| && GuardiansOf(s, a)[i].address == g)
            && (error == None ==>
                  && a in s'.requests && g in s'.requests[a].approvals
                  && s'.requests[a].approvals
                     == s.requests[a].approvals + (if g in s.requests[a].approvals then [] else [g])
                  && s'.requests[a].(approvals := s.requests[a].approvals) == s.requests[a]
                  && s'.requests - {a} == s.requests - {a})
            && (error != None ==> s' == s)
            && s'.configs == s.configs && s'.guardians == s.guardians
  {
  }

  /** Cancelling takes a request that is not cancelled out of the storage, and nothing else. */
  lemma CancelMeans(s: Store, a: Address)
    ensures a in s.requests && !s.requests[a].cancelled ==>
              Pending(s, a) && a !in Cancelled(s, a).requests && Cancelled(s, a).requests == s.requests - {a}
    ensures a !in s.requests || s.requests[a].cancelled ==> !Pending(s, a) && Cancelled(s, a) == s
    ensures Cancelled(s, a).configs == s.configs && Cancelled(s, a).guardians == s.guardians
  {
  }

  /** An execution fails without a pending request, without a configuration, with too few approvals, or
      before its time, in this order, and changes nothing; with all four in place it succeeds. */
  lemma ExecuteMeans(s: Store, a: Address, now: nat)
    ensures var error, s' := ExecuteError(s, a, now), Executed(s, a, now);
            && (error == Some(RecoveryNotInitiated) <==> a !in s.requests || s.requests[a].cancelled)
            && (error == Some(StorageError) <==> a in s.requests && !s.requests[a].cancelled && a !in s.configs)
            && (error == Some(ThresholdNotMet)
                <==> && a in s.requests && !s.requests[a].cancelled && a in s.configs
                     && |s.requests[a].approvals| < s.configs[a].threshold)
            && (error == Some(TimelockNotExpired)
                <==> && a in s.requests && !s.requests[a].cancelled && a in s.configs
                     && |s.requests[a].approvals| >= s.configs[a].threshold && now < s.requests[a].timelockUntil)
            && (error == None
                <==> && a in s.requests && !s.requests[a].cancelled && a in s.configs
                     && |s.requests[a].approvals| >= s.configs[a].threshold && now >= s.requests[a].timelockUntil)
            && (error == None ==> s'.requests == s.requests - {s.requests[a].newOwner})
            && (error != None ==> s' == s)
            && s'.configs == s.configs && s'.guardians == s.guardians
  {
  }

  // ----- guardian lists -----

  ghost predicate DistinctGuardians(gs: seq<Guardian>) {
    forall i, j :: 0 <= i < j < |gs| ==> gs[i].address != gs[j].address
  }

  /** Guardian lists are distinct and no longer than the account's configuration allows. */
  ghost predicate GuardiansOk(s: Store) {
    forall a {:trigger s.guardians[a]} | a in s.guardians ::
      DistinctGuardians(s.guardians[a]) && a in s.configs && |s.guardians[a]| <= s.configs[a].maxGuardians
  }

  lemma {:induction false} WithoutAt(gs: seq<Guardian>, g: Address)
    requires DistinctGuardians(gs)
    ensures DistinctGuardians(Without(gs, g)) && |Without(gs, g)| <= |gs|
    ensures forall x :: x in Without(gs, g) <==> x in gs && x.address != g
  {
    if gs != [] {
      var front, last := gs[..|gs| - 1], gs[|gs| - 1];
      assert gs == front + [last];
      WithoutAt(front, g);
      var kept := Without(front, g);
      forall i | 0 <= i < |kept|
        ensures kept[i].address != last.address
      {
        assert kept[i] in kept;
      }
    }
  }

  lemma {:induction false} WithoutAbsent(gs: seq<Guardian>, g: Address)
    requires forall i | 0 <= i < |gs| :: gs[i].address != g
    ensures Without(gs, g) == gs
  {
    if gs != [] {
      WithoutAbsent(gs[..|gs| - 1], g);
    }
  }

  /** Removing a guardian just added gives the list back. */
  lemma AddThenRemove(s: Store, a: Address, g: Address, now: nat)
    requires AddGuardianError(s, a, g).None?
    ensures GuardiansOf(GuardianRemoved(GuardianAdded(s, a, g, now), a, g), a) == GuardiansOf(s, a)
  {
    var gs := GuardiansOf(s, a);
    var more := gs + [Guardian(g, now)];
    WithoutAbsent(gs, g);
    assert more[..|gs|] == gs && more[|gs|].address == g;
  }

  /** Cancelling a request just initiated gives the storage back. */
  lemma InitiateThenCancel(s: Store, a: Address, newOwner: Address, now: nat)
    requires InitiateError(s, a).None?
    ensures Cancelled(Initiated(s, a, newOwner, now), a) == s
  {
    WithoutNothing(s.requests, a);
    MapsAgree(Initiated(s, a, newOwner, now).requests - {a}, s.requests);
  }

  /** Approving twice is approving once. */
  lemma ApproveTwice(s: Store, a: Address, g: Address)
    ensures Approved(Approved(s, a, g), a, g) == Approved(s, a, g)
  {
  }

  /** An execution removes the executed account's request exactly when the new owner is the account
      itself, and otherwise no request but one at the new owner's address. */
  lemma RequestAfterExecution(s: Store, a: Address, now: nat)
    requires ExecuteError(s, a, now).None?
    ensures a !in Executed(s, a, now).requests <==> s.requests[a].newOwner == a
    ensures Executed(s, a, now).requests == s.requests - {s.requests[a].newOwner}
  {
  }

  /** So an execution can be repeated at any later time unless the new owner is the account itself:
      an account is executed at most once for a request exactly in that case. */
  lemma RepeatedExecution(s: Store, a: Address, now: nat, later: nat)
    requires ExecuteError(s, a, now).None? && later >= now
    ensures ExecuteError(Executed(s, a, now), a, later).None? <==> s.requests[a].newOwner != a
  {
  }

  /** An approval outlasts its guardian: what could be executed or not before some guardian was
      removed can be executed or not after. */
  lemma RemovalKeepsApprovals(s: Store, a: Address, g: Address, now: nat)
    ensures GuardianRemoved(s, a, g).requests == s.requests
    ensures ExecuteError(GuardianRemoved(s, a, g), a, now) == ExecuteError(s, a, now)
  {
  }

  // ----- whole histories -----

  datatype Action =
    | New(config: RecoveryConfig)
    | AddGuardian(g: Address)
    | RemoveGuardian(g: Address)
    | Initiate(newOwner: Address)
    | Approve(g: Address)
    | Cancel
    | Execute

  /** An action on the account at an address, at a ledger time. */
  datatype Event = Event(account: Address, action: Action, now: nat)

  function Next(s: Store, x: Event): Store {
    match x.action
    case New(config) => Created(s, x.account, config)
    case AddGuardian(g) => GuardianAdded(s, x.account, g, x.now)
    case RemoveGuardian(g) => GuardianRemoved(s, x.account, g)
    case Initiate(newOwner) => Initiated(s, x.account, newOwner, x.now)
    case Approve(g) => Approved(s, x.account, g)
    case Cancel => Cancelled(s, x.account)
    case Execute => Executed(s, x.account, x.now)
  }

  /** The storage after the first `n` events. */
  function After(history: seq<Event>, n: nat): Store
    requires n <= |history|
  {
    if n == 0 then Store(map[], map[], map[]) else Next(After(history, n - 1), history[n - 1])
  }

  lemma NextKeepsGuardians(s: Store, x: Event)
    requires GuardiansOk(s)
    ensures GuardiansOk(Next(s, x))
  {
    match x.action {
      case RemoveGuardian(g) => WithoutAt(GuardiansOf(s, x.account), g);
      case AddGuardian(g) =>
        assert x.account in s.guardians ==> DistinctGuardians(s.guardians[x.account]);
      case _ =>
    }
  }

  /** In every history, all guardian lists are distinct and within their limits. */
  lemma {:induction false} GuardiansAlwaysOk(history: seq<Event>, n: nat)
    requires n <= |history|
    ensures GuardiansOk(After(history, n))
  {
    if n > 0 {
      GuardiansAlwaysOk(history, n - 1);
      NextKeepsGuardians(After(history, n - 1), history[n - 1]);
    }
  }

  /** Event `i` initiated the recovery that the request describes. */
  ghost predicate InitiatedBy(history: seq<Event>, i: nat, a: Address, r: RecoveryRequest)
    requires i < |history|
  {
    var before := After(history, i);
    && history[i].account == a && history[i].action == Initiate(r.newOwner) && InitiateError(before, a).None?
    && r.initiatedAt == history[i].now && r.timelockUntil == history[i].now + before.configs[a].timelockPeriod
  }

  /** Event `j` was the approval of `g`, who was a guardian of the account then. */
  ghost predicate ApprovedBy(history: seq<Event>, j: nat, a: Address, g: Address)
    requires j < |history|
  {
    history[j].account == a && history[j].action == Approve(g) && IsGuardian(After(history, j), a, g)
  }

  ghost predicate ApprovedBetween(history: seq<Event>, i: nat, n: nat, a: Address, g: Address)
    requires n <= |history|
  {
    exists j :: i < j < n && ApprovedBy(history, j, a, g)
  }

  /** The request was initiated by event `i`, and since then each of its approvals was given by a
      guardian of the account, once. */
  ghost predicate Justified(history: seq<Event>, i: nat, n: nat, a: Address, r: RecoveryRequest)
    requires n <= |history|
  {
    && i < n && InitiatedBy(history, i, a, r) && !r.cancelled && NoDup(r.approvals)
    && forall g | g in r.approvals :: ApprovedBetween(history, i, n, a, g)
  }

  lemma JustifiedLater(history: seq<Event>, i: nat, n: nat, a: Address, r: RecoveryRequest)
    requires n < |history| && Justified(history, i, n, a, r)
    ensures Justified(history, i, n + 1, a, r)
  {
    forall g | g in r.approvals
      ensures ApprovedBetween(history, i, n + 1, a, g)
    {
      assert ApprovedBetween(history, i, n, a, g);
      var j :| i < j < n && ApprovedBy(history, j, a, g);
    }
  }

  lemma JustifiedApproval(history: seq<Event>, i: nat, n: nat, a: Address, r: RecoveryRequest, g: Address)
    requires n < |history| && Justified(history, i, n, a, r) && ApprovedBy(history, n, a, g) && g !in r.approvals
    ensures Justified(history, i, n + 1, a, r.(approvals := r.approvals + [g]))
  {
    JustifiedLater(history, i, n, a, r);
    assert ApprovedBetween(history, i, n + 1, a, g);
  }

  /** In every history, every stored request is justified by what happened before. */
  lemma {:induction false} RequestsAreJustified(history: seq<Event>, n: nat, a: Address)
    requires n <= |history| && a in After(history, n).requests
    ensures exists i: nat :: Justified(history, i, n, a, After(history, n).requests[a])
  {
    var s, x := After(history, n - 1), history[n - 1];
    if a in s.requests {
      RequestsAreJustified(history, n - 1, a);
      var i: nat :| Justified(history, i, n - 1, a, s.requests[a]);
      if After(history, n).requests[a] == s.requests[a] {
        JustifiedLater(history, i, n - 1, a, s.requests[a]);
      } else {
        JustifiedApproval(history, i, n - 1, a, s.requests[a], x.action.g);
      }
    } else {
      assert Justified(history, n - 1, n, a, After(history, n).requests[a]);
    }
  }

  /** Event `i` named the owner; the period in force then is over; and at least as many distinct
      addresses as the threshold approved since then, each a guardian when it did. */
  ghost predicate Earned(history: seq<Event>, i: nat, n: nat, a: Address, owner: Address, approvals: seq<Address>,
                         now: nat)
    requires n <= |history|
  {
    && i < n && history[i].account == a && history[i].action == Initiate(owner)
    && a in After(history, i).configs && now >= history[i].now + After(history, i).configs[a].timelockPeriod
    && a in After(history, n).configs && |Elems(approvals)| >= After(history, n).configs[a].threshold
    && forall g | g in approvals :: ApprovedBetween(history, i, n, a, g)
  }

  /** In every history, an execution succeeds only if it is earned. */
  lemma ExecutionIsEarned(history: seq<Event>, n: nat, a: Address, now: nat)
    requires n <= |history| && ExecuteError(After(history, n), a, now).None?
    ensures var r := After(history, n).requests[a];
            exists i: nat :: Earned(history, i, n, a, r.newOwner, r.approvals, now)
  {
    RequestsAreJustified(history, n, a);
    var r := After(history, n).requests[a];
    var i: nat :| Justified(history, i, n, a, r);
    NoDupCardinality(r.approvals);
    assert Earned(history, i, n, a, r.newOwner, r.approvals, now);
  }

  /** A history in which a request outlives its execution: three events on one account that name
      another address. */
  lemma ExecutedRequestStays(a: Address, b: Address, now: nat)
    requires a != b
    ensures var history := [Event(a, New(RecoveryConfig(0, 0, 0)), now), Event(a, Initiate(b), now),
                            Event(a, Execute, now)];
            && ExecuteError(After(history, 2), a, now).None?
            && a in After(history, 3).requests && ExecuteError(After(history, 3), a, now).None?
  {
    var history := [Event(a, New(RecoveryConfig(0, 0, 0)), now), Event(a, Initiate(b), now), Event(a, Execute, now)];
    assert After(history, 0) == Store(map[], map[], map[]);
    assert After(history, 1) == Created(After(history, 0), a, RecoveryConfig(0, 0, 0));
    assert After(history, 2) == Initiated(After(history, 1), a, b, now);
    assert After(history, 3) == Executed(After(history, 2), a, now);
  }

  /** A history in which an execution succeeds: a new account, one guardian, whose approval meets the
      threshold, and the whole period waited for. */
  lemma RecoverySucceeds(a: Address, g: Address, b: Address, period: nat, limit: nat, now: nat)
    requires limit >= 1
    ensures var history := [Event(a, New(RecoveryConfig(1, period, limit)), now), Event(a, AddGuardian(g), now),
                            Event(a, Initiate(b), now), Event(a, Approve(g), now)];
            var s := After(history, 4);
            && a in s.requests && s.requests[a] == RecoveryRequest(b, [g], now, now + period, false)
            && forall later: nat :: ExecuteError(s, a, later).None? <==> later >= now + period
  {
    var history := [Event(a, New(RecoveryConfig(1, period, limit)), now), Event(a, AddGuardian(g), now),
                    Event(a, Initiate(b), now), Event(a, Approve(g), now)];
    var s0 := Store(map[], map[], map[]);
    var s1 := Created(s0, a, RecoveryConfig(1, period, limit));
    var s2 := GuardianAdded(s1, a, g, now);
    var s3 := Initiated(s2, a, b, now);
    assert After(history, 0) == s0 && After(history, 1) == s1;
    assert After(history, 2) == s2 && After(history, 3) == s3;
    assert After(history, 4) == Approved(s3, a, g);
    assert AddGuardianError(s1, a, g) == None && s2.guardians[a] == [Guardian(g, now)];
    assert s3.requests[a] == RecoveryRequest(b, [], now, now + period, false);
    assert GuardiansOf(s3, a)[0].address == g && ApproveError(s3, a, g) == None;
    assert [] + [g] == [g];
  }

  // ----- the account -----

  class RecoveryStorage {
    var guardians: map<Address, seq<Guardian>>
    var configs: map<Address, RecoveryConfig>
    var requests: map<Address, RecoveryRequest>

    ghost function State(): Store
      reads this
    {
      Store(guardians, configs, requests)
    }

    constructor ()
      ensures State() == After([], 0)
    {
      guardians, configs, requests := map[], map[], map[];
    }

    method LoadGuardians(a: Address) returns (gs: seq<Guardian>)
      ensures gs == GuardiansOf(State(), a)
    {
      gs := if a in guardians then guardians[a] else [];
    }
  }

  /** The index loop that looks for a guardian. */
  method FindGuardian(gs: seq<Guardian>, g: Address) returns (found: bool)
    ensures found <==> exists i :: 0 <= i < |gs| && gs[i].address == g
  {
    for i := 0 to |gs|
      invariant forall j | 0 <= j < i :: gs[j].address != g
    {
      if gs[i].address == g {
        return true;
      }
    }
    return false;
  }

  class RecoverableAccount {
    var address: Address
    const storage: RecoveryStorage

    constructor (storage: RecoveryStorage, address: Address, config: RecoveryConfig)
      modifies storage
      ensures this.storage == storage && this.address == address
      ensures storage.State() == Created(old(storage.State()), address, config)
    {
      this.storage, this.address := storage, address;
      new;
      storage.configs := storage.configs[address := config];
      storage.guardians := storage.guardians[address := []];
    }

    constructor Load(storage: RecoveryStorage, address: Address)
      ensures this.storage == storage && this.address == address
    {
      this.storage, this.address := storage, address;
    }

    method AddGuardian(g: Address, now: nat) returns (outcome: Outcome<()>)
      modifies storage
      ensures storage.State() == GuardianAdded(old(storage.State()), address, g, now)
      ensures var error := AddGuardianError(old(storage.State()), address, g);
              outcome == if error.Some? then Err(error.value) else Ok(())
    {
      if address !in storage.configs {
        return Err(StorageError);
      }
      var config := storage.configs[address];
      var gs := storage.LoadGuardians(address);
      if |gs| >= config.maxGuardians {
        return Err(MaxGuardiansReached);
      }
      var found := FindGuardian(gs, g);
      if found {
        return Err(GuardianAlreadyExists);
      }
      storage.guardians := storage.guardians[address := gs + [Guardian(g, now)]];
      return Ok(());
    }

    method RemoveGuardian(g: Address) returns (outcome: Outcome<()>)
      modifies storage
      ensures storage.State() == GuardianRemoved(old(storage.State()), address, g)
      ensures outcome == if IsGuardian(old(storage.State()), address, g) then Ok(()) else Err(InvalidScope)
    {
      var gs := storage.LoadGuardians(address);
      var kept: seq<Guardian>, found := [], false;
      for i := 0 to |gs|
        invariant kept == Without(gs[..i], g) && storage.State() == old(storage.State())
        invariant found <==> exists j :: 0 <= j < i && gs[j].address == g
      {
        ghost var more := gs[..i + 1];
        assert more[..i] == gs[..i] && more[i] == gs[i];
        if gs[i].address == g {
          found := true;
        } else {
          kept := kept + [gs[i]];
        }
      }
      assert gs[..|gs|] == gs;
      if !found {
        return Err(InvalidScope);
      }
      storage.guardians := storage.guardians[address := kept];
      return Ok(());
    }

    method InitiateRecovery(newOwner: Address, now: nat) returns (outcome: Outcome<RecoveryRequest>)
      modifies storage
      ensures storage.State() == Initiated(old(storage.State()), address, newOwner, now)
      ensures var error := InitiateError(old(storage.State()), address);
              if error.Some? then outcome == Err(error.value)
              else address in storage.requests && outcome == Ok(storage.requests[address])
    {
      if address in storage.requests {
        return Err(RecoveryAlreadyActive);
      }
      if address !in storage.configs {
        return Err(StorageError);
      }
      var request := RecoveryRequest(newOwner, [], now, now + storage.configs[address].timelockPeriod, false);
      storage.requests := storage.requests[address := request];
      return Ok(request);
    }

    method ApproveRecovery(g: Address) returns (outcome: Outcome<()>)
      modifies storage
      ensures storage.State() == Approved(old(storage.State()), address, g)
      ensures var error := ApproveError(old(storage.State()), address, g);
              outcome == if error.Some? then Err(error.value) else Ok(())
    {
      if address !in storage.requests || storage.requests[address].cancelled {
        return Err(RecoveryNotInitiated);
      }
      var request := storage.requests[address];
      var gs := storage.LoadGuardians(address);
      var isGuardian := FindGuardian(gs, g);
      if !isGuardian {
        return Err(Unauthorized);
      }
      for i := 0 to |request.approvals|
        invariant g !in request.approvals[..i]
      {
        if request.approvals[i] == g {
          return Ok(());
        }
      }
      assert request.approvals[..|request.approvals|] == request.approvals;
      storage.requests := storage.requests[address := request.(approvals := request.approvals + [g])];
      return Ok(());
    }

    method CancelRecovery() returns (outcome: Outcome<()>)
      modifies storage
      ensures storage.State() == Cancelled(old(storage.State()), address)
      ensures outcome == if Pending(old(storage.State()), address) then Ok(()) else Err(RecoveryNotInitiated)
    {
      if address !in storage.requests || storage.requests[address].cancelled {
        return Err(RecoveryNotInitiated);
      }
      storage.requests := storage.requests - {address};
      return Ok(());
    }

    /** Hands the account over to the new owner. */
    method ExecuteRecovery(now: nat) returns (outcome: Outcome<Address>)
      modifies this`address, storage
      ensures storage.State() == Executed(old(storage.State()), old(address), now)
      ensures var error := ExecuteError(old(storage.State()), old(address), now);
              if error.Some? then outcome == Err(error.value) && address == old(address)
              else outcome == Ok(address) && address == old(storage.requests)[old(address)].newOwner
    {
      if address !in storage.requests || storage.requests[address].cancelled {
        return Err(RecoveryNotInitiated);
      }
      var request := storage.requests[address];
      if address !in storage.configs {
        return Err(StorageError);
      }
      if |request.approvals| < storage.configs[address].threshold {
        return Err(ThresholdNotMet);
      }
      if now < request.timelockUntil {
        return Err(TimelockNotExpired);
      }
      address := request.newOwner;
      storage.requests := storage.requests - {address};
      return Ok(request.newOwner);
    }
  }
}

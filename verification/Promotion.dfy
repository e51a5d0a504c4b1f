/** Promotion of a rotated secret bundle generation: three separate writes, the recovery that finishes them after
    a crash, and the reconstruction of a lost status
    (controller/tartcontrolplane/carotation.go, controller/tartcluster/reconciler.go). */
module Promotion {
  import opened Wrappers

  const MAX_INT32: int := 0x7fff_ffff

  datatype BundleState = Pending | Active | Retired | Other

  /** A bundle Secret. `contract` is every clause of its identity contract except the state label;
      `data` says that its payload decodes for this cluster. */
  datatype BundleSecret = BundleSecret(state: BundleState, contract: bool, data: bool)

  /** What the API server holds: the active generation in the cluster status, and the Secrets by generation. */
  datatype Store = Store(status: int, secrets: map<int, BundleSecret>)

  datatype Write = SetStatus(generation: int) | SetState(generation: int, state: BundleState)

  datatype Error = InvalidGeneration | NotFound | ContractViolated | InvalidPromotionState | ApiFailure | AmbiguousActive | DataInvalid

  /** The writes a call performs when nothing interrupts it, and the error it then ends with. */
  datatype Plan = Plan(writes: seq<Write>, failure: Option<Error>)

  predicate ValidContract(secret: BundleSecret, state: BundleState) {
    secret.contract && secret.state == state && state != Other
  }

  function NextGeneration(current: int): Result<int, Error> {
    if current < 0 || current == MAX_INT32 then Failure(InvalidGeneration) else Success(current + 1)
  }

  function ApplyWrite(s: Store, w: Write): Store {
    match w
    case SetStatus(g) => s.(status := g)
    case SetState(g, state) => if g in s.secrets then s.(secrets := s.secrets[g := s.secrets[g].(state := state)]) else s
  }

  function ApplyWrites(s: Store, writes: seq<Write>): Store {
    if writes == [] then s else ApplyWrite(ApplyWrites(s, writes[..|writes| - 1]), writes[|writes| - 1])
  }

  function DemotePlan(s: Store, generation: int): Plan {
    if generation < 1 || generation !in s.secrets || s.secrets[generation].state != Active then Plan([], None)
    else if !s.secrets[generation].contract then Plan([], Some(ContractViolated))
    else Plan([SetState(generation, Retired)], None)
  }

  /** The checks promotion and recovery make on the target Secret before they write. */
  function TargetError(s: Store, target: int): Option<Error> {
    if target < 1 then Some(InvalidGeneration)
    else if target !in s.secrets then Some(NotFound)
    else if !ValidContract(s.secrets[target], s.secrets[target].state) then Some(ContractViolated)
    else if s.secrets[target].state != Pending && s.secrets[target].state != Active then Some(InvalidPromotionState)
    else None
  }

  /** The target may be promoted: its Secret exists, keeps its contract, and is pending or already active. */
  ghost predicate Promotable(s: Store, target: int) {
    && 1 <= target && target in s.secrets && s.secrets[target].contract
    && (s.secrets[target].state == Pending || s.secrets[target].state == Active)
  }

  /** The target's checks pass exactly for a Promotable target, and every other one gets the error of what it lacks. */
  lemma TargetErrorMeaning(s: Store, target: int)
    ensures var error := TargetError(s, target);
      && (error.None? <==> Promotable(s, target))
      && (error == Some(InvalidGeneration) <==> target < 1)
      && (error == Some(NotFound) <==> 1 <= target && target !in s.secrets)
      && (error == Some(ContractViolated) <==>
            1 <= target && target in s.secrets && (!s.secrets[target].contract || s.secrets[target].state == Other))
      && (error == Some(InvalidPromotionState) <==>
            1 <= target && target in s.secrets && s.secrets[target].contract && s.secrets[target].state == Retired)
  {
  }

  function ActivatePlan(s: Store, target: int): seq<Write>
    requires TargetError(s, target).None?
  {
    if s.secrets[target].state == Active then [] else [SetState(target, Active)]
  }

  function RecoverPlan(s: Store, generation: int): Plan {
    if TargetError(s, generation).Some? then Plan([], TargetError(s, generation))
    else
      var demote := DemotePlan(s, generation - 1);
      Plan(ActivatePlan(s, generation) + demote.writes, demote.failure)
  }

  function PromotePlan(s: Store, target: int): Plan {
    if TargetError(s, target).Some? then Plan([], TargetError(s, target))
    else if s.status == target then RecoverPlan(s, target)
    else
      var demote := DemotePlan(s, s.status);
      Plan([SetStatus(target)] + ActivatePlan(s, target) + demote.writes, demote.failure)
  }

  // ----- the code, with every write allowed to fail or to be the last one before a crash -----

  lemma ApplyOneMore(s: Store, writes: seq<Write>, w: Write)
    ensures ApplyWrites(s, writes + [w]) == ApplyWrite(ApplyWrites(s, writes), w)
  {
    assert (writes + [w])[..|writes|] == writes;
  }

  lemma ApplyOneWrite(s: Store, writes: seq<Write>, w: Write)
    ensures ApplyWrites(ApplyWrites(s, writes), [w]) == ApplyWrites(s, writes + [w])
  {
    ApplyOneMore(s, writes, w);
    ApplyOneMore(ApplyWrites(s, writes), [], w);
    assert [] + [w] == [w];
  }

  lemma NoneOrOneWrite(s: Store, w: Write)
    ensures ApplyWrites(s, [w][..0]) == s && ApplyWrites(s, [w][..1]) == ApplyWrite(s, w)
  {
    assert [w][..1] == [w] && [w][..0] == [];
  }

  class BundleStore {
    var status: int
    var secrets: map<int, BundleSecret>
    /** Whether the API call with this number is answered. A write without an answer may still have been made. */
    const answers: nat -> bool
    var calls: nat

    function Contents(): Store
      reads this
    {
      Store(status, secrets)
    }

    /** Every call from number `from` on was answered. */
    ghost predicate Answered(from: nat)
      reads this
    {
      forall k | from <= k < calls :: answers(k)
    }

    constructor (contents: Store, answers: nat -> bool)
      ensures Contents() == contents && this.answers == answers && calls == 0
    {
      this.answers := answers;
      status := contents.status;
      secrets := contents.secrets;
      calls := 0;
    }

    method Call() returns (ok: bool)
      modifies this`calls
      ensures calls == old(calls) + 1 && ok == answers(old(calls))
    {
      ok := answers(calls);
      calls := calls + 1;
    }

    /** The API server may refuse a write, or perform it and lose the answer; only a confirmed write lets the caller go on. */
    method PatchStatus(generation: int) returns (ok: bool, applied: bool)
      modifies this`status, this`calls
      ensures (ok ==> applied) && calls == old(calls) + 1 && ok == answers(old(calls))
      ensures Contents() == if applied then ApplyWrite(old(Contents()), SetStatus(generation)) else old(Contents())
    {
      ok := Call();
      var taken: bool := *;
      applied := ok || taken;
      if applied {
        status := generation;
      }
    }

    method PatchState(generation: int, state: BundleState) returns (ok: bool, applied: bool)
      requires generation in secrets
      modifies this`secrets, this`calls
      ensures (ok ==> applied) && calls == old(calls) + 1 && ok == answers(old(calls))
      ensures Contents() == if applied then ApplyWrite(old(Contents()), SetState(generation, state)) else old(Contents())
    {
      ok := Call();
      var taken: bool := *;
      applied := ok || taken;
      if applied {
        secrets := secrets[generation := secrets[generation].(state := state)];
      }
    }

    /** `done` counts the writes that reached the API server; whatever happened, they are a prefix of the plan. The error is
        that of a failed call, or the plan's own after all of its writes. */
    method DemoteCARotationSecret(generation: int) returns (error: Option<Error>, ghost done: nat)
      modifies this`secrets, this`calls
      ensures ghost var plan := DemotePlan(old(Contents()), generation);
        && done <= |plan.writes|
        && Contents() == ApplyWrites(old(Contents()), plan.writes[..done])
        && (error.None? ==> done == |plan.writes| && plan.failure.None?)
        && (error.Some? && error != Some(ApiFailure) ==> error == plan.failure && done == |plan.writes|)
      ensures old(calls) <= calls && (error == Some(ApiFailure) <==> !Answered(old(calls)))
      ensures Contents() != old(Contents()) ==>
        && 1 <= generation && generation in old(secrets) && old(secrets)[generation].contract && old(secrets)[generation].state == Active
        && status == old(status) && secrets == old(secrets)[generation := old(secrets)[generation].(state := Retired)]
    {
      ghost var before := Contents();
      NoneOrOneWrite(before, SetState(generation, Retired));
      done := 0;
      if generation < 1 {
        return None, 0;
      }
      var fetched := Call();
      if !fetched {
        return Some(ApiFailure), 0;
      }
      if generation !in secrets || secrets[generation].state != Active {
        return None, 0;
      }
      if !ValidContract(secrets[generation], Active) {
        return Some(ContractViolated), 0;
      }
      var ok, applied := PatchState(generation, Retired);
      done := if applied then 1 else 0;
      error := if ok then None else Some(ApiFailure);
    }

    method RecoverCARotationPromotion(generation: int) returns (error: Option<Error>, ghost done: nat)
      modifies this`secrets, this`calls
      ensures ghost var plan := RecoverPlan(old(Contents()), generation);
        && done <= |plan.writes|
        && Contents() == ApplyWrites(old(Contents()), plan.writes[..done])
        && (error.None? ==> done == |plan.writes| && plan.failure.None?)
        && (error.Some? && error != Some(ApiFailure) ==> error == plan.failure && done == |plan.writes|)
      ensures old(calls) <= calls && (error == Some(ApiFailure) <==> !Answered(old(calls)))
      ensures !Promotable(old(Contents()), generation) ==> Contents() == old(Contents()) && error.Some?
    {
      var before := Contents();
      TargetErrorMeaning(before, generation);
      if generation < 1 {
        return Some(InvalidGeneration), 0;
      }
      var fetched := Call();
      if !fetched {
        return Some(ApiFailure), 0;
      }
      var failure := TargetError(before, generation);
      if failure.Some? {
        return failure, 0;
      }
      error, done := ActivateAndDemote([], before, generation, generation - 1);
      assert [] + ActivatePlan(before, generation) == ActivatePlan(before, generation);
    }

    /** The common tail of promotion and recovery: activate the target if it is still pending, then retire `previous`. */
    method ActivateAndDemote(ghost earlier: seq<Write>, ghost start: Store, target: int, previous: int)
      returns (error: Option<Error>, ghost done: nat)
      requires Contents() == ApplyWrites(start, earlier)
      requires TargetError(start, target).None? && secrets == start.secrets && previous != target
      modifies this`secrets, this`calls
      ensures ghost var demote := DemotePlan(start, previous);
        ghost var writes := earlier + ActivatePlan(start, target) + demote.writes;
        && |earlier| <= done <= |writes|
        && Contents() == ApplyWrites(start, writes[..done])
        && (error.None? ==> done == |writes| && demote.failure.None?)
        && (error.Some? && error != Some(ApiFailure) ==> error == demote.failure && done == |writes|)
      ensures old(calls) <= calls && (error == Some(ApiFailure) <==> !Answered(old(calls)))
    {
      ghost var demote := DemotePlan(start, previous);
      ghost var activate := ActivatePlan(start, target);
      ghost var writes := earlier + activate + demote.writes;
      var ok, middle := Activate(earlier, start, target);
      done := |middle|;
      assert writes[..done] == middle;
      if !ok {
        return Some(ApiFailure), done;
      }
      assert DemotePlan(Contents(), previous) == demote;
      ghost var retired: nat;
      error, retired := DemoteCARotationSecret(previous);
      if retired == 1 {
        ApplyOneWrite(start, middle, demote.writes[0]);
        assert demote.writes[..1] == [demote.writes[0]];
        assert writes[..done + 1] == middle + [demote.writes[0]];
      } else {
        assert demote.writes[..0] == [];
      }
      done := done + retired;
    }

    /** Activates the target if it is still pending; `made` are all the writes made so far. */
    method Activate(ghost earlier: seq<Write>, ghost start: Store, target: int) returns (ok: bool, ghost made: seq<Write>)
      requires Contents() == ApplyWrites(start, earlier)
      requires TargetError(start, target).None? && secrets == start.secrets
      modifies this`secrets, this`calls
      ensures Contents() == ApplyWrites(start, made)
      ensures made == earlier || made == earlier + ActivatePlan(start, target)
      ensures ok ==> made == earlier + ActivatePlan(start, target)
      ensures secrets == start.secrets || (target in start.secrets && secrets == start.secrets[target := start.secrets[target].(state := Active)])
      ensures old(calls) <= calls && (ok <==> Answered(old(calls)))
    {
      if secrets[target].state == Active {
        assert earlier + ActivatePlan(start, target) == earlier;
        return true, earlier;
      }
      ApplyOneMore(start, earlier, SetState(target, Active));
      var applied;
      ok, applied := PatchState(target, Active);
      made := if applied then earlier + [SetState(target, Active)] else earlier;
    }

    method PromoteCARotation(target: int) returns (error: Option<Error>, ghost done: nat)
      modifies this
      ensures ghost var plan := PromotePlan(old(Contents()), target);
        && done <= |plan.writes|
        && Contents() == ApplyWrites(old(Contents()), plan.writes[..done])
        && (error.None? ==> done == |plan.writes| && plan.failure.None?)
        && (error.Some? && error != Some(ApiFailure) ==> error == plan.failure && done == |plan.writes|)
      ensures old(calls) <= calls && (error == Some(ApiFailure) <==> !Answered(old(calls)))
      ensures !Promotable(old(Contents()), target) ==> Contents() == old(Contents()) && error.Some?
    {
      ghost var before := Contents();
      TargetErrorMeaning(before, target);
      if target < 1 {
        return Some(InvalidGeneration), 0;
      }
      var fetched := Call();
      if !fetched {
        return Some(ApiFailure), 0;
      }
      var failure := TargetError(Contents(), target);
      if failure.Some? {
        return failure, 0;
      }
      // The status goes first, so that a failure of the label write can be repaired later.
      if status == target {
        error, done := RecoverCARotationPromotion(target);
        return;
      }
      error, done := AdvanceStatus(target);
    }

    /** The status goes to a target whose checks have passed, then the labels follow. */
    method AdvanceStatus(target: int) returns (error: Option<Error>, ghost done: nat)
      requires TargetError(Contents(), target).None? && status != target
      modifies this
      ensures ghost var plan := PromotePlan(old(Contents()), target);
        && done <= |plan.writes|
        && Contents() == ApplyWrites(old(Contents()), plan.writes[..done])
        && (error.None? ==> done == |plan.writes| && plan.failure.None?)
        && (error.Some? && error != Some(ApiFailure) ==> error == plan.failure && done == |plan.writes|)
      ensures old(calls) <= calls && (error == Some(ApiFailure) <==> !Answered(old(calls)))
    {
      ghost var before := Contents();
      ghost var plan := PromotePlan(before, target);
      NoneOrOneWrite(before, SetStatus(target));
      assert plan.writes[..1] == [SetStatus(target)][..1] && plan.writes[..0] == [SetStatus(target)][..0];
      assert [SetStatus(target)][..1] == [SetStatus(target)];
      var previousGeneration := status;
      var ok, applied := PatchStatus(target);
      if !ok {
        return Some(ApiFailure), if applied then 1 else 0;
      }
      error, done := ActivateAndDemote([SetStatus(target)], before, target, previousGeneration);
    }
  }
}

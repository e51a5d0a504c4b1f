/** Crash safety of the promotion of a secret bundle generation. */
module PromotionLaws {
  import opened Wrappers
  import opened FiniteSets
  import opened Promotion

  // ----- laws of every single write, for every store -----

  ghost function StateOf(s: Store, generation: int): Option<BundleState> {
    if generation in s.secrets then Some(s.secrets[generation].state) else None
  }

  ghost function After(s: Store, plan: Plan, k: nat): Store
    requires k <= |plan.writes|
  {
    ApplyWrites(s, plan.writes[..k])
  }

  lemma AfterStep(s: Store, plan: Plan, k: nat)
    requires k < |plan.writes|
    ensures After(s, plan, k + 1) == ApplyWrite(After(s, plan, k), plan.writes[k])
  {
    assert plan.writes[..k + 1] == plan.writes[..k] + [plan.writes[k]];
    ApplyOneMore(s, plan.writes[..k], plan.writes[k]);
  }

  lemma AfterPrefixes(s: Store, plan: Plan)
    requires |plan.writes| <= 3
    ensures |plan.writes| >= 1 ==> After(s, plan, 1) == ApplyWrite(s, plan.writes[0])
    ensures |plan.writes| >= 2 ==> After(s, plan, 2) == ApplyWrite(ApplyWrite(s, plan.writes[0]), plan.writes[1])
    ensures |plan.writes| >= 3 ==>
      After(s, plan, 3) == ApplyWrite(ApplyWrite(ApplyWrite(s, plan.writes[0]), plan.writes[1]), plan.writes[2])
  {
    if |plan.writes| >= 1 { AfterStep(s, plan, 0); }
    if |plan.writes| >= 2 { AfterStep(s, plan, 1); }
    if |plan.writes| >= 3 { AfterStep(s, plan, 2); }
  }

  /** The write is the status, or moves one label one state forward from what it was. */
  ghost predicate MovesForward(s: Store, target: int, plan: Plan, k: nat)
    requires k < |plan.writes|
  {
    match plan.writes[k]
    case SetStatus(generation) => k == 0 && generation == target
    case SetState(generation, state) =>
      var before := StateOf(After(s, plan, k), generation);
      (before == Some(Pending) && state == Active) || (before == Some(Active) && state == Retired)
  }

  lemma RecoveryMovesForward(s: Store, target: int, k: nat)
    requires k < |RecoverPlan(s, target).writes|
    ensures MovesForward(s, target, RecoverPlan(s, target), k)
  {
    AfterPrefixes(s, RecoverPlan(s, target));
  }

  /** Every write of a promotion or recovery moves exactly one Secret one state forward, or sets the status;
      no state ever moves back, whatever the store looked like. */
  lemma EveryWriteMovesForward(s: Store, target: int, plan: Plan, k: nat)
    requires plan == PromotePlan(s, target) || plan == RecoverPlan(s, target)
    requires k < |plan.writes|
    ensures MovesForward(s, target, plan, k)
  {
    if plan == RecoverPlan(s, target) {
      RecoveryMovesForward(s, target, k);
    } else {
      AfterPrefixes(s, plan);
    }
  }

  /** As long as some generation is Active before, some generation is Active after every single write. */
  lemma SomeGenerationStaysActive(s: Store, target: int, plan: Plan, k: nat, active: int)
    requires plan == PromotePlan(s, target) || plan == RecoverPlan(s, target)
    requires StateOf(s, active) == Some(Active) && k <= |plan.writes|
    ensures StateOf(After(s, plan, k), active) == Some(Active) || StateOf(After(s, plan, k), target) == Some(Active)
    decreases k
  {
    if k > 0 {
      SomeGenerationStaysActive(s, target, plan, k - 1, active);
      EveryWriteMovesForward(s, target, plan, k - 1);
      AfterStep(s, plan, k - 1);
      if plan.writes[k - 1].SetState? && plan.writes[k - 1].state != Active {
        RetiringComesAfterActivating(s, target, plan, k - 1);
      }
    }
  }

  /** A write that takes a generation out of the Active state comes when the target, another generation, is Active. */
  lemma RetiringComesAfterActivating(s: Store, target: int, plan: Plan, k: nat)
    requires plan == PromotePlan(s, target) || plan == RecoverPlan(s, target)
    requires k < |plan.writes| && plan.writes[k].SetState? && plan.writes[k].state != Active
    ensures plan.writes[k].generation != target && StateOf(After(s, plan, k), target) == Some(Active)
  {
    AfterPrefixes(s, plan);
  }

  // ----- promotion after a finished rotation -----

  function ActiveGenerations(s: Store): set<int> {
    set g | g in s.secrets && s.secrets[g].state == Active
  }

  /** The store when every node has rotated: the status names the only Active generation, the next one is Pending. */
  ghost predicate ReadyToPromote(s: Store, target: int) {
    && 1 <= s.status && target == s.status + 1
    && ActiveGenerations(s) == {s.status}
    && s.secrets[s.status].contract && s.secrets[s.status].data
    && target in s.secrets
    && s.secrets[target].state == Pending && s.secrets[target].contract && s.secrets[target].data
  }

  /** The goal, said without any plan: the target is active in the status and in its Secret, its predecessor is retired. */
  ghost function Promoted(s: Store, target: int): Store
    requires ReadyToPromote(s, target)
  {
    Store(target, s.secrets[target := s.secrets[target].(state := Active)][s.status := s.secrets[s.status].(state := Retired)])
  }

  lemma PromotionPlanOf(s: Store, target: int)
    requires ReadyToPromote(s, target)
    ensures PromotePlan(s, target) == Plan([SetStatus(target), SetState(target, Active), SetState(s.status, Retired)], None)
  {
    assert s.status in ActiveGenerations(s);
  }

  lemma UninterruptedPromotion(s: Store, target: int)
    requires ReadyToPromote(s, target)
    ensures PromotePlan(s, target).failure.None?
    ensures After(s, PromotePlan(s, target), |PromotePlan(s, target).writes|) == Promoted(s, target)
  {
    assert s.status in ActiveGenerations(s);
    PromotionPlanOf(s, target);
    AfterPrefixes(s, PromotePlan(s, target));
  }

  /** What a crash after the status write can leave behind: any of the three later stores. */
  ghost predicate Interrupted(s: Store, target: int, p: Store)
    requires ReadyToPromote(s, target)
  {
    exists k :: 1 <= k <= 3 && p == After(s, PromotePlan3(s, target), k)
  }

  ghost function PromotePlan3(s: Store, target: int): (plan: Plan)
    requires ReadyToPromote(s, target)
    ensures |plan.writes| == 3
  {
    PromotionPlanOf(s, target);
    PromotePlan(s, target)
  }

  /** What is left of a promotion after `k` of its writes is exactly what recovery then does. */
  lemma RecoveryIsTheRest(s: Store, target: int, k: nat)
    requires ReadyToPromote(s, target) && 1 <= k <= 3
    ensures RecoverPlan(After(s, PromotePlan3(s, target), k), target) == Plan(PromotePlan3(s, target).writes[k..], None)
  {
    assert s.status in ActiveGenerations(s);
    PromotionPlanOf(s, target);
    AfterPrefixes(s, PromotePlan3(s, target));
  }

  lemma {:induction false} AfterTheRest(s: Store, plan: Plan, k: nat, j: nat)
    requires k + j <= |plan.writes|
    ensures After(After(s, plan, k), Plan(plan.writes[k..], None), j) == After(s, plan, k + j)
  {
    var rest := Plan(plan.writes[k..], None);
    if j == 0 {
      assert rest.writes[..0] == [];
    } else {
      AfterTheRest(s, plan, k, j - 1);
      AfterStep(After(s, plan, k), rest, j - 1);
      AfterStep(s, plan, k + j - 1);
    }
  }

  /** Recovery from an interrupted promotion, itself interrupted after any number of writes, leaves an interrupted promotion again;
      uninterrupted, it reaches the goal. */
  lemma RecoveryStep(s: Store, target: int, p: Store, j: nat)
    requires ReadyToPromote(s, target) && Interrupted(s, target, p)
    requires j <= |RecoverPlan(p, target).writes|
    ensures Interrupted(s, target, After(p, RecoverPlan(p, target), j))
    ensures RecoverPlan(p, target).failure.None?
    ensures After(p, RecoverPlan(p, target), |RecoverPlan(p, target).writes|) == Promoted(s, target)
  {
    var plan := PromotePlan3(s, target);
    var k :| 1 <= k <= 3 && p == After(s, plan, k);
    RecoveryIsTheRest(s, target, k);
    AfterTheRest(s, plan, k, j);
    AfterTheRest(s, plan, k, 3 - k);
    UninterruptedPromotion(s, target);
  }

  /** The store after a list of recoveries, each stopped after at most the given number of its writes. */
  ghost function AfterCrashes(p: Store, target: int, crashes: seq<nat>): Store
    decreases |crashes|
  {
    if crashes == [] then p
    else
      var plan := RecoverPlan(p, target);
      var j := if crashes[0] <= |plan.writes| then crashes[0] else |plan.writes|;
      AfterCrashes(After(p, plan, j), target, crashes[1..])
  }

  /** However often promotion and its recoveries were cut short, one uninterrupted recovery reaches the goal,
      and recovering once more writes nothing. */
  lemma {:induction false} RecoveryAlwaysReachesTheGoal(s: Store, target: int, p: Store, crashes: seq<nat>)
    requires ReadyToPromote(s, target) && Interrupted(s, target, p)
    ensures var q := AfterCrashes(p, target, crashes);
      && RecoverPlan(q, target).failure.None?
      && After(q, RecoverPlan(q, target), |RecoverPlan(q, target).writes|) == Promoted(s, target)
    ensures RecoverPlan(Promoted(s, target), target) == Plan([], None)
    decreases |crashes|
  {
    if crashes == [] {
      RecoveryStep(s, target, p, 0);
      assert s.status in ActiveGenerations(s);
    } else {
      var plan := RecoverPlan(p, target);
      var j := if crashes[0] <= |plan.writes| then crashes[0] else |plan.writes|;
      RecoveryStep(s, target, p, j);
      RecoveryAlwaysReachesTheGoal(s, target, After(p, plan, j), crashes[1..]);
    }
  }

  // ----- which requests reach the recovery -----

  datatype Decision = NotRequested | ScaleDownInProgress | RotationGenerationInvalid | RecoverPromotion(generation: int) | InvalidRequest | Rotate(target: int)

  /** How reconcileCARotation reads the request. */
  function DecideRotation(requested: Option<int>, scaleDownPending: bool, s: Store): Decision {
    if requested.None? then NotRequested
    else if scaleDownPending then ScaleDownInProgress
    else if NextGeneration(s.status).Failure? then RotationGenerationInvalid
    else if requested.value == NextGeneration(s.status).value then Rotate(requested.value)
    else if requested.value == s.status && RecoverPlan(s, s.status).failure != Some(NotFound) then RecoverPromotion(s.status)
    else InvalidRequest
  }

  /** Each answer with its exact condition. A pending scale-down pauses every request, whatever it asks for. */
  lemma DecideRotationMeaning(requested: Option<int>, scaleDownPending: bool, s: Store)
    ensures var decision := DecideRotation(requested, scaleDownPending, s);
      var open := requested.Some? && !scaleDownPending && 0 <= s.status && s.status != 0x7fff_ffff;
      && (decision == NotRequested <==> requested.None?)
      && (decision == ScaleDownInProgress <==> requested.Some? && scaleDownPending)
      && (decision == RotationGenerationInvalid <==>
            requested.Some? && !scaleDownPending && (s.status < 0 || s.status == 0x7fff_ffff))
      && (decision.Rotate? <==> open && requested.value == s.status + 1)
      && (decision.Rotate? ==> decision.target == s.status + 1)
      && (decision.RecoverPromotion? <==> open && requested.value == s.status && (s.status == 0 || s.status in s.secrets))
      && (decision.RecoverPromotion? ==> decision.generation == s.status)
  {
    TargetErrorMeaning(s, s.status);
  }

  /** validateActiveBundle, which the control-plane reconcile passes before it looks at the rotation at all. */
  ghost predicate ActiveBundleValid(s: Store) {
    s.status >= 1 && s.status in s.secrets && s.secrets[s.status] == BundleSecret(Active, true, true)
  }

  /** The rotation reconcile takes up an interrupted promotion for every target but the last int32 generation. */
  lemma RotationReconcileRecoversIff(s: Store, target: int, p: Store)
    requires ReadyToPromote(s, target) && Interrupted(s, target, p)
    requires target <= 0x7fff_ffff
    ensures DecideRotation(Some(target), false, p) == RecoverPromotion(target) <==> target < 0x7fff_ffff
    ensures target == 0x7fff_ffff ==> DecideRotation(Some(target), false, p) == RotationGenerationInvalid
  {
    RecoveryStep(s, target, p, 0);
    PromotionPlanOf(s, target);
    AfterPrefixes(s, PromotePlan3(s, target));
  }

  /** The whole control-plane reconcile gets there only when the crash came after the target's label write:
      between the status write and the label write its bundle check stops it. */
  lemma ControlPlaneReconcileRecoversIff(s: Store, target: int, k: nat)
    requires ReadyToPromote(s, target) && target <= 0x7fff_ffff && 1 <= k <= 3
    ensures var p := After(s, PromotePlan3(s, target), k);
      ActiveBundleValid(p) && DecideRotation(Some(target), false, p) == RecoverPromotion(target) <==> k >= 2 && target < 0x7fff_ffff
  {
    var plan := PromotePlan3(s, target);
    assert s.status in ActiveGenerations(s);
    PromotionPlanOf(s, target);
    AfterPrefixes(s, plan);
    RotationReconcileRecoversIff(s, target, After(s, plan, k));
  }

  // ----- reconstruction of a lost status -----

  ghost predicate IsActive(s: Store, g: int) {
    g in s.secrets && s.secrets[g].state == Active
  }

  ghost predicate IsSoleActive(s: Store, g: int) {
    IsActive(s, g) && forall h | IsActive(s, h) :: h == g
  }

  /** What reconstruction may answer: 1 for a first generation, which has no Active Secret; nothing but a refusal when two
      are Active; and the sole Active generation exactly when its Secret is sound. */
  ghost predicate IsReconstruction(s: Store, result: Result<int, Error>) {
    && ((forall g :: !IsActive(s, g)) ==> result == Success(1))
    && ((exists a, b :: a != b && IsActive(s, a) && IsActive(s, b)) ==> result == Failure(AmbiguousActive))
    && forall g | IsSoleActive(s, g) ::
         var inRange, secret := 1 <= g <= 0x7fff_ffff, s.secrets[g];
         && (result == Success(g) <==> inRange && secret.contract && secret.data)
         && (result.Success? ==> result.value == g)
         && (result == Failure(InvalidGeneration) <==> !inRange)
         && (result == Failure(ContractViolated) <==> inRange && !secret.contract)
         && (result == Failure(DataInvalid) <==> inRange && secret.contract && !secret.data)
  }

  /** Lists the Active Secrets and checks the only one. */
  method ReconstructActiveSecretGeneration(store: BundleStore) returns (result: Result<int, Error>)
    ensures IsReconstruction(store.Contents(), result)
  {
    var active := ActiveGenerations(store.Contents());
    ghost var s := store.Contents();
    ActiveMembers(s);
    if active == {} {
      return Success(1);
    }
    if |active| != 1 {
      ghost var a, b := TwoMembers(active);
      assert IsActive(s, a) && IsActive(s, b);
      return Failure(AmbiguousActive);
    }
    ghost var only := TheOnly(active);
    assert active == {only};
    var generation :| active == {generation};
    assert generation in active;
    assert IsSoleActive(s, generation);
    if generation < 1 || generation > MAX_INT32 {
      return Failure(InvalidGeneration);
    }
    if !ValidContract(store.secrets[generation], Active) {
      return Failure(ContractViolated);
    }
    if !store.secrets[generation].data {
      return Failure(DataInvalid);
    }
    return Success(generation);
  }

  lemma ActiveMembers(s: Store)
    ensures forall g: int :: IsActive(s, g) <==> g in ActiveGenerations(s)
  {
  }

  /** A status lost at any moment of a promotion is reconstructed to the old generation before the target's label write,
      refused between the two label writes, and reconstructed to the target after the last one. */
  lemma ReconstructionDuringPromotion(s: Store, target: int, k: nat, result: Result<int, Error>)
    requires ReadyToPromote(s, target) && target <= MAX_INT32 && k <= 3
    requires IsReconstruction(After(s, PromotePlan3(s, target), k), result)
    ensures result == if k <= 1 then Success(s.status) else if k == 2 then Failure(AmbiguousActive) else Success(target)
  {
    assert s.status in ActiveGenerations(s);
    var plan := PromotePlan3(s, target);
    PromotionPlanOf(s, target);
    AfterPrefixes(s, plan);
    var p := After(s, plan, k);
    assert forall g | g in s.secrets && s.secrets[g].state == Active :: g == s.status by {
      forall g | g in s.secrets && s.secrets[g].state == Active
        ensures g == s.status
      {
        assert g in ActiveGenerations(s);
      }
    }
    if k <= 1 {
      assert IsSoleActive(p, s.status);
    } else if k == 2 {
      assert IsActive(p, s.status) && IsActive(p, target);
    } else {
      assert p == Promoted(s, target);
      assert IsSoleActive(p, target);
    }
  }
}

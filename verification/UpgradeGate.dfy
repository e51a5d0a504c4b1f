/** The etcd gate in front of a control-plane restart (controller/runtimeextension/update.go). */
module UpgradeGate {
  import opened Wrappers
  import opened FiniteSets
  import opened Quorum
  import opened EtcdMembership

  datatype Machine = Machine(
    uid: string,
    clusterName: string,
    controlPlane: bool,
    deleting: bool,
    updateInProgress: bool,
    ready: bool)

  datatype GateError =
    | IncompleteContext
    | InventoryUnavailable
    | MachineDeleting
    | DuplicateTarget
    | AnotherUpdating
    | SurvivorNotReady
    | TargetMissing
    | MembersUnavailable
    | MembershipInvalid
    | CountMismatch
    | StatusUnavailable
    | NotAMember
    | Unhealthy
    | DuplicateReport
    | QuorumWouldBeLost

  predicate InCluster(machine: Machine, target: Machine) {
    machine.clusterName == target.clusterName && machine.controlPlane
  }

  /** The control-plane Machines of the target's cluster other than the target, in inventory order. */
  function Others(inventory: seq<Machine>, target: Machine): seq<Machine> {
    if inventory == [] then []
    else
      var last := inventory[|inventory| - 1];
      Others(inventory[..|inventory| - 1], target)
      + if last.clusterName == target.clusterName && last.controlPlane && last.uid != target.uid then [last] else []
  }

  ghost predicate Quiet(machine: Machine, target: Machine) {
    machine.clusterName == target.clusterName && machine.controlPlane ==>
      !machine.deleting && (machine.uid != target.uid ==> !machine.updateInProgress && machine.ready)
  }

  /** No control-plane Machine of the cluster is deleting, the target is listed exactly once, every other one is ready and idle. */
  ghost predicate InventorySafe(inventory: seq<Machine>, target: Machine) {
    && (forall k | 0 <= k < |inventory| :: Quiet(inventory[k], target))
    && (exists k :: IsTarget(inventory, target, k))
    && forall i, j | IsTarget(inventory, target, i) && IsTarget(inventory, target, j) :: i == j
  }

  ghost predicate IsTarget(inventory: seq<Machine>, target: Machine, k: int) {
    && 0 <= k < |inventory|
    && inventory[k].clusterName == target.clusterName && inventory[k].controlPlane && inventory[k].uid == target.uid
  }

  method ControlPlaneUpgradeSurvivors(inventory: seq<Machine>, target: Machine) returns (result: Result<seq<Machine>, GateError>)
    ensures result.Success? <==> InventorySafe(inventory, target)
    ensures result.Success? ==> result.value == Others(inventory, target)
  {
    var survivors: seq<Machine> := [];
    var targetFound := false;
    ghost var found := 0;
    for i := 0 to |inventory|
      invariant survivors == Others(inventory[..i], target)
      invariant forall k | 0 <= k < i :: Quiet(inventory[k], target)
      invariant targetFound ==> 0 <= found < i && IsTarget(inventory, target, found)
      invariant forall k | 0 <= k < i && IsTarget(inventory, target, k) :: targetFound && k == found
    {
      var machine := inventory[i];
      assert inventory[..i + 1][..i] == inventory[..i];
      if !InCluster(machine, target) {
        continue;
      }
      if machine.deleting {
        assert !Quiet(machine, target);
        return Failure(MachineDeleting);
      }
      if machine.uid == target.uid {
        assert IsTarget(inventory, target, i);
        if targetFound {
          return Failure(DuplicateTarget);
        }
        targetFound, found := true, i;
        continue;
      }
      if machine.updateInProgress {
        return Failure(AnotherUpdating);
      }
      if !machine.ready {
        return Failure(SurvivorNotReady);
      }
      survivors := survivors + [machine];
    }
    assert inventory[..|inventory|] == inventory;
    if !targetFound {
      return Failure(TargetMissing);
    }
    return Success(survivors);
  }

  /** Voting members with distinct non-zero IDs, at least one of them. */
  ghost predicate MembershipComplete(members: seq<EtcdMember>) {
    && members != []
    && NoDuplicates(MemberIDs(members))
    && forall k | 0 <= k < |members| :: members[k].id != 0 && !members[k].learner
  }

  method ValidateControlPlaneEtcdMembers(members: seq<EtcdMember>) returns (result: Result<set<nat>, GateError>)
    ensures result.Success? <==> MembershipComplete(members)
    ensures result.Success? ==> result.value == ToSet(MemberIDs(members))
  {
    var memberIDs: set<nat> := {};
    ghost var ids := MemberIDs(members);
    for i := 0 to |members|
      invariant memberIDs == ToSet(ids[..i]) && NoDuplicates(ids[..i])
      invariant forall k | 0 <= k < i :: members[k].id != 0 && !members[k].learner
    {
      var member := members[i];
      if member.id == 0 || member.learner {
        return Failure(MembershipInvalid);
      }
      if member.id in memberIDs {
        assert ids[i] in ids[..i];
        return Failure(MembershipInvalid);
      }
      assert ids[..i + 1] == ids[..i] + [ids[i]];
      ToSetAppend(ids[..i], ids[i]);
      memberIDs := memberIDs + {member.id};
    }
    assert ids[..|members|] == ids;
    assert members != [] ==> ids[0] in memberIDs;
    if memberIDs == {} {
      return Failure(MembershipInvalid);
    }
    return Success(memberIDs);
  }

  /** What the gate reads from the target and from each survivor; None is an observation that failed. */
  datatype Observed = Observed(members: Option<seq<EtcdMember>>, target: Option<EtcdStatus>, survivors: map<string, EtcdStatus>)

  ghost predicate SurvivorsObserved(others: seq<Machine>, observed: Observed) {
    forall k | 0 <= k < |others| :: others[k].uid in observed.survivors
  }

  /** The member IDs reported by the target and the first `count` survivors. */
  ghost function Reports(others: seq<Machine>, observed: Observed, count: nat): seq<nat>
    requires observed.target.Some? && count <= |others| && SurvivorsObserved(others, observed)
  {
    [observed.target.value.memberID] + seq(count, k requires 0 <= k < count => observed.survivors[others[k].uid].memberID)
  }

  /** The gate's meaning: the inventory is quiet, the membership is complete, every Machine of the control plane reports a
      healthy member, the reports are exactly the membership, and there are one or at least three members. */
  ghost predicate RestartSafe(inventory: seq<Machine>, target: Machine, observed: Observed) {
    && InventorySafe(inventory, target)
    && var others := Others(inventory, target);
    && observed.members.Some? && MembershipComplete(observed.members.value)
    && observed.target.Some? && ReportsHealthy(observed.target.value)
    && SurvivorsObserved(others, observed)
    && (forall k | 0 <= k < |others| :: ReportsHealthy(observed.survivors[others[k].uid]))
    && NoDuplicates(Reports(others, observed, |others|))
    && ToSet(Reports(others, observed, |others|)) == ToSet(MemberIDs(observed.members.value))
    && (|observed.members.value| == 1 || |observed.members.value| >= 3)
  }

  /** Every survivor reports a healthy member, none of them twice, and none outside `memberIDs`. */
  method ObserveSurvivors(ghost inventory: seq<Machine>, ghost target: Machine, observed: Observed, others: seq<Machine>, memberIDs: set<nat>)
    returns (error: Option<GateError>, healthyMembers: nat)
    requires others == Others(inventory, target) && observed.target.Some? && observed.target.value.memberID in memberIDs
    requires observed.members.Some? && memberIDs == ToSet(MemberIDs(observed.members.value))
    ensures error.None? ==>
      && healthyMembers == |others| + 1 && SurvivorsObserved(others, observed)
      && (forall k | 0 <= k < |others| :: ReportsHealthy(observed.survivors[others[k].uid]))
      && NoDuplicates(Reports(others, observed, |others|)) && ToSet(Reports(others, observed, |others|)) <= memberIDs
    ensures error.Some? ==> !RestartSafe(inventory, target, observed)
  {
    healthyMembers := 1;
    var observedMemberIDs := {observed.target.value.memberID};
    for i := 0 to |others|
      invariant healthyMembers == i + 1
      invariant SurvivorsObserved(others[..i], observed)
      invariant forall k | 0 <= k < i :: ReportsHealthy(observed.survivors[others[k].uid])
      invariant NoDuplicates(Reports(others[..i], observed, i))
      invariant observedMemberIDs == ToSet(Reports(others[..i], observed, i)) <= memberIDs
    {
      if others[i].uid !in observed.survivors {
        return Some(StatusUnavailable), healthyMembers;
      }
      var status := observed.survivors[others[i].uid];
      if !EtcdStatusHealthy(status) {
        return Some(Unhealthy), healthyMembers;
      }
      if status.memberID !in memberIDs {
        ReportIsAReport(inventory, target, observed, i);
        return Some(NotAMember), healthyMembers;
      }
      ReportsAppend(others, observed, i);
      if status.memberID in observedMemberIDs {
        RepeatedReport(inventory, target, observed, i);
        return Some(DuplicateReport), healthyMembers;
      }
      observedMemberIDs := observedMemberIDs + {status.memberID};
      healthyMembers := healthyMembers + 1;
    }
    assert others[..|others|] == others;
    return None, healthyMembers;
  }

  method ControlPlaneUpgradeSafe(inventory: Option<seq<Machine>>, target: Machine, observed: Observed) returns (error: Option<GateError>)
    ensures error.None? <==> target.uid != "" && target.clusterName != "" && inventory.Some? && RestartSafe(inventory.value, target, observed)
  {
    if target.uid == "" || target.clusterName == "" {
      return Some(IncompleteContext);
    }
    if inventory.None? {
      return Some(InventoryUnavailable);
    }
    var survivors := ControlPlaneUpgradeSurvivors(inventory.value, target);
    if survivors.Failure? {
      return Some(survivors.error);
    }
    if observed.members.None? {
      return Some(MembersUnavailable);
    }
    var others, members := survivors.value, observed.members.value;
    var memberIDs := ValidateControlPlaneEtcdMembers(members);
    if memberIDs.Failure? {
      return Some(memberIDs.error);
    }
    SafeCounts(inventory.value, target, observed);
    if |members| != |others| + 1 {
      return Some(CountMismatch);
    }
    if observed.target.None? {
      return Some(StatusUnavailable);
    }
    var targetStatus := observed.target.value;
    if targetStatus.memberID !in memberIDs.value {
      return Some(NotAMember);
    }
    if !EtcdStatusHealthy(targetStatus) {
      return Some(Unhealthy);
    }
    var unsafe, healthyMembers := ObserveSurvivors(inventory.value, target, observed, others, memberIDs.value);
    if unsafe.Some? {
      return unsafe;
    }
    DistinctReportsFillTheList(Reports(others, observed, |others|), MemberIDs(members));
    if !CanTemporarilyDisruptMember(RemovalObservation(|members|, healthyMembers, true, true)) {
      return Some(QuorumWouldBeLost);
    }
    return None;
  }

  lemma SafeCounts(inventory: seq<Machine>, target: Machine, observed: Observed)
    ensures RestartSafe(inventory, target, observed) ==> |observed.members.value| == |Others(inventory, target)| + 1
  {
    if RestartSafe(inventory, target, observed) {
      var others := Others(inventory, target);
      DistinctSize(Reports(others, observed, |others|));
      DistinctSize(MemberIDs(observed.members.value));
    }
  }

  lemma ReportsAppend(others: seq<Machine>, observed: Observed, i: nat)
    requires observed.target.Some? && i < |others|
    requires SurvivorsObserved(others[..i], observed) && others[i].uid in observed.survivors
    ensures SurvivorsObserved(others[..i + 1], observed)
    ensures Reports(others[..i + 1], observed, i + 1) == Reports(others[..i], observed, i) + [observed.survivors[others[i].uid].memberID]
    ensures ToSet(Reports(others[..i + 1], observed, i + 1)) == ToSet(Reports(others[..i], observed, i)) + {observed.survivors[others[i].uid].memberID}
  {
    assert forall k | 0 <= k < i :: others[..i + 1][k] == others[..i][k];
    assert Reports(others[..i + 1], observed, i + 1) == Reports(others[..i], observed, i) + [observed.survivors[others[i].uid].memberID];
    ToSetAppend(Reports(others[..i], observed, i), observed.survivors[others[i].uid].memberID);
  }

  lemma ReportIsAReport(inventory: seq<Machine>, target: Machine, observed: Observed, i: nat)
    requires i < |Others(inventory, target)| && Others(inventory, target)[i].uid in observed.survivors
    ensures RestartSafe(inventory, target, observed) ==>
      observed.survivors[Others(inventory, target)[i].uid].memberID in ToSet(MemberIDs(observed.members.value))
  {
    if RestartSafe(inventory, target, observed) {
      var others := Others(inventory, target);
      assert Reports(others, observed, |others|)[i + 1] == observed.survivors[others[i].uid].memberID;
    }
  }

  lemma RepeatedReport(inventory: seq<Machine>, target: Machine, observed: Observed, i: nat)
    requires observed.target.Some? && i < |Others(inventory, target)|
    requires SurvivorsObserved(Others(inventory, target)[..i], observed) && Others(inventory, target)[i].uid in observed.survivors
    requires observed.survivors[Others(inventory, target)[i].uid].memberID in Reports(Others(inventory, target)[..i], observed, i)
    ensures SurvivorsObserved(Others(inventory, target), observed) ==>
      !NoDuplicates(Reports(Others(inventory, target), observed, |Others(inventory, target)|))
  {
    var others := Others(inventory, target);
    if SurvivorsObserved(others, observed) {
      var all, some := Reports(others, observed, |others|), Reports(others[..i], observed, i);
      var k :| 0 <= k < |some| && some[k] == observed.survivors[others[i].uid].memberID;
      assert all[k] == some[k] && all[i + 1] == some[k];
    }
  }

  /** When the gate opens on three or more members, the others still are a quorum of the full membership while the target restarts. */
  lemma SurvivorsKeepQuorum(inventory: seq<Machine>, target: Machine, observed: Observed)
    requires RestartSafe(inventory, target, observed) && |observed.members.value| >= 3
    ensures var ids := ToSet(MemberIDs(observed.members.value));
      observed.target.value.memberID in ids && IsMajority(ids - {observed.target.value.memberID}, ids)
  {
    var others := Others(inventory, target);
    var ids := ToSet(MemberIDs(observed.members.value));
    assert Reports(others, observed, |others|)[0] == observed.target.value.memberID;
    DistinctSize(MemberIDs(observed.members.value));
    assert (ids - {observed.target.value.memberID}) * ids == ids - {observed.target.value.memberID};
  }
}

/** The gates in front of etcd member removal (controller/tartcontrolplane/etcd.go) and of a control-plane restart
    (controller/runtimeextension/update.go): counting checks that force Machines and members to correspond one to one. */
module EtcdMembership {
  import opened Wrappers
  import opened FiniteSets
  import opened Quorum

  datatype EtcdStatus = EtcdStatus(memberID: nat, leader: nat, errors: seq<string>)

  datatype EtcdMember = EtcdMember(id: nat, learner: bool)

  /** What one control-plane Machine reported about its own etcd member. */
  datatype EtcdObservation = EtcdObservation(machineUID: string, status: EtcdStatus)

  predicate EtcdStatusHealthy(status: EtcdStatus) {
    status.memberID != 0 && status.leader != 0 && status.errors == []
  }

  predicate ContainsEtcdMember(members: seq<EtcdMember>, memberID: nat) {
    exists k :: 0 <= k < |members| && members[k].id == memberID
  }

  predicate AllEtcdMembersAreVoting(members: seq<EtcdMember>) {
    forall k | 0 <= k < |members| :: !members[k].learner
  }

  ghost function ReportedIDs(observations: seq<EtcdObservation>): (ids: seq<nat>)
    ensures |ids| == |observations|
    ensures forall k | 0 <= k < |ids| :: ids[k] == observations[k].status.memberID
  {
    seq(|observations|, k requires 0 <= k < |observations| => observations[k].status.memberID)
  }

  ghost function MemberIDs(members: seq<EtcdMember>): (ids: seq<nat>)
    ensures |ids| == |members|
    ensures forall k | 0 <= k < |ids| :: ids[k] == members[k].id
  {
    seq(|members|, k requires 0 <= k < |members| => members[k].id)
  }

  /** The report of a member that knows itself and a leader, and raises no alarm. */
  ghost predicate ReportsHealthy(status: EtcdStatus) {
    status.memberID != 0 && status.leader != 0 && status.errors == []
  }

  ghost function HealthyIDs(observations: seq<EtcdObservation>): set<nat> {
    set k | 0 <= k < |observations| && ReportsHealthy(observations[k].status) :: observations[k].status.memberID
  }

  lemma HealthyIDsAppend(observations: seq<EtcdObservation>, last: EtcdObservation)
    ensures HealthyIDs(observations + [last]) ==
      HealthyIDs(observations) + if ReportsHealthy(last.status) then {last.status.memberID} else {}
  {
    var longer := observations + [last];
    assert longer[|observations|] == last;
    forall id | id in HealthyIDs(observations)
      ensures id in HealthyIDs(longer)
    {
      var k :| 0 <= k < |observations| && ReportsHealthy(observations[k].status) && observations[k].status.memberID == id;
      assert longer[k] == observations[k];
    }
  }

  lemma HealthyAreReported(observations: seq<EtcdObservation>)
    ensures HealthyIDs(observations) <= ToSet(ReportedIDs(observations))
  {
    forall id | id in HealthyIDs(observations)
      ensures id in ToSet(ReportedIDs(observations))
    {
      var k :| 0 <= k < |observations| && ReportsHealthy(observations[k].status) && observations[k].status.memberID == id;
      assert ReportedIDs(observations)[k] == id;
    }
  }

  /** Counts the healthy members and finds the target, unless two Machines report the same member. */
  method SummarizeEtcdObservations(observations: seq<EtcdObservation>, targetUID: string)
    returns (target: Option<EtcdObservation>, healthyMembers: nat, unique: bool)
    ensures unique <==> NoDuplicates(ReportedIDs(observations))
    ensures unique ==> healthyMembers == |HealthyIDs(observations)|
    ensures target.Some? ==> target.value in observations && target.value.machineUID == targetUID
    ensures unique && target.None? ==> forall k | 0 <= k < |observations| :: observations[k].machineUID != targetUID
  {
    target, healthyMembers := None, 0;
    ghost var ids := ReportedIDs(observations);
    var memberIDs: set<nat> := {};
    for i := 0 to |observations|
      invariant NoDuplicates(ids[..i])
      invariant memberIDs == ToSet(ids[..i])
      invariant healthyMembers == |HealthyIDs(observations[..i])|
      invariant target.Some? ==> target.value in observations && target.value.machineUID == targetUID
      invariant target.None? ==> forall k | 0 <= k < i :: observations[k].machineUID != targetUID
    {
      var observation := observations[i];
      if observation.status.memberID in memberIDs {
        assert ids[i] in ids[..i];
        return None, 0, false;
      }
      SummaryStep(observations, i);
      memberIDs := memberIDs + {observation.status.memberID};
      if EtcdStatusHealthy(observation.status) {
        healthyMembers := healthyMembers + 1;
      }
      if observation.machineUID == targetUID {
        target := Some(observation);
      }
    }
    assert ids[..|observations|] == ids;
    assert observations[..|observations|] == observations;
    unique := true;
  }

  lemma SummaryStep(observations: seq<EtcdObservation>, i: nat)
    requires i < |observations|
    requires NoDuplicates(ReportedIDs(observations)[..i]) && ReportedIDs(observations)[i] !in ReportedIDs(observations)[..i]
    ensures var ids := ReportedIDs(observations);
      && NoDuplicates(ids[..i + 1])
      && ToSet(ids[..i + 1]) == ToSet(ids[..i]) + {ids[i]}
    ensures |HealthyIDs(observations[..i + 1])| == |HealthyIDs(observations[..i])| + if EtcdStatusHealthy(observations[i].status) then 1 else 0
  {
    var ids := ReportedIDs(observations);
    assert ids[..i + 1] == ids[..i] + [ids[i]];
    ToSetAppend(ids[..i], ids[i]);
    assert observations[..i + 1] == observations[..i] + [observations[i]];
    HealthyIDsAppend(observations[..i], observations[i]);
    HealthyAreReported(observations[..i]);
    assert ReportedIDs(observations[..i]) == ids[..i];
    assert ids[i] !in HealthyIDs(observations[..i]);
  }

  predicate CanRemoveObservedEtcdMember(members: seq<EtcdMember>, observations: seq<EtcdObservation>, memberID: nat,
                                        healthyMembers: nat, target: EtcdObservation)
  {
    if |members| != |observations| || !ContainsEtcdMember(members, memberID) || !AllEtcdMembersAreVoting(members) then false
    else if exists k :: 0 <= k < |observations| && !ContainsEtcdMember(members, observations[k].status.memberID) then false
    else CanRemoveMember(RemovalObservation(|members|, healthyMembers, EtcdStatusHealthy(target.status), true))
  }

  /** The removal of `id` is sound: Machines and voting members correspond one to one, and the healthy members
      are a majority of the membership before and after the removal. */
  ghost predicate SoundRemoval(members: seq<EtcdMember>, observations: seq<EtcdObservation>, id: nat) {
    var ids := ToSet(MemberIDs(members));
    && NoDuplicates(ReportedIDs(observations))
    && NoDuplicates(MemberIDs(members))
    && ids == ToSet(ReportedIDs(observations))
    && (forall k | 0 <= k < |members| :: !members[k].learner)
    && |ids| >= 2
    && IsMajority(HealthyIDs(observations), ids)
    && IsMajority(HealthyIDs(observations) - {id}, ids - {id})
  }

  lemma ContainedIDs(members: seq<EtcdMember>, id: nat)
    ensures ContainsEtcdMember(members, id) <==> id in ToSet(MemberIDs(members))
  {
    if id in ToSet(MemberIDs(members)) {
      var k :| 0 <= k < |members| && MemberIDs(members)[k] == id;
      assert members[k].id == id;
    }
    if k :| 0 <= k < |members| && members[k].id == id {
      assert MemberIDs(members)[k] == id;
    }
  }

  /** With distinct reports, membership of the target's report in the healthy set is its own health. */
  lemma TargetHealth(observations: seq<EtcdObservation>, target: EtcdObservation)
    requires NoDuplicates(ReportedIDs(observations)) && target in observations
    ensures target.status.memberID in HealthyIDs(observations) <==> EtcdStatusHealthy(target.status)
    ensures target.status.memberID in ToSet(ReportedIDs(observations))
  {
    var t :| 0 <= t < |observations| && observations[t] == target;
    var ids := ReportedIDs(observations);
    assert ids[t] == target.status.memberID;
    if target.status.memberID in HealthyIDs(observations) {
      var k :| 0 <= k < |observations| && EtcdStatusHealthy(observations[k].status) && observations[k].status.memberID == target.status.memberID;
      assert ids[k] == ids[t];
    }
  }

  /** The gate opens exactly for sound removals. No separate check rules out a repeated member: the counts do. */
  lemma RemovalGateMeaning(members: seq<EtcdMember>, observations: seq<EtcdObservation>, target: EtcdObservation)
    requires NoDuplicates(ReportedIDs(observations)) && target in observations
    ensures CanRemoveObservedEtcdMember(members, observations, target.status.memberID, |HealthyIDs(observations)|, target)
      <==> SoundRemoval(members, observations, target.status.memberID)
  {
    var ids, reports := MemberIDs(members), ReportedIDs(observations);
    forall id
      ensures ContainsEtcdMember(members, id) <==> id in ToSet(ids)
    {
      ContainedIDs(members, id);
    }
    HealthyAreReported(observations);
    TargetHealth(observations, target);
    DistinctSize(reports);
    DistinctSize(ids);
    if ToSet(reports) <= ToSet(ids) && |members| == |observations| {
      DistinctReportsFillTheList(reports, ids);
    }
    if ToSet(reports) == ToSet(ids) {
      CanRemoveMemberMeaning(ToSet(ids), HealthyIDs(observations), target.status.memberID);
    }
    assert (exists k :: 0 <= k < |observations| && !ContainsEtcdMember(members, observations[k].status.memberID))
      <==> !(ToSet(reports) <= ToSet(ids)) by {
      if !(ToSet(reports) <= ToSet(ids)) {
        var id :| id in ToSet(reports) && id !in ToSet(ids);
        var k :| 0 <= k < |reports| && reports[k] == id;
        assert !ContainsEtcdMember(members, observations[k].status.memberID);
      }
      forall k | 0 <= k < |observations| && ToSet(reports) <= ToSet(ids)
        ensures ContainsEtcdMember(members, observations[k].status.memberID)
      {
        assert reports[k] in ToSet(reports);
      }
    }
  }

  /** Each member belongs to exactly one Machine. */
  lemma SoundRemovalIsABijection(members: seq<EtcdMember>, observations: seq<EtcdObservation>, id: nat, m: nat) returns (o: nat)
    requires SoundRemoval(members, observations, id) && m < |members|
    ensures o < |observations| && observations[o].status.memberID == members[m].id
    ensures forall k | 0 <= k < |observations| && observations[k].status.memberID == members[m].id :: k == o
  {
    var reports := ReportedIDs(observations);
    assert MemberIDs(members)[m] in ToSet(reports);
    o :| 0 <= o < |reports| && reports[o] == members[m].id;
    forall k | 0 <= k < |observations| && observations[k].status.memberID == members[m].id
      ensures k == o
    {
      assert reports[k] == reports[o];
    }
  }

  // ----- removing the member of a deleting Machine -----

  /** The member-ID annotation as it parses. */
  datatype Annotation = Absent | Malformed | Member(id: nat)

  datatype MachineRef = MachineRef(uid: string, deleting: bool)

  /** A patch is confirmed, takes effect without an answer, or is rejected. */
  datatype PatchResult = Confirmed | Lost | Rejected

  datatype Progress = ScaleDownPending | NotPending | IdentityInvalid

  /** A deleting Machine with the annotations the scale-down patches. */
  class DeletingMachine {
    const uid: string
    const waitingForPreTerminateHook: bool
    var deleteHook: bool
    var memberID: Annotation

    constructor (uid: string, waiting: bool, deleteHook: bool, memberID: Annotation)
      ensures this.uid == uid && this.waitingForPreTerminateHook == waiting
      ensures this.deleteHook == deleteHook && this.memberID == memberID
    {
      this.uid := uid;
      this.waitingForPreTerminateHook := waiting;
      this.deleteHook := deleteHook;
      this.memberID := memberID;
    }

    /** Releases the hook once a surviving member no longer lists the annotated one. */
    method ReconcileAnnotatedEtcdMember(machines: seq<MachineRef>, members: Option<seq<EtcdMember>>, patch: PatchResult)
      returns (annotated: bool, progress: Progress)
      modifies this
      ensures annotated <==> old(memberID) != Absent
      ensures !annotated ==> deleteHook == old(deleteHook) && memberID == old(memberID)
      ensures progress == IdentityInvalid <==> old(memberID) == Malformed || old(memberID) == Member(0)
      ensures old(memberID).Member? && old(memberID).id != 0 ==>
        (progress == ScaleDownPending <==>
          || (forall k | 0 <= k < |machines| :: machines[k].uid == uid || machines[k].deleting)
          || members.None?
          || (old(memberID).id !in ToSet(MemberIDs(members.value)) && !patch.Confirmed?))
      ensures deleteHook != old(deleteHook) || memberID != old(memberID) ==>
        && !deleteHook && memberID == Absent
        && old(memberID).Member? && old(memberID).id != 0 && members.Some? && old(memberID).id !in ToSet(MemberIDs(members.value))
        && exists k :: 0 <= k < |machines| && machines[k].uid != uid && !machines[k].deleting
      ensures !patch.Rejected? && old(memberID).Member? && old(memberID).id != 0
        && members.Some? && old(memberID).id !in ToSet(MemberIDs(members.value))
        && (exists k :: 0 <= k < |machines| && machines[k].uid != uid && !machines[k].deleting)
        ==> !deleteHook && memberID == Absent
    {
      if memberID == Absent {
        return false, NotPending;
      }
      if memberID == Malformed || memberID.id == 0 {
        return true, IdentityInvalid;
      }
      if forall k | 0 <= k < |machines| :: machines[k].uid == uid || machines[k].deleting {
        return true, ScaleDownPending;
      }
      if members.None? {
        return true, ScaleDownPending;
      }
      ContainedIDs(members.value, memberID.id);
      if !ContainsEtcdMember(members.value, memberID.id) {
        if !patch.Rejected? {
          deleteHook, memberID := false, Absent;
        }
        return true, if patch.Confirmed? then NotPending else ScaleDownPending;
      }
      return true, NotPending;
    }

    /** `observations` is None when some control-plane Machine could not be observed; `dialled` says
        that the survivor accepts the connection for the removal; `removed` is the member the RemoveEtcdMember call names,
        if one is made. */
    method ReconcileEtcdMemberRemoval(machines: seq<MachineRef>, annotatedMembers: Option<seq<EtcdMember>>,
                                      observations: Option<seq<EtcdObservation>>, survivorMembers: Option<seq<EtcdMember>>,
                                      patch: PatchResult, dialled: bool)
      returns (progress: Progress, removed: Option<nat>)
      modifies this
      ensures removed.Some? ==>
        && waitingForPreTerminateHook && dialled
        && old(memberID) == Absent && memberID == Member(removed.value) && deleteHook == old(deleteHook)
        && observations.Some? && survivorMembers.Some?
        && SoundRemoval(survivorMembers.value, observations.value, removed.value)
        && (exists k :: 0 <= k < |observations.value| && observations.value[k].machineUID == uid && observations.value[k].status.memberID == removed.value)
        && (exists k :: 0 <= k < |observations.value| && observations.value[k].machineUID != uid)
      ensures waitingForPreTerminateHook && old(memberID) == Absent && patch.Confirmed? && dialled && observations.Some? && survivorMembers.Some?
        && (exists k :: 0 <= k < |observations.value| && observations.value[k].machineUID == uid)
        && (exists k :: 0 <= k < |observations.value| && observations.value[k].machineUID != uid)
        && (forall k | 0 <= k < |observations.value| && observations.value[k].machineUID == uid ::
              SoundRemoval(survivorMembers.value, observations.value, observations.value[k].status.memberID))
        ==> removed.Some?
      ensures deleteHook ==> old(deleteHook)
      ensures old(deleteHook) && !deleteHook ==>
        && removed.None? && waitingForPreTerminateHook && memberID == Absent
        && old(memberID).Member? && old(memberID).id != 0
        && annotatedMembers.Some? && old(memberID).id !in ToSet(MemberIDs(annotatedMembers.value))
      ensures waitingForPreTerminateHook && !patch.Rejected? && old(memberID).Member? && old(memberID).id != 0
        && annotatedMembers.Some? && old(memberID).id !in ToSet(MemberIDs(annotatedMembers.value))
        && (exists k :: 0 <= k < |machines| && machines[k].uid != uid && !machines[k].deleting)
        ==> !deleteHook && memberID == Absent
      ensures memberID != old(memberID) && memberID != Absent ==>
        && waitingForPreTerminateHook && old(memberID) == Absent && observations.Some? && memberID.Member?
        && exists k :: 0 <= k < |observations.value| && observations.value[k].machineUID == uid
                       && observations.value[k].status.memberID == memberID.id
      ensures !waitingForPreTerminateHook ==> deleteHook == old(deleteHook) && memberID == old(memberID)
      ensures !waitingForPreTerminateHook || old(memberID) == Absent ==> progress == ScaleDownPending
      ensures progress == IdentityInvalid ==> old(memberID) == Malformed || old(memberID) == Member(0)
    {
      removed := None;
      if !waitingForPreTerminateHook {
        return ScaleDownPending, None;
      }
      var annotated, concluded := ReconcileAnnotatedEtcdMember(machines, annotatedMembers, patch);
      if annotated {
        return concluded, None;
      }
      if observations.None? {
        return ScaleDownPending, None;
      }
      removed := RemoveObservedMember(observations.value, survivorMembers, patch, dialled);
      return ScaleDownPending, removed;
    }

    /** Records the member of this Machine and removes it, if the gate lets it and the survivor can be dialled. */
    method RemoveObservedMember(observations: seq<EtcdObservation>, survivorMembers: Option<seq<EtcdMember>>, patch: PatchResult, dialled: bool)
      returns (removed: Option<nat>)
      modifies this`memberID
      ensures memberID == old(memberID)
        || (memberID.Member? && exists k :: 0 <= k < |observations| && observations[k].machineUID == uid
                                            && observations[k].status.memberID == memberID.id)
      ensures patch.Confirmed? && dialled && survivorMembers.Some?
        && (exists k :: 0 <= k < |observations| && observations[k].machineUID == uid)
        && (exists k :: 0 <= k < |observations| && observations[k].machineUID != uid)
        && (forall k | 0 <= k < |observations| && observations[k].machineUID == uid ::
              SoundRemoval(survivorMembers.value, observations, observations[k].status.memberID))
        ==> removed.Some?
      ensures removed.Some? ==>
        && dialled && memberID == Member(removed.value) && survivorMembers.Some?
        && SoundRemoval(survivorMembers.value, observations, removed.value)
        && (exists k :: 0 <= k < |observations| && observations[k].machineUID == uid && observations[k].status.memberID == removed.value)
        && (exists k :: 0 <= k < |observations| && observations[k].machineUID != uid)
    {
      var target, healthyMembers, unique := SummarizeEtcdObservations(observations, uid);
      if !unique || target.None? {
        return None;
      }
      var id := target.value.status.memberID;
      if !patch.Rejected? {
        memberID := Member(id);
      }
      if !patch.Confirmed? {
        return None;
      }
      if forall k | 0 <= k < |observations| :: observations[k].machineUID == uid {
        return None;
      }
      if survivorMembers.None? {
        return None;
      }
      RemovalGateMeaning(survivorMembers.value, observations, target.value);
      if !CanRemoveObservedEtcdMember(survivorMembers.value, observations, id, healthyMembers, target.value) {
        return None;
      }
      if !dialled {
        return None;
      }
      return Some(id);
    }
  }

  /** A sound removal is one step of a quorum-keeping scale-down. */
  lemma SoundRemovalIsAScaleDownStep(members: seq<EtcdMember>, observations: seq<EtcdObservation>, id: nat)
    requires SoundRemoval(members, observations, id) && id in ToSet(MemberIDs(members))
    ensures IsScaleDown([Removal(ToSet(MemberIDs(members)), HealthyIDs(observations), id)])
  {
    HealthyAreReported(observations);
    CanRemoveMemberMeaning(ToSet(MemberIDs(members)), HealthyIDs(observations), id);
  }
}

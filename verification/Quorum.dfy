/** etcd quorum arithmetic (domain/controlplane/quorum.go) and what it means for sets of members. */
module Quorum {
  import opened FiniteSets

  datatype RemovalObservation = RemovalObservation(
    memberCount: int,
    healthyMemberCount: int,
    targetHealthy: bool,
    targetHealthObserved: bool)

  function QuorumSize(memberCount: nat): nat {
    memberCount / 2 + 1
  }

  predicate CanRemoveMember(o: RemovalObservation) {
    if o.memberCount < 2 || !o.targetHealthObserved then false
    else if o.healthyMemberCount < 0 || o.healthyMemberCount > o.memberCount then false
    else if o.targetHealthy && o.healthyMemberCount == 0 then false
    else if !o.targetHealthy && o.healthyMemberCount == o.memberCount then false
    else if o.healthyMemberCount < QuorumSize(o.memberCount) then false
    else
      var remainingMembers := o.memberCount - 1;
      var remainingHealthy := if o.targetHealthy then o.healthyMemberCount - 1 else o.healthyMemberCount;
      remainingHealthy >= QuorumSize(remainingMembers)
  }

  predicate CanTemporarilyDisruptMember(o: RemovalObservation) {
    if o.memberCount < 1 || !o.targetHealthObserved || !o.targetHealthy then false
    else if o.healthyMemberCount < 0 || o.healthyMemberCount > o.memberCount then false
    else if o.memberCount == 1 then o.healthyMemberCount == 1
    else if o.healthyMemberCount < QuorumSize(o.memberCount) then false
    else o.healthyMemberCount - 1 >= QuorumSize(o.memberCount)
  }

  /** Both tests on counts alone, for every observation: an unobserved target and counts that contradict each other or the target
      are refused, and otherwise the healthy members have to be more than half, before and after the target is gone. */
  lemma CountsAreWeighed(o: RemovalObservation)
    ensures CanRemoveMember(o) <==>
      && o.targetHealthObserved && 2 <= o.memberCount && 0 <= o.healthyMemberCount <= o.memberCount
      && (if o.targetHealthy then o.healthyMemberCount > 0 else o.healthyMemberCount < o.memberCount)
      && 2 * o.healthyMemberCount > o.memberCount
      && 2 * (o.healthyMemberCount - if o.targetHealthy then 1 else 0) > o.memberCount - 1
    ensures CanTemporarilyDisruptMember(o) <==>
      && o.targetHealthObserved && o.targetHealthy && 1 <= o.memberCount && o.healthyMemberCount <= o.memberCount
      && (if o.memberCount == 1 then o.healthyMemberCount == 1 else 2 * (o.healthyMemberCount - 1) > o.memberCount)
  {
  }

  /** More than half of `members` belong to `group`. */
  ghost predicate IsMajority<T(!new)>(group: set<T>, members: set<T>) {
    2 * |group * members| > |members|
  }

  /** The observation a caller builds from a membership, its healthy part and a target. */
  ghost function ObservationOf<T(!new)>(members: set<T>, healthy: set<T>, target: T): RemovalObservation {
    RemovalObservation(|members|, |healthy|, target in healthy, true)
  }

  /** The counting test decides exactly this about the sets: before and after the removal
      the healthy members are a majority, and a member remains. */
  lemma CanRemoveMemberMeaning<T(!new)>(members: set<T>, healthy: set<T>, target: T)
    requires healthy <= members && target in members
    ensures CanRemoveMember(ObservationOf(members, healthy, target))
      <==> |members| >= 2 && IsMajority(healthy, members) && IsMajority(healthy - {target}, members - {target})
  {
    assert healthy * members == healthy;
    assert (healthy - {target}) * (members - {target}) == healthy - {target};
    SubsetSize(healthy, members);
  }

  /** Restarting a healthy member is allowed exactly when it is alone, or when the other healthy members are still a majority of all members. */
  lemma CanTemporarilyDisruptMeaning<T(!new)>(members: set<T>, healthy: set<T>, target: T)
    requires healthy <= members && target in members
    ensures CanTemporarilyDisruptMember(ObservationOf(members, healthy, target))
      <==> target in healthy && (|members| == 1 || IsMajority(healthy - {target}, members))
  {
    assert (healthy - {target}) * members == healthy - {target};
    SubsetSize(healthy, members);
    if |members| == 1 {
      SubsetSize(healthy, members);
      SubsetSize({target}, members);
    }
  }

  /** A majority before the removal of one member and a majority after it always share a member. */
  lemma MajoritiesAcrossRemovalIntersect<T(!new)>(members: set<T>, target: T, before: set<T>, after: set<T>)
    requires target in members
    requires before <= members && IsMajority(before, members)
    requires after <= members - {target} && IsMajority(after, members - {target})
    ensures before * after != {}
  {
    assert before * members == before;
    assert after * (members - {target}) == after;
    LargeSubsetsIntersect(before, after, members);
  }

  // ----- whole scale-downs -----

  /** One removal: the membership it was decided on, the members observed healthy, and the member removed. */
  datatype Removal<T> = Removal(members: set<T>, healthy: set<T>, target: T)

  /** A scale-down: each removal passed the counting test on the membership the previous one left. */
  ghost predicate IsScaleDown<T(!new)>(removals: seq<Removal<T>>) {
    && (forall k | 0 <= k < |removals| ::
          && removals[k].healthy <= removals[k].members
          && removals[k].target in removals[k].members
          && CanRemoveMember(ObservationOf(removals[k].members, removals[k].healthy, removals[k].target)))
    && forall k | 0 < k < |removals| :: Follows(removals, k)
  }

  ghost predicate Follows<T(!new)>(removals: seq<Removal<T>>, k: int)
    requires 0 < k < |removals|
  {
    removals[k].members == removals[k - 1].members - {removals[k - 1].target}
  }

  /** Throughout a scale-down the healthy members are a majority before and after each removal, one member goes at a time,
      and any majority of one membership meets any majority of the next one. */
  lemma ScaleDownKeepsQuorum<T(!new)>(removals: seq<Removal<T>>, k: nat, before: set<T>, after: set<T>)
    requires IsScaleDown(removals) && k < |removals|
    ensures var r := removals[k];
      var rest := r.members - {r.target};
      && IsMajority(r.healthy, r.members)
      && IsMajority(r.healthy, rest)
      && |rest| == |removals[0].members| - k - 1 >= 1
      && (before <= r.members && IsMajority(before, r.members) && after <= rest && IsMajority(after, rest) ==> before * after != {})
    decreases k
  {
    var r := removals[k];
    var rest := r.members - {r.target};
    CanRemoveMemberMeaning(r.members, r.healthy, r.target);
    assert (r.healthy - {r.target}) * rest == r.healthy * rest;
    if before <= r.members && IsMajority(before, r.members) && after <= rest && IsMajority(after, rest) {
      MajoritiesAcrossRemovalIntersect(r.members, r.target, before, after);
    }
    if k > 0 {
      ScaleDownKeepsQuorum(removals, k - 1, {}, {});
      assert Follows(removals, k);
    }
  }

  /** With every member healthy the test never refuses a removal that leaves a member. */
  lemma HealthyScaleDownIsNeverRefused<T(!new)>(members: set<T>, target: T)
    requires target in members && |members| >= 2
    ensures CanRemoveMember(ObservationOf(members, members, target))
  {
  }
}

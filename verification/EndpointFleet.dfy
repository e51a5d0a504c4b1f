/** The controllers that move the machines of a cluster to a new control-plane endpoint, with every other controller
    interleaved (controller/tartmachine/configuration_update.go). */
module EndpointFleet {
  import opened Certificates
  import opened ChangeClassification
  import opened EndpointRollout
  import opened Names
  import opened Wrappers

  lemma ReportsStaySeen(r: Rollout, run: seq<State>, k: nat, longer: seq<State>, m: nat, i: nat)
    requires run <= longer && k < |run| && k <= m < |longer| && i < |r.members| && GateOpen(r, run, k, i)
    ensures GateOpen(r, longer, m, i)
  {
    forall c | 0 <= c < |r.members| && r.Precedes(c, i)
      ensures SeenConverged(r, longer, m, c)
    {
      StaysSeen(r, run, k, longer, m, c);
    }
  }

  lemma StaysSeen(r: Rollout, run: seq<State>, k: nat, longer: seq<State>, m: nat, c: nat)
    requires run <= longer && k < |run| && k <= m < |longer| && SeenConverged(r, run, k, c)
    ensures SeenConverged(r, longer, m, c)
  {
    var h, j :| 0 <= j <= k && 0 <= h <= j && ReadyAt(run, h, c) && ReportedAt(r, run, j, c);
    assert ReadyAt(longer, h, c) && ReportedAt(r, longer, j, c);
  }

  lemma StepsStaySteps(r: Rollout, run: seq<State>, events: seq<Event>, state: State, event: Event)
    requires IsRun(r, run, events) && Enabled(r, run, |run| - 1, event) && state == Successor(r, run, |run| - 1, event)
    ensures IsRun(r, run + [state], events + [event])
  {
    var longer, log := run + [state], events + [event];
    forall k | 0 <= k < |log|
      ensures StepAt(r, longer, log, k)
    {
      assert k < |events| ==> StepAt(r, run, events, k);
      if log[k].Apply? && GateOpen(r, run, k, log[k].machine) {
        ReportsStaySeen(r, run, k, longer, k, log[k].machine);
      }
    }
  }

  /** The verdict on `c` is what the listed Machine and one later state of its provider object say. */
  ghost predicate Judged(r: Rollout, run: seq<State>, listing: int, c: int, converged: bool)
    requires 0 <= listing < |run|
  {
    exists j | listing <= j < |run| && 0 <= c < |run[j]| && c < |run[listing]| ::
      converged == (run[listing][c].ready && run[j][c].observed == r.endpoint && run[j][c].upToDate)
  }

  lemma VerdictsStay(r: Rollout, run: seq<State>, longer: seq<State>, listing: nat, c: int, converged: bool)
    requires run <= longer && listing < |run| && Judged(r, run, listing, c, converged)
    ensures Judged(r, longer, listing, c, converged)
  {
    var j :| listing <= j < |run| && 0 <= c < |run[j]| && c < |run[listing]|
             && converged == (run[listing][c].ready && run[j][c].observed == r.endpoint && run[j][c].upToDate);
    assert longer[j] == run[j] && longer[listing] == run[listing];
  }

  lemma ConvergedIsSeen(r: Rollout, run: seq<State>, listing: nat, c: int)
    requires listing < |run| && Judged(r, run, listing, c, true)
    ensures SeenConverged(r, run, |run| - 1, c)
  {
    var j :| listing <= j < |run| && 0 <= c < |run[j]| && c < |run[listing]|
             && run[listing][c].ready && run[j][c].observed == r.endpoint && run[j][c].upToDate;
    assert ReadyAt(run, listing, c) && ReportedAt(r, run, j, c);
  }

  /** Why the gate is closed for `target` although everything could be read: the request names nothing, there is no control
      plane, `target` is a control plane that is not listed, or one before it was seen not converged. */
  ghost predicate GateClosed(r: Rollout, run: seq<State>, listing: int, target: int)
    requires 0 <= listing < |run| && 0 <= target < |r.members|
  {
    || r.cluster == "" || r.endpoint == ""
    || (forall c | 0 <= c < |r.members| :: !IsControlPlane(r, c))
    || (r.members[target].controlPlane && !IsControlPlane(r, target))
    || exists c | 0 <= c < |r.members| && GoesBefore(r, c, target) :: Judged(r, run, listing, c, false)
  }

  /** A configuration that no update to `desired` may start from. */
  ghost predicate Unfit(r: Rollout, run: seq<State>, k: int, i: int, desired: Bytes)
    requires 0 <= k < |run|
  {
    && 0 <= i < |run[k]|
    && var active := run[k][i].active;
    && (EndpointOf(r.lib, active).None? || !Classifiable(r.lib, active, desired) || Refused(r.lib, active, desired))
  }

  // ----- the order the gate walks through -----

  predicate NoneBefore(r: Rollout, s: seq<nat>, c: nat) {
    c < |r.members| && forall x | x in s :: x < |r.members| && !Before(r.members[x].name, r.members[c].name)
  }

  predicate SortedByName(r: Rollout, s: seq<nat>) {
    s == [] || (NoneBefore(r, s, s[0]) && SortedByName(r, s[1..]))
  }

  function Insert(r: Rollout, sorted: seq<nat>, c: nat): (s: seq<nat>)
    requires c < |r.members| && SortedByName(r, sorted)
    ensures forall x :: x in s <==> x == c || x in sorted
  {
    if sorted == [] then [c]
    else if Before(r.members[c].name, r.members[sorted[0]].name) then [c] + sorted
    else [sorted[0]] + Insert(r, sorted[1..], c)
  }

  lemma {:induction false} InsertKeepsOrder(r: Rollout, sorted: seq<nat>, c: nat)
    requires c < |r.members| && SortedByName(r, sorted)
    ensures SortedByName(r, Insert(r, sorted, c))
  {
    var s := Insert(r, sorted, c);
    BeforeIsTotal(r.members[c].name, r.members[c].name);
    if sorted != [] {
      BeforeIsTotal(r.members[c].name, r.members[sorted[0]].name);
      if Before(r.members[c].name, r.members[sorted[0]].name) {
        forall x | x in sorted
          ensures x < |r.members| && !Before(r.members[x].name, r.members[c].name)
        {
          if Before(r.members[x].name, r.members[c].name) {
            BeforeIsTransitive(r.members[x].name, r.members[c].name, r.members[sorted[0]].name);
          }
        }
        assert s[1..] == sorted;
      } else {
        InsertKeepsOrder(r, sorted[1..], c);
        assert s[1..] == Insert(r, sorted[1..], c);
      }
    }
  }

  lemma {:induction false} SortedSuffix(r: Rollout, sorted: seq<nat>, p: nat)
    requires SortedByName(r, sorted) && p < |sorted|
    ensures NoneBefore(r, sorted[p..], sorted[p])
  {
    if p > 0 {
      SortedSuffix(r, sorted[1..], p - 1);
      assert sorted[1..][p - 1..] == sorted[p..];
    }
  }

  lemma PrecedingComesFirst(r: Rollout, sorted: seq<nat>, p: nat, c: nat)
    requires SortedByName(r, sorted) && p < |sorted| && c in sorted
    requires c < |r.members| && sorted[p] < |r.members| && Before(r.members[c].name, r.members[sorted[p]].name)
    ensures c in sorted[..p]
  {
    SortedSuffix(r, sorted, p);
    assert sorted == sorted[..p] + sorted[p..];
  }

  predicate SameMachine(r: Rollout, i: nat, j: nat) {
    i < |r.members| && j < |r.members| && r.members[i].uid == r.members[j].uid
  }

  lemma SameMachineMeansEqual(r: Rollout, i: nat, j: nat)
    requires r.Valid() && i < |r.members| && j < |r.members|
    ensures SameMachine(r, i, j) || r.members[i].name == r.members[j].name ==> i == j
  {
    var low, high := if i < j then i else j, if i < j then j else i;
    assert low < high ==> r.members[low].name != r.members[high].name && r.members[low].uid != r.members[high].uid;
  }

  /** A control plane the walk reaches before the target precedes it by name. */
  lemma ReachedBeforeTheTarget(r: Rollout, sorted: seq<nat>, p: nat, target: nat)
    requires r.Valid() && SortedByName(r, sorted) && p < |sorted| && target < |r.members| && target in sorted
    requires forall q | 0 <= q <= p :: sorted[q] != target
    requires sorted[p] < |r.members|
    ensures Before(r.members[sorted[p]].name, r.members[target].name)
  {
    var t :| 0 <= t < |sorted| && sorted[t] == target;
    SortedSuffix(r, sorted, p);
    assert sorted[p..][t - p] == target;
    BeforeIsTotal(r.members[sorted[p]].name, r.members[target].name);
    SameMachineMeansEqual(r, sorted[p], target);
  }

  lemma JustRefusal(r: Rollout, sorted: seq<nat>, stopped: nat, target: nat)
    requires r.Valid() && target < |r.members| && SortedByName(r, sorted) && stopped < |sorted|
    requires forall c :: c in sorted <==> 0 <= c < |r.members| && r.Ordered(c)
    requires r.members[target].controlPlane ==>
      r.Ordered(target) && forall q | 0 <= q <= stopped :: sorted[q] < |r.members| && !SameMachine(r, sorted[q], target)
    ensures sorted[stopped] < |r.members| && r.Precedes(sorted[stopped], target)
  {
    assert sorted[stopped] in sorted;
    if r.members[target].controlPlane {
      ReachedBeforeTheTarget(r, sorted, stopped, target);
    }
  }

  lemma RefusalClosesTheGate(r: Rollout, run: seq<State>, listing: nat, sorted: seq<nat>, stopped: nat, target: nat)
    requires r.Valid() && target < |r.members| && SortedByName(r, sorted) && stopped < |sorted| && listing < |run|
    requires forall c :: c in sorted <==> 0 <= c < |r.members| && r.Ordered(c)
    requires r.members[target].controlPlane ==>
      forall q | 0 <= q <= stopped :: sorted[q] < |r.members| && !SameMachine(r, sorted[q], target)
    requires Judged(r, run, listing, sorted[stopped], false)
    ensures GateClosed(r, run, listing, target)
  {
    if r.members[target].controlPlane ==> r.Ordered(target) {
      JustRefusal(r, sorted, stopped, target);
      assert GoesBefore(r, sorted[stopped], target);
    }
  }

  lemma TargetIsReached(r: Rollout, sorted: seq<nat>, target: nat)
    requires target < |r.members|
    requires forall c :: c in sorted <==> 0 <= c < |r.members| && r.Ordered(c)
    requires forall q | 0 <= q < |sorted| :: sorted[q] < |r.members| && !SameMachine(r, sorted[q], target)
    ensures !r.Ordered(target) && !IsControlPlane(r, target)
  {
  }

  lemma WalkOpensTheGate(r: Rollout, run: seq<State>, listing: nat, sorted: seq<nat>, stopped: nat, target: nat)
    requires r.Valid() && run != [] && target < |r.members| && SortedByName(r, sorted) && sorted != [] && stopped <= |sorted|
    requires forall c :: c in sorted <==> 0 <= c < |r.members| && r.Ordered(c)
    requires listing < |run| && forall q | 0 <= q < stopped :: Judged(r, run, listing, sorted[q], true)
    requires if r.members[target].controlPlane
      then stopped < |sorted| && sorted[stopped] < |r.members| && SameMachine(r, sorted[stopped], target)
      else stopped == |sorted|
    ensures GateOpen(r, run, |run| - 1, target)
    ensures forall c | 0 <= c < |r.members| && GoesBefore(r, c, target) :: Judged(r, run, listing, c, true)
  {
    assert sorted[0] in sorted;
    if stopped < |sorted| {
      SameMachineMeansEqual(r, sorted[stopped], target);
      assert sorted[stopped] in sorted;
    }
    forall c | 0 <= c < |r.members| && r.Precedes(c, target)
      ensures Judged(r, run, listing, c, true) && SeenConverged(r, run, |run| - 1, c)
    {
      if stopped < |sorted| {
        PrecedingComesFirst(r, sorted, stopped, c);
      }
      assert c in sorted[..stopped];
      ConvergedIsSeen(r, run, listing, c);
    }
    assert forall c | 0 <= c < |r.members| :: r.Precedes(c, target) <==> GoesBefore(r, c, target);
  }

  datatype Outcome = UpToDate | Waiting | Updated

  class Fleet {
    const rollout: Rollout
    /** Whether the remote call with this number succeeds, and says yes if it asks a question. */
    const answers: nat -> bool
    var calls: nat
    /** How many of the calls asked for the endpoint lease. */
    var leaseRequests: nat
    var run: seq<State>
    var events: seq<Event>

    ghost predicate Valid()
      reads this
    {
      IsRun(rollout, run, events) && |run[|run| - 1]| == |rollout.members|
    }

    /** Every call from number `from` on was answered. */
    ghost predicate Answered(from: nat)
      reads this
    {
      forall k | from <= k < calls :: answers(k)
    }

    constructor (rollout: Rollout, answers: nat -> bool, state: State)
      requires rollout.Valid() && |state| == |rollout.members| && forall i | 0 <= i < |state| :: Untouched(rollout, state[i])
      ensures Valid() && this.rollout == rollout && this.answers == answers && calls == leaseRequests == 0 && run == [state] && events == []
    {
      this.rollout := rollout;
      this.answers := answers;
      calls, leaseRequests := 0, 0;
      run, events := [state], [];
    }

    method Call() returns (ok: bool)
      modifies this`calls
      ensures calls == old(calls) + 1 && ok == answers(old(calls))
      ensures !ok ==> !Answered(old(calls))
    {
      ok := answers(calls);
      calls := calls + 1;
    }

    method AcquireEndpointLease() returns (leased: bool)
      modifies this`calls, this`leaseRequests
      ensures calls == old(calls) + 1 && leased == answers(old(calls)) && leaseRequests == old(leaseRequests) + 1
    {
      leaseRequests := leaseRequests + 1;
      leased := Call();
    }

    method Perform(event: Event)
      requires Valid() && Enabled(rollout, run, |run| - 1, event)
      modifies this`run, this`events
      ensures Valid() && old(run) <= run && events == old(events) + [event]
    {
      var state := Successor(rollout, run, |run| - 1, event);
      StepsStaySteps(rollout, run, events, state, event);
      run, events := run + [state], events + [event];
    }

    method IsEnabled(event: Event) returns (enabled: bool)
      requires Valid()
      ensures enabled <==> Enabled(rollout, run, |run| - 1, event)
    {
      var k := |run| - 1;
      if event.machine >= |rollout.members| || (event.Report? && !SeenActive(run, k, event.seen, event.machine)) {
        return false;
      }
      if !event.Apply? {
        return true;
      }
      if !(SeenActive(run, k, event.first, event.machine) && SeenActive(run, k, event.second, event.machine)
           && event.first <= event.second && rollout.OnNewEndpoint(event.desired)) {
        return false;
      }
      var first := ClassifyConfigurationChange(rollout.lib, First(run, event), event.desired);
      var second := ClassifyConfigurationChange(rollout.lib, Second(run, event), event.desired);
      if EndpointOf(rollout.lib, First(run, event)).None? || first.None? || second.None?
         || !(second.value.Updatable? || second.value.ControlPlaneEndpoint?) {
        return false;
      }
      assert GateIsAsked(rollout, run, k, event) <==> first.value.ControlPlaneEndpoint? && second.value.ControlPlaneEndpoint?;
      return first.value.ControlPlaneEndpoint? && second.value.ControlPlaneEndpoint? ==> GateOpen(rollout, run, k, event.machine);
    }

    /** Every other controller and every node: boots, status reports and gated updates. */
    method Interfere()
      requires Valid()
      modifies this`run, this`events
      ensures Valid() && old(run) <= run && old(events) <= events
    {
      var steps: nat := *;
      while steps > 0
        invariant Valid() && old(run) <= run && old(events) <= events
      {
        var event: Event := *;
        var enabled := IsEnabled(event);
        if enabled {
          Perform(event);
        }
        steps := steps - 1;
      }
    }

    /** The control planes of the cluster, by name. */
    method ListControlPlanes() returns (sorted: seq<nat>)
      ensures forall c :: c in sorted <==>
        && 0 <= c < |rollout.members|
        && rollout.members[c].clusterLabel == rollout.cluster && rollout.members[c].cluster == rollout.cluster
        && rollout.members[c].controlPlane && !rollout.members[c].deleting
      ensures forall p, q | 0 <= p < q < |sorted| ::
        sorted[p] < |rollout.members| && sorted[q] < |rollout.members|
        && !Before(rollout.members[sorted[q]].name, rollout.members[sorted[p]].name)
      ensures SortedByName(rollout, sorted)
    {
      sorted := [];
      for c := 0 to |rollout.members|
        invariant forall x :: x in sorted <==> 0 <= x < c && rollout.Ordered(x)
        invariant SortedByName(rollout, sorted)
      {
        if rollout.Ordered(c) {
          InsertKeepsOrder(rollout, sorted, c);
          sorted := Insert(rollout, sorted, c);
        }
      }
      forall p, q | 0 <= p < q < |sorted|
        ensures sorted[p] < |rollout.members| && sorted[q] < |rollout.members|
                && !Before(rollout.members[sorted[q]].name, rollout.members[sorted[p]].name)
      {
        SortedSuffix(rollout, sorted, p);
        assert sorted[p..][q - p] == sorted[q] && sorted[p] in sorted && sorted[q] in sorted;
      }
    }

    /** `ready` comes from the listing, the rest from a later read of the provider object, which may fail. Converged means that
        the listed Machine was Ready and that the object, when it was read, named the new endpoint and was up to date. */
    method MachineEndpointConverged(c: nat, ghost listing: nat, ready: bool) returns (converged: bool, failed: bool)
      requires Valid() && c < |rollout.members| && listing < |run| && c < |run[listing]| && ready == run[listing][c].ready
      modifies this`run, this`events, this`calls
      ensures Valid() && old(run) <= run && old(events) <= events && old(calls) <= calls
      ensures failed <==> !Answered(old(calls))
      ensures if failed then !converged else Judged(rollout, run, listing, c, converged)
    {
      ghost var before := run;
      if !ready {
        assert run[listing][c].ready == ready;
        return false, false;
      }
      Interfere();
      var reached := Call();
      if !reached {
        return false, true;
      }
      assert run[listing] == before[listing];
      converged := Reported(run[|run| - 1][c], rollout.endpoint);
      assert converged == (run[listing][c].ready && run[|run| - 1][c].observed == rollout.endpoint && run[|run| - 1][c].upToDate);
      return converged, false;
    }

    /** Visits the control planes in order up to the target, or all of them for a worker, until one is not converged. */
    method Walk(sorted: seq<nat>, ghost listing: nat, snapshot: State, target: nat) returns (stopped: nat, refused: bool, failed: bool)
      requires Valid() && target < |rollout.members| && forall q | 0 <= q < |sorted| :: sorted[q] < |rollout.members|
      requires listing < |run| && snapshot == run[listing] && |snapshot| == |rollout.members|
      modifies this`run, this`events, this`calls
      ensures Valid() && old(run) <= run && old(events) <= events && old(calls) <= calls && stopped <= |sorted|
      ensures forall q | 0 <= q < stopped ::
        Judged(rollout, run, listing, sorted[q], true) && (rollout.members[target].controlPlane ==> !SameMachine(rollout, sorted[q], target))
      ensures refused ==>
        && stopped < |sorted| && (rollout.members[target].controlPlane ==> !SameMachine(rollout, sorted[stopped], target))
        && (failed || Judged(rollout, run, listing, sorted[stopped], false))
      ensures (failed <==> !Answered(old(calls))) && (failed ==> refused)
      ensures !refused ==>
        stopped == |sorted| || (rollout.members[target].controlPlane && SameMachine(rollout, sorted[stopped], target))
    {
      stopped, refused, failed := 0, false, false;
      while stopped < |sorted|
        invariant stopped <= |sorted|
        invariant Valid() && old(run) <= run && old(events) <= events && old(calls) <= calls && Answered(old(calls))
        invariant forall q | 0 <= q < stopped ::
          Judged(rollout, run, listing, sorted[q], true) && (rollout.members[target].controlPlane ==> !SameMachine(rollout, sorted[q], target))
      {
        var c := sorted[stopped];
        if rollout.members[target].controlPlane && SameMachine(rollout, c, target) {
          return;
        }
        ghost var before := run;
        var converged, unread := MachineEndpointConverged(c, listing, snapshot[c].ready);
        forall q | 0 <= q < stopped
          ensures Judged(rollout, run, listing, sorted[q], true)
        {
          VerdictsStay(rollout, before, run, listing, sorted[q], true);
        }
        if !converged {
          return stopped, true, unread;
        }
        stopped := stopped + 1;
      }
    }

    /** An open gate has seen every machine before the target converged, in its own listing and later. A closed one either
        could not read something or has one of the reasons of GateClosed. */
    method EndpointUpdateGate(target: nat) returns (allowed: bool, failed: bool, ghost listing: nat)
      requires Valid() && target < |rollout.members|
      modifies this`run, this`events, this`calls
      ensures Valid() && old(run) <= run && old(events) <= events && old(calls) <= calls && |old(run)| <= listing + 1 <= |run|
      ensures allowed ==> GateOpen(rollout, run, |run| - 1, target)
      ensures allowed ==>
        forall c | 0 <= c < |rollout.members| && GoesBefore(rollout, c, target) :: Judged(rollout, run, listing, c, true)
      ensures rollout.cluster == "" || rollout.endpoint == "" ==> !allowed && !failed && calls == old(calls)
      ensures (failed <==> !Answered(old(calls))) && (failed ==> !allowed)
      ensures !allowed && !failed ==> GateClosed(rollout, run, listing, target)
    {
      listing := |run| - 1;
      if rollout.cluster == "" || rollout.endpoint == "" {
        return false, false, listing;
      }
      Interfere();
      listing := |run| - 1;
      var listed := Call();
      if !listed {
        return false, true, listing;
      }
      allowed, failed := GateOfListing(listing, run[|run| - 1], target);
    }

    /** The gate, once the Machines have been listed as `snapshot`. */
    method GateOfListing(ghost listing: nat, snapshot: State, target: nat) returns (allowed: bool, failed: bool)
      requires Valid() && target < |rollout.members|
      requires listing < |run| && snapshot == run[listing] && |snapshot| == |rollout.members|
      modifies this`run, this`events, this`calls
      ensures Valid() && old(run) <= run && old(events) <= events && old(calls) <= calls
      ensures allowed ==> GateOpen(rollout, run, |run| - 1, target)
      ensures allowed ==>
        forall c | 0 <= c < |rollout.members| && GoesBefore(rollout, c, target) :: Judged(rollout, run, listing, c, true)
      ensures (failed <==> !Answered(old(calls))) && (failed ==> !allowed)
      ensures !allowed && !failed ==> GateClosed(rollout, run, listing, target)
    {
      var sorted := ListControlPlanes();
      if sorted == [] {
        return false, false;
      }
      assert forall q | 0 <= q < |sorted| :: sorted[q] in sorted;
      var stopped, refused, unread := Walk(sorted, listing, snapshot, target);
      if refused {
        if !unread {
          RefusalClosesTheGate(rollout, run, listing, sorted, stopped, target);
        }
        return false, unread;
      }
      if rollout.members[target].controlPlane && stopped == |sorted| {
        TargetIsReached(rollout, sorted, target);
        return false, false;
      }
      WalkOpensTheGate(rollout, run, listing, sorted, stopped, target);
      return true, false;
    }

    /** Since state `from` machine `i` ran a configuration that no update may start from. */
    ghost predicate UnfitSince(from: nat, i: nat, desired: Bytes)
      reads this
    {
      exists k | from <= k < |run| :: Unfit(rollout, run, k, i, desired)
    }

    ghost predicate ClosedSince(from: nat, i: nat)
      requires i < |rollout.members|
      reads this
    {
      exists k | from <= k < |run| :: GateClosed(rollout, run, k, i)
    }

    /** PerformConfigurationUpdate: reads and classifies once more. The gate is asked only if this class and that of the
        caller's read (`endpointClass`) are both ControlPlaneEndpoint. It waits only for an answer, for a configuration that an
        update may start from, or for the gate. */
    method PerformConfigurationUpdate(i: nat, desired: Bytes, first: nat, endpointClass: bool) returns (outcome: Outcome)
      requires Valid() && i < |rollout.members| && rollout.OnNewEndpoint(desired)
      requires first < |run| && i < |run[first]| && EndpointOf(rollout.lib, run[first][i].active).Some?
      requires Classifiable(rollout.lib, run[first][i].active, desired)
      requires endpointClass <==> EndpointChange(rollout.lib, run[first][i].active, desired)
      modifies this`run, this`events, this`calls
      ensures Valid() && old(run) <= run && old(events) <= events && old(calls) <= calls
      ensures outcome.Waiting? ==>
        !Answered(old(calls)) || UnfitSince(|old(run)| - 1, i, desired) || (endpointClass && ClosedSince(|old(run)| - 1, i))
      ensures !Answered(old(calls)) ==> outcome.Waiting?
      ensures outcome.Updated? ==> exists k | |old(events)| <= k < |events| :: IsUpdateOf(events[k], i, desired, first)
      ensures outcome.UpToDate? ==> exists k | |old(run)| - 1 <= k < |run| :: RunsTheEndpoint(rollout, run, k, i)
    {
      Interfere();
      var reached := Call();
      if !reached {
        return Waiting;
      }
      var second := |run| - 1;
      var active := run[second][i].active;
      var change := ClassifyConfigurationChange(rollout.lib, active, desired);
      if change.None? || change.value.ConflictingInvariant? || change.value.ReprovisionRequired? {
        assert Unfit(rollout, run, second, i, desired);
        return Waiting;
      }
      if change.value.NoChange? {
        var recovered := Call();
        assert RunsTheEndpoint(rollout, run, second, i);
        return if recovered then UpToDate else Waiting;
      }
      outcome := ApplyWhenAllowed(i, desired, first, second, endpointClass && change.value.ControlPlaneEndpoint?);
    }

    /** The rest of the update: the gate if it is asked, then the application. */
    method ApplyWhenAllowed(i: nat, desired: Bytes, first: nat, second: nat, asked: bool) returns (outcome: Outcome)
      requires Valid() && i < |rollout.members| && first <= second < |run|
      requires Reads(rollout, run, |run| - 1, Apply(i, first, second, desired, false))
      requires asked <==> GateIsAsked(rollout, run, |run| - 1, Apply(i, first, second, desired, false))
      modifies this`run, this`events, this`calls
      ensures Valid() && old(run) <= run && old(events) <= events && old(calls) <= calls
      ensures outcome.Waiting? ==> !Answered(old(calls)) || (asked && ClosedSince(|old(run)| - 1, i))
      ensures !Answered(old(calls)) ==> outcome.Waiting?
      ensures outcome.Updated? ==> exists k | |old(events)| <= k < |events| :: IsUpdateOf(events[k], i, desired, first)
      ensures !outcome.UpToDate?
    {
      if asked {
        var allowed, _, _ := EndpointUpdateGate(i);
        if !allowed {
          return Waiting;
        }
      }
      outcome := ApplyNext(i, desired, first, second, asked);
    }

    /** The application itself, some time after the gate has opened if it was asked. */
    method ApplyNext(i: nat, desired: Bytes, first: nat, second: nat, asked: bool) returns (outcome: Outcome)
      requires Valid() && i < |rollout.members| && first <= second < |run|
      requires Reads(rollout, run, |run| - 1, Apply(i, first, second, desired, false))
      requires asked <==> GateIsAsked(rollout, run, |run| - 1, Apply(i, first, second, desired, false))
      requires asked ==> GateOpen(rollout, run, |run| - 1, i)
      modifies this`run, this`events, this`calls
      ensures Valid() && old(run) <= run && old(events) <= events && calls == old(calls) + 1
      ensures outcome == if answers(old(calls)) then Updated else Waiting
      ensures outcome.Updated? ==> exists k | |old(events)| <= k < |events| :: IsUpdateOf(events[k], i, desired, first)
    {
      ghost var before := run;
      Interfere();
      var staged: bool := *;
      var proceed := Call();
      if !proceed {
        return Waiting;
      }
      if asked {
        ReportsStaySeen(rollout, before, |before| - 1, run, |run| - 1, i);
      }
      Perform(Apply(i, first, second, desired, staged));
      assert IsUpdateOf(events[|events| - 1], i, desired, first);
      return Updated;
    }

    /** One pass for machine `i`. The class of this read decides about the lease and, handed on, about the gate; a class that
        refuses the change does not end the pass. `pending` says that the configuration had not been up to date before. */
    method ReconcileMachineConfiguration(i: nat, desired: Bytes, pending: bool) returns (outcome: Outcome)
      requires Valid() && i < |rollout.members| && rollout.OnNewEndpoint(desired)
      modifies this`run, this`events, this`calls, this`leaseRequests
      ensures old(leaseRequests) <= leaseRequests <= old(leaseRequests) + 1
      ensures Valid() && old(run) <= run && old(events) <= events && old(calls) <= calls
      ensures outcome.Waiting? ==>
        !Answered(old(calls)) || UnfitSince(|old(run)| - 1, i, desired) || ClosedSince(|old(run)| - 1, i)
      ensures !Answered(old(calls)) ==> outcome.Waiting?
      ensures outcome.Updated? ==>
        exists k, first | |old(events)| <= k < |events| && |old(run)| - 1 <= first < |run| && i < |run[first]| ::
          && IsUpdateOf(events[k], i, desired, first)
          && (leaseRequests > old(leaseRequests) <==> EndpointChange(rollout.lib, run[first][i].active, desired))
      ensures outcome.UpToDate? ==> exists k | |old(run)| - 1 <= k < |run| :: RunsTheEndpoint(rollout, run, k, i)
    {
      Interfere();
      var reached := Call();
      if !reached {
        return Waiting;
      }
      var first := |run| - 1;
      var active := run[first][i].active;
      if EndpointOf(rollout.lib, active).None? || rollout.lib.digest(active).None? || rollout.lib.digest(desired).None? {
        assert Unfit(rollout, run, first, i, desired);
        return Waiting;
      }
      var identical: bool := *;
      if identical && rollout.lib.digest(active) == rollout.lib.digest(desired) && !pending {
        assert RunsTheEndpoint(rollout, run, first, i);
        return UpToDate;
      }
      outcome := UpdateFrom(i, desired, first, identical && rollout.lib.digest(active) == rollout.lib.digest(desired));
    }

    /** The update of a machine whose read at `first` named an endpoint and was either identical or has to be classified. */
    method UpdateFrom(i: nat, desired: Bytes, first: nat, identical: bool) returns (outcome: Outcome)
      requires Valid() && i < |rollout.members| && rollout.OnNewEndpoint(desired) && first == |run| - 1
      requires EndpointOf(rollout.lib, run[first][i].active).Some? && rollout.lib.digest(desired).Some?
      requires rollout.lib.digest(run[first][i].active).Some?
      requires identical ==> rollout.lib.digest(run[first][i].active) == rollout.lib.digest(desired)
      modifies this`run, this`events, this`calls, this`leaseRequests
      ensures leaseRequests == old(leaseRequests) + if EndpointChange(rollout.lib, old(run)[first][i].active, desired) then 1 else 0
      ensures Valid() && old(run) <= run && old(events) <= events && old(calls) <= calls
      ensures outcome.Waiting? ==> !Answered(old(calls)) || UnfitSince(first, i, desired) || ClosedSince(first, i)
      ensures !Answered(old(calls)) ==> outcome.Waiting?
      ensures outcome.Updated? ==> exists k | |old(events)| <= k < |events| :: IsUpdateOf(events[k], i, desired, first)
      ensures outcome.UpToDate? ==> exists k | first <= k < |run| :: RunsTheEndpoint(rollout, run, k, i)
    {
      var endpointClass := false;
      if !identical {
        var change := ClassifyConfigurationChange(rollout.lib, run[first][i].active, desired);
        if change.None? {
          return Waiting;
        }
        endpointClass := change.value.ControlPlaneEndpoint?;
        if endpointClass {
          var leased := AcquireEndpointLease();
          if !leased {
            return Waiting;
          }
        }
      }
      Interfere();
      outcome := PerformConfigurationUpdate(i, desired, first, endpointClass);
    }
  }

  ghost predicate IsUpdateOf(event: Event, i: nat, desired: Bytes, first: nat) {
    event.Apply? && event.machine == i && event.desired == desired && event.first == first
  }

  ghost predicate RunsTheEndpoint(r: Rollout, run: seq<State>, k: int, i: nat)
    requires 0 <= k < |run|
  {
    i < |run[k]| && r.OnNewEndpoint(run[k][i].active)
  }
}

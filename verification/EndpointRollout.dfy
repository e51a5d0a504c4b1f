/** Moving a cluster's machines to a new control-plane endpoint in order
    (controller/tartmachine/configuration_update.go). */
module EndpointRollout {
  import opened Certificates
  import opened ChangeClassification
  import opened Names
  import opened StorageChange
  import opened Wrappers

  /** What does not change during a rollout: the machines of the namespace. */
  datatype Member = Member(
    name: string, uid: string, clusterLabel: string, cluster: string, controlPlane: bool, deleting: bool)

  /** The configurations a node runs and boots with, what its provider object reports of it, and whether an update to the
      new endpoint has been applied to it. */
  datatype Status = Status(active: Bytes, disk: Bytes, observed: string, upToDate: bool, ready: bool, updated: bool)

  type State = seq<Status>

  function EndpointOf(lib: Library, configuration: Bytes): Option<string> {
    var loaded := lib.load(configuration);
    if loaded.None? || loaded.value.kubernetes.None? then None else loaded.value.kubernetes.value.endpoint
  }

  /** The digest covers the whole configuration, so equal digests mean equal endpoints. */
  ghost predicate DigestsCoverTheEndpoint(lib: Library) {
    forall a, b | lib.digest(a).Some? && lib.digest(a) == lib.digest(b) && lib.load(a).Some? && lib.load(b).Some? ::
      EndpointOf(lib, a) == EndpointOf(lib, b)
  }

  /** The class of the difference is ControlPlaneEndpoint. */
  ghost predicate EndpointChange(lib: Library, active: Bytes, desired: Bytes) {
    Permitted(lib, active, desired) && EndpointOf(lib, active) != EndpointOf(lib, desired)
  }

  /** The class of the difference is ReprovisionRequired or InvariantConflict. */
  ghost predicate Refused(lib: Library, active: Bytes, desired: Bytes) {
    Classifiable(lib, active, desired) && lib.digest(active) != lib.digest(desired) && !Permitted(lib, active, desired)
  }

  datatype Rollout = Rollout(lib: Library, members: seq<Member>, cluster: string, endpoint: string)
  {
    /** The control-plane Machines the gate orders: listed by their cluster label, then filtered. */
    predicate Ordered(c: int)
      requires 0 <= c < |members|
    {
      members[c].clusterLabel == cluster && members[c].cluster == cluster && !members[c].deleting && members[c].controlPlane
    }

    predicate OnNewEndpoint(configuration: Bytes) {
      EndpointOf(lib, configuration) == Some(endpoint)
    }

    /** The API server keeps names and UIDs unique. */
    ghost predicate Valid() {
      && DigestsCoverTheEndpoint(lib)
      && forall i, j | 0 <= i < j < |members| :: members[i].name != members[j].name && members[i].uid != members[j].uid
    }

    /** `c` has to converge before `i` may be updated. */
    predicate Precedes(c: int, i: int)
      requires 0 <= c < |members| && 0 <= i < |members|
    {
      Ordered(c) && (members[i].controlPlane ==> Before(members[c].name, members[i].name))
    }
  }

  /** What the provider object says; the gate also wants the Machine to be Ready. */
  predicate Reported(status: Status, endpoint: string) {
    status.observed == endpoint && status.upToDate
  }

  /** A boot, a status report on an earlier observation, and an applied configuration that names the new endpoint. An update
      reads the active configuration twice: `first` is the read that decides about the lease and the gate, `second` the one
      the update itself is judged against. */
  datatype Event =
    | Boot(machine: nat)
    | Report(machine: nat, seen: nat, upToDate: bool, ready: bool)
    | Apply(machine: nat, first: nat, second: nat, desired: Bytes, staged: bool)

  predicate ReportedAt(r: Rollout, run: seq<State>, k: int, c: int)
    requires 0 <= k < |run|
  {
    0 <= c < |run[k]| && Reported(run[k][c], r.endpoint)
  }

  predicate ReadyAt(run: seq<State>, k: int, c: int)
    requires 0 <= k < |run|
  {
    0 <= c < |run[k]| && run[k][c].ready
  }

  /** The Machine was Ready when it was listed, and afterwards its provider object reported the new endpoint. */
  predicate SeenConverged(r: Rollout, run: seq<State>, k: int, c: int)
    requires 0 <= k < |run|
  {
    exists h, j | 0 <= j <= k && 0 <= h <= j :: ReadyAt(run, h, c) && ReportedAt(r, run, j, c)
  }

  /** What an open gate has established: each machine before this one was seen converged, up to state `k`. */
  predicate GateOpen(r: Rollout, run: seq<State>, k: int, i: int)
    requires 0 <= k < |run| && 0 <= i < |r.members|
  {
    && (r.members[i].controlPlane ==> r.Ordered(i))
    && (exists c | 0 <= c < |r.members| :: r.Ordered(c))
    && forall c | 0 <= c < |r.members| && r.Precedes(c, i) :: SeenConverged(r, run, k, c)
  }

  /** `c` is a control plane of the cluster, by its label and by its spec, and it is not being deleted. */
  ghost predicate IsControlPlane(r: Rollout, c: int)
    requires 0 <= c < |r.members|
  {
    && r.members[c].clusterLabel == r.cluster && r.members[c].cluster == r.cluster
    && r.members[c].controlPlane && !r.members[c].deleting
  }

  /** An update of `i` has to wait for the control plane `c`: `i` is a worker, or has the later name. */
  ghost predicate GoesBefore(r: Rollout, c: int, i: int)
    requires 0 <= c < |r.members| && 0 <= i < |r.members|
  {
    IsControlPlane(r, c) && (!r.members[i].controlPlane || Before(r.members[c].name, r.members[i].name))
  }

  /** The gate in terms of what the machines report: it is open for `i` exactly when there are control planes to order by, `i`
      is one of them unless it is a worker, and each one that goes before it was Ready at one moment and at that moment or later
      had its provider object name the new endpoint with an up-to-date configuration. */
  lemma GateOpenMeaning(r: Rollout, run: seq<State>, k: int, i: int)
    requires 0 <= k < |run| && 0 <= i < |r.members| && forall j | 0 <= j <= k :: |run[j]| == |r.members|
    ensures GateOpen(r, run, k, i) <==>
      && (r.members[i].controlPlane ==> IsControlPlane(r, i))
      && (exists c | 0 <= c < |r.members| :: IsControlPlane(r, c))
      && forall c | 0 <= c < |r.members| && GoesBefore(r, c, i) ::
           exists h, j | 0 <= h <= j <= k :: run[h][c].ready && run[j][c].observed == r.endpoint && run[j][c].upToDate
  {
    forall c | 0 <= c < |r.members|
      ensures SeenConverged(r, run, k, c) <==>
        exists h, j | 0 <= h <= j <= k :: run[h][c].ready && run[j][c].observed == r.endpoint && run[j][c].upToDate
    {
      if SeenConverged(r, run, k, c) {
        var h, j :| 0 <= j <= k && 0 <= h <= j && ReadyAt(run, h, c) && ReportedAt(r, run, j, c);
        assert run[h][c].ready && run[j][c].observed == r.endpoint && run[j][c].upToDate;
      }
      if h, j :| 0 <= h <= j <= k && run[h][c].ready && run[j][c].observed == r.endpoint && run[j][c].upToDate {
        assert ReadyAt(run, h, c) && ReportedAt(r, run, j, c);
      }
    }
    assert forall c | 0 <= c < |r.members| :: r.Ordered(c) <==> IsControlPlane(r, c);
    assert forall c | 0 <= c < |r.members| :: r.Precedes(c, i) <==> GoesBefore(r, c, i);
  }

  predicate SeenActive(run: seq<State>, k: int, seen: int, i: int)
    requires 0 <= k < |run|
  {
    0 <= seen <= k && 0 <= i < |run[seen]|
  }

  /** Everything an update needs besides the gate: both reads succeed, and the second one permits the change. */
  ghost predicate Reads(r: Rollout, run: seq<State>, k: int, event: Event)
    requires 0 <= k < |run| && event.Apply?
  {
    && SeenActive(run, k, event.first, event.machine) && SeenActive(run, k, event.second, event.machine)
    && event.first <= event.second
    && r.OnNewEndpoint(event.desired)
    && EndpointOf(r.lib, First(run, event)).Some? && Classifiable(r.lib, First(run, event), event.desired)
    && Permitted(r.lib, Second(run, event), event.desired)
  }

  function First(run: seq<State>, event: Event): Bytes
    requires event.Apply? && event.first < |run| && event.machine < |run[event.first]|
  {
    run[event.first][event.machine].active
  }

  function Second(run: seq<State>, event: Event): Bytes
    requires event.Apply? && event.second < |run| && event.machine < |run[event.second]|
  {
    run[event.second][event.machine].active
  }

  /** The gate is consulted only if both reads see a change of the endpoint. */
  ghost predicate GateIsAsked(r: Rollout, run: seq<State>, k: int, event: Event)
    requires 0 <= k < |run| && event.Apply? && Reads(r, run, k, event)
  {
    EndpointChange(r.lib, First(run, event), event.desired) && EndpointChange(r.lib, Second(run, event), event.desired)
  }

  /** The first read's class switches the gate off, the second one's lets the new endpoint through. */
  ghost predicate Escapes(r: Rollout, run: seq<State>, k: int, event: Event)
    requires 0 <= k < |run|
  {
    && event.Apply? && Reads(r, run, k, event)
    && Refused(r.lib, First(run, event), event.desired)
    && EndpointChange(r.lib, Second(run, event), event.desired)
  }

  /** An update passes without the gate exactly when it escapes, or when one of its reads saw the new endpoint active. */
  lemma GateIsSkippedIff(r: Rollout, run: seq<State>, k: nat, event: Event)
    requires r.Valid() && k < |run| && event.Apply? && Reads(r, run, k, event)
    ensures !GateIsAsked(r, run, k, event) <==>
      Escapes(r, run, k, event) || r.OnNewEndpoint(First(run, event)) || r.OnNewEndpoint(Second(run, event))
  {
    var first, desired := First(run, event), event.desired;
    if r.lib.digest(first) == r.lib.digest(desired) {
      assert EndpointOf(r.lib, first) == EndpointOf(r.lib, desired);
    }
  }

  ghost predicate Enabled(r: Rollout, run: seq<State>, k: int, event: Event)
    requires 0 <= k < |run|
  {
    && |run[k]| == |r.members| && event.machine < |r.members|
    && (event.Report? ==> SeenActive(run, k, event.seen, event.machine))
    && (event.Apply? ==> Reads(r, run, k, event) && (GateIsAsked(r, run, k, event) ==> GateOpen(r, run, k, event.machine)))
  }

  /** A status report names the endpoint of the configuration it observed, if that names one. */
  function Seen(r: Rollout, configuration: Bytes, before: string): string {
    var endpoint := EndpointOf(r.lib, configuration);
    if endpoint.Some? then endpoint.value else before
  }

  function Applied(status: Status, desired: Bytes, staged: bool): Status {
    if staged then status.(disk := desired, updated := true) else status.(active := desired, disk := desired, updated := true)
  }

  function Successor(r: Rollout, run: seq<State>, k: int, event: Event): State
    requires 0 <= k < |run| && Enabled(r, run, k, event)
  {
    var i := event.machine;
    var status := run[k][i];
    match event
    case Boot(_) => run[k][i := status.(active := status.disk)]
    case Report(_, seen, upToDate, ready) =>
      run[k][i := status.(observed := Seen(r, run[seen][i].active, status.observed), upToDate := upToDate, ready := ready)]
    case Apply(_, _, _, desired, staged) => run[k][i := Applied(status, desired, staged)]
  }

  ghost predicate StepAt(r: Rollout, run: seq<State>, events: seq<Event>, k: int)
    requires 0 <= k < |events| && |run| == |events| + 1
  {
    && Enabled(r, run, k, events[k])
    && var i := events[k].machine;
    && var status := run[k][i];
    && run[k + 1] == run[k][i :=
         match events[k]
         case Boot(_) => status.(active := status.disk)
         case Report(_, seen, upToDate, ready) =>
           var endpoint := EndpointOf(r.lib, run[seen][i].active);
           status.(observed := if endpoint.Some? then endpoint.value else status.observed, upToDate := upToDate, ready := ready)
         case Apply(_, _, _, desired, staged) =>
           status.(active := if staged then status.active else desired, disk := desired, updated := true)]
  }

  ghost predicate Untouched(r: Rollout, status: Status) {
    !r.OnNewEndpoint(status.active) && !r.OnNewEndpoint(status.disk) && status.observed != r.endpoint && !status.updated
  }

  ghost predicate IsRun(r: Rollout, run: seq<State>, events: seq<Event>) {
    && r.Valid() && |run| == |events| + 1 && |run[0]| == |r.members|
    && (forall i | 0 <= i < |r.members| :: Untouched(r, run[0][i]))
    && forall k | 0 <= k < |events| :: StepAt(r, run, events, k)
  }

  /** The assumption that a machine that reports the new endpoint goes on reporting it; it need not stay Ready. */
  ghost predicate Stable(r: Rollout, run: seq<State>) {
    forall k | 0 <= k < |run| - 1 :: StableAt(r, run, k)
  }

  ghost predicate StableAt(r: Rollout, run: seq<State>, k: int)
    requires 0 <= k < |run| - 1
  {
    forall c :: ReportedAt(r, run, k, c) ==> ReportedAt(r, run, k + 1, c)
  }

  lemma {:induction false} ReportStays(r: Rollout, run: seq<State>, j: nat, k: nat, c: int)
    requires Stable(r, run) && j <= k < |run| && ReportedAt(r, run, j, c)
    ensures ReportedAt(r, run, k, c)
  {
    if j < k {
      ReportStays(r, run, j, k - 1, c);
      assert StableAt(r, run, k - 1);
    }
  }

  /** Only an applied update brings the new endpoint anywhere near a machine. */
  ghost predicate Honest(r: Rollout, state: State) {
    && |state| == |r.members|
    && forall i | 0 <= i < |state| ::
         r.OnNewEndpoint(state[i].active) || r.OnNewEndpoint(state[i].disk) || state[i].observed == r.endpoint ==> state[i].updated
  }

  ghost predicate UpdatesGrow(before: State, after: State) {
    |before| == |after| && forall i | 0 <= i < |before| && before[i].updated :: after[i].updated
  }

  lemma {:induction false} RunIsHonest(r: Rollout, run: seq<State>, events: seq<Event>, n: nat)
    requires IsRun(r, run, events) && n < |run|
    ensures Honest(r, run[n])
    ensures forall j | 0 <= j <= n :: Honest(r, run[j]) && UpdatesGrow(run[j], run[n])
  {
    if n > 0 {
      RunIsHonest(r, run, events, n - 1);
      assert StepAt(r, run, events, n - 1);
      HonestStep(r, run, events, n - 1);
      forall j | 0 <= j <= n
        ensures Honest(r, run[j]) && UpdatesGrow(run[j], run[n])
      {
        if j < n {
          assert UpdatesGrow(run[j], run[n - 1]) && UpdatesGrow(run[n - 1], run[n]);
        }
      }
    } else {
      forall i | 0 <= i < |r.members|
        ensures Untouched(r, run[0][i])
      {
      }
    }
  }

  lemma HonestStep(r: Rollout, run: seq<State>, events: seq<Event>, k: nat)
    requires k < |events| && |run| == |events| + 1 && StepAt(r, run, events, k)
    requires forall j | 0 <= j <= k :: Honest(r, run[j]) && UpdatesGrow(run[j], run[k])
    ensures Honest(r, run[k + 1]) && UpdatesGrow(run[k], run[k + 1])
  {
    match events[k]
    case Boot(_) =>
    case Report(i, seen, _, _) =>
      assert Honest(r, run[seen]) && UpdatesGrow(run[seen], run[k]);
    case Apply(_, _, _, _, _) =>
  }

  /** The first update of a machine went through an open gate or escaped it. */
  lemma FirstUpdateIsGatedOrEscapes(r: Rollout, run: seq<State>, events: seq<Event>, k: nat, i: nat)
    requires IsRun(r, run, events) && i < |r.members| && FirstUpdate(run, events, k, i)
    ensures GateOpen(r, run, k, i) || Escapes(r, run, k, events[k])
  {
    assert StepAt(r, run, events, k);
    UpdateIsEnabledIff(r, run, events, k, events[k]);
  }

  ghost predicate FirstUpdate(run: seq<State>, events: seq<Event>, k: int, i: int) {
    && 0 <= k < |events| && k + 1 < |run|
    && 0 <= i < |run[k]| && i < |run[k + 1]| && !run[k][i].updated && run[k + 1][i].updated
  }

  /** For a machine that has not been updated yet, the gate and the escape are the only ways. */
  lemma UpdateIsEnabledIff(r: Rollout, run: seq<State>, events: seq<Event>, k: nat, event: Event)
    requires IsRun(r, run, events) && k < |run| && event.machine < |r.members|
    requires event.machine < |run[k]| && !run[k][event.machine].updated
    ensures event.Apply? ==>
      (Enabled(r, run, k, event) <==>
       Reads(r, run, k, event) && (GateOpen(r, run, k, event.machine) || Escapes(r, run, k, event)))
  {
    RunIsHonest(r, run, events, k);
    if event.Apply? && Reads(r, run, k, event) {
      GateIsSkippedIff(r, run, k, event);
      assert UpdatesGrow(run[event.first], run[k]) && Honest(r, run[event.first]);
      assert UpdatesGrow(run[event.second], run[k]) && Honest(r, run[event.second]);
    }
  }

  /** Every updated machine has all the machines before it on the new endpoint. */
  ghost predicate InOrder(r: Rollout, run: seq<State>, k: int)
    requires 0 <= k < |run|
  {
    forall c, i | 0 <= c < |r.members| && 0 <= i < |r.members| && i < |run[k]| && run[k][i].updated && GoesBefore(r, c, i) ::
      c < |run[k]| && run[k][c].observed == r.endpoint && run[k][c].upToDate
  }

  /** If step `k` is a first update that escapes the gate, the machines before that one report the new endpoint all the same. */
  ghost predicate HarmlessAt(r: Rollout, run: seq<State>, events: seq<Event>, k: int)
    requires 0 <= k < |events| && |run| == |events| + 1
  {
    forall c, i | 0 <= c < |r.members| && 0 <= i < |r.members| && FirstUpdate(run, events, k, i)
                  && Escapes(r, run, k, events[k]) && GoesBefore(r, c, i) ::
      ReportedAt(r, run, k + 1, c)
  }

  lemma {:induction false} HarmlessUpdatesKeepTheOrder(r: Rollout, run: seq<State>, events: seq<Event>, n: nat)
    requires IsRun(r, run, events) && Stable(r, run) && n < |run|
    requires forall k | 0 <= k < n :: HarmlessAt(r, run, events, k)
    ensures InOrder(r, run, n)
  {
    if n > 0 {
      HarmlessUpdatesKeepTheOrder(r, run, events, n - 1);
      forall c, i | 0 <= c < |r.members| && 0 <= i < |r.members| && i < |run[n]| && run[n][i].updated && GoesBefore(r, c, i)
        ensures ReportedAt(r, run, n, c)
      {
        UpdateFollowsItsPredecessors(r, run, events, n - 1, c, i);
      }
    } else {
      assert forall i | 0 <= i < |run[0]| :: Untouched(r, run[0][i]);
    }
  }

  lemma UpdateFollowsItsPredecessors(r: Rollout, run: seq<State>, events: seq<Event>, k: nat, c: nat, i: nat)
    requires IsRun(r, run, events) && Stable(r, run) && k < |events| && HarmlessAt(r, run, events, k) && InOrder(r, run, k)
    requires c < |r.members| && i < |r.members| && i < |run[k + 1]| && run[k + 1][i].updated && GoesBefore(r, c, i)
    ensures ReportedAt(r, run, k + 1, c)
  {
    assert StepAt(r, run, events, k) && StableAt(r, run, k);
    if !run[k][i].updated {
      assert FirstUpdate(run, events, k, i);
      FirstUpdateIsGatedOrEscapes(r, run, events, k, i);
      if GateOpen(r, run, k, i) {
        assert r.Precedes(c, i) && SeenConverged(r, run, k, c);
        var h, j :| 0 <= j <= k && 0 <= h <= j && ReadyAt(run, h, c) && ReportedAt(r, run, j, c);
        ReportStays(r, run, j, k + 1, c);
      }
    } else {
      assert ReportedAt(r, run, k, c);
    }
  }

  /** The order is kept throughout a run exactly when no escaping update runs ahead of a machine before it. */
  lemma OrderIsKeptIff(r: Rollout, run: seq<State>, events: seq<Event>)
    requires IsRun(r, run, events) && Stable(r, run)
    ensures (forall n | 0 <= n < |run| :: InOrder(r, run, n)) <==> (forall k | 0 <= k < |events| :: HarmlessAt(r, run, events, k))
  {
    if forall k | 0 <= k < |events| :: HarmlessAt(r, run, events, k) {
      forall n | 0 <= n < |run|
        ensures InOrder(r, run, n)
      {
        HarmlessUpdatesKeepTheOrder(r, run, events, n);
      }
    }
    if forall n | 0 <= n < |run| :: InOrder(r, run, n) {
      forall k | 0 <= k < |events|
        ensures HarmlessAt(r, run, events, k)
      {
        assert InOrder(r, run, k + 1);
      }
    }
  }

  ghost predicate NoEscape(r: Rollout, run: seq<State>, events: seq<Event>) {
    |run| == |events| + 1 && forall k | 0 <= k < |events| :: !Escapes(r, run, k, events[k])
  }

  lemma UpdatesComeInOrder(r: Rollout, run: seq<State>, events: seq<Event>, n: nat)
    requires IsRun(r, run, events) && Stable(r, run) && NoEscape(r, run, events) && n < |run|
    ensures InOrder(r, run, n)
  {
    HarmlessUpdatesKeepTheOrder(r, run, events, n);
  }

  ghost predicate InFlight(r: Rollout, state: State, i: int) {
    0 <= i < |state| && state[i].updated && !(state[i].observed == r.endpoint && state[i].upToDate)
  }

  /** The updated control planes are a prefix in name order; at most one of them, and then the last, has yet to report it. */
  lemma ControlPlanesUpdateOneByOne(r: Rollout, run: seq<State>, events: seq<Event>, n: nat, c: nat, i: nat)
    requires IsRun(r, run, events) && Stable(r, run) && NoEscape(r, run, events) && n < |run| && c < |r.members| && i < |r.members|
    requires r.Ordered(c) && r.Ordered(i) && |run[n]| == |r.members|
    ensures Before(r.members[c].name, r.members[i].name) && run[n][i].updated ==>
      run[n][c].updated && !InFlight(r, run[n], c)
    ensures InFlight(r, run[n], c) && InFlight(r, run[n], i) ==> c == i
  {
    UpdatesComeInOrder(r, run, events, n);
    RunIsHonest(r, run, events, n);
    BeforeIsTotal(r.members[c].name, r.members[i].name);
    if run[n][i].updated && GoesBefore(r, c, i) {
      assert ReportedAt(r, run, n, c);
    }
    if run[n][c].updated && GoesBefore(r, i, c) {
      assert ReportedAt(r, run, n, i);
    }
  }

  /** No worker is updated before every control plane has been updated and reports the new endpoint, and there is one. */
  lemma WorkersComeLast(r: Rollout, run: seq<State>, events: seq<Event>, n: nat, w: nat)
    requires IsRun(r, run, events) && Stable(r, run) && NoEscape(r, run, events) && n < |run| && w < |r.members| && |run[n]| == |r.members|
    requires !r.members[w].controlPlane && run[n][w].updated
    ensures forall c | 0 <= c < |r.members| && GoesBefore(r, c, w) ::
      run[n][c].updated && run[n][c].observed == r.endpoint && run[n][c].upToDate
    ensures exists c :: 0 <= c < |r.members| && r.Ordered(c)
  {
    UpdatesComeInOrder(r, run, events, n);
    RunIsHonest(r, run, events, n);
    assert Honest(r, run[n]);
    WorkersNeedAControlPlane(r, run, events, n, w);
  }

  lemma {:induction false} WorkersNeedAControlPlane(r: Rollout, run: seq<State>, events: seq<Event>, n: nat, w: nat)
    requires IsRun(r, run, events) && NoEscape(r, run, events) && n < |run| && w < |r.members| && w < |run[n]| && run[n][w].updated
    ensures exists c :: 0 <= c < |r.members| && r.Ordered(c)
  {
    RunIsHonest(r, run, events, n);
    if n > 0 {
      assert Honest(r, run[n - 1]);
      if run[n - 1][w].updated {
        WorkersNeedAControlPlane(r, run, events, n - 1, w);
      } else {
        FirstUpdateIsGatedOrEscapes(r, run, events, n - 1, w);
      }
    }
  }

  // ----- when no update can escape -----

  /** What the node will boot into restates every bound of what it runs: the two are the same, or an update to the former
      would be accepted and drops no bound that is compared only when stated. */
  ghost predicate NothingLooser(lib: Library, active: Bytes, disk: Bytes) {
    active == disk
    || (&& lib.load(active).Some? && lib.load(disk).Some? && lib.digest(active).Some?
        && var a, d := lib.load(active).value, lib.load(disk).value;
        && InvariantsAgree(lib, a, d) && a.install == d.install
        && StorageAccepted(a.documents, d.documents) && RestatesBounds(a.documents, d.documents))
  }

  lemma WhatFitsTheDiskFitsTheActive(lib: Library, active: Bytes, disk: Bytes, desired: Bytes)
    requires NothingLooser(lib, active, disk) && Permitted(lib, disk, desired)
    ensures !Refused(lib, active, desired)
  {
    if active != disk && lib.load(active).Some? && lib.digest(active).Some? {
      var a, b, d := lib.load(active).value, lib.load(disk).value, lib.load(desired).value;
      InvariantsAgreeIsAnEquivalence(lib, a, b, d);
      RestatedBoundsCarryOver(a.documents, b.documents, d.documents);
    }
  }

  /** Until the new endpoint arrives a node runs what it ran at the start or what it had staged then. */
  ghost predicate Original(r: Rollout, start: Status, status: Status) {
    && (status.active in {start.active, start.disk} || (r.OnNewEndpoint(status.active) && r.OnNewEndpoint(status.disk)))
    && (status.disk == start.disk || r.OnNewEndpoint(status.disk))
  }

  /** A node never goes back to what it ran at the start. */
  ghost predicate MovesOn(r: Rollout, start: Status, before: Status, after: Status) {
    r.OnNewEndpoint(after.active) || before.active == start.active || before.active == after.active
  }

  lemma {:induction false} NodesMoveOn(r: Rollout, run: seq<State>, events: seq<Event>, i: nat, f: nat, s: nat)
    requires IsRun(r, run, events) && i < |r.members| && f <= s < |run|
    ensures |run[0]| == |run[f]| == |run[s]| == |r.members|
    ensures Original(r, run[0][i], run[f][i]) && Original(r, run[0][i], run[s][i])
    ensures MovesOn(r, run[0][i], run[f][i], run[s][i])
    decreases s
  {
    assert Untouched(r, run[0][i]);
    if s > 0 {
      assert StepAt(r, run, events, s - 1);
      if f < s {
        NodesMoveOn(r, run, events, i, f, s - 1);
        assert MovesOn(r, run[0][i], run[s - 1][i], run[s][i]);
      } else {
        NodesMoveOn(r, run, events, i, s - 1, s - 1);
      }
    }
  }

  /** Some update that what the node runs refuses would be let through by what it will boot into. */
  ghost predicate EscapesFrom(r: Rollout, status: Status, desired: Bytes) {
    && r.OnNewEndpoint(desired) && EndpointOf(r.lib, status.active).Some?
    && Refused(r.lib, status.active, desired) && EndpointChange(r.lib, status.disk, desired)
  }

  ghost predicate IsStart(r: Rollout, start: State) {
    r.Valid() && |start| == |r.members| && forall i | 0 <= i < |start| :: Untouched(r, start[i])
  }

  /** The runs from a start have no escapes exactly when no update escapes from what is active and staged there. */
  lemma StartHasNoEscapeIff(r: Rollout, start: State)
    requires IsStart(r, start)
    ensures (forall run, events | IsRun(r, run, events) && run[0] == start :: NoEscape(r, run, events))
      <==> (forall i, d | 0 <= i < |start| :: !EscapesFrom(r, start[i], d))
  {
    forall run, events | IsRun(r, run, events) && run[0] == start && forall i, d | 0 <= i < |start| :: !EscapesFrom(r, start[i], d)
      ensures NoEscape(r, run, events)
    {
      EscapesComeFromTheStart(r, run, events);
    }
    forall i, d | 0 <= i < |start| && EscapesFrom(r, start[i], d)
      ensures exists run, events :: IsRun(r, run, events) && run[0] == start && !NoEscape(r, run, events)
    {
      var run, events := EscapeFromTheStart(r, start, i, d);
    }
  }

  lemma EscapesComeFromTheStart(r: Rollout, run: seq<State>, events: seq<Event>)
    requires IsRun(r, run, events) && forall i, d | 0 <= i < |run[0]| :: !EscapesFrom(r, run[0][i], d)
    ensures NoEscape(r, run, events)
  {
    forall k | 0 <= k < |events|
      ensures !Escapes(r, run, k, events[k])
    {
      assert StepAt(r, run, events, k);
      var event := events[k];
      if event.Apply? && Reads(r, run, k, event) {
        NodesMoveOn(r, run, events, event.machine, event.first, event.second);
        assert !EscapesFrom(r, run[0][event.machine], event.desired);
      }
    }
  }

  lemma EscapeFromTheStart(r: Rollout, start: State, i: nat, d: Bytes) returns (run: seq<State>, events: seq<Event>)
    requires IsStart(r, start) && i < |start| && EscapesFrom(r, start[i], d)
    ensures IsRun(r, run, events) && run[0] == start && !NoEscape(r, run, events)
  {
    var booted := start[i := start[i].(active := start[i].disk)];
    run := [start, booted, booted[i := Applied(booted[i], d, true)]];
    events := [Boot(i), Apply(i, 0, 1, d, true)];
    assert Reads(r, run, 1, events[1]) && Escapes(r, run, 1, events[1]);
    assert StepAt(r, run, events, 0) && StepAt(r, run, events, 1);
  }

  /** In particular a rollout that starts with nothing looser staged on any machine has no escapes, so its order is kept. */
  lemma SafeStartHasNoEscape(r: Rollout, run: seq<State>, events: seq<Event>)
    requires IsRun(r, run, events)
    requires forall i | 0 <= i < |run[0]| :: NothingLooser(r.lib, run[0][i].active, run[0][i].disk)
    ensures NoEscape(r, run, events)
  {
    forall i, d | 0 <= i < |run[0]|
      ensures !EscapesFrom(r, run[0][i], d)
    {
      if Permitted(r.lib, run[0][i].disk, d) {
        WhatFitsTheDiskFitsTheActive(r.lib, run[0][i].active, run[0][i].disk, d);
      }
    }
    EscapesComeFromTheStart(r, run, events);
  }
}

/** One reconcile of the staged CA rotation as the controller performs it, remote call by remote call
    (controller/tartcontrolplane/carotation.go). Every call may fail, the nodes may reboot or start deleting
    between any two calls, and the whole execution is shown to be a run of the rotation protocol. */
module RotationReconciler {
  import opened Wrappers
  import opened Certificates
  import opened TrustStage
  import opened TalosConfig
  import opened TrustLaws
  import opened RotationProtocol
  import opened RotationProgress

  datatype Outcome =
    | MachineUnreachable
    | MachineConfigurationUnavailable
    | CAConfigurationUnrecognized
    | MachineUnavailable
    | CATrustUpdateFailed
    | AddingAcceptedCA
    | SwitchingIssuingCA
    | RemovingAcceptedCA
    | Promote

  /** The stage a successful pass worked on, as its reported reason tells. */
  function WorkedOn(outcome: Outcome): Option<Stage> {
    match outcome
    case AddingAcceptedCA => Some(Stable)
    case SwitchingIssuingCA => Some(DualTrust)
    case RemovingAcceptedCA => Some(Cutover)
    case _ => None
  }

  method MinimumStage(seen: seq<Observation>) returns (minimum: Stage)
    requires |seen| > 0
    ensures IsMinimum(seen, minimum)
  {
    minimum := seen[0].stage;
    for i := 1 to |seen|
      invariant exists k :: 0 <= k < i && seen[k].stage == minimum
      invariant forall k | 0 <= k < i :: minimum.Ord() <= seen[k].stage.Ord()
    {
      if seen[i].stage.Ord() < minimum.Ord() {
        minimum := seen[i].stage;
      }
    }
  }

  lemma SingleCertificate(ca: Option<CertificateAndKey>)
    ensures CertificatesOf([ca]) == if ca.Some? then {ca.value.crt} else {}
  {
    assert [ca][0] == ca;
  }

  /** The configuration that adds the pending generation as accepted, or switches the issuer to it. */
  method AdvancedConfiguration(library: ConfigLibrary, rotation: Rotation, config: MachineConfig, cutover: bool) returns (result: Result<MachineConfig, ConfigError>)
    requires SetValued(library) && rotation.Valid()
    ensures result.Success? && KnownAccepted(config) ==>
      IsNextConfiguration(rotation, config, result.value, if cutover then DualTrust else Stable)
    ensures result.Failure? ==> config.kubernetesAPI.None? || !NeverFails(library)
  {
    var issuing, accepted := rotation.active, rotation.pending;
    if cutover {
      issuing, accepted := rotation.pending, rotation.active;
    }
    SingleCertificate(accepted.machine);
    SingleCertificate(accepted.kubernetesAPI);
    SingleCertificate(accepted.kubernetesAggregator);
    var updated := SetMachineCertificateAuthority(config, issuing.machine, [accepted.machine]);
    if updated.Success? {
      updated := SetKubernetesAPICertificateAuthority(library, updated.value, issuing.kubernetesAPI, [accepted.kubernetesAPI]);
    }
    if updated.Success? {
      updated := SetKubernetesAggregatorCertificateAuthority(library, updated.value, issuing.kubernetesAggregator, [accepted.kubernetesAggregator]);
    }
    return updated;
  }

  /** The configuration that trusts the pending generation alone. */
  method FinalizedConfiguration(library: ConfigLibrary, rotation: Rotation, config: MachineConfig) returns (result: Result<MachineConfig, ConfigError>)
    requires SetValued(library) && rotation.Valid()
    ensures result.Success? && KnownAccepted(config) ==> IsNextConfiguration(rotation, config, result.value, Cutover)
    ensures result.Failure? ==> config.kubernetesAPI.None? || !NeverFails(library)
  {
    var updated := SetMachineCertificateAuthority(config, rotation.pending.machine, []);
    if updated.Success? {
      updated := SetKubernetesAPICertificateAuthority(library, updated.value, rotation.pending.kubernetesAPI, []);
    }
    if updated.Success? {
      updated := SetKubernetesAggregatorCertificateAuthority(library, updated.value, rotation.pending.kubernetesAggregator, []);
    }
    return updated;
  }

  /** The configuration for the stage after `minimum`. */
  method NextConfiguration(library: ConfigLibrary, rotation: Rotation, config: MachineConfig, minimum: Stage) returns (result: Result<MachineConfig, ConfigError>)
    requires SetValued(library) && rotation.Valid() && minimum in {Stable, DualTrust, Cutover}
    ensures result.Success? && KnownAccepted(config) ==> IsNextConfiguration(rotation, config, result.value, minimum)
    ensures result.Failure? ==> config.kubernetesAPI.None? || !NeverFails(library)
  {
    if minimum == Cutover {
      result := FinalizedConfiguration(library, rotation, config);
    } else {
      result := AdvancedConfiguration(library, rotation, config, minimum == DualTrust);
    }
  }

  /** The accepted Kubernetes API authorities hold no nil entry, as in every configuration of a known stage. */
  ghost predicate KnownAccepted(config: MachineConfig) {
    config.kubernetesAPI.Some? ==> NoNil(config.kubernetesAPI.value.accepted)
  }

  ghost predicate IsObservation(r: Rotation, node: Node, i: nat, o: Observation) {
    && o.node == i && o.stage != Unknown
    && r.Stage(node.active) == o.stage
    && DialForRotation(node.active, r.active, r.pending) == Some(o.usedPending)
  }

  /** The observation still says what the node is like. */
  ghost predicate StillSo(r: Rotation, s: State, o: Observation) {
    Remaining(s, o.node) && IsObservation(r, s.nodes[o.node], o.node, o)
  }

  /** The pass has still to deal with node `i`. */
  ghost predicate Concerns(phase: Phase, i: nat) {
    match phase
    case Observing(_, _, _) => true
    case Advancing(_, seen, next) => StillIn(seen, next, i)
    case Holding(_, seen, next, _) => StillIn(seen, next, i)
    case _ => false
  }

  ghost predicate StillIn(seen: seq<Observation>, next: nat, i: nat) {
    exists k | next <= k < |seen| :: seen[k].node == i
  }

  /** What an undisturbed pass can rely on: nothing it has still to deal with has changed. */
  ghost predicate AsSeen(r: Rotation, s: State) {
    match s.phase
    case Observing(listed, seen, _) =>
      && (forall i: nat | i in listed && i < |s.nodes| :: !s.nodes[i].deleting)
      && (forall k | 0 <= k < |seen| :: StillSo(r, s, seen[k]))
    case Advancing(_, seen, next) => forall k | next <= k < |seen| :: StillSo(r, s, seen[k])
    case Holding(_, seen, next, _) => forall k | next <= k < |seen| :: StillSo(r, s, seen[k])
    case _ => true
  }

  /** Between two states of the same phase a node that the pass had still to deal with has changed: it took a staged
      configuration into use, or it started deleting. */
  ghost predicate Disturbs(s: State, t: State) {
    && t.phase == s.phase && |t.nodes| == |s.nodes|
    && exists i: nat | i < |s.nodes| :: t.nodes[i] != s.nodes[i] && Concerns(s.phase, i)
  }

  ghost predicate DisturbedAt(run: seq<State>, k: int)
    requires 0 < k < |run|
  {
    Disturbs(run[k - 1], run[k])
  }

  /** After the state at `from`, nothing in `run` disturbs the pass. */
  ghost predicate Undisturbed(run: seq<State>, from: nat) {
    forall k | from < k < |run| :: !DisturbedAt(run, k)
  }

  lemma UndisturbedExtension(run: seq<State>, t: State, from: nat)
    requires from < |run| && Undisturbed(run + [t], from)
    ensures Undisturbed(run, from) && !Disturbs(run[|run| - 1], t)
  {
    var longer := run + [t];
    forall k | from < k < |run|
      ensures !DisturbedAt(run, k)
    {
      assert !DisturbedAt(longer, k);
    }
    assert !DisturbedAt(longer, |run|);
  }

  lemma NodeChangeKeepsAsSeen(r: Rotation, s: State, i: nat, node: Node)
    requires AsSeen(r, s) && i < |s.nodes|
    ensures var t := s.(nodes := s.nodes[i := node]); Disturbs(s, t) || AsSeen(r, t)
  {
    var t := s.(nodes := s.nodes[i := node]);
    if Concerns(s.phase, i) && node != s.nodes[i] {
      assert t.nodes[i] != s.nodes[i];
    } else if node == s.nodes[i] {
      assert t.nodes == s.nodes;
    }
  }

  lemma StepKeepsAsSeen(r: Rotation, s: State, action: Action, t: State)
    requires r.Valid() && Step(r, s, action, t) && AsSeen(r, s) && !Disturbs(s, t)
    ensures AsSeen(r, t)
  {
    match action
    case TakeEffect(i) => NodeChangeKeepsAsSeen(r, s, i, t.nodes[i]);
    case StartDeleting(i) => NodeChangeKeepsAsSeen(r, s, i, t.nodes[i]);
    case Apply(updated) => StagingKeepsAsSeen(r, s, s.phase.seen[s.phase.next].node, updated);
    case _ =>
  }

  /** Whatever the pass has still to deal with is as it was when it was seen, unless something disturbed it. */
  lemma {:induction false} UndisturbedIsAsSeen(r: Rotation, run: seq<State>, from: nat, to: nat)
    requires r.Valid() && IsRun(r, run) && from <= to < |run|
    requires BetweenPasses(run[from].phase) && Undisturbed(run, from)
    ensures AsSeen(r, run[to])
  {
    if from < to {
      UndisturbedIsAsSeen(r, run, from, to - 1);
      UndisturbedStepKeepsAsSeen(r, run, to);
    }
  }

  lemma UndisturbedStepKeepsAsSeen(r: Rotation, run: seq<State>, k: nat)
    requires r.Valid() && IsRun(r, run) && 0 < k < |run| && AsSeen(r, run[k - 1]) && !DisturbedAt(run, k)
    ensures AsSeen(r, run[k])
  {
    assert StepAt(r, run, k);
    var action :| Step(r, run[k - 1], action, run[k]);
    StepKeepsAsSeen(r, run[k - 1], action, run[k]);
  }

  /** The nodes seen at `minimum`, in the order they were seen. */
  ghost function NodesAt(seen: seq<Observation>, minimum: Stage): seq<nat> {
    if seen == [] then []
    else NodesAt(seen[..|seen| - 1], minimum) + if seen[|seen| - 1].stage == minimum then [seen[|seen| - 1].node] else []
  }

  lemma NodesAtGrows(seen: seq<Observation>, minimum: Stage, i: nat)
    requires i < |seen|
    ensures NodesAt(seen[..i + 1], minimum) == NodesAt(seen[..i], minimum) + if seen[i].stage == minimum then [seen[i].node] else []
  {
    assert seen[..i + 1][..i] == seen[..i];
  }

  lemma StagingKeepsAsSeen(r: Rotation, s: State, i: nat, config: MachineConfig)
    requires AsSeen(r, s) && i < |s.nodes| && s.phase.Holding?
    ensures AsSeen(r, State(s.nodes[i := s.nodes[i].(staged := Some(config))], Advancing(s.phase.minimum, s.phase.seen, s.phase.next + 1)))
  {
  }

  class Reconciler {
    const rotation: Rotation
    const library: ConfigLibrary
    /** Whether the remote call with this number is answered. A call without an answer may still have had its effect. */
    const answers: nat -> bool
    var nodes: seq<Node>
    /** The number of remote calls made so far. */
    var calls: nat
    ghost var phase: Phase
    ghost var history: seq<State>
    /** The nodes asked to reboot, in order. */
    ghost var requested: seq<nat>
    /** Where the reconcile under way began, in `answers` and in `history`. */
    ghost var firstCall: nat
    ghost var firstState: nat

    ghost predicate Valid()
      reads this
    {
      && rotation.Valid()
      && SetValued(library)
      && IsRun(rotation, history)
      && Initial(rotation, history[0])
      && history[|history| - 1] == State(nodes, phase)
      && firstState < |history| && BetweenPasses(history[firstState].phase)
    }

    /** What this reconcile may give up for: an unanswered call, a node it had still to deal with that rebooted or started
        deleting, or an error of the configuration library. */
    ghost predicate Excused()
      reads this
    {
      || !Answered(firstCall)
      || !Undisturbed(history, firstState)
      || !NeverFails(library)
    }

    /** Every remote call from number `from` on was answered. */
    ghost predicate Answered(from: nat)
      reads this
    {
      forall k | from <= k < calls :: answers(k)
    }

    lemma RelyOnWhatWasSeen()
      requires Valid()
      ensures Excused() || AsSeen(rotation, State(nodes, phase))
    {
      if !Excused() {
        UndisturbedIsAsSeen(rotation, history, firstState, |history| - 1);
      }
    }

    constructor (rotation: Rotation, library: ConfigLibrary, answers: nat -> bool, nodes: seq<Node>)
      requires rotation.Valid() && SetValued(library) && Initial(rotation, State(nodes, Idle))
      ensures Valid() && this.rotation == rotation && this.library == library && this.answers == answers
      ensures this.nodes == nodes && phase == Idle && calls == 0 && requested == [] && history == [State(nodes, Idle)]
    {
      this.rotation := rotation;
      this.library := library;
      this.answers := answers;
      this.nodes := nodes;
      calls := 0;
      phase := Idle;
      history := [State(nodes, Idle)];
      requested := [];
      firstCall, firstState := 0, 0;
    }

    /** Appends the protocol step that has just been performed. */
    ghost method Record(action: Action, next: Phase)
      requires rotation.Valid() && SetValued(library) && IsRun(rotation, history) && Initial(rotation, history[0])
      requires Step(rotation, history[|history| - 1], action, State(nodes, next))
      requires firstState < |history| && BetweenPasses(history[firstState].phase)
      modifies this`phase, this`history
      ensures Valid() && phase == next && history == old(history) + [State(nodes, next)]
      ensures old(Excused()) ==> Excused()
    {
      RunExtends(rotation, history, action, State(nodes, next));
      if Undisturbed(history + [State(nodes, next)], firstState) {
        UndisturbedExtension(history, State(nodes, next), firstState);
      }
      phase := next;
      history := history + [State(nodes, next)];
    }

    // ----- the environment -----

    /** One remote call, answered as `answers` says. */
    method Call() returns (ok: bool)
      requires Valid()
      modifies this`calls
      ensures Valid() && calls == old(calls) + 1 && ok == answers(old(calls))
      ensures !ok && firstCall <= old(calls) ==> Excused()
    {
      ok := answers(calls);
      calls := calls + 1;
    }

    /** What the rest of the world may do between two calls: any number of reboots and deletions. */
    method Interfere()
      requires Valid()
      modifies this`nodes, this`phase, this`history
      ensures Valid() && phase == old(phase) && |nodes| == |old(nodes)| && old(history) <= history
    {
      var steps: nat := *;
      while steps > 0
        invariant Valid() && phase == old(phase) && |nodes| == |old(nodes)| && old(history) <= history
      {
        var i: int := *;
        var deletes: bool := *;
        if 0 <= i < |nodes| && deletes {
          Change(i, nodes[i].(deleting := true), StartDeleting(i));
        } else if 0 <= i < |nodes| && nodes[i].staged.Some? {
          Change(i, nodes[i].(active := nodes[i].staged.value, staged := None), TakeEffect(i));
        }
        steps := steps - 1;
      }
    }

    /** Node `i` becomes `node` by a step of the environment. */
    method Change(i: nat, node: Node, ghost action: Action)
      requires Valid() && i < |nodes|
      requires Step(rotation, State(nodes, phase), action, State(nodes[i := node], phase))
      modifies this`nodes, this`phase, this`history
      ensures Valid() && phase == old(phase) && nodes == old(nodes)[i := node]
      ensures history == old(history) + [State(nodes, phase)]
    {
      nodes := nodes[i := node];
      Record(action, phase);
    }

    /** Dials node `i` with the pending bundle, then with the active one; None when neither gets an answer. */
    method Dial(i: nat) returns (dial: Option<bool>)
      requires Valid() && i < |nodes|
      modifies this`calls
      ensures Valid() && calls == old(calls) + 1
      ensures dial == if answers(old(calls)) then DialForRotation(nodes[i].active, rotation.active, rotation.pending) else None
      ensures !answers(old(calls)) && firstCall <= old(calls) ==> Excused()
    {
      var ok := Call();
      dial := if ok then DialForRotation(nodes[i].active, rotation.active, rotation.pending) else None;
    }

    /** Dials node `i` with one bundle. */
    method Login(bundle: CertBundle, i: nat) returns (ok: bool)
      requires Valid() && i < |nodes|
      modifies this`calls
      ensures Valid() && calls == old(calls) + 1
      ensures ok <==> answers(old(calls)) && Authenticates(bundle, nodes[i].active)
      ensures !answers(old(calls)) && firstCall <= old(calls) ==> Excused()
    {
      ok := Call();
      ok := ok && Authenticates(bundle, nodes[i].active);
    }

    /** Reads the active configuration of node `i`. */
    method Read(i: nat) returns (configuration: Option<MachineConfig>)
      requires Valid() && i < |nodes|
      modifies this`calls
      ensures Valid() && calls == old(calls) + 1
      ensures configuration == if answers(old(calls)) then Some(nodes[i].active) else None
      ensures configuration.None? && firstCall <= old(calls) ==> Excused()
    {
      var ok := Call();
      configuration := if ok then Some(nodes[i].active) else None;
    }

    /** Asks node `i` to reboot. The reboot itself is up to the node, which may also reboot without being asked. */
    method RequestReboot(i: nat) returns (ok: bool)
      requires Valid()
      modifies this`calls, this`requested
      ensures Valid() && requested == old(requested) + [i]
      ensures calls == old(calls) + 1 && ok == answers(old(calls))
      ensures !ok && firstCall <= old(calls) ==> Excused()
    {
      requested := requested + [i];
      ok := Call();
    }

    // ----- the controller -----

    /** Gives up the pass after an error. */
    ghost method Halt()
      requires Valid()
      modifies this`phase, this`history
      ensures Valid() && phase == Idle && history == old(history) + [State(nodes, Idle)]
      ensures old(Excused()) ==> Excused()
    {
      Record(Stop, Idle);
    }

    /** Observes every listed Machine. A Machine that cannot be reached, read or classified stops the pass, which takes an excuse. */
    method ObserveNodes() returns (seen: seq<Observation>, halted: Option<Outcome>)
      requires Valid() && BetweenPasses(phase)
      modifies this`nodes, this`phase, this`history, this`calls, this`firstCall, this`firstState
      ensures Valid() && old(history) <= history && |nodes| == |old(nodes)| && old(calls) <= calls
      ensures firstCall == old(calls) && firstState == |old(history)| - 1
      ensures halted.None? ==> phase.Observing? && phase.seen == seen && phase.next == |nodes| && Answered(old(calls))
      ensures halted.None? && seen == [] ==> NotDeleting(old(nodes)) == {}
      ensures halted.Some? ==> phase.Idle? && IsObservationFailure(halted.value)
      ensures halted.Some? ==>
        || !Answered(old(calls))
        || !Undisturbed(history, |old(history)| - 1)
        || !NeverFails(library)
    {
      firstCall, firstState := calls, |history| - 1;
      var listed := NotDeleting(nodes);
      Record(Begin, Observing(listed, [], 0));
      seen := [];
      for i := 0 to |nodes|
        invariant Valid() && old(history) <= history && |nodes| == |old(nodes)| && old(calls) <= calls
        invariant phase == Observing(listed, seen, i)
        invariant firstCall == old(calls) && firstState == |old(history)| - 1 && Answered(old(calls))
        invariant seen == [] ==> forall j: nat | j < i :: j !in listed
      {
        seen, halted := ObserveNext(listed, seen, i);
        if halted.Some? {
          return;
        }
      }
      return seen, None;
    }

    method ObserveNext(listed: set<nat>, seen: seq<Observation>, i: nat) returns (longer: seq<Observation>, failure: Option<Outcome>)
      requires Valid() && i < |nodes| && phase == Observing(listed, seen, i) && firstCall <= calls
      modifies this`nodes, this`phase, this`history, this`calls
      ensures Valid() && old(history) <= history && |nodes| == |old(nodes)| && old(calls) <= calls
      ensures failure.None? ==> phase == Observing(listed, longer, i + 1) && Answered(old(calls))
      ensures failure.None? && longer == [] ==> seen == [] && i !in listed
      ensures failure.Some? ==> phase.Idle? && Excused() && IsObservationFailure(failure.value)
    {
      Interfere();
      if i !in listed {
        Record(SkipDeleting, Observing(listed, seen, i + 1));
        return seen, None;
      }
      var observation, failed := ObserveNode(i);
      if failed.Some? {
        return seen, failed;
      }
      longer := seen + [observation.value];
      Record(Action.Observe, Observing(listed, longer, i + 1));
      return longer, None;
    }

    /** Looks the node's Host up, dials it and reads its configuration. */
    method ObserveNode(i: nat) returns (observation: Option<Observation>, failure: Option<Outcome>)
      requires Valid() && phase.Observing? && phase.next == i < |nodes| && i in phase.listed && firstCall <= calls
      modifies this`phase, this`history, this`calls
      ensures Valid() && old(history) <= history && old(calls) <= calls
      ensures failure.None? ==>
        && phase == old(phase) && history == old(history) && observation.Some?
        && IsObservation(rotation, nodes[i], i, observation.value) && Answered(old(calls)) && calls == old(calls) + 3
      ensures failure.Some? ==> phase.Idle? && Excused() && IsObservationFailure(failure.value)
    {
      observation := None;
      var identified := Call();
      if !identified {
        Halt();
        return observation, Some(MachineUnavailable);
      }
      observation, failure := InspectNode(i);
    }

    method InspectNode(i: nat) returns (observation: Option<Observation>, failure: Option<Outcome>)
      requires Valid() && phase.Observing? && phase.next == i < |nodes| && i in phase.listed && firstCall <= calls
      modifies this`phase, this`history, this`calls
      ensures Valid() && old(history) <= history && old(calls) <= calls
      ensures failure.None? ==>
        && phase == old(phase) && history == old(history) && observation.Some?
        && IsObservation(rotation, nodes[i], i, observation.value) && Answered(old(calls)) && calls == old(calls) + 2
      ensures failure.Some? ==> phase.Idle? && Excused() && IsObservationFailure(failure.value)
    {
      RelyOnWhatWasSeen();
      if !nodes[i].deleting {
        RemainingIsObservable(rotation, history, i);
      }
      observation := None;
      var dial := Dial(i);
      if dial.None? {
        Halt();
        return observation, Some(MachineUnreachable);
      }
      var configuration := Read(i);
      if configuration.None? {
        Halt();
        return observation, Some(MachineConfigurationUnavailable);
      }
      var stage := ObserveCATrustStage(configuration.value, rotation.active, rotation.pending);
      if stage.Failure? || stage.value == Unknown {
        Halt();
        return observation, Some(CAConfigurationUnrecognized);
      }
      return Some(Observation(i, dial.value, stage.value)), None;
    }

    /** Logs in with the observed bundle and reads the active configuration. */
    method FetchConfiguration(observation: Observation) returns (configuration: Option<MachineConfig>)
      requires Valid() && phase.Advancing? && phase.next < |phase.seen| && phase.seen[phase.next] == observation
      requires observation.stage == phase.minimum && observation.node < |nodes| && firstCall <= calls
      modifies this`phase, this`history, this`calls
      ensures Valid() && old(history) <= history && old(calls) <= calls
      ensures configuration.None? ==> phase == Idle && Excused()
      ensures configuration.Some? ==>
        phase == Holding(old(phase).minimum, old(phase).seen, old(phase).next, configuration.value)
      ensures configuration.Some? ==> Answered(old(calls)) && calls == old(calls) + 2
    {
      var bundle := if observation.usedPending then rotation.pending else rotation.active;
      ObservedBundleLogsIn(observation);
      var reachable := Login(bundle, observation.node);
      if !reachable {
        Halt();
        return None;
      }
      configuration := Read(observation.node);
      if configuration.None? {
        Halt();
        return;
      }
      Record(Fetch, Holding(phase.minimum, phase.seen, phase.next, configuration.value));
    }

    /** The bundle that logged in when the node was observed still does. */
    lemma ObservedBundleLogsIn(observation: Observation)
      requires Valid() && phase.Advancing? && phase.next < |phase.seen| && phase.seen[phase.next] == observation
      requires observation.node < |nodes|
      ensures Excused() || Authenticates(if observation.usedPending then rotation.pending else rotation.active, nodes[observation.node].active)
    {
      RelyOnWhatWasSeen();
      assert Excused() || StillSo(rotation, State(nodes, phase), observation);
    }

    /** What the held configuration becomes. */
    method HeldNextConfiguration(i: nat, configuration: MachineConfig, minimum: Stage) returns (updated: Result<MachineConfig, ConfigError>)
      requires Valid() && phase.Holding? && phase.minimum == minimum && phase.config == configuration
      requires minimum in {Stable, DualTrust, Cutover}
      requires phase.next < |phase.seen| && phase.seen[phase.next].node == i < |nodes|
      ensures updated.Success? ==> nodes[i].deleting || IsNextConfiguration(rotation, configuration, updated.value, minimum)
      ensures updated.Failure? ==> Excused()
    {
      HeldConfigurationIsKnown(rotation, history);
      RelyOnWhatWasSeen();
      assert Excused() || StillSo(rotation, State(nodes, phase), phase.seen[phase.next]);
      updated := NextConfiguration(library, rotation, configuration, minimum);
    }

    /** Stages the next configuration on the node. The Talos API may reject it, or take it and lose the answer; `staged` is
        what the node was left with by this call, and nothing else about any node changes. */
    method StageConfiguration(i: nat, configuration: MachineConfig, minimum: Stage) returns (ok: bool, ghost staged: Option<MachineConfig>)
      requires Valid() && phase.Holding? && phase.minimum == minimum && phase.config == configuration
      requires minimum in {Stable, DualTrust, Cutover} && firstCall <= calls
      requires phase.next < |phase.seen| && phase.seen[phase.next].node == i < |nodes|
      modifies this`nodes, this`phase, this`history, this`calls
      ensures Valid() && old(history) <= history && |nodes| == |old(nodes)| && old(calls) <= calls
      ensures if ok then phase == Advancing(minimum, old(phase).seen, old(phase).next + 1) else phase == Idle && Excused()
      ensures nodes == if staged.Some? then old(nodes)[i := old(nodes)[i].(staged := staged)] else old(nodes)
      ensures staged.Some? ==> old(nodes)[i].deleting || IsNextConfiguration(rotation, configuration, staged.value, minimum)
      ensures ok ==> Answered(old(calls)) && staged.Some? && history == old(history) + [State(nodes, phase)]
      ensures !ok && staged.None? ==> history == old(history) + [State(nodes, Idle)]
      ensures !ok && staged.Some? ==>
        history == old(history) + [State(nodes, Advancing(minimum, old(phase).seen, old(phase).next + 1)), State(nodes, Idle)]
    {
      var updated := HeldNextConfiguration(i, configuration, minimum);
      staged := None;
      if updated.Failure? {
        Halt();
        return false, staged;
      }
      ok := Call();
      var taken: bool := *;
      if ok || taken {
        TakeConfiguration(i, updated.value, minimum);
        staged := Some(updated.value);
      }
      if !ok {
        Halt();
      }
    }

    /** The node accepts a staged configuration. */
    method TakeConfiguration(i: nat, updated: MachineConfig, minimum: Stage)
      requires Valid() && phase.Holding? && phase.minimum == minimum
      requires phase.next < |phase.seen| && phase.seen[phase.next].node == i < |nodes|
      requires nodes[i].deleting || IsNextConfiguration(rotation, phase.config, updated, minimum)
      modifies this`nodes, this`phase, this`history
      ensures Valid() && nodes == old(nodes)[i := old(nodes)[i].(staged := Some(updated))]
      ensures phase == Advancing(minimum, old(phase).seen, old(phase).next + 1)
      ensures history == old(history) + [State(nodes, phase)]
      ensures old(Excused()) ==> Excused()
    {
      ghost var seen, next := phase.seen, phase.next;
      nodes := nodes[i := nodes[i].(staged := Some(updated))];
      Record(Apply(updated), Advancing(minimum, seen, next + 1));
    }

    /** Stages the next trust on one node and requests the reboot that loads it. */
    method AdvanceNode(observation: Observation, minimum: Stage) returns (ok: bool)
      requires Valid() && phase.Advancing? && minimum == phase.minimum && minimum in {Stable, DualTrust, Cutover}
      requires phase.next < |phase.seen| && phase.seen[phase.next] == observation && observation.stage == minimum
      requires observation.node < |nodes| && firstCall <= calls
      modifies this`nodes, this`phase, this`history, this`calls, this`requested
      ensures Valid() && old(history) <= history && |nodes| == |old(nodes)| && old(calls) <= calls
      ensures if ok then phase == Advancing(minimum, old(phase).seen, old(phase).next + 1) else phase == Idle && Excused()
      ensures requested == old(requested) + [observation.node] || (!ok && requested == old(requested))
      ensures ok ==> Answered(old(calls))
    {
      var configuration := FetchConfiguration(observation);
      if configuration.None? {
        return false;
      }
      Interfere();
      ok := StageAndReboot(observation.node, configuration.value, minimum);
    }

    method StageAndReboot(i: nat, configuration: MachineConfig, minimum: Stage) returns (ok: bool)
      requires Valid() && phase.Holding? && phase.minimum == minimum && phase.config == configuration
      requires minimum in {Stable, DualTrust, Cutover} && firstCall <= calls
      requires phase.next < |phase.seen| && phase.seen[phase.next].node == i < |nodes|
      modifies this`nodes, this`phase, this`history, this`calls, this`requested
      ensures Valid() && old(history) <= history && |nodes| == |old(nodes)| && old(calls) <= calls
      ensures if ok then phase == Advancing(minimum, old(phase).seen, old(phase).next + 1) else phase == Idle && Excused()
      ensures requested == old(requested) + [i] || (!ok && requested == old(requested))
      ensures ok ==> Answered(old(calls))
    {
      var accepted, _ := StageConfiguration(i, configuration, minimum);
      if !accepted {
        return false;
      }
      Interfere();
      ok := RequestReboot(i);
      if !ok {
        Halt();
      }
    }

    /** Advances the nodes that were seen at the minimum, in order, until one of them fails. */
    method AdvanceNodes(seen: seq<Observation>, minimum: Stage) returns (ok: bool)
      requires Valid() && phase == Advancing(minimum, seen, 0) && minimum in {Stable, DualTrust, Cutover}
      requires forall k | 0 <= k < |seen| :: seen[k].node < |nodes|
      requires firstCall <= calls
      modifies this`nodes, this`phase, this`history, this`calls, this`requested
      ensures Valid() && old(history) <= history && old(calls) <= calls
      ensures if ok then phase == Finished(minimum) && JustFinished(history, |old(history)|) else phase == Idle && Excused()
      ensures ok ==> Answered(old(calls)) && requested == old(requested) + NodesAt(seen, minimum)
      ensures ok ==> history[|history| - 2].phase == Advancing(minimum, seen, |seen|)
    {
      for i := 0 to |seen|
        invariant Valid() && old(history) <= history && |nodes| == |old(nodes)| && old(calls) <= calls
        invariant phase == Advancing(minimum, seen, i)
        invariant requested == old(requested) + NodesAt(seen[..i], minimum) && Answered(old(calls))
      {
        ok := AdvanceNext(seen, minimum, i);
        if !ok {
          return false;
        }
        NodesAtGrows(seen, minimum, i);
      }
      assert seen[..|seen|] == seen;
      FinishPass();
      return true;
    }

    /** Every node has been dealt with. */
    ghost method FinishPass()
      requires Valid() && phase.Advancing? && phase.next == |phase.seen|
      modifies this`phase, this`history
      ensures Valid() && phase == Finished(old(phase).minimum)
      ensures history == old(history) + [State(nodes, phase)] && old(history)[|old(history)| - 1].phase == old(phase)
    {
      Record(Finish, Finished(phase.minimum));
    }

    /** Turns from observing to what the smallest stage seen asks for. */
    method Choose(seen: seq<Observation>) returns (minimum: Stage)
      requires Valid() && phase.Observing? && phase.seen == seen && phase.next == |nodes| && |seen| > 0
      modifies this`phase, this`history
      ensures Valid() && old(history) <= history && |history| == |old(history)| + 1
      ensures minimum in {Stable, DualTrust, Cutover, Rotated} && forall k | 0 <= k < |seen| :: seen[k].node < |nodes|
      ensures phase == if minimum == Rotated then Promoting else Advancing(minimum, seen, 0)
    {
      minimum := MinimumStage(seen);
      SeenStagesAreKnown(rotation, history, minimum);
      Record(ChooseMinimum(minimum), if minimum == Rotated then Promoting else Advancing(minimum, seen, 0));
    }

    method AdvanceNext(seen: seq<Observation>, minimum: Stage, i: nat) returns (ok: bool)
      requires Valid() && i < |seen| && phase == Advancing(minimum, seen, i) && minimum in {Stable, DualTrust, Cutover}
      requires seen[i].node < |nodes| && firstCall <= calls
      modifies this`nodes, this`phase, this`history, this`calls, this`requested
      ensures Valid() && old(history) <= history && |nodes| == |old(nodes)| && old(calls) <= calls
      ensures if ok then phase == Advancing(minimum, seen, i + 1) else phase == Idle && Excused()
      ensures ok ==> Answered(old(calls)) && requested == old(requested) + if seen[i].stage == minimum then [seen[i].node] else []
    {
      if seen[i].stage != minimum {
        Record(SkipAhead, Advancing(minimum, seen, i + 1));
        return true;
      }
      Interfere();
      ok := AdvanceNode(seen[i], minimum);
    }

    /** One reconcile, from the observation of every Machine to staging the next trust, or to the promotion. When every call
        is answered, no node it had still to deal with reboots or starts deleting, and the library makes no error, it
        completes its pass or promotes, unless no Machine remains; what happened to earlier reconciles does not matter. */
    method ReconcileTrust() returns (outcome: Outcome)
      requires Valid() && BetweenPasses(phase)
      modifies this`nodes, this`phase, this`history, this`calls, this`requested, this`firstCall, this`firstState
      ensures Valid() && BetweenPasses(phase) && old(history) <= history && old(calls) <= calls
      ensures outcome == Promote <==> phase.Promoting?
      ensures WorkedOn(outcome).Some? ==> phase == Finished(WorkedOn(outcome).value)
      ensures WorkedOn(outcome).Some? ==> CompletesPass(history, |old(history)| - 1, |history| - 1)
      ensures WorkedOn(outcome).Some? ==>
        requested == old(requested) + NodesAt(history[|history| - 2].phase.seen, WorkedOn(outcome).value)
      ensures WorkedOn(outcome).None? && outcome != Promote ==> phase.Idle?
      ensures WorkedOn(outcome).Some? || outcome == Promote ==> Answered(old(calls))
      ensures Answered(old(calls)) && Undisturbed(history, |old(history)| - 1) && NeverFails(library) ==>
        && (WorkedOn(outcome).Some? || outcome == Promote || (outcome == MachineUnavailable && NotDeleting(old(nodes)) == {}))
        && UndisturbedCall(history, |old(history)| - 1, |history| - 1)
    {
      var seen, halted := ObserveNodes();
      if halted.Some? {
        return halted.value;
      }
      if |seen| == 0 {
        Halt();
        return MachineUnavailable;
      }
      outcome := ActOn(seen);
    }

    /** Takes the smallest stage seen and advances the nodes at it, or promotes. */
    method ActOn(seen: seq<Observation>) returns (outcome: Outcome)
      requires Valid() && phase.Observing? && phase.seen == seen && phase.next == |nodes| && |seen| > 0 && firstCall <= calls
      modifies this`nodes, this`phase, this`history, this`calls, this`requested
      ensures Valid() && BetweenPasses(phase) && old(history) <= history && old(calls) <= calls
      ensures outcome == Promote <==> phase.Promoting?
      ensures WorkedOn(outcome).Some? ==> phase == Finished(WorkedOn(outcome).value) && JustFinished(history, |old(history)|)
      ensures WorkedOn(outcome).Some? ==>
        requested == old(requested) + NodesAt(history[|history| - 2].phase.seen, WorkedOn(outcome).value)
      ensures WorkedOn(outcome).Some? || outcome == Promote ==> Answered(old(calls))
      ensures WorkedOn(outcome).None? && outcome != Promote ==> phase.Idle? && Excused() && outcome == CATrustUpdateFailed
    {
      var minimum := Choose(seen);
      if minimum == Rotated {
        return Promote;
      }
      var ok := AdvanceNodes(seen, minimum);
      if !ok {
        return CATrustUpdateFailed;
      }
      return if minimum == Stable then AddingAcceptedCA else if minimum == DualTrust then SwitchingIssuingCA else RemovingAcceptedCA;
    }
  }

  /** What the observation of the nodes can stop with. */
  ghost predicate IsObservationFailure(outcome: Outcome) {
    outcome in {MachineUnavailable, MachineUnreachable, MachineConfigurationUnavailable, CAConfigurationUnrecognized}
  }

  /** The last step finished a pass, and was made after the first `from` states. */
  ghost predicate JustFinished(run: seq<State>, from: nat) {
    && from < |run|
    && |run| >= 2 && run[|run| - 2].phase.Advancing? && run[|run| - 1].phase.Finished?
  }

  /** A node that is not being deleted can always be dialled and classified. */
  lemma RemainingIsObservable(r: Rotation, run: seq<State>, i: nat)
    requires r.Valid() && IsRun(r, run) && Initial(r, run[0]) && Remaining(run[|run| - 1], i)
    ensures var config := run[|run| - 1].nodes[i].active;
      r.Stage(config) != Unknown && DialForRotation(config, r.active, r.pending).Some?
  {
    var level := RunStaysWithinLevel(r, run);
    assert NodeWithin(r, run[|run| - 1].nodes[i], level);
    WithinLevelIsSafe(r, run[|run| - 1], level);
  }

  lemma RunExtends(r: Rotation, run: seq<State>, action: Action, t: State)
    requires r.Valid() && IsRun(r, run) && Step(r, run[|run| - 1], action, t)
    ensures IsRun(r, run + [t])
  {
    var longer := run + [t];
    forall k | 0 < k < |longer|
      ensures StepAt(r, longer, k)
    {
      if k < |run| {
        assert StepAt(r, run, k);
      }
    }
  }

  /** A configuration held for a node that is not being deleted has a known stage, so no nil accepted entry. */
  lemma HeldConfigurationIsKnown(r: Rotation, run: seq<State>)
    requires r.Valid() && IsRun(r, run) && Initial(r, run[0])
    requires run[|run| - 1].phase.Holding? && run[|run| - 1].phase.next < |run[|run| - 1].phase.seen|
    ensures var s := run[|run| - 1];
      var i := s.phase.seen[s.phase.next].node;
      i < |s.nodes| && (s.nodes[i].deleting || (KnownAccepted(s.phase.config) && s.phase.config.kubernetesAPI.Some?))
  {
    var s := run[|run| - 1];
    var level := RunStaysWithinLevel(r, run);
    if !s.nodes[s.phase.seen[s.phase.next].node].deleting {
      StageTrustSets(s.phase.config, r.active, r.pending);
    }
  }

  lemma SeenStagesAreKnown(r: Rotation, run: seq<State>, minimum: Stage)
    requires r.Valid() && IsRun(r, run) && Initial(r, run[0])
    requires var s := run[|run| - 1];
      s.phase.Observing? && s.phase.next == |s.nodes| && IsMinimum(s.phase.seen, minimum)
    ensures minimum != Unknown
    ensures var s := run[|run| - 1];
      forall k | 0 <= k < |s.phase.seen| :: s.phase.seen[k].node < |s.nodes|
  {
    var s := run[|run| - 1];
    var level := RunStaysWithinLevel(r, run);
    MinimumIsALevel(r, s, minimum, level);
    assert forall k | 0 <= k < |s.phase.seen| :: ObservationWithin(r, s.nodes, s.phase.seen[k], level);
  }

  /** Whatever failed or interfered, every moment of the controller's history was safe,
      and it only promoted when every remaining node was Rotated. */
  lemma HistoryIsSafe(reconciler: Reconciler)
    requires reconciler.Valid()
    ensures forall k | 0 <= k < |reconciler.history| :: Safe(reconciler.rotation, reconciler.history[k])
    ensures reconciler.phase.Promoting? ==>
      AllAtLeast(reconciler.rotation, State(reconciler.nodes, reconciler.phase), Rotated)
  {
    RunsAreSafe(reconciler.rotation, reconciler.history);
  }
}

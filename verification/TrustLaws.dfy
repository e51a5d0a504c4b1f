/** What the rotation stages guarantee about real configurations: setting a stage and observing it agree,
    mutual trust between nodes, and which secret bundle can log in. */
module TrustLaws {
  import opened Wrappers
  import opened Certificates
  import opened TrustStage
  import opened TalosConfig

  /** The bundle that issues in a stage, and the one that is accepted beside it. */
  ghost function IssuingFor(target: Stage, active: CertBundle, pending: CertBundle): CertBundle {
    if IssuesPending(target) then pending else active
  }

  ghost function ExtraFor(target: Stage, active: CertBundle, pending: CertBundle): Extra {
    match target
    case DualTrust => Some(pending)
    case Cutover => Some(active)
    case _ => None
  }

  /** Setting the trust of a stage and observing the result gives that stage back, on control planes and on workers. */
  lemma SetThenObserve(before: MachineConfig, after: MachineConfig, active: CertBundle, pending: CertBundle, target: Stage)
    requires Distinct(active, pending)
    requires target != Unknown
    requires IsTrustUpdate(before, after, IssuingFor(target, active, pending), ExtraFor(target, active, pending))
    ensures ObserveCATrustStage(after, active, pending) == Success(target)
  {
    CaStageMeaning(after.machine.issuing, after.machine.accepted, active.machine.value, pending.machine.value, target);
    var api := after.kubernetesAPI.value;
    if before.role.Worker? {
      WorkerCaStageMeaning(api.accepted, active.kubernetesAPI.value, pending.kubernetesAPI.value);
    } else {
      CaStageMeaning(api.issuing, api.accepted, active.kubernetesAPI.value, pending.kubernetesAPI.value, target);
      var aggregator := after.kubernetesAggregator.value;
      CaStageMeaning(aggregator.issuing, aggregator.accepted, active.kubernetesAggregator.value, pending.kubernetesAggregator.value, target);
    }
  }

  /** Trust in the Kubernetes API authority: a worker lists it explicitly, a control plane also trusts its own issuer. */
  ghost function APITrust(config: MachineConfig): set<Bytes> {
    if config.kubernetesAPI.None? then {}
    else if config.role.Worker? then AcceptedSet(config.kubernetesAPI.value.accepted)
    else Trusted(config.kubernetesAPI.value.issuing, config.kubernetesAPI.value.accepted)
  }

  /** Everything `peer` issues with is trusted by `node`. */
  ghost predicate AcceptsPeer(node: MachineConfig, peer: MachineConfig) {
    && peer.machine.issuing.Some?
    && peer.machine.issuing.value.crt in Trusted(node.machine.issuing, node.machine.accepted)
    && (peer.role.ControlPlane? ==>
          && peer.kubernetesAPI.Some?
          && peer.kubernetesAPI.value.issuing.Some?
          && peer.kubernetesAPI.value.issuing.value.crt in APITrust(node))
    && (peer.role.ControlPlane? && node.role.ControlPlane? ==>
          && peer.kubernetesAggregator.Some?
          && peer.kubernetesAggregator.value.issuing.Some?
          && node.kubernetesAggregator.Some?
          && peer.kubernetesAggregator.value.issuing.value.crt in Trusted(node.kubernetesAggregator.value.issuing, node.kubernetesAggregator.value.accepted))
  }

  ghost predicate Adjacent(left: Stage, right: Stage) {
    left.Ord() <= right.Ord() + 1 && right.Ord() <= left.Ord() + 1
  }

  /** The sets behind a known stage of a whole configuration. */
  lemma StageTrustSets(config: MachineConfig, active: CertBundle, pending: CertBundle)
    requires Distinct(active, pending)
    requires StageOf(config, active, pending) != Unknown
    ensures var stage := StageOf(config, active, pending);
      var issuing := IssuingFor(stage, active, pending);
      && config.kubernetesAPI.Some?
      && NoNil(config.kubernetesAPI.value.accepted)
      && config.machine.issuing.Some?
      && config.machine.issuing.value.crt == issuing.machine.value.crt
      && Trusted(config.machine.issuing, config.machine.accepted) == StageTrust(stage, active.machine.value.crt, pending.machine.value.crt)
      && APITrust(config) == StageTrust(stage, active.kubernetesAPI.value.crt, pending.kubernetesAPI.value.crt)
      && (config.role.ControlPlane? ==>
            && config.kubernetesAPI.value.issuing.Some?
            && config.kubernetesAPI.value.issuing.value.crt == issuing.kubernetesAPI.value.crt
            && config.kubernetesAggregator.Some?
            && config.kubernetesAggregator.value.issuing.Some?
            && config.kubernetesAggregator.value.issuing.value.crt == issuing.kubernetesAggregator.value.crt
            && Trusted(config.kubernetesAggregator.value.issuing, config.kubernetesAggregator.value.accepted)
                 == StageTrust(stage, active.kubernetesAggregator.value.crt, pending.kubernetesAggregator.value.crt))
  {
    var stage := StageOf(config, active, pending);
    CaStageMeaning(config.machine.issuing, config.machine.accepted, active.machine.value, pending.machine.value, stage);
    var api := config.kubernetesAPI.value;
    if config.role.Worker? {
      WorkerCaStageMeaning(api.accepted, active.kubernetesAPI.value, pending.kubernetesAPI.value);
    } else {
      CaStageMeaning(api.issuing, api.accepted, active.kubernetesAPI.value, pending.kubernetesAPI.value, stage);
      var aggregator := config.kubernetesAggregator.value;
      CaStageMeaning(aggregator.issuing, aggregator.accepted, active.kubernetesAggregator.value, pending.kubernetesAggregator.value, stage);
    }
  }

  /** Two nodes trust each other's issuing authorities exactly when their stages are equal or adjacent. */
  lemma MutualTrustIffAdjacent(left: MachineConfig, right: MachineConfig, active: CertBundle, pending: CertBundle)
    requires Distinct(active, pending)
    requires StageOf(left, active, pending) != Unknown
    requires StageOf(right, active, pending) != Unknown
    ensures AcceptsPeer(left, right) && AcceptsPeer(right, left)
      <==> Adjacent(StageOf(left, active, pending), StageOf(right, active, pending))
  {
    StageTrustSets(left, active, pending);
    StageTrustSets(right, active, pending);
  }

  // ----- logging in while the authorities change -----

  /** TLS in both directions: the node's server certificate chains to the bundle's CA, and the node trusts the client certificate. */
  predicate Authenticates(bundle: CertBundle, config: MachineConfig) {
    && bundle.machine.Some?
    && config.machine.issuing.Some?
    && config.machine.issuing.value.crt == bundle.machine.value.crt
    && bundle.machine.value.crt in Trusted(config.machine.issuing, config.machine.accepted)
  }

  /** The pending bundle is tried first; Some(true) says it was the one that worked. */
  function DialForRotation(config: MachineConfig, active: CertBundle, pending: CertBundle): Option<bool> {
    if Authenticates(pending, config) then Some(true)
    else if Authenticates(active, config) then Some(false)
    else None
  }

  /** In every stage exactly one bundle can log in, and the dial finds it and names the generation that issues. */
  lemma ExactlyOneBundleAuthenticates(config: MachineConfig, active: CertBundle, pending: CertBundle)
    requires Distinct(active, pending)
    requires StageOf(config, active, pending) != Unknown
    ensures Authenticates(active, config) <==> !Authenticates(pending, config)
    ensures DialForRotation(config, active, pending) == Some(IssuesPending(StageOf(config, active, pending)))
  {
    StageTrustSets(config, active, pending);
  }

  /** A node that finished one rotation is Stable for the next one. */
  lemma RotatedIsStableForTheNextRotation(config: MachineConfig, active: CertBundle, pending: CertBundle, next: CertBundle)
    requires Distinct(active, pending)
    requires Distinct(pending, next)
    requires StageOf(config, active, pending) == Rotated
    ensures StageOf(config, pending, next) == Stable
  {
    CaStageMeaning(config.machine.issuing, config.machine.accepted, active.machine.value, pending.machine.value, Rotated);
    CaStageMeaning(config.machine.issuing, config.machine.accepted, pending.machine.value, next.machine.value, Stable);
    var api := config.kubernetesAPI.value;
    if config.role.Worker? {
      WorkerCaStageMeaning(api.accepted, active.kubernetesAPI.value, pending.kubernetesAPI.value);
      WorkerCaStageMeaning(api.accepted, pending.kubernetesAPI.value, next.kubernetesAPI.value);
    } else {
      CaStageMeaning(api.issuing, api.accepted, active.kubernetesAPI.value, pending.kubernetesAPI.value, Rotated);
      CaStageMeaning(api.issuing, api.accepted, pending.kubernetesAPI.value, next.kubernetesAPI.value, Stable);
      var aggregator := config.kubernetesAggregator.value;
      CaStageMeaning(aggregator.issuing, aggregator.accepted, active.kubernetesAggregator.value, pending.kubernetesAggregator.value, Rotated);
      CaStageMeaning(aggregator.issuing, aggregator.accepted, pending.kubernetesAggregator.value, next.kubernetesAggregator.value, Stable);
    }
  }

  // ----- the merge hypothesis is needed -----

  /** A merge that keeps the accepted authorities already in the document and appends the patch's. */
  function AppendingMerge(document: Option<CAConfig>, patch: CAConfig): Result<CAConfig, ConfigError> {
    Success(CAConfig(patch.issuing, (if document.Some? then document.value.accepted else []) + patch.accepted))
  }

  /** What finalizing a control plane makes sure of whatever the merge does: the machine authority is assigned, and the two
      merged authorities issue with the pending generation. */
  ghost predicate IsFinalizing(after: MachineConfig, pending: CertBundle)
    requires pending.Complete()
  {
    && after.role.ControlPlane?
    && TrustsExactly(after.machine, pending.machine.value, None)
    && after.kubernetesAPI.Some? && SameCertificate(after.kubernetesAPI.value.issuing, pending.kubernetesAPI)
    && after.kubernetesAggregator.Some? && SameCertificate(after.kubernetesAggregator.value.issuing, pending.kubernetesAggregator)
  }

  /** An authority that trusts one certificate alone. */
  ghost predicate TrustsOnly(c: CAConfig, crt: Bytes) {
    NoNil(c.accepted) && Trusted(c.issuing, c.accepted) == {crt}
  }

  /** A finalized control plane is Rotated exactly when both merged authorities trust the pending certificate alone.
      Otherwise the authorities disagree, the node is Unknown, and the observation of the rotation stops at it. */
  lemma FinalizedStageIff(after: MachineConfig, active: CertBundle, pending: CertBundle)
    requires Distinct(active, pending) && IsFinalizing(after, pending)
    ensures var rotated := TrustsOnly(after.kubernetesAPI.value, pending.kubernetesAPI.value.crt)
                           && TrustsOnly(after.kubernetesAggregator.value, pending.kubernetesAggregator.value.crt);
      StageOf(after, active, pending) == if rotated then Rotated else Unknown
  {
    var api, aggregator := after.kubernetesAPI.value, after.kubernetesAggregator.value;
    CaStageMeaning(after.machine.issuing, after.machine.accepted, active.machine.value, pending.machine.value, Rotated);
    CaStageMeaning(api.issuing, api.accepted, active.kubernetesAPI.value, pending.kubernetesAPI.value, Rotated);
    CaStageMeaning(aggregator.issuing, aggregator.accepted, active.kubernetesAggregator.value, pending.kubernetesAggregator.value, Rotated);
  }

  /** With an appending merge finalizing a control plane at Cutover makes it Unknown. */
  lemma AppendingMergeNeverFinalizes(before: MachineConfig, after: MachineConfig, active: CertBundle, pending: CertBundle)
    requires Distinct(active, pending) && before.role.ControlPlane? && StageOf(before, active, pending) == Cutover
    requires after.role == before.role && TrustsExactly(after.machine, pending.machine.value, None)
    requires after.kubernetesAPI.Some?
      && AppendingMerge(before.kubernetesAPI, CAConfig(pending.kubernetesAPI, [])) == Success(after.kubernetesAPI.value)
    requires after.kubernetesAggregator.Some?
      && AppendingMerge(before.kubernetesAggregator, CAConfig(pending.kubernetesAggregator, [])) == Success(after.kubernetesAggregator.value)
    ensures ObserveCATrustStage(after, active, pending) == Success(Unknown)
  {
    var api := before.kubernetesAPI.value;
    assert api.accepted + [] == api.accepted;
    CaStageMeaning(api.issuing, api.accepted, active.kubernetesAPI.value, pending.kubernetesAPI.value, Cutover);
    assert active.kubernetesAPI.value.crt in Trusted(api.issuing, api.accepted);
    FinalizedStageIff(after, active, pending);
  }
}

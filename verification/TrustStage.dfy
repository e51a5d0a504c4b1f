/** Classification of a node's CA trust into rotation stages (domain/controlplane/rotation.go). */
module TrustStage {
  import opened Wrappers
  import opened Certificates

  datatype Stage = Stable | DualTrust | Cutover | Rotated | Unknown
  {
    /** The source's iota value, which orders the stages. */
    function Ord(): (n: nat)
      ensures n <= 4
      ensures n == 4 <==> this == Unknown
    {
      match this
      case Stable => 0
      case DualTrust => 1
      case Cutover => 2
      case Rotated => 3
      case Unknown => 4
    }
  }

  predicate AcceptedCertificatesKnown(accepted: seq<Option<Bytes>>, active: Option<CertificateAndKey>, pending: Option<CertificateAndKey>) {
    forall k | 0 <= k < |accepted| ::
      && accepted[k].Some?
      && ((active.Some? && accepted[k].value == active.value.crt) || (pending.Some? && accepted[k].value == pending.value.crt))
  }

  predicate SameCertificate(observed: Option<CertificateAndKey>, expected: Option<CertificateAndKey>) {
    observed.Some? && expected.Some? && observed.value.crt == expected.value.crt
  }

  predicate ContainsAcceptedCertificate(accepted: seq<Option<Bytes>>, expected: Option<CertificateAndKey>) {
    expected.Some? && exists k :: 0 <= k < |accepted| && accepted[k] == Some(expected.value.crt)
  }

  function CaStage(issuing: Option<CertificateAndKey>, accepted: seq<Option<Bytes>>, active: Option<CertificateAndKey>, pending: Option<CertificateAndKey>): Stage {
    if !AcceptedCertificatesKnown(accepted, active, pending) then Unknown
    else
      var issuingActive := SameCertificate(issuing, active);
      var issuingPending := SameCertificate(issuing, pending);
      var pendingAccepted := ContainsAcceptedCertificate(accepted, pending);
      var activeAccepted := ContainsAcceptedCertificate(accepted, active);
      if issuingActive && !pendingAccepted then Stable
      else if issuingActive && pendingAccepted then DualTrust
      else if issuingPending && activeAccepted then Cutover
      else if issuingPending && !activeAccepted then Rotated
      else Unknown
  }

  function WorkerCaStage(accepted: seq<Option<Bytes>>, active: Option<CertificateAndKey>, pending: Option<CertificateAndKey>): Stage {
    if !AcceptedCertificatesKnown(accepted, active, pending) then Unknown
    else
      var activeAccepted := ContainsAcceptedCertificate(accepted, active);
      var pendingAccepted := ContainsAcceptedCertificate(accepted, pending);
      if activeAccepted && !pendingAccepted then Stable
      else if activeAccepted && pendingAccepted then DualTrust
      else if pendingAccepted && !activeAccepted then Rotated
      else Unknown
  }

  function ObserveStage(issuingMachine: Option<CertificateAndKey>, acceptedMachine: seq<Option<Bytes>>,
                        issuingAPI: Option<CertificateAndKey>, acceptedAPI: seq<Option<Bytes>>,
                        issuingAggregator: Option<CertificateAndKey>, acceptedAggregator: seq<Option<Bytes>>,
                        active: CertBundle, pending: CertBundle): Stage
  {
    var machineStage := CaStage(issuingMachine, acceptedMachine, active.machine, pending.machine);
    var apiStage := CaStage(issuingAPI, acceptedAPI, active.kubernetesAPI, pending.kubernetesAPI);
    var aggregatorStage := CaStage(issuingAggregator, acceptedAggregator, active.kubernetesAggregator, pending.kubernetesAggregator);
    if machineStage == apiStage && apiStage == aggregatorStage then machineStage else Unknown
  }

  function ObserveStageWithoutAggregator(issuingMachine: Option<CertificateAndKey>, acceptedMachine: seq<Option<Bytes>>,
                                         acceptedAPI: seq<Option<Bytes>>, active: CertBundle, pending: CertBundle): Stage
  {
    var machineStage := CaStage(issuingMachine, acceptedMachine, active.machine, pending.machine);
    var observedAPI := WorkerCaStage(acceptedAPI, active.kubernetesAPI, pending.kubernetesAPI);
    // A worker holds no issuing key for the Kubernetes API, so only the machine CA tells a cutover from dual trust.
    var apiStage := if machineStage == Cutover && observedAPI == DualTrust then Cutover else observedAPI;
    if machineStage == apiStage then machineStage else Unknown
  }

  // ----- what a stage means, said with sets -----

  /** No entry of the accepted list is a nil pointer. */
  predicate NoNil(accepted: seq<Option<Bytes>>) {
    forall k | 0 <= k < |accepted| :: accepted[k].Some?
  }

  /** The certificates named by an accepted list. */
  function AcceptedSet(accepted: seq<Option<Bytes>>): set<Bytes> {
    set k | 0 <= k < |accepted| && accepted[k].Some? :: accepted[k].value
  }

  /** What a node trusts for one authority: the issuing certificate implicitly, plus the accepted ones. */
  function Trusted(issuing: Option<CertificateAndKey>, accepted: seq<Option<Bytes>>): set<Bytes> {
    AcceptedSet(accepted) + if issuing.Some? then {issuing.value.crt} else {}
  }

  /** Which of the two generations issues certificates in a stage. */
  predicate IssuesPending(stage: Stage) {
    stage == Cutover || stage == Rotated
  }

  /** The trusted set that belongs to a known stage. */
  ghost function StageTrust(stage: Stage, active: Bytes, pending: Bytes): set<Bytes>
    requires stage != Unknown
  {
    match stage
    case Stable => {active}
    case DualTrust => {active, pending}
    case Cutover => {active, pending}
    case Rotated => {pending}
  }

  lemma AcceptedMembership(accepted: seq<Option<Bytes>>, expected: CertificateAndKey)
    ensures ContainsAcceptedCertificate(accepted, Some(expected)) <==> expected.crt in AcceptedSet(accepted)
  {
    if expected.crt in AcceptedSet(accepted) {
      var k :| 0 <= k < |accepted| && accepted[k].Some? && accepted[k].value == expected.crt;
      assert accepted[k] == Some(expected.crt);
    }
  }

  /** The classifier and the set-valued meaning agree, in both directions and for every stage. */
  lemma CaStageMeaning(issuing: Option<CertificateAndKey>, accepted: seq<Option<Bytes>>, active: CertificateAndKey, pending: CertificateAndKey, stage: Stage)
    requires active.crt != pending.crt
    requires stage != Unknown
    ensures CaStage(issuing, accepted, Some(active), Some(pending)) == stage
      <==> && issuing.Some?
           && issuing.value.crt == (if IssuesPending(stage) then pending.crt else active.crt)
           && NoNil(accepted)
           && Trusted(issuing, accepted) == StageTrust(stage, active.crt, pending.crt)
  {
    AcceptedMembership(accepted, active);
    AcceptedMembership(accepted, pending);
    KnownAsSet(accepted, active, pending);
  }

  lemma KnownAsSet(accepted: seq<Option<Bytes>>, active: CertificateAndKey, pending: CertificateAndKey)
    ensures AcceptedCertificatesKnown(accepted, Some(active), Some(pending))
      <==> NoNil(accepted) && AcceptedSet(accepted) <= {active.crt, pending.crt}
  {
    if NoNil(accepted) && AcceptedSet(accepted) <= {active.crt, pending.crt} {
      forall k | 0 <= k < |accepted|
        ensures accepted[k].value == active.crt || accepted[k].value == pending.crt
      {
        assert accepted[k].value in AcceptedSet(accepted);
      }
    }
  }

  /** The stage a worker's accepted Kubernetes API authorities show: the set decides it, both ways. */
  lemma WorkerCaStageMeaning(accepted: seq<Option<Bytes>>, active: CertificateAndKey, pending: CertificateAndKey)
    requires active.crt != pending.crt
    ensures var stage := WorkerCaStage(accepted, Some(active), Some(pending));
      && (stage == Stable <==> NoNil(accepted) && AcceptedSet(accepted) == {active.crt})
      && (stage == DualTrust <==> NoNil(accepted) && AcceptedSet(accepted) == {active.crt, pending.crt})
      && (stage == Rotated <==> NoNil(accepted) && AcceptedSet(accepted) == {pending.crt})
      && stage != Cutover
  {
    AcceptedMembership(accepted, active);
    AcceptedMembership(accepted, pending);
    KnownAsSet(accepted, active, pending);
  }
}

/** Who may take a Host, and when (usecase/host/eligibility.go, usecase/host/claimdecision.go, usecase/host/selector.go),
    with the laws of whole Host histories. */
module HostClaims {
  import opened Wrappers

  /** `other` holds the remaining fields of the struct, which take part in its equality. */
  datatype ObjectReference = ObjectReference(apiVersion: string, kind: string, namespace_: string, name: string, uid: string, other: string)

  datatype PreviousConsumerRef = PreviousConsumerRef(namespace_: string, name: string, uid: string, clusterID: string)

  datatype ReusePolicy = RetainPolicy | AllowReuse | UnknownPolicy

  datatype ReuseMode = Adopt | Reprovision | UnknownMode

  /** `reuseApproval` is the previous consumer UID the approval names. */
  datatype HostSpec = HostSpec(
    hostID: string,
    architecture: string,
    failureDomain: string,
    consumerRef: Option<ObjectReference>,
    previousConsumerRef: Option<PreviousConsumerRef>,
    reusePolicy: ReusePolicy,
    reuseApproval: Option<string>,
    reuseMode: ReuseMode,
    other: string)

  datatype Host = Host(name: string, labels: map<string, string>, spec: HostSpec)

  datatype Eligibility = Available | Claimed | Retained | Reusable

  datatype HostError =
    | ClaimConflict
    | InvalidClaim
    | InvalidRetention
    | HostNoLongerEligible
    | ReuseApprovalRequired
    | HostIdentityChanged
    | HostSelectionMismatch
    | ApiFailure

  datatype ClaimDecision = ClaimNoop | ClaimApply

  datatype ClaimMode = ClaimFreshAutomatic | ClaimExplicitReusable | UnknownClaimMode

  /** A Host selector; `matchesLabels` is the parsed label selector, or None if it does not parse. */
  datatype HostSelector = HostSelector(architecture: string, matchesLabels: Option<map<string, string> -> bool>)

  datatype ClaimRequest = ClaimRequest(
    consumer: ObjectReference,
    expectedHostID: string,
    selector: Option<HostSelector>,
    failureDomain: string,
    mode: ClaimMode)

  predicate ApprovalMatches(spec: HostSpec) {
    && spec.reusePolicy == AllowReuse
    && spec.reuseApproval.Some?
    && spec.previousConsumerRef.Some?
    && spec.previousConsumerRef.value.uid != ""
    && spec.reuseApproval.value == spec.previousConsumerRef.value.uid
  }

  function Classify(spec: HostSpec): Eligibility {
    if spec.consumerRef.Some? then Claimed
    else if spec.previousConsumerRef.None? then Available
    else if ApprovalMatches(spec) && (spec.reuseMode == Adopt || spec.reuseMode == Reprovision) then Reusable
    else Retained
  }

  predicate ValidConsumerReference(consumer: ObjectReference) {
    consumer.apiVersion != "" && consumer.kind != "" && consumer.namespace_ != "" && consumer.name != "" && consumer.uid != ""
  }

  function DecideClaim(spec: HostSpec, consumer: ObjectReference): Result<ClaimDecision, HostError> {
    if !ValidConsumerReference(consumer) then Failure(InvalidClaim)
    else if spec.consumerRef.Some? && spec.consumerRef.value != consumer then Failure(ClaimConflict)
    else if spec.consumerRef.Some? then Success(ClaimNoop)
    else Success(ClaimApply)
  }

  function DecideRetention(spec: HostSpec, consumer: ObjectReference, previous: PreviousConsumerRef): Result<ClaimDecision, HostError> {
    if !ValidConsumerReference(consumer) || previous.uid == "" || previous.uid != consumer.uid then Failure(InvalidRetention)
    else if spec.consumerRef.None? then
      if spec.previousConsumerRef.Some? && spec.previousConsumerRef.value.uid == previous.uid then Success(ClaimNoop)
      else Failure(ClaimConflict)
    else if spec.consumerRef.value != consumer then Failure(ClaimConflict)
    else Success(ClaimApply)
  }

  predicate MatchesForFailureDomain(host: Host, selector: Option<HostSelector>, failureDomain: string) {
    if failureDomain != "" && host.spec.failureDomain != failureDomain then false
    else if selector.None? then true
    else if selector.value.architecture != "" && selector.value.architecture != host.spec.architecture then false
    else selector.value.matchesLabels.Some? && selector.value.matchesLabels.value(host.labels)
  }

  function ValidateClaimCandidate(host: Host, req: ClaimRequest): Option<HostError> {
    if req.expectedHostID != "" && host.spec.hostID != req.expectedHostID then Some(HostIdentityChanged)
    else if req.mode.ClaimFreshAutomatic? && Classify(host.spec) != Available then Some(HostNoLongerEligible)
    else if req.mode.ClaimFreshAutomatic? && host.spec.previousConsumerRef.Some? then Some(ReuseApprovalRequired)
    else if req.mode.ClaimExplicitReusable? && Classify(host.spec) != Reusable then Some(ReuseApprovalRequired)
    else if req.mode.UnknownClaimMode? then Some(InvalidClaim)
    else if !MatchesForFailureDomain(host, req.selector, req.failureDomain) then Some(HostSelectionMismatch)
    else None
  }

  // ----- what the decisions mean, field by field -----

  ghost predicate FullyNamed(consumer: ObjectReference) {
    consumer.apiVersion != "" && consumer.kind != "" && consumer.namespace_ != "" && consumer.name != "" && consumer.uid != ""
  }

  /** The Host has had a consumer, and its reuse after that one in particular has been approved, in a known mode. */
  ghost predicate ReuseApproved(spec: HostSpec) {
    && spec.previousConsumerRef.Some? && spec.previousConsumerRef.value.uid != ""
    && spec.reusePolicy == AllowReuse && spec.reuseApproval == Some(spec.previousConsumerRef.value.uid)
    && (spec.reuseMode == Adopt || spec.reuseMode == Reprovision)
  }

  lemma ClassifyMeaning(spec: HostSpec)
    ensures Classify(spec) == Claimed <==> spec.consumerRef.Some?
    ensures Classify(spec) == Available <==> spec.consumerRef.None? && spec.previousConsumerRef.None?
    ensures Classify(spec) == Reusable <==> spec.consumerRef.None? && ReuseApproved(spec)
  {
  }

  /** The Host is where the request wants it: in the failure domain, with the architecture and with labels that match. */
  ghost predicate Placed(host: Host, req: ClaimRequest) {
    && (req.failureDomain == "" || host.spec.failureDomain == req.failureDomain)
    && (req.selector.Some? ==>
          && (req.selector.value.architecture == "" || req.selector.value.architecture == host.spec.architecture)
          && req.selector.value.matchesLabels.Some? && req.selector.value.matchesLabels.value(host.labels))
  }

  /** The Host is free for a fully named consumer, is the one the request expects, is fresh or approved for reuse as the request
      demands, and is placed as it wants. */
  ghost predicate Admits(host: Host, req: ClaimRequest) {
    && FullyNamed(req.consumer) && host.spec.consumerRef.None?
    && (req.expectedHostID == "" || host.spec.hostID == req.expectedHostID)
    && (match req.mode
        case ClaimFreshAutomatic => host.spec.previousConsumerRef.None?
        case ClaimExplicitReusable => ReuseApproved(host.spec)
        case UnknownClaimMode => false)
    && Placed(host, req)
  }

  /** What becomes of a claim: nothing is left to do for the consumer's own Host, an admitting Host is written, and every other
      one is refused. */
  lemma ClaimDecisionMeaning(host: Host, req: ClaimRequest)
    ensures var decision := DecideClaim(host.spec, req.consumer);
      && (decision == Success(ClaimNoop) <==> FullyNamed(req.consumer) && host.spec.consumerRef == Some(req.consumer))
      && (decision == Failure(InvalidClaim) <==> !FullyNamed(req.consumer))
      && (decision == Failure(ClaimConflict) <==>
            FullyNamed(req.consumer) && host.spec.consumerRef.Some? && host.spec.consumerRef.value != req.consumer)
      && (decision == Success(ClaimApply) && ValidateClaimCandidate(host, req).None? <==> Admits(host, req))
  {
    ClassifyMeaning(host.spec);
  }

  lemma RetentionDecisionMeaning(spec: HostSpec, consumer: ObjectReference, previous: PreviousConsumerRef)
    ensures var decision := DecideRetention(spec, consumer, previous);
      var valid := FullyNamed(consumer) && previous.uid == consumer.uid;
      && (decision == Success(ClaimApply) <==> valid && spec.consumerRef == Some(consumer))
      && (decision == Success(ClaimNoop) <==>
            valid && spec.consumerRef.None? && spec.previousConsumerRef.Some? && spec.previousConsumerRef.value.uid == consumer.uid)
      && (decision == Failure(InvalidRetention) <==> !valid)
      && (decision == Failure(ClaimConflict) <==>
            valid && if spec.consumerRef.Some? then spec.consumerRef.value != consumer
                     else spec.previousConsumerRef.None? || spec.previousConsumerRef.value.uid != consumer.uid)
  {
  }

  // ----- the atomic steps every writer is held to -----

  datatype HostStep =
    | Claim(req: ClaimRequest)
    | Retain(consumer: ObjectReference, previous: PreviousConsumerRef)
    | ThirdParty

  function ClaimedBy(host: Host, consumer: ObjectReference): Host {
    host.(spec := host.spec.(consumerRef := Some(consumer)))
  }

  function RetainedFrom(host: Host, previous: PreviousConsumerRef): Host {
    host.(spec := host.spec.(consumerRef := None, previousConsumerRef := Some(previous)))
  }

  /** A claim or a retention is decided on exactly the Host it replaces; everybody else leaves the two consumer fields,
      the name and an already assigned Host ID alone. */
  predicate IsStep(before: Host, step: HostStep, after: Host) {
    match step
    case Claim(req) =>
      && DecideClaim(before.spec, req.consumer) == Success(ClaimApply)
      && ValidateClaimCandidate(before, req) == None
      && after == ClaimedBy(before, req.consumer)
    case Retain(consumer, previous) =>
      && DecideRetention(before.spec, consumer, previous) == Success(ClaimApply)
      && after == RetainedFrom(before, previous)
    case ThirdParty =>
      && after.name == before.name
      && after.spec.consumerRef == before.spec.consumerRef
      && after.spec.previousConsumerRef == before.spec.previousConsumerRef
      && (before.spec.hostID != "" ==> after.spec.hostID == before.spec.hostID)
  }

  // ----- whole histories of one Host -----

  /** hosts[0], then one step per following state. */
  ghost predicate IsHistory(hosts: seq<Host>, steps: seq<HostStep>) {
    |hosts| == |steps| + 1 && forall k | 0 <= k < |steps| :: StepAt(hosts, steps, k)
  }

  ghost predicate StepAt(hosts: seq<Host>, steps: seq<HostStep>, k: int)
    requires 0 <= k < |steps| && |hosts| == |steps| + 1
  {
    IsStep(hosts[k], steps[k], hosts[k + 1])
  }

  /** A Host passes from one consumer to another only through a retention by the first one. */
  lemma {:induction false} ConsumerChangesOnlyThroughItsRetention(hosts: seq<Host>, steps: seq<HostStep>, i: nat, j: nat) returns (k: nat)
    requires IsHistory(hosts, steps) && i <= j < |hosts|
    requires hosts[i].spec.consumerRef.Some? && hosts[j].spec.consumerRef != hosts[i].spec.consumerRef
    ensures i <= k < j && hosts[k].spec.consumerRef == hosts[i].spec.consumerRef
    ensures steps[k].Retain? && Some(steps[k].consumer) == hosts[i].spec.consumerRef
    ensures hosts[k + 1].spec.consumerRef == None
    ensures hosts[k + 1].spec.previousConsumerRef.Some? && hosts[k + 1].spec.previousConsumerRef.value.uid == hosts[i].spec.consumerRef.value.uid
    decreases j - i
  {
    assert StepAt(hosts, steps, i);
    if hosts[i + 1].spec.consumerRef != hosts[i].spec.consumerRef {
      k := i;
    } else {
      k := ConsumerChangesOnlyThroughItsRetention(hosts, steps, i + 1, j);
    }
  }

  /** Every claim in a history was admissible for its mode. */
  lemma ClaimsAreAdmissible(hosts: seq<Host>, steps: seq<HostStep>, k: nat)
    requires IsHistory(hosts, steps) && k < |steps| && steps[k].Claim?
    ensures Admits(hosts[k], steps[k].req)
    ensures Classify(hosts[k].spec) == if steps[k].req.mode == ClaimFreshAutomatic then Available else Reusable
    ensures hosts[k + 1] == hosts[k].(spec := hosts[k].spec.(consumerRef := Some(steps[k].req.consumer)))
  {
    ClaimDecisionMeaning(hosts[k], steps[k].req);
    assert StepAt(hosts, steps, k);
  }

  /** A Host that was ever retained is never Available again, and no automatic claim accepts it. */
  lemma {:induction false} RetainedIsNeverFreshAgain(hosts: seq<Host>, steps: seq<HostStep>, i: nat, j: nat, req: ClaimRequest)
    requires IsHistory(hosts, steps) && i <= j < |hosts|
    requires hosts[i].spec.previousConsumerRef.Some?
    ensures hosts[j].spec.previousConsumerRef.Some?
    ensures Classify(hosts[j].spec) != Available
    ensures req.mode == ClaimFreshAutomatic ==> ValidateClaimCandidate(hosts[j], req).Some?
  {
    if i < j {
      RetainedIsNeverFreshAgain(hosts, steps, i, j - 1, req);
      assert StepAt(hosts, steps, j - 1);
    }
  }

  /** What a retention leaves: the Host is Reusable at once exactly when an approval for this very consumer was already in place. */
  lemma RetentionOutcome(before: Host, consumer: ObjectReference, previous: PreviousConsumerRef, after: Host)
    requires IsStep(before, Retain(consumer, previous), after)
    ensures Classify(after.spec) == Reusable
      <==> && before.spec.reusePolicy == AllowReuse
           && before.spec.reuseApproval == Some(consumer.uid)
           && before.spec.reuseMode != UnknownMode
    ensures Classify(after.spec) == Reusable || Classify(after.spec) == Retained
  {
  }

  /** A reuse approval serves one tenancy: after the new consumer's own retention the Host stays Retained, and unclaimed,
      for as long as nobody writes another approval. */
  lemma {:induction false} ApprovalServesOneTenancy(hosts: seq<Host>, steps: seq<HostStep>, m: nat, j: nat)
    requires IsHistory(hosts, steps) && m < j < |hosts|
    requires steps[m].Retain?
    requires hosts[m].spec.reuseApproval != Some(steps[m].consumer.uid)
    requires forall k | m <= k <= j :: hosts[k].spec.reuseApproval == hosts[m].spec.reuseApproval
    ensures Classify(hosts[j].spec) == Retained
    ensures hosts[j].spec.previousConsumerRef.Some? && hosts[j].spec.previousConsumerRef.value.uid == steps[m].consumer.uid
    ensures forall k | m < k < j :: steps[k].ThirdParty?
  {
    if j == m + 1 {
      assert StepAt(hosts, steps, m);
    } else {
      ApprovalServesOneTenancy(hosts, steps, m, j - 1);
      assert StepAt(hosts, steps, j - 1);
    }
  }
}

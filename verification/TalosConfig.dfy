/** The CA-bearing part of a Talos machine configuration, its observation (adapter/talos/certbuilder/bundle.go)
    and the setters that move it between rotation stages (adapter/talos/configmutate.go). */
module TalosConfig {
  import opened Wrappers
  import opened Certificates
  import opened TrustStage

  datatype Role = ControlPlane | Worker

  /** An issuing authority and the list of accepted ones; a nil list entry is None. */
  datatype CAConfig = CAConfig(issuing: Option<CertificateAndKey>, accepted: seq<Option<Bytes>>)

  /** `other` stands for every part of the configuration the setters must not touch. */
  datatype MachineConfig = MachineConfig(
    role: Role,
    machine: CAConfig,
    kubernetesAPI: Option<CAConfig>,
    kubernetesAggregator: Option<CAConfig>,
    other: Bytes)

  datatype ConfigError = EmptyIssuingCA | MissingAPIServerCA | MissingAggregatorCA | LibraryFailure

  // ----- observation -----

  function ObserveCATrustStage(config: MachineConfig, active: CertBundle, pending: CertBundle): Result<Stage, ConfigError> {
    if config.kubernetesAPI.None? then Failure(MissingAPIServerCA)
    else if config.role.Worker? then
      Success(ObserveStageWithoutAggregator(config.machine.issuing, config.machine.accepted, config.kubernetesAPI.value.accepted, active, pending))
    else if config.kubernetesAggregator.None? then Failure(MissingAggregatorCA)
    else
      Success(ObserveStage(config.machine.issuing, config.machine.accepted,
                           config.kubernetesAPI.value.issuing, config.kubernetesAPI.value.accepted,
                           config.kubernetesAggregator.value.issuing, config.kubernetesAggregator.value.accepted,
                           active, pending))
  }

  /** An observation error stops the rotation exactly like an unknown stage. */
  function StageOf(config: MachineConfig, active: CertBundle, pending: CertBundle): Stage {
    match ObserveCATrustStage(config, active, pending)
    case Success(stage) => stage
    case Failure(_) => Unknown
  }

  // ----- library code: strategic merge and rotatepatcher -----

  /** The library calls the setters make. Each takes the current document and returns the patched one or an error. */
  datatype ConfigLibrary = ConfigLibrary(
    mergeAPI: (Option<CAConfig>, CAConfig) -> Result<CAConfig, ConfigError>,
    mergeAggregator: (Option<CAConfig>, CAConfig) -> Result<CAConfig, ConfigError>,
    deleteAccepted: (CAConfig, Bytes) -> Result<CAConfig, ConfigError>,
    setCA: (CAConfig, CertificateAndKey) -> Result<CAConfig, ConfigError>,
    addAccepted: (CAConfig, Bytes) -> Result<CAConfig, ConfigError>)

  /** Hypothesis on a strategic merge: the patched document has the patch's issuing authority, with its key unless the patch
      leaves the key empty, and trusts what the patch trusts. */
  ghost predicate MergeReplaces(merge: (Option<CAConfig>, CAConfig) -> Result<CAConfig, ConfigError>) {
    forall document: Option<CAConfig>, patch: CAConfig {:trigger merge(document, patch)} | patch.issuing.Some? && NoNil(patch.accepted) && merge(document, patch).Success? ::
      var merged := merge(document, patch).value;
      && merged.issuing.Some?
      && merged.issuing.value.crt == patch.issuing.value.crt
      && (patch.issuing.value.key != [] ==> merged.issuing == patch.issuing)
      && NoNil(merged.accepted)
      && Trusted(merged.issuing, merged.accepted) == Trusted(patch.issuing, patch.accepted)
  }

  /** Hypothesis on the worker patchers, as set operations on the accepted authorities. */
  ghost predicate PatchersAreSetOperations(library: ConfigLibrary) {
    && (forall c: CAConfig, crt: Bytes {:trigger library.deleteAccepted(c, crt)} | NoNil(c.accepted) && library.deleteAccepted(c, crt).Success? ::
          var r := library.deleteAccepted(c, crt).value;
          NoNil(r.accepted) && AcceptedSet(r.accepted) == AcceptedSet(c.accepted) - {crt})
    && (forall c: CAConfig, ca: CertificateAndKey {:trigger library.setCA(c, ca)} | NoNil(c.accepted) && library.setCA(c, ca).Success? ::
          var r := library.setCA(c, ca).value;
          NoNil(r.accepted) && AcceptedSet(r.accepted) - {ca.crt} == AcceptedSet(c.accepted) - {ca.crt})
    && (forall c: CAConfig, crt: Bytes {:trigger library.addAccepted(c, crt)} | NoNil(c.accepted) && library.addAccepted(c, crt).Success? ::
          var r := library.addAccepted(c, crt).value;
          NoNil(r.accepted) && AcceptedSet(r.accepted) == AcceptedSet(c.accepted) + {crt})
  }

  ghost predicate SetValued(library: ConfigLibrary) {
    && MergeReplaces(library.mergeAPI)
    && MergeReplaces(library.mergeAggregator)
    && PatchersAreSetOperations(library)
  }

  /** No library call returns an error. */
  ghost predicate NeverFails(library: ConfigLibrary) {
    && (forall document, patch :: library.mergeAPI(document, patch).Success?)
    && (forall document, patch :: library.mergeAggregator(document, patch).Success?)
    && (forall c, crt :: library.deleteAccepted(c, crt).Success?)
    && (forall c, ca :: library.setCA(c, ca).Success?)
    && (forall c, crt :: library.addAccepted(c, crt).Success?)
  }

  // ----- what a trust update means -----

  /** `c` issues with `issuing` and trusts it together with `extra`, and nothing else. */
  ghost predicate TrustsExactly(c: CAConfig, issuing: CertificateAndKey, extra: Option<CertificateAndKey>) {
    && c.issuing.Some?
    && c.issuing.value.crt == issuing.crt
    && NoNil(c.accepted)
    && Trusted(c.issuing, c.accepted) == Pair(issuing, extra)
  }

  /** `c` issues with the key of `issuing`, which a merge may leave out only when that key is empty. */
  ghost predicate HasKeyOf(c: CAConfig, issuing: CertificateAndKey) {
    issuing.key != [] ==> c.issuing == Some(issuing)
  }

  ghost function Pair(issuing: CertificateAndKey, extra: Option<CertificateAndKey>): set<Bytes> {
    {issuing.crt} + if extra.Some? then {extra.value.crt} else {}
  }

  /** The bundle whose authorities are additionally accepted; None while the previous generation is dropped. */
  type Extra = Option<CertBundle>

  ghost predicate IsTrustUpdate(before: MachineConfig, after: MachineConfig, issuing: CertBundle, extra: Extra)
    requires issuing.Complete()
    requires extra.Some? ==> extra.value.Complete()
  {
    && after.role == before.role
    && after.other == before.other
    && TrustsExactly(after.machine, issuing.machine.value, if extra.Some? then extra.value.machine else None)
    && after.machine.issuing.value.key == (if before.role.ControlPlane? then issuing.machine.value.key else [])
    && after.kubernetesAPI.Some?
    && (if before.role.Worker? then
          && NoNil(after.kubernetesAPI.value.accepted)
          && AcceptedSet(after.kubernetesAPI.value.accepted) == Pair(issuing.kubernetesAPI.value, if extra.Some? then extra.value.kubernetesAPI else None)
          && after.kubernetesAggregator == before.kubernetesAggregator
        else
          && TrustsExactly(after.kubernetesAPI.value, issuing.kubernetesAPI.value, if extra.Some? then extra.value.kubernetesAPI else None)
          && HasKeyOf(after.kubernetesAPI.value, issuing.kubernetesAPI.value)
          && after.kubernetesAggregator.Some?
          && TrustsExactly(after.kubernetesAggregator.value, issuing.kubernetesAggregator.value, if extra.Some? then extra.value.kubernetesAggregator else None)
          && HasKeyOf(after.kubernetesAggregator.value, issuing.kubernetesAggregator.value))
  }

  // ----- the setters -----

  /** The issuing key is written only on control planes; the accepted list is rebuilt from the non-nil arguments. */
  method SetMachineCertificateAuthority(config: MachineConfig, issuing: Option<CertificateAndKey>, accepted: seq<Option<CertificateAndKey>>)
    returns (result: Result<MachineConfig, ConfigError>)
    ensures result.Failure? <==> issuing.None?
    ensures result.Success? ==>
      && result.value == config.(machine := result.value.machine)
      && result.value.machine.issuing == Some(CertificateAndKey(issuing.value.crt, if config.role.ControlPlane? then issuing.value.key else []))
      && NoNil(result.value.machine.accepted)
      && AcceptedSet(result.value.machine.accepted) == CertificatesOf(accepted)
  {
    if issuing.None? {
      return Failure(EmptyIssuingCA);
    }
    var machineCA := CertificateAndKey(issuing.value.crt, []);
    if config.role.ControlPlane? {
      machineCA := machineCA.(key := issuing.value.key);
    }
    var acceptedCAs := CollectCertificates(accepted);
    return Success(config.(machine := CAConfig(Some(machineCA), acceptedCAs)));
  }

  /** The certificates of the non-nil arguments. */
  ghost function CertificatesOf(authorities: seq<Option<CertificateAndKey>>): set<Bytes> {
    set k | 0 <= k < |authorities| && authorities[k].Some? :: authorities[k].value.crt
  }

  method CollectCertificates(authorities: seq<Option<CertificateAndKey>>) returns (certificates: seq<Option<Bytes>>)
    ensures NoNil(certificates)
    ensures AcceptedSet(certificates) == CertificatesOf(authorities)
  {
    certificates := [];
    for i := 0 to |authorities|
      invariant NoNil(certificates)
      invariant AcceptedSet(certificates) == CertificatesOf(authorities[..i])
    {
      ghost var before := certificates;
      assert authorities[..i + 1] == authorities[..i] + [authorities[i]];
      CertificatesOfAppend(authorities[..i], authorities[i]);
      if authorities[i].Some? {
        certificates := certificates + [Some(authorities[i].value.crt)];
        AcceptedSetAppend(before, authorities[i].value.crt);
      }
    }
    assert authorities[..|authorities|] == authorities;
  }

  lemma AcceptedSetAppend(accepted: seq<Option<Bytes>>, crt: Bytes)
    ensures AcceptedSet(accepted + [Some(crt)]) == AcceptedSet(accepted) + {crt}
  {
    var longer := accepted + [Some(crt)];
    assert longer[|accepted|] == Some(crt);
    forall c | c in AcceptedSet(accepted)
      ensures c in AcceptedSet(longer)
    {
      var k :| 0 <= k < |accepted| && accepted[k].Some? && accepted[k].value == c;
      assert longer[k] == Some(c);
    }
  }

  lemma CertificatesOfAppend(authorities: seq<Option<CertificateAndKey>>, last: Option<CertificateAndKey>)
    ensures CertificatesOf(authorities + [last]) == CertificatesOf(authorities) + if last.Some? then {last.value.crt} else {}
  {
    var longer := authorities + [last];
    assert longer[|authorities|] == last;
    forall c | c in CertificatesOf(authorities)
      ensures c in CertificatesOf(longer)
    {
      var k :| 0 <= k < |authorities| && authorities[k].Some? && authorities[k].value.crt == c;
      assert longer[k] == authorities[k];
    }
  }

  method SetKubernetesAPICertificateAuthority(library: ConfigLibrary, config: MachineConfig, issuing: Option<CertificateAndKey>, accepted: seq<Option<CertificateAndKey>>)
    returns (result: Result<MachineConfig, ConfigError>)
    requires SetValued(library)
    ensures issuing.None? ==> result == Failure(EmptyIssuingCA)
    ensures result.Failure? ==> issuing.None? || (config.role.Worker? && config.kubernetesAPI.None?) || !NeverFails(library)
    ensures result.Success? ==>
      && issuing.Some?
      && result.value == config.(kubernetesAPI := result.value.kubernetesAPI)
      && result.value.kubernetesAPI.Some?
      && (config.role.Worker? ==> config.kubernetesAPI.Some?)
    ensures result.Success? && (config.role.Worker? ==> NoNil(config.kubernetesAPI.value.accepted)) ==>
      && NoNil(result.value.kubernetesAPI.value.accepted)
      && if config.role.Worker? then
           AcceptedSet(result.value.kubernetesAPI.value.accepted) == {issuing.value.crt} + CertificatesOf(accepted)
         else
           && result.value.kubernetesAPI.value.issuing.Some?
           && result.value.kubernetesAPI.value.issuing.value.crt == issuing.value.crt
           && HasKeyOf(result.value.kubernetesAPI.value, issuing.value)
           && Trusted(result.value.kubernetesAPI.value.issuing, result.value.kubernetesAPI.value.accepted) == {issuing.value.crt} + CertificatesOf(accepted)
  {
    if issuing.None? {
      return Failure(EmptyIssuingCA);
    }
    if config.role.Worker? {
      if config.kubernetesAPI.None? {
        return Failure(MissingAPIServerCA);
      }
      var api := SetWorkerKubernetesAPICertificateAuthority(library, config.kubernetesAPI.value, issuing.value, accepted);
      if api.Failure? {
        return Failure(api.error);
      }
      return Success(config.(kubernetesAPI := Some(api.value)));
    }
    var acceptedCAs := CollectCertificates(accepted);
    var merged := library.mergeAPI(config.kubernetesAPI, CAConfig(issuing, acceptedCAs));
    if merged.Failure? {
      return Failure(merged.error);
    }
    return Success(config.(kubernetesAPI := Some(merged.value)));
  }

  method SetKubernetesAggregatorCertificateAuthority(library: ConfigLibrary, config: MachineConfig, issuing: Option<CertificateAndKey>, accepted: seq<Option<CertificateAndKey>>)
    returns (result: Result<MachineConfig, ConfigError>)
    requires SetValued(library)
    ensures issuing.None? ==> result == Failure(EmptyIssuingCA)
    ensures issuing.Some? && config.role.Worker? ==> result == Success(config)
    ensures result.Failure? ==> issuing.None? || !NeverFails(library)
    ensures result.Success? && config.role.ControlPlane? ==>
      && issuing.Some?
      && result.value == config.(kubernetesAggregator := result.value.kubernetesAggregator)
      && result.value.kubernetesAggregator.Some?
      && NoNil(result.value.kubernetesAggregator.value.accepted)
      && result.value.kubernetesAggregator.value.issuing.Some?
      && result.value.kubernetesAggregator.value.issuing.value.crt == issuing.value.crt
      && HasKeyOf(result.value.kubernetesAggregator.value, issuing.value)
      && Trusted(result.value.kubernetesAggregator.value.issuing, result.value.kubernetesAggregator.value.accepted) == {issuing.value.crt} + CertificatesOf(accepted)
  {
    if issuing.None? {
      return Failure(EmptyIssuingCA);
    }
    if config.role.Worker? {
      return Success(config);
    }
    var acceptedCAs := CollectCertificates(accepted);
    var merged := library.mergeAggregator(config.kubernetesAggregator, CAConfig(issuing, acceptedCAs));
    if merged.Failure? {
      return Failure(merged.error);
    }
    return Success(config.(kubernetesAggregator := Some(merged.value)));
  }

  /** Deletes the accepted authorities that are not desired, sets the issuing one, then adds the desired ones:
      afterwards the accepted set is exactly the issuing authority together with the requested ones. */
  method SetWorkerKubernetesAPICertificateAuthority(library: ConfigLibrary, config: CAConfig, issuing: CertificateAndKey, accepted: seq<Option<CertificateAndKey>>)
    returns (result: Result<CAConfig, ConfigError>)
    requires PatchersAreSetOperations(library)
    ensures result.Failure? ==> !NeverFails(library)
    ensures result.Success? && NoNil(config.accepted) ==>
      && NoNil(result.value.accepted)
      && AcceptedSet(result.value.accepted) == {issuing.crt} + CertificatesOf(accepted)
  {
    var desired := [issuing.crt];
    for i := 0 to |accepted|
      invariant Elements(desired) == {issuing.crt} + CertificatesOf(accepted[..i])
    {
      assert accepted[..i + 1] == accepted[..i] + [accepted[i]];
      CertificatesOfAppend(accepted[..i], accepted[i]);
      if accepted[i].Some? && accepted[i].value.crt !in desired {
        ElementsAppend(desired, accepted[i].value.crt);
        desired := desired + [accepted[i].value.crt];
      }
    }
    assert accepted[..|accepted|] == accepted;

    var provider := config;
    for i := 0 to |config.accepted|
      invariant NoNil(config.accepted) ==> NoNil(provider.accepted) && AcceptedSet(provider.accepted) <= AcceptedSet(config.accepted)
      invariant NoNil(config.accepted) ==>
        forall k | 0 <= k < i && config.accepted[k].value !in desired :: config.accepted[k].value !in AcceptedSet(provider.accepted)
    {
      var ca := config.accepted[i];
      if ca.Some? && ca.value !in desired {
        var deleted := library.deleteAccepted(provider, ca.value);
        if deleted.Failure? {
          return Failure(deleted.error);
        }
        provider := deleted.value;
      }
    }
    assert NoNil(config.accepted) ==> AcceptedSet(provider.accepted) <= Elements(desired);

    var replaced := library.setCA(provider, issuing);
    if replaced.Failure? {
      return Failure(replaced.error);
    }
    if NoNil(config.accepted) {
      SetCAStaysWithin(AcceptedSet(replaced.value.accepted), AcceptedSet(provider.accepted), issuing.crt, Elements(desired));
    }
    provider := replaced.value;

    for i := 0 to |desired|
      invariant NoNil(config.accepted) ==> NoNil(provider.accepted) && AcceptedSet(provider.accepted) <= Elements(desired)
      invariant NoNil(config.accepted) ==> forall k | 0 <= k < i :: desired[k] in AcceptedSet(provider.accepted)
    {
      var added := library.addAccepted(provider, desired[i]);
      if added.Failure? {
        return Failure(added.error);
      }
      provider := added.value;
    }
    return Success(provider);
  }

  /** A set that only changed at `crt` is still inside a set that holds `crt`. */
  lemma SetCAStaysWithin(after: set<Bytes>, before: set<Bytes>, crt: Bytes, bound: set<Bytes>)
    requires after - {crt} == before - {crt}
    requires before <= bound && crt in bound
    ensures after <= bound
  {
    forall c | c in after && c != crt
      ensures c in bound
    {
      assert c in after - {crt};
    }
  }

  ghost function Elements(certificates: seq<Bytes>): set<Bytes> {
    set c | c in certificates
  }

  lemma ElementsAppend(certificates: seq<Bytes>, crt: Bytes)
    ensures Elements(certificates + [crt]) == Elements(certificates) + {crt}
  {
  }
}

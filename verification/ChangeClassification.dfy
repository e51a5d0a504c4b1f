/** The classification of a configuration difference (adapter/talos/configbuilder/classify.go) and the decision
    taken on it (domain/update/faildecision.go, domain/update/policy.go). */
module ChangeClassification {
  import opened Certificates
  import opened FiniteSets
  import opened StorageChange
  import opened Wrappers

  datatype MachineSection = MachineSection(role: string, issuingCA: Option<CertificateAndKey>, token: string)

  datatype ClusterSection = ClusterSection(tokenID: string, tokenSecret: string, etcdCA: Option<CertificateAndKey>)

  datatype KubernetesCA = KubernetesCA(issuing: Option<CertificateAndKey>, accepted: seq<Option<Bytes>>)

  datatype ServiceAccount = ServiceAccount(
    acceptedKeys: seq<Option<Bytes>>, issuerURL: string, acceptedIssuers: seq<string>, audiences: seq<string>,
    issuingKey: Option<Bytes>)

  datatype KubernetesCluster = KubernetesCluster(name: string, endpoint: Option<string>)

  datatype Install = Install(volumeSelector: string, wipe: bool)

  /** A loaded machine configuration, after its installer image has been normalised. */
  datatype Configuration = Configuration(
    machine: Option<MachineSection>, cluster: Option<ClusterSection>,
    apiServerCA: Option<KubernetesCA>, aggregatorCA: Option<KubernetesCA>, serviceAccount: Option<ServiceAccount>,
    kubernetes: Option<KubernetesCluster>, images: seq<string>, providerIDs: seq<string>,
    install: Option<Install>, documents: seq<Document>)

  /** Foreign code: parsing, digests and fingerprints. None stands for the error each of them can return. */
  datatype Library = Library(
    load: Bytes -> Option<Configuration>, digest: Bytes -> Option<Bytes>,
    certificate: Bytes -> Option<Bytes>, key: Bytes -> Option<Bytes>, trim: string -> string)

  // ----- comparisons of key material -----

  ghost predicate AllParse(parse: Bytes -> Option<Bytes>, entries: seq<Option<Bytes>>) {
    forall k | 0 <= k < |entries| :: entries[k].Some? && parse(entries[k].value).Some?
  }

  ghost predicate HasFingerprint(parse: Bytes -> Option<Bytes>, entries: seq<Option<Bytes>>, fingerprint: Bytes) {
    exists k | 0 <= k < |entries| :: entries[k].Some? && parse(entries[k].value) == Some(fingerprint)
  }

  /** Both lists parse and name the same keys; order, repetition and encoding do not matter. */
  ghost predicate SameFingerprints(parse: Bytes -> Option<Bytes>, left: seq<Option<Bytes>>, right: seq<Option<Bytes>>) {
    && AllParse(parse, left) && AllParse(parse, right)
    && forall f :: HasFingerprint(parse, left, f) <==> HasFingerprint(parse, right, f)
  }

  /** certificateSet and keySet. */
  method FingerprintSet(parse: Bytes -> Option<Bytes>, entries: seq<Option<Bytes>>) returns (fingerprints: Option<set<Bytes>>)
    ensures fingerprints.Some? <==> AllParse(parse, entries)
    ensures fingerprints.Some? ==> forall f :: f in fingerprints.value <==> HasFingerprint(parse, entries, f)
  {
    var found: set<Bytes> := {};
    for i := 0 to |entries|
      invariant AllParse(parse, entries[..i])
      invariant forall f :: f in found <==> HasFingerprint(parse, entries[..i], f)
    {
      if entries[i].None? {
        return None;
      }
      var fingerprint := parse(entries[i].value);
      if fingerprint.None? {
        return None;
      }
      HasFingerprintAppend(parse, entries, i);
      found := found + {fingerprint.value};
    }
    assert entries[..|entries|] == entries;
    return Some(found);
  }

  lemma HasFingerprintAppend(parse: Bytes -> Option<Bytes>, entries: seq<Option<Bytes>>, i: nat)
    requires i < |entries| && entries[i].Some?
    ensures forall f :: HasFingerprint(parse, entries[..i + 1], f) <==>
                        HasFingerprint(parse, entries[..i], f) || parse(entries[i].value) == Some(f)
  {
    forall f
      ensures HasFingerprint(parse, entries[..i + 1], f) <==>
              HasFingerprint(parse, entries[..i], f) || parse(entries[i].value) == Some(f)
    {
      var longer, shorter := entries[..i + 1], entries[..i];
      assert longer[i] == entries[i];
      if HasFingerprint(parse, shorter, f) {
        var k :| 0 <= k < |shorter| && shorter[k].Some? && parse(shorter[k].value) == Some(f);
        assert longer[k] == shorter[k];
      }
      if HasFingerprint(parse, longer, f) && parse(entries[i].value) != Some(f) {
        var k :| 0 <= k < |longer| && longer[k].Some? && parse(longer[k].value) == Some(f);
        assert shorter[k] == longer[k];
      }
    }
  }

  /** equalCertificateSet and equalKeySetDER: equal sizes and one inclusion decide equality. */
  method EqualFingerprintSets(parse: Bytes -> Option<Bytes>, left: seq<Option<Bytes>>, right: seq<Option<Bytes>>) returns (equal: bool)
    ensures equal <==> SameFingerprints(parse, left, right)
  {
    var leftSet := FingerprintSet(parse, left);
    if leftSet.None? {
      return false;
    }
    var rightSet := FingerprintSet(parse, right);
    if rightSet.None? {
      return false;
    }
    equal := EqualSets(leftSet.value, rightSet.value);
  }

  method EqualSets<T(==)>(left: set<T>, right: set<T>) returns (equal: bool)
    ensures equal <==> left == right
  {
    if |left| != |right| {
      return false;
    }
    var remaining := left;
    while remaining != {}
      invariant remaining <= left && left - remaining <= right
    {
      var x :| x in remaining;
      if x !in right {
        return false;
      }
      remaining := remaining - {x};
    }
    SubsetSize(left, right);
    return true;
  }

  ghost predicate HasString(trim: string -> string, values: seq<string>, value: string) {
    value != "" && exists k | 0 <= k < |values| :: trim(values[k]) == value
  }

  ghost predicate SameStrings(trim: string -> string, left: seq<string>, right: seq<string>) {
    forall v :: HasString(trim, left, v) <==> HasString(trim, right, v)
  }

  method StringSet(trim: string -> string, values: seq<string>) returns (strings: set<string>)
    ensures forall v :: v in strings <==> HasString(trim, values, v)
  {
    strings := {};
    for i := 0 to |values|
      invariant forall v | v in strings :: HasString(trim, values, v)
      invariant forall k | 0 <= k < i && trim(values[k]) != "" :: trim(values[k]) in strings
    {
      var trimmed := trim(values[i]);
      if trimmed != "" {
        strings := strings + {trimmed};
      }
    }
  }

  method EqualStringSet(trim: string -> string, left: seq<string>, right: seq<string>) returns (equal: bool)
    ensures equal <==> SameStrings(trim, left, right)
  {
    var leftSet := StringSet(trim, left);
    var rightSet := StringSet(trim, right);
    equal := EqualSets(leftSet, rightSet);
  }

  predicate SameDER(parse: Bytes -> Option<Bytes>, left: Bytes, right: Bytes) {
    parse(left).Some? && parse(left) == parse(right)
  }

  predicate SameCertificateAndKeyDER(lib: Library, left: Option<CertificateAndKey>, right: Option<CertificateAndKey>) {
    if left.None? || right.None? then left == right
    else SameDER(lib.certificate, left.value.crt, right.value.crt) && SameDER(lib.key, left.value.key, right.value.key)
  }

  predicate SameKeyDER(lib: Library, left: Option<Bytes>, right: Option<Bytes>) {
    if left.None? || right.None? then left == right else SameDER(lib.key, left.value, right.value)
  }

  /** Both entries parse, and to the same thing. */
  ghost predicate NamesTheSame(parse: Bytes -> Option<Bytes>, left: Bytes, right: Bytes) {
    exists f :: parse(left) == Some(f) && parse(right) == Some(f)
  }

  ghost predicate SameKubernetesCA(lib: Library, left: Option<KubernetesCA>, right: Option<KubernetesCA>) {
    if left.None? || right.None? then left == right
    else
      && (left.value.issuing.Some? <==> right.value.issuing.Some?)
      && (left.value.issuing.Some? ==>
            && NamesTheSame(lib.certificate, left.value.issuing.value.crt, right.value.issuing.value.crt)
            && NamesTheSame(lib.key, left.value.issuing.value.key, right.value.issuing.value.key))
      && SameFingerprints(lib.certificate, left.value.accepted, right.value.accepted)
  }

  ghost predicate SameServiceAccount(lib: Library, left: Option<ServiceAccount>, right: Option<ServiceAccount>) {
    if left.None? || right.None? then left == right
    else
      && SameFingerprints(lib.key, left.value.acceptedKeys, right.value.acceptedKeys)
      && lib.trim(left.value.issuerURL) == lib.trim(right.value.issuerURL)
      && SameStrings(lib.trim, left.value.acceptedIssuers, right.value.acceptedIssuers)
      && SameStrings(lib.trim, left.value.audiences, right.value.audiences)
      && (left.value.issuingKey.Some? <==> right.value.issuingKey.Some?)
      && (left.value.issuingKey.Some? ==> NamesTheSame(lib.key, left.value.issuingKey.value, right.value.issuingKey.value))
  }

  method EqualKubernetesCA(lib: Library, left: Option<KubernetesCA>, right: Option<KubernetesCA>) returns (same: bool)
    ensures same <==> SameKubernetesCA(lib, left, right)
  {
    if left.None? || right.None? {
      return left.None? && right.None?;
    }
    if !SameCertificateAndKeyDER(lib, left.value.issuing, right.value.issuing) {
      return false;
    }
    same := EqualFingerprintSets(lib.certificate, left.value.accepted, right.value.accepted);
  }

  method EqualServiceAccount(lib: Library, left: Option<ServiceAccount>, right: Option<ServiceAccount>) returns (same: bool)
    ensures same <==> SameServiceAccount(lib, left, right)
  {
    if left.None? || right.None? {
      return left.None? && right.None?;
    }
    var keys := EqualFingerprintSets(lib.key, left.value.acceptedKeys, right.value.acceptedKeys);
    if !keys || lib.trim(left.value.issuerURL) != lib.trim(right.value.issuerURL) {
      return false;
    }
    var issuers := EqualStringSet(lib.trim, left.value.acceptedIssuers, right.value.acceptedIssuers);
    if !issuers {
      return false;
    }
    var audiences := EqualStringSet(lib.trim, left.value.audiences, right.value.audiences);
    return audiences && SameKeyDER(lib, left.value.issuingKey, right.value.issuingKey);
  }

  // ----- the provider's invariants -----

  predicate SameProviderID(active: Configuration, desired: Configuration) {
    && |active.providerIDs| <= 1 && |desired.providerIDs| <= 1
    && (if active.providerIDs == [] then "" else active.providerIDs[0]) == (if desired.providerIDs == [] then "" else desired.providerIDs[0])
  }

  /** No invariant conflict: same machine identity, cluster identity, key material, component images and ProviderID. */
  ghost predicate InvariantsAgree(lib: Library, active: Configuration, desired: Configuration) {
    && active.machine.Some? && active.machine == desired.machine
    && active.cluster.Some? && active.cluster == desired.cluster
    && SameKubernetesCA(lib, active.apiServerCA, desired.apiServerCA)
    && SameKubernetesCA(lib, active.aggregatorCA, desired.aggregatorCA)
    && SameServiceAccount(lib, active.serviceAccount, desired.serviceAccount)
    && active.kubernetes.Some? && desired.kubernetes.Some? && active.kubernetes.value.name == desired.kubernetes.value.name
    && active.images == desired.images
    && (|| (active.providerIDs == desired.providerIDs && |active.providerIDs| <= 1)
        || (active.providerIDs == [] && desired.providerIDs == [""])
        || (active.providerIDs == [""] && desired.providerIDs == []))
  }

  method InvariantConflict(lib: Library, active: Configuration, desired: Configuration) returns (conflict: bool)
    ensures conflict <==> !InvariantsAgree(lib, active, desired)
  {
    if active.machine.None? || desired.machine.None? || active.machine.value.role != desired.machine.value.role {
      return true;
    }
    if active.machine.value.issuingCA != desired.machine.value.issuingCA || active.machine.value.token != desired.machine.value.token {
      return true;
    }
    if active.cluster.None? || desired.cluster.None? || active.cluster != desired.cluster {
      return true;
    }
    var api := EqualKubernetesCA(lib, active.apiServerCA, desired.apiServerCA);
    if !api {
      return true;
    }
    var aggregator := EqualKubernetesCA(lib, active.aggregatorCA, desired.aggregatorCA);
    if !aggregator {
      return true;
    }
    var serviceAccount := EqualServiceAccount(lib, active.serviceAccount, desired.serviceAccount);
    if !serviceAccount {
      return true;
    }
    if active.kubernetes.None? || desired.kubernetes.None? || active.kubernetes.value.name != desired.kubernetes.value.name {
      return true;
    }
    return active.images != desired.images || !SameProviderID(active, desired);
  }

  /** Agreement is an equivalence among the configurations that agree with anything at all. */
  lemma InvariantsAgreeIsAnEquivalence(lib: Library, a: Configuration, b: Configuration, c: Configuration)
    requires InvariantsAgree(lib, a, b)
    ensures InvariantsAgree(lib, b, a) && InvariantsAgree(lib, a, a)
    ensures InvariantsAgree(lib, b, c) ==> InvariantsAgree(lib, a, c)
  {
  }

  /** A configuration agrees with itself exactly when it is complete and all its key material parses: one unreadable
      certificate is a conflict even with an identical copy. */
  lemma AgreesWithItselfIff(lib: Library, a: Configuration)
    ensures InvariantsAgree(lib, a, a) <==>
            && a.machine.Some? && a.cluster.Some? && a.kubernetes.Some? && |a.providerIDs| <= 1
            && Readable(lib, a.apiServerCA) && Readable(lib, a.aggregatorCA)
            && (a.serviceAccount.Some? ==>
                  && AllParse(lib.key, a.serviceAccount.value.acceptedKeys)
                  && (a.serviceAccount.value.issuingKey.Some? ==> lib.key(a.serviceAccount.value.issuingKey.value).Some?))
  {
  }

  ghost predicate Readable(lib: Library, ca: Option<KubernetesCA>) {
    ca.Some? ==>
      && AllParse(lib.certificate, ca.value.accepted)
      && (ca.value.issuing.Some? ==> lib.certificate(ca.value.issuing.value.crt).Some? && lib.key(ca.value.issuing.value.key).Some?)
  }

  // ----- the classification -----

  datatype ChangeClass = NoChange | Updatable | ControlPlaneEndpoint | ReprovisionRequired | ConflictingInvariant

  ghost predicate Classifiable(lib: Library, active: Bytes, desired: Bytes) {
    && lib.load(active).Some? && lib.load(desired).Some?
    && lib.digest(active).Some? && lib.digest(desired).Some?
  }

  /** The difference may be applied to a running node. */
  ghost predicate Permitted(lib: Library, active: Bytes, desired: Bytes) {
    && Classifiable(lib, active, desired)
    && lib.digest(active) != lib.digest(desired)
    && var a, d := lib.load(active).value, lib.load(desired).value;
    && InvariantsAgree(lib, a, d)
    && a.install == d.install
    && StorageAccepted(a.documents, d.documents)
  }

  method DestructiveChange(active: Configuration, desired: Configuration) returns (destructive: bool)
    ensures destructive <==> !(active.install == desired.install && StorageAccepted(active.documents, desired.documents))
  {
    if active.install.Some? != desired.install.Some? {
      return true;
    }
    if active.install.Some? && (active.install.value.volumeSelector != desired.install.value.volumeSelector
                                || active.install.value.wipe != desired.install.value.wipe) {
      return true;
    }
    var reason := DestructiveStorageChange(active.documents, desired.documents);
    return reason.Some?;
  }

  method ClassifyConfigurationChange(lib: Library, active: Bytes, desired: Bytes) returns (change: Option<ChangeClass>)
    ensures change.Some? <==> Classifiable(lib, active, desired)
    ensures change.Some? ==> (change.value.NoChange? <==> lib.digest(active) == lib.digest(desired))
    ensures change.Some? ==> (change.value.Updatable? || change.value.ControlPlaneEndpoint? <==> Permitted(lib, active, desired))
    ensures change.Some? && Permitted(lib, active, desired) ==>
      (change.value.Updatable? <==>
       lib.load(active).value.kubernetes.value.endpoint == lib.load(desired).value.kubernetes.value.endpoint)
    ensures change.Some? ==> (change.value.ConflictingInvariant? <==>
      lib.digest(active) != lib.digest(desired) && !InvariantsAgree(lib, lib.load(active).value, lib.load(desired).value))
  {
    var activeProvider, desiredProvider := lib.load(active), lib.load(desired);
    if activeProvider.None? || desiredProvider.None? {
      return None;
    }
    var activeDigest, desiredDigest := lib.digest(active), lib.digest(desired);
    if activeDigest.None? || desiredDigest.None? {
      return None;
    }
    if activeDigest == desiredDigest {
      return Some(NoChange);
    }
    var conflict := InvariantConflict(lib, activeProvider.value, desiredProvider.value);
    if conflict {
      return Some(ConflictingInvariant);
    }
    var destructive := DestructiveChange(activeProvider.value, desiredProvider.value);
    if destructive {
      return Some(ReprovisionRequired);
    }
    if activeProvider.value.kubernetes.value.endpoint != desiredProvider.value.kubernetes.value.endpoint {
      return Some(ControlPlaneEndpoint);
    }
    return Some(Updatable);
  }

  // ----- the decision -----

  datatype ApplyMode = ApplyOnly | StagedReboot

  datatype Decision = Decision(change: ChangeClass, mode: Option<ApplyMode>)

  function ResolveApplyMode(strategy: string): Option<ApplyMode> {
    if strategy == "StagedReboot" || strategy == "" then Some(StagedReboot)
    else if strategy == "ApplyOnly" then Some(ApplyOnly)
    else None
  }

  function Decide(change: ChangeClass, strategy: string): Option<Decision> {
    match change
    case NoChange => Some(Decision(NoChange, None))
    case ConflictingInvariant => Some(Decision(change, None))
    case ReprovisionRequired => Some(Decision(change, None))
    case _ =>
      var mode := ResolveApplyMode(strategy);
      if mode.None? then None else Some(Decision(change, mode))
  }

  method Evaluate(lib: Library, strategy: string, active: Bytes, desired: Bytes) returns (decision: Option<Decision>)
    ensures decision.None? <==>
      !Classifiable(lib, active, desired)
      || (Permitted(lib, active, desired) && strategy != "StagedReboot" && strategy != "" && strategy != "ApplyOnly")
    ensures decision.Some? ==> (decision.value.mode.Some? <==> Permitted(lib, active, desired))
    ensures decision.Some? ==> (decision.value.change.Updatable? || decision.value.change.ControlPlaneEndpoint? <==> decision.value.mode.Some?)
    ensures decision.Some? && Permitted(lib, active, desired) && strategy == "ApplyOnly" ==> decision.value.mode == Some(ApplyOnly)
    ensures decision.Some? && Permitted(lib, active, desired) && (strategy == "StagedReboot" || strategy == "") ==>
      decision.value.mode == Some(StagedReboot)
    ensures decision.Some? ==> (decision.value.change.ConflictingInvariant? <==>
      lib.digest(active) != lib.digest(desired) && !InvariantsAgree(lib, lib.load(active).value, lib.load(desired).value))
    ensures decision.Some? && Permitted(lib, active, desired) ==>
      (decision.value.change.ControlPlaneEndpoint? <==>
       lib.load(active).value.kubernetes.value.endpoint != lib.load(desired).value.kubernetes.value.endpoint)
    ensures decision.Some? ==> (decision.value.change.NoChange? <==> lib.digest(active) == lib.digest(desired))
    ensures decision.Some? && decision.value.change.Updatable? ==>
      lib.load(active).value.kubernetes.value.endpoint == lib.load(desired).value.kubernetes.value.endpoint
  {
    var change := ClassifyConfigurationChange(lib, active, desired);
    if change.None? {
      return None;
    }
    decision := Decide(change.value, strategy);
  }
}

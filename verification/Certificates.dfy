/** Certificate authorities as the rotation code sees them: byte strings compared for equality. */
module Certificates {
  import opened Wrappers

  newtype Byte = b: int | 0 <= b < 256

  type Bytes = seq<Byte>

  /** A PEM certificate with its (possibly empty) private key. */
  datatype CertificateAndKey = CertificateAndKey(crt: Bytes, key: Bytes)

  /** The three certificate authorities one secret bundle generation rotates. */
  datatype CertBundle = CertBundle(
    machine: Option<CertificateAndKey>,
    kubernetesAPI: Option<CertificateAndKey>,
    kubernetesAggregator: Option<CertificateAndKey>)
  {
    /** Bundles that come out of ExtractRotationCertificateAuthorities carry all three authorities. */
    ghost predicate Complete() {
      machine.Some? && kubernetesAPI.Some? && kubernetesAggregator.Some?
    }
  }

  /** Two complete bundle generations that share no certificate authority. */
  ghost predicate Distinct(active: CertBundle, pending: CertBundle) {
    && active.Complete()
    && pending.Complete()
    && active.machine.value.crt != pending.machine.value.crt
    && active.kubernetesAPI.value.crt != pending.kubernetesAPI.value.crt
    && active.kubernetesAggregator.value.crt != pending.kubernetesAggregator.value.crt
  }
}

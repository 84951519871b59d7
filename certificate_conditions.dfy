/** Choosing between the pre-eIDAS and post-eIDAS variants of the
    qualification conditions for a certificate, by comparing its not-before
    date with the eIDAS cutover date. */
module CertificateConditions {

  /** A point in time, ordered by its distance in milliseconds from an epoch. */
  datatype Instant = Instant(epochMillis: int)

  /** `a` is strictly earlier than `b`. */
  predicate Before(a: Instant, b: Instant)
  {
    a.epochMillis < b.epochMillis
  }

  /** The eIDAS cutover date: a fixed instant whose value this model leaves open. */
  const EIDAS_DATE: Instant

  /** The two regulatory eras a condition can belong to. */
  datatype Era = PreEIDAS | PostEIDAS

  /** A qualification condition: whether a certificate is qualified, or
      whether its key lives on a secure signature-creation device (SSCD),
      each in its pre- or post-eIDAS variant. */
  datatype CertificateCondition = Qualified(era: Era) | SSCD(era: Era)

  /** The certificate facts the builder sees; only `notBefore` is consulted. */
  datatype Certificate = Certificate(id: string, notBefore: Instant)

  /** Models `certificateQualified` as written: the pre-eIDAS variant when the
      cutover is strictly before the certificate's not-before date, the
      post-eIDAS variant otherwise. */
  function CertificateQualified(certificate: Certificate): (r: CertificateCondition)
    ensures r.Qualified?
    ensures r.era == PreEIDAS <==> Before(EIDAS_DATE, certificate.notBefore)
  {
    if Before(EIDAS_DATE, certificate.notBefore) then Qualified(PreEIDAS) else Qualified(PostEIDAS)
  }

  /** Models `certificateSSCD` as written, with the same strict threshold. */
  function CertificateSSCD(certificate: Certificate): (r: CertificateCondition)
    ensures r.SSCD?
    ensures r.era == PreEIDAS <==> Before(EIDAS_DATE, certificate.notBefore)
  {
    if Before(EIDAS_DATE, certificate.notBefore) then SSCD(PreEIDAS) else SSCD(PostEIDAS)
  }

  /** A certificate whose not-before date equals the cutover gets the
      post-eIDAS variant of both conditions. */
  lemma CutoverDayIsPostEIDAS(certificate: Certificate)
    requires certificate.notBefore == EIDAS_DATE
    ensures CertificateQualified(certificate) == Qualified(PostEIDAS)
    ensures CertificateSSCD(certificate) == SSCD(PostEIDAS)
  {
  }

  /** Both builders always pick the same era for a certificate. */
  lemma SameEra(certificate: Certificate)
    ensures CertificateQualified(certificate).era == CertificateSSCD(certificate).era
  {
  }

  /** The choice depends only on the not-before date. */
  lemma OnlyNotBeforeMatters(c1: Certificate, c2: Certificate)
    requires c1.notBefore == c2.notBefore
    ensures CertificateQualified(c1) == CertificateQualified(c2)
    ensures CertificateSSCD(c1) == CertificateSSCD(c2)
  {
  }

  /** As written, a certificate issued one day after the cutover is given the
      pre-eIDAS variant. */
  lemma LateCertificateGetsPreEIDAS(certificate: Certificate)
    requires certificate.notBefore == Instant(EIDAS_DATE.epochMillis + 86400000)
    ensures CertificateQualified(certificate).era == PreEIDAS
    ensures CertificateSSCD(certificate).era == PreEIDAS
  {
  }

  /** `certificateQualified` as its variant names suggest: pre-eIDAS exactly
      for certificates issued strictly before the cutover. */
  function CertificateQualifiedIntended(certificate: Certificate): (r: CertificateCondition)
    ensures r.Qualified?
    ensures r.era == PreEIDAS <==> Before(certificate.notBefore, EIDAS_DATE)
  {
    if Before(certificate.notBefore, EIDAS_DATE) then Qualified(PreEIDAS) else Qualified(PostEIDAS)
  }

  /** `certificateSSCD` as its variant names suggest. */
  function CertificateSSCDIntended(certificate: Certificate): (r: CertificateCondition)
    ensures r.SSCD?
    ensures r.era == PreEIDAS <==> Before(certificate.notBefore, EIDAS_DATE)
  {
    if Before(certificate.notBefore, EIDAS_DATE) then SSCD(PreEIDAS) else SSCD(PostEIDAS)
  }

  /** The written and the intended choices agree only for a certificate issued
      exactly at the cutover; for every other certificate they are opposite. */
  lemma WrittenAndIntendedDiffer(certificate: Certificate)
    ensures CertificateQualified(certificate) == CertificateQualifiedIntended(certificate)
      <==> certificate.notBefore == EIDAS_DATE
    ensures CertificateSSCD(certificate) == CertificateSSCDIntended(certificate)
      <==> certificate.notBefore == EIDAS_DATE
  {
  }
}

/** The X509-SVID checks on a presented chain (internal/authn/x509svid/verifier.go). */
module X509Svid {
  import opened Wrappers
  import opened SpiffeId

  /** The parts of a parsed certificate the checks read. Instants count from Go's zero time. */
  datatype Certificate = Certificate(
    raw: string, isCA: bool, certSign: bool, crlSign: bool, digitalSignature: bool,
    uris: seq<string>, notBefore: int, notAfter: int)

  datatype Leaf = Leaf(spiffeId: ID, certificate: Certificate)

  datatype SvidError =
    | LeafIsCA | LeafHasCertSign | LeafHasCrlSign | LeafMissingDigitalSignature
    | LeafMissingPath | SigningNotCA | SigningMissingCertSign | SigningHasPath
    | SigningInOtherTrustDomain | NoUri | MultipleUris | BadSpiffeId(error: ParseError)

  // The clock.

  predicate InWindow(instant: int, notBefore: int, notAfter: int) {
    notBefore <= instant <= notAfter
  }

  function Distance(a: int, b: int): int {
    if a < b then b - a else a - b
  }

  /** The instant a chain is checked at: never more than skew away from now, and in the leaf's window
      exactly when now lies in the window widened by skew. It is then the instant of the window that is
      nearest to now, and now itself otherwise. */
  function ClampToValidity(now: int, notBefore: int, notAfter: int, skew: int): (at: int)
    ensures notBefore <= notAfter && 0 <= skew ==>
              && Distance(now, at) <= skew
              && (InWindow(at, notBefore, notAfter) <==> InWindow(now, notBefore - skew, notAfter + skew))
              && (InWindow(at, notBefore, notAfter) ==>
                    forall t :: InWindow(t, notBefore, notAfter) ==> Distance(now, at) <= Distance(now, t))
              && (!InWindow(at, notBefore, notAfter) ==> at == now)
  {
    if now < notBefore && !(now < notBefore - skew) then notBefore
    else if now > notAfter && !(now > notAfter + skew) then notAfter
    else now
  }

  // Certificates.

  function NewSpiffeId(certificate: Certificate): Result<ID, SvidError> {
    if |certificate.uris| == 0 then Failure(NoUri)
    else if |certificate.uris| > 1 then Failure(MultipleUris)
    else
      match Parse(certificate.uris[0])
      case Success(id) => Success(id)
      case Failure(error) => Failure(BadSpiffeId(error))
  }

  function ValidateLeafCertificate(leaf: Certificate): Option<SvidError> {
    if leaf.isCA then Some(LeafIsCA)
    else if leaf.certSign then Some(LeafHasCertSign)
    else if leaf.crlSign then Some(LeafHasCrlSign)
    else if !leaf.digitalSignature then Some(LeafMissingDigitalSignature)
    else None
  }

  function LeafSpiffeId(leaf: Certificate): Result<ID, SvidError> {
    match NewSpiffeId(leaf)
    case Failure(error) => Failure(error)
    case Success(id) => if id.path == "" then Failure(LeafMissingPath) else Success(id)
  }

  /** The SPIFFE ID a signing certificate carries, if it carries one. */
  function ValidateSigningCertificate(certificate: Certificate): Result<Option<ID>, SvidError> {
    if !certificate.isCA then Failure(SigningNotCA)
    else if !certificate.certSign then Failure(SigningMissingCertSign)
    else if |certificate.uris| == 0 then Success(None)
    else
      match NewSpiffeId(certificate)
      case Failure(error) => Failure(error)
      case Success(id) => if id.path != "" then Failure(SigningHasPath) else Success(Some(id))
  }

  function ValidateSigningCertificateForLeaf(certificate: Certificate, leaf: ID): Option<SvidError> {
    match ValidateSigningCertificate(certificate)
    case Failure(error) => Some(error)
    case Success(None) => None
    case Success(Some(id)) =>
      if leaf.trustDomain != id.trustDomain then Some(SigningInOtherTrustDomain) else None
  }

  /** What the standard asks of a leaf. */
  predicate IsLeaf(leaf: Certificate) {
    && !leaf.isCA && !leaf.certSign && !leaf.crlSign && leaf.digitalSignature
    && |leaf.uris| == 1 && Parse(leaf.uris[0]).Success? && Parse(leaf.uris[0]).value.path != ""
  }

  /** What the standard asks of a certificate that signs for a trust domain. */
  predicate SignsFor(certificate: Certificate, trustDomain: string) {
    && certificate.isCA && certificate.certSign
    && (|certificate.uris| == 0 ||
          (&& |certificate.uris| == 1 && Parse(certificate.uris[0]).Success?
           && Parse(certificate.uris[0]).value.path == ""
           && Parse(certificate.uris[0]).value.trustDomain == trustDomain))
  }

  /** A leaf is refused for the first thing wrong with it. */
  lemma LeafVerdictExact(leaf: Certificate)
    ensures LeafVerdict(leaf).Success? <==> IsLeaf(leaf)
    ensures IsLeaf(leaf) ==> LeafVerdict(leaf) == Success(Leaf(Parse(leaf.uris[0]).value, leaf))
    ensures LeafVerdict(leaf) == Failure(LeafIsCA) <==> leaf.isCA
    ensures LeafVerdict(leaf) == Failure(LeafHasCertSign) <==> !leaf.isCA && leaf.certSign
    ensures LeafVerdict(leaf) == Failure(LeafHasCrlSign) <==> !leaf.isCA && !leaf.certSign && leaf.crlSign
    ensures LeafVerdict(leaf) == Failure(LeafMissingDigitalSignature) <==>
            !leaf.isCA && !leaf.certSign && !leaf.crlSign && !leaf.digitalSignature
    ensures KeyUsageOfLeaf(leaf) ==>
              && (LeafVerdict(leaf) == Failure(NoUri) <==> leaf.uris == [])
              && (LeafVerdict(leaf) == Failure(MultipleUris) <==> |leaf.uris| > 1)
              && (|leaf.uris| == 1 && Parse(leaf.uris[0]).Failure? ==>
                    LeafVerdict(leaf) == Failure(BadSpiffeId(Parse(leaf.uris[0]).error)))
              && (|leaf.uris| == 1 && Parse(leaf.uris[0]).Success? && Parse(leaf.uris[0]).value.path == "" ==>
                    LeafVerdict(leaf) == Failure(LeafMissingPath))
  {
  }

  predicate KeyUsageOfLeaf(leaf: Certificate) {
    !leaf.isCA && !leaf.certSign && !leaf.crlSign && leaf.digitalSignature
  }

  /** A signing certificate is refused for the first thing wrong with it. */
  lemma SignerExact(certificate: Certificate, leaf: ID)
    ensures var objection := ValidateSigningCertificateForLeaf(certificate, leaf);
            && (objection.None? <==> SignsFor(certificate, leaf.trustDomain))
            && (objection == Some(SigningNotCA) <==> !certificate.isCA)
            && (objection == Some(SigningMissingCertSign) <==> certificate.isCA && !certificate.certSign)
            && (certificate.isCA && certificate.certSign ==>
                  && objection != Some(NoUri)
                  && (objection == Some(MultipleUris) <==> |certificate.uris| > 1)
                  && (|certificate.uris| == 1 && Parse(certificate.uris[0]).Failure? ==>
                        objection == Some(BadSpiffeId(Parse(certificate.uris[0]).error)))
                  && (|certificate.uris| == 1 && Parse(certificate.uris[0]).Success? ==>
                        var id := Parse(certificate.uris[0]).value;
                        && (objection == Some(SigningHasPath) <==> id.path != "")
                        && (objection == Some(SigningInOtherTrustDomain) <==>
                              id.path == "" && id.trustDomain != leaf.trustDomain)))
  {
  }

  // Chains.

  /** The verdict on the leaf alone. */
  function LeafVerdict(leaf: Certificate): Result<Leaf, SvidError> {
    match ValidateLeafCertificate(leaf)
    case Some(error) => Failure(error)
    case None =>
      match LeafSpiffeId(leaf)
      case Failure(error) => Failure(error)
      case Success(id) => Success(Leaf(id, leaf))
  }

  /** The first objection to a signing certificate of the chain. */
  function FirstObjection(signers: seq<Certificate>, leaf: ID): Option<SvidError> {
    if signers == [] then None
    else
      match ValidateSigningCertificateForLeaf(signers[0], leaf)
      case Some(error) => Some(error)
      case None => FirstObjection(signers[1..], leaf)
  }

  function ChainVerdict(leaf: Certificate, signers: seq<Certificate>): Result<Leaf, SvidError> {
    match LeafVerdict(leaf)
    case Failure(error) => Failure(error)
    case Success(valid) =>
      match FirstObjection(signers, valid.spiffeId)
      case Some(error) => Failure(error)
      case None => Success(valid)
  }

  /** No signing certificate is objected to. */
  ghost predicate AllSuit(signers: seq<Certificate>, leaf: ID) {
    forall k :: 0 <= k < |signers| ==> ValidateSigningCertificateForLeaf(signers[k], leaf).None?
  }

  lemma {:induction false} NoObjectionIff(signers: seq<Certificate>, leaf: ID)
    ensures FirstObjection(signers, leaf).None? <==> AllSuit(signers, leaf)
  {
    if signers != [] {
      NoObjectionIff(signers[1..], leaf);
      assert AllSuit(signers, leaf) <==>
             ValidateSigningCertificateForLeaf(signers[0], leaf).None? && AllSuit(signers[1..], leaf);
    }
  }

  lemma ValidIff(leaf: Certificate, signers: seq<Certificate>)
    ensures ChainVerdict(leaf, signers).Success? <==>
              LeafVerdict(leaf).Success? && AllSuit(signers, LeafVerdict(leaf).value.spiffeId)
    ensures ChainVerdict(leaf, signers).Success? ==> ChainVerdict(leaf, signers) == LeafVerdict(leaf)
  {
    if LeafVerdict(leaf).Success? {
      NoObjectionIff(signers, LeafVerdict(leaf).value.spiffeId);
    }
  }

  /** The first certificate is a leaf and all others sign for its domain. */
  ghost predicate IsChain(certificates: seq<Certificate>)
    requires |certificates| > 0
  {
    && IsLeaf(certificates[0])
    && forall k :: 1 <= k < |certificates| ==>
         SignsFor(certificates[k], Parse(certificates[0].uris[0]).value.trustDomain)
  }

  lemma ValidByFields(certificates: seq<Certificate>)
    requires |certificates| > 0
    ensures ChainVerdict(certificates[0], certificates[1..]).Success? <==> IsChain(certificates)
  {
    var leaf, signers := certificates[0], certificates[1..];
    LeafVerdictExact(leaf);
    ValidIff(leaf, signers);
    if IsLeaf(leaf) {
      SignersByFields(certificates, Parse(leaf.uris[0]).value);
    }
  }

  lemma SignersByFields(certificates: seq<Certificate>, leaf: ID)
    requires |certificates| > 0
    ensures AllSuit(certificates[1..], leaf) <==>
            forall k :: 1 <= k < |certificates| ==> SignsFor(certificates[k], leaf.trustDomain)
  {
    var signers := certificates[1..];
    forall k | 1 <= k < |certificates|
      ensures ValidateSigningCertificateForLeaf(signers[k - 1], leaf).None? <==>
              SignsFor(certificates[k], leaf.trustDomain)
    {
      SignerExact(certificates[k], leaf);
    }
    if forall k :: 1 <= k < |certificates| ==> SignsFor(certificates[k], leaf.trustDomain) {
      forall j | 0 <= j < |signers| ensures ValidateSigningCertificateForLeaf(signers[j], leaf).None? {
        assert SignsFor(certificates[j + 1], leaf.trustDomain);
      }
    }
  }

  /** The certificate at k is the first that is objected to. */
  ghost predicate FirstAtFault(signers: seq<Certificate>, leaf: ID, k: nat, error: SvidError) {
    && k < |signers| && AllSuit(signers[..k], leaf)
    && ValidateSigningCertificateForLeaf(signers[k], leaf) == Some(error)
  }

  /** The error of a chain with a good leaf is that of the first signing certificate at fault. */
  lemma {:induction false} FirstObjectionExact(signers: seq<Certificate>, leaf: ID, error: SvidError)
    ensures FirstObjection(signers, leaf) == Some(error) <==> exists k: nat :: FirstAtFault(signers, leaf, k, error)
  {
    if signers != [] {
      var rest := signers[1..];
      FirstObjectionExact(rest, leaf, error);
      if ValidateSigningCertificateForLeaf(signers[0], leaf).Some? {
        if ValidateSigningCertificateForLeaf(signers[0], leaf) == Some(error) {
          assert FirstAtFault(signers, leaf, 0, error);
        }
        if k: nat :| FirstAtFault(signers, leaf, k, error) {
          SuitsInFront(signers, leaf, k);
        }
      } else {
        if k: nat :| FirstAtFault(rest, leaf, k, error) {
          FaultMoves(signers, leaf, k, error);
        }
        if k: nat :| FirstAtFault(signers, leaf, k, error) {
          assert k > 0;
          FaultMoves(signers, leaf, k - 1, error);
        }
      }
    }
  }

  lemma SuitsInFront(signers: seq<Certificate>, leaf: ID, k: nat)
    requires k <= |signers| && AllSuit(signers[..k], leaf)
    ensures k == 0 || ValidateSigningCertificateForLeaf(signers[0], leaf).None?
  {
    if k > 0 {
      assert signers[..k][0] == signers[0];
    }
  }

  lemma FaultMoves(signers: seq<Certificate>, leaf: ID, k: nat, error: SvidError)
    requires signers != [] && ValidateSigningCertificateForLeaf(signers[0], leaf).None?
    ensures FirstAtFault(signers[1..], leaf, k, error) <==> FirstAtFault(signers, leaf, k + 1, error)
  {
    if k < |signers[1..]| {
      assert signers[..k + 1] == [signers[0]] + signers[1..][..k];
      assert forall j :: 0 <= j < k ==> signers[1..][..k][j] == signers[..k + 1][j + 1];
    }
  }

  lemma ObjectionStep(certificates: seq<Certificate>, i: nat, leaf: ID)
    requires i < |certificates|
    ensures var objection := ValidateSigningCertificateForLeaf(certificates[i], leaf);
            FirstObjection(certificates[i..], leaf) ==
            if objection.Some? then objection else FirstObjection(certificates[i + 1..], leaf)
  {
    assert certificates[i..][0] == certificates[i] && certificates[i..][1..] == certificates[i + 1..];
  }

  /** A chain is valid exactly if its leaf is and no signing certificate is objected to; the error is
      that of the first certificate at fault. */
  method ValidateChain(certificates: seq<Certificate>) returns (result: Result<Leaf, SvidError>)
    requires |certificates| > 0
    ensures result == ChainVerdict(certificates[0], certificates[1..])
    ensures result.Success? <==>
              && LeafVerdict(certificates[0]).Success?
              && AllSuit(certificates[1..], LeafVerdict(certificates[0]).value.spiffeId)
    ensures result.Success? ==> result == LeafVerdict(certificates[0])
    ensures result.Success? <==> IsChain(certificates)
  {
    ValidIff(certificates[0], certificates[1..]);
    ValidByFields(certificates);
    var leaf := certificates[0];
    var invalid := ValidateLeafCertificate(leaf);
    if invalid.Some? {
      return Failure(invalid.value);
    }
    var leafId := LeafSpiffeId(leaf);
    if leafId.Failure? {
      return Failure(leafId.error);
    }
    var i := 1;
    while i < |certificates|
      invariant 1 <= i <= |certificates|
      invariant FirstObjection(certificates[1..], leafId.value) == FirstObjection(certificates[i..], leafId.value)
    {
      ObjectionStep(certificates, i, leafId.value);
      var objection := ValidateSigningCertificateForLeaf(certificates[i], leafId.value);
      if objection.Some? {
        return Failure(objection.value);
      }
      i := i + 1;
    }
    return Success(Leaf(leafId.value, leaf));
  }

  lemma {:induction false} ObjectionOfConcat(a: seq<Certificate>, b: seq<Certificate>, leaf: ID)
    ensures FirstObjection(a + b, leaf) ==
            if FirstObjection(a, leaf).Some? then FirstObjection(a, leaf) else FirstObjection(b, leaf)
  {
    if a == [] {
      assert a + b == b;
    } else {
      assert (a + b)[1..] == a[1..] + b;
      ObjectionOfConcat(a[1..], b, leaf);
    }
  }
}

/** Trust bundles (internal/authn/trustbundle.go). A bundle is text; the PEM decoder and the
    certificate parser behind it are a parameter with the contract of pem.Decode. */
module TrustBundle {
  import opened Wrappers
  import opened AgentIdentity
  import opened X509Svid

  const MARKER: string := "-----BEGIN "
  const LINE_MARKER: string := "\n-----BEGIN "
  const CERTIFICATE: string := "CERTIFICATE"
  const ZERO_TIME: int := 0

  /** A decoded block. The certificate is absent when its bytes do not parse as one. */
  datatype Block = Block(kind: string, hasHeaders: bool, certificate: Option<Certificate>)

  /** Reads the first block it can, and returns it with what follows. */
  type Decoder = string -> Option<(Block, string)>

  datatype BundleError =
    | UnexpectedData | BlockDropped | NotCertificate | BlockHasHeaders | Unparsable
    | BadSigner(error: SvidError) | WrongDomain | DuplicateCertificate | EmptyBundle

  datatype Bundle = Bundle(roots: seq<Certificate>, earliestExpiry: int)

  /** What a decoder reads is a prefix that ends at the end of a line or of the text. */
  ghost predicate ReadsLines(decode: Decoder) {
    forall rest :: decode(rest).Some? ==> CutsLine(rest, decode(rest).value.1)
  }

  predicate CutsLine(rest: string, remainder: string) {
    && |remainder| < |rest|
    && rest[|rest| - |remainder|..] == remainder
    && (remainder == "" || rest[|rest| - |remainder| - 1] == '\n')
  }

  /** What a decoder consumed. */
  function Chunk(rest: string, remainder: string): string
    requires |remainder| <= |rest|
  {
    rest[..|rest| - |remainder|]
  }

  // White space.

  predicate IsSpace(c: char) {
    c in " \t\n\r" || c == 11 as char || c == 12 as char
  }

  /** How many characters of white space a text begins with. */
  function SpaceBefore(s: string): (n: nat)
    ensures n <= |s|
    ensures forall k :: 0 <= k < n ==> IsSpace(s[k])
    ensures n < |s| ==> !IsSpace(s[n])
  {
    if s != "" && IsSpace(s[0]) then 1 + SpaceBefore(s[1..]) else 0
  }

  /** The length of a text without the white space it ends with. */
  function UpToSpace(s: string): (n: nat)
    ensures n <= |s|
    ensures forall k :: n <= k < |s| ==> IsSpace(s[k])
    ensures 0 < n ==> !IsSpace(s[n - 1])
  {
    if s != "" && IsSpace(s[|s| - 1]) then UpToSpace(s[..|s| - 1]) else |s|
  }

  function TrimLeft(s: string): string {
    s[SpaceBefore(s)..]
  }

  function TrimRight(s: string): string {
    s[..UpToSpace(s)]
  }

  /** bytes.TrimSpace. */
  function Trim(s: string): (t: string)
    ensures |t| <= |s|
  {
    TrimRight(TrimLeft(s))
  }

  // Reading.

  function BundleCertificate(block: Block): Result<Certificate, BundleError> {
    if block.kind != CERTIFICATE then Failure(NotCertificate)
    else if block.hasHeaders then Failure(BlockHasHeaders)
    else if block.certificate.None? then Failure(Unparsable)
    else
      match ValidateSigningCertificate(block.certificate.value)
      case Failure(error) => Failure(BadSigner(error))
      case Success(id) =>
        if id.Some? && id.value.trustDomain != TRUST_DOMAIN then Failure(WrongDomain)
        else Success(block.certificate.value)
  }

  /** What a block must pass to become a root. The bundle's own is BundleCertificate. */
  type Check = Block -> Result<Certificate, BundleError>

  function DecodeBlock(decode: Decoder, check: Check, rest: string): Result<(Certificate, string), BundleError> {
    if !(MARKER <= rest) then Failure(UnexpectedData)
    else
      match decode(rest)
      case None => Failure(BlockDropped)
      case Some((block, remainder)) =>
        match check(block)
        case Failure(error) => Failure(error)
        case Success(certificate) => Success((certificate, remainder))
  }

  function Raws(roots: seq<Certificate>): set<string> {
    set k | 0 <= k < |roots| :: roots[k].raw
  }

  /** The roots read off rest after those already read. */
  function ReadBlocks(decode: Decoder, check: Check, rest: string, roots: seq<Certificate>)
    : Result<seq<Certificate>, BundleError>
    requires ReadsLines(decode)
    decreases |rest|
  {
    if rest == "" then Success(roots)
    else
      match DecodeBlock(decode, check, rest)
      case Failure(error) => Failure(error)
      case Success((certificate, remainder)) =>
        assert CutsLine(rest, remainder);
        if certificate.raw in Raws(roots) then Failure(DuplicateCertificate)
        else ReadBlocks(decode, check, Trim(remainder), roots + [certificate])
  }

  /** bytes.Count: the separate occurrences of a separator. */
  function Count(s: string, separator: string): nat
    requires separator != ""
    decreases |s|
  {
    if |s| < |separator| then 0
    else if separator <= s then 1 + Count(s[|separator|..], separator)
    else Count(s[1..], separator)
  }

  function BeginMarkers(text: string): nat {
    Count(text, LINE_MARKER) + (if MARKER <= text then 1 else 0)
  }

  /** The expiry reported for a bundle. The zero time stands for none yet. */
  function EarliestExpiry(roots: seq<Certificate>): int {
    if roots == [] then ZERO_TIME
    else
      var earliest := EarliestExpiry(roots[..|roots| - 1]);
      var notAfter := roots[|roots| - 1].notAfter;
      if earliest == ZERO_TIME || notAfter < earliest then notAfter else earliest
  }

  function ParseBundle(decode: Decoder, check: Check, raw: string): Result<Bundle, BundleError>
    requires ReadsLines(decode)
  {
    var trimmed := Trim(raw);
    match ReadBlocks(decode, check, trimmed, [])
    case Failure(error) => Failure(error)
    case Success(roots) =>
      if roots == [] then Failure(EmptyBundle)
      else if |roots| != BeginMarkers(trimmed) then Failure(BlockDropped)
      else Success(Bundle(roots, EarliestExpiry(roots)))
  }

  ghost predicate Distinct(roots: seq<Certificate>) {
    forall i, j :: 0 <= i < j < |roots| ==> roots[i].raw != roots[j].raw
  }

  lemma OneMoreRoot(roots: seq<Certificate>, certificate: Certificate)
    requires Distinct(roots) && certificate.raw !in Raws(roots)
    ensures Distinct(roots + [certificate])
    ensures Raws(roots + [certificate]) == Raws(roots) + {certificate.raw}
    ensures EarliestExpiry(roots + [certificate]) ==
            if EarliestExpiry(roots) == ZERO_TIME || certificate.notAfter < EarliestExpiry(roots)
            then certificate.notAfter else EarliestExpiry(roots)
  {
    var more := roots + [certificate];
    assert more[..|roots|] == roots;
    forall k | 0 <= k < |roots| ensures roots[k].raw != certificate.raw {
      assert roots[k].raw in Raws(roots);
    }
    forall raw | raw in Raws(roots) + {certificate.raw} ensures raw in Raws(more) {
      if raw == certificate.raw {
        assert more[|roots|].raw == raw;
      } else {
        var k :| 0 <= k < |roots| && roots[k].raw == raw;
        assert more[k].raw == raw;
      }
    }
  }

  /** The loop over the blocks of a bundle, proved to read what ParseBundle says. */
  method ParseTrustBundle(decode: Decoder, check: Check, raw: string) returns (result: Result<Bundle, BundleError>)
    requires ReadsLines(decode)
    ensures result == ParseBundle(decode, check, raw)
    ensures result.Success? ==> result.value.roots != [] && Distinct(result.value.roots)
    ensures result.Success? ==> |result.value.roots| == BeginMarkers(Trim(raw))
    ensures result.Success? ==> result.value.earliestExpiry == EarliestExpiry(result.value.roots)
  {
    var trimmed := Trim(raw);
    var rest := trimmed;
    var roots: seq<Certificate> := [];
    var earliestExpiry := ZERO_TIME;
    var seen: set<string> := {};
    while |rest| > 0
      invariant ReadBlocks(decode, check, trimmed, []) == ReadBlocks(decode, check, rest, roots)
      invariant seen == Raws(roots)
      invariant Distinct(roots)
      invariant earliestExpiry == EarliestExpiry(roots)
      decreases |rest|
    {
      var decoded := DecodeBlock(decode, check, rest);
      if decoded.Failure? {
        return Failure(decoded.error);
      }
      var (certificate, remainder) := decoded.value;
      assert CutsLine(rest, remainder);
      if certificate.raw in seen {
        return Failure(DuplicateCertificate);
      }
      OneMoreRoot(roots, certificate);
      seen := seen + {certificate.raw};
      roots := roots + [certificate];
      if earliestExpiry == ZERO_TIME || certificate.notAfter < earliestExpiry {
        earliestExpiry := certificate.notAfter;
      }
      rest := Trim(remainder);
    }
    if |roots| == 0 {
      return Failure(EmptyBundle);
    }
    if |roots| != BeginMarkers(trimmed) {
      return Failure(BlockDropped);
    }
    return Success(Bundle(roots, earliestExpiry));
  }
}

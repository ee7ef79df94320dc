/** What an accepted trust bundle guarantees, and what it means in a handshake
    (internal/authn/trustbundle.go, internal/authn/x509svid/verifier.go). */
module BundleTheorems {
  import opened Wrappers
  import opened SpiffeId
  import opened AgentIdentity
  import opened X509Svid
  import opened TrustBundle

  // Counting markers.

  /** The places where a line begins with the marker, but for the first. */
  function Marks(s: string): nat {
    if s == "" then 0 else (if LINE_MARKER <= s then 1 else 0) + Marks(s[1..])
  }

  lemma {:induction false} SkipMarks(s: string, n: nat)
    requires n <= |s| && forall k :: 0 <= k < n ==> s[k] != '\n'
    ensures Marks(s) == Marks(s[n..])
  {
    if n > 0 {
      SkipMarks(s[1..], n - 1);
      assert s[1..][n - 1..] == s[n..];
      assert s[0] != LINE_MARKER[0];
    }
  }

  lemma {:induction false} ShortMarks(s: string)
    requires |s| < |LINE_MARKER|
    ensures Marks(s) == 0
  {
    if s != "" {
      ShortMarks(s[1..]);
    }
  }

  /** Counting separate occurrences counts every place: the marker has no line break of its own. */
  lemma {:induction false} CountIsMarks(s: string)
    ensures Count(s, LINE_MARKER) == Marks(s)
    decreases |s|
  {
    if |s| < |LINE_MARKER| {
      ShortMarks(s);
    } else if LINE_MARKER <= s {
      CountIsMarks(s[|LINE_MARKER|..]);
      forall k | 0 <= k < |LINE_MARKER| - 1 ensures s[1..][k] != '\n' {
        assert s[k + 1] == LINE_MARKER[k + 1];
      }
      SkipMarks(s[1..], |LINE_MARKER| - 1);
      assert s[1..][|LINE_MARKER| - 1..] == s[|LINE_MARKER|..];
    } else {
      CountIsMarks(s[1..]);
    }
  }

  predicate EndsLine(s: string) {
    s != "" && s[|s| - 1] == '\n'
  }

  lemma PrefixAt(p: string, s: string, i: nat)
    requires i < |p| && i < |s|
    ensures p <= s ==> p[i] == s[i]
  {
  }

  /** A marker that begins in a text that ends its line ends in it too. */
  lemma NoStraddle(marker: string, x: string, y: string)
    requires EndsLine(x)
    requires |x| < |marker| ==> marker[|x| - 1] != '\n'
    ensures marker <= x + y <==> marker <= x
  {
    if |x| < |marker| {
      PrefixAt(marker, x + y, |x| - 1);
    }
  }

  lemma {:induction false} MarksOfLines(x: string, y: string)
    requires EndsLine(x)
    ensures Marks(x + y) == Marks(x) + Marks(y) + (if MARKER <= y then 1 else 0)
  {
    assert (x + y)[1..] == x[1..] + y;
    if |x| == 1 {
      assert x[1..] + y == y;
      assert x == "\n";
      LineBreakBefore(y);
    } else {
      NoStraddle(LINE_MARKER, x, y);
      MarksOfLines(x[1..], y);
    }
  }

  lemma LineBreakBefore(y: string)
    ensures LINE_MARKER <= "\n" + y <==> MARKER <= y
    ensures Marks("\n") == 0
  {
    assert LINE_MARKER == "\n" + MARKER;
    assert ("\n" + y)[1..] == y;
    if MARKER <= y {
      assert y == MARKER + y[|MARKER|..];
      assert "\n" + y == LINE_MARKER + y[|MARKER|..];
    }
    if LINE_MARKER <= "\n" + y {
      assert ("\n" + y)[..|LINE_MARKER|][1..] == y[..|MARKER|];
    }
  }

  predicate AllSpace(s: string) {
    forall k :: 0 <= k < |s| ==> IsSpace(s[k])
  }

  lemma {:induction false} MarksOfSpace(gap: string, y: string)
    requires AllSpace(gap)
    ensures Marks(gap + y) == Marks(y) + (if EndsLine(gap) && MARKER <= y then 1 else 0)
  {
    if gap == "" {
      assert gap + y == y;
    } else {
      assert (gap + y)[1..] == gap[1..] + y;
      MarksOfSpace(gap[1..], y);
      if |gap| == 1 {
        if gap[0] == '\n' {
          assert gap == "\n";
          LineBreakBefore(y);
        }
      } else {
        assert (gap + y)[1] == gap[1];
        assert LINE_MARKER[1] == '-';
      }
    }
  }

  // The pieces a bundle is read in.

  /** What one decoder call consumed, and the white space trimmed off after it. */
  datatype Piece = Piece(chunk: string, gap: string) {

    /** The next block does not begin a line. */
    predicate Indents() {
      gap != "" && gap[|gap| - 1] != '\n'
    }
  }

  predicate RightTrimmed(s: string) {
    s != "" ==> !IsSpace(s[|s| - 1])
  }

  lemma TrimIsTrimmed(s: string)
    ensures RightTrimmed(Trim(s))
  {
  }

  /** The white space in front of a text. */
  function Gap(s: string): string {
    s[..SpaceBefore(s)]
  }

  /** Trimming a text that ends in no white space takes off what it begins with and no more. */
  lemma TrimLeftOnly(s: string)
    requires RightTrimmed(s)
    ensures Trim(s) == TrimLeft(s) && s == Gap(s) + TrimLeft(s)
    ensures Trim(s) == "" ==> s == ""
  {
    var t := TrimLeft(s);
    assert s != "" ==> SpaceBefore(s) < |s|;
    assert s != "" ==> t[|t| - 1] == s[|s| - 1];
    assert UpToSpace(t) == |t|;
  }

  lemma SuffixTrimmed(rest: string, remainder: string)
    requires RightTrimmed(rest) && CutsLine(rest, remainder)
    ensures RightTrimmed(remainder)
  {
    if remainder != "" {
      assert remainder[|remainder| - 1] == rest[|rest| - 1];
    }
  }

  /** After a block of a trimmed text, trimming takes off the gap before the next block and no more. */
  lemma NextBlock(rest: string, remainder: string)
    requires RightTrimmed(rest) && CutsLine(rest, remainder)
    ensures RightTrimmed(Trim(remainder))
    ensures remainder == Gap(remainder) + Trim(remainder) && AllSpace(Gap(remainder))
    ensures Trim(remainder) == "" ==> remainder == ""
  {
    SuffixTrimmed(rest, remainder);
    TrimLeftOnly(remainder);
    TrimIsTrimmed(remainder);
  }

  function Pieces(decode: Decoder, rest: string): seq<Piece>
    requires ReadsLines(decode)
    decreases |rest|
  {
    if rest == "" || decode(rest).None? then []
    else
      var remainder := decode(rest).value.1;
      assert CutsLine(rest, remainder);
      [Piece(Chunk(rest, remainder), Gap(remainder))] + Pieces(decode, Trim(remainder))
  }

  function Written(pieces: seq<Piece>): string {
    if pieces == [] then "" else pieces[0].chunk + pieces[0].gap + Written(pieces[1..])
  }

  /** The blocks the decoder was shown, those it passed over included. */
  function Shown(pieces: seq<Piece>): nat {
    if pieces == [] then 0 else BeginMarkers(pieces[0].chunk) + Shown(pieces[1..])
  }

  function Indented(pieces: seq<Piece>): nat {
    if pieces == [] then 0 else (if pieces[0].Indents() then 1 else 0) + Indented(pieces[1..])
  }

  /** The pieces rebuild a text, and its markers are those shown to the decoder less the indented ones. */
  ghost predicate Accounts(pieces: seq<Piece>, text: string) {
    Written(pieces) == text && BeginMarkers(text) + Indented(pieces) == Shown(pieces)
  }

  lemma AccountsFirst(pieces: seq<Piece>, text: string, next: string)
    requires pieces != [] && Accounts(pieces[1..], next)
    requires pieces[0].chunk + pieces[0].gap + next == text
    requires BeginMarkers(text) + (if pieces[0].Indents() then 1 else 0)
             == BeginMarkers(pieces[0].chunk) + (if next == "" then 0 else BeginMarkers(next))
    ensures Accounts(pieces, text)
  {
    assert BeginMarkers("") == 0;
  }

  /** Each piece begins with a block, and nothing but white space follows it. */
  ghost predicate Tidy(pieces: seq<Piece>) {
    forall k :: 0 <= k < |pieces| ==> MARKER <= pieces[k].chunk && AllSpace(pieces[k].gap)
  }

  lemma TidyFirst(pieces: seq<Piece>)
    requires pieces != [] && MARKER <= pieces[0].chunk && AllSpace(pieces[0].gap) && Tidy(pieces[1..])
    ensures Tidy(pieces)
  {
    forall k | 0 <= k < |pieces| ensures MARKER <= pieces[k].chunk && AllSpace(pieces[k].gap) {
      if k > 0 {
        assert pieces[k] == pieces[1..][k - 1];
      }
    }
  }

  ghost predicate NoneIndented(pieces: seq<Piece>) {
    forall k :: 0 <= k < |pieces| ==> !pieces[k].Indents()
  }

  ghost predicate NoneSkipped(pieces: seq<Piece>) {
    forall k :: 0 <= k < |pieces| ==> BeginMarkers(pieces[k].chunk) == 1
  }

  lemma MarkersAreMarks(text: string)
    ensures BeginMarkers(text) == Marks(text) + (if MARKER <= text then 1 else 0)
  {
    CountIsMarks(text);
  }

  /** Text that ends its line and what follows it have their markers apart. */
  lemma MarkersOfLines(x: string, y: string)
    requires EndsLine(x)
    ensures BeginMarkers(x + y) == BeginMarkers(x) + BeginMarkers(y)
  {
    MarkersAreMarks(x + y);
    MarkersAreMarks(x);
    MarkersAreMarks(y);
    MarksOfLines(x, y);
    NoStraddle(MARKER, x, y);
  }

  /** White space before a block hides its marker unless it ends a line. */
  lemma MarkersOfSpace(gap: string, next: string)
    requires AllSpace(gap) && MARKER <= next
    ensures BeginMarkers(gap + next) + (if gap != "" && !EndsLine(gap) then 1 else 0) == BeginMarkers(next)
  {
    MarkersAreMarks(gap + next);
    MarkersAreMarks(next);
    MarksOfSpace(gap, next);
    if gap == "" {
      assert gap + next == next;
    } else {
      PrefixAt(MARKER, gap + next, 0);
    }
  }

  /** The checks a bundle makes of a root. */
  predicate Anchors(root: Certificate) {
    match ValidateSigningCertificate(root)
    case Failure(_) => false
    case Success(None) => true
    case Success(Some(id)) => id.trustDomain == TRUST_DOMAIN
  }

  /** A root in its fields: a CA that signs certificates, and carries no identity or this domain's. */
  predicate IsRoot(root: Certificate) {
    root.isCA && root.certSign && (root.uris == [] || root.uris == ["spiffe://fizzled.internal"])
  }

  lemma DomainUriIsLiteral()
    ensures SCHEME + TRUST_DOMAIN == "spiffe://fizzled.internal"
    ensures SCHEME + TRUST_DOMAIN + "" == "spiffe://fizzled.internal"
  {
  }

  lemma DomainUriParses()
    ensures Parse("spiffe://fizzled.internal") == Success(ID("spiffe://fizzled.internal", TRUST_DOMAIN, ""))
  {
    var uri := SCHEME + TRUST_DOMAIN;
    DomainUriIsLiteral();
    DomainInGrammar(uri);
    ParseComplete(uri, TRUST_DOMAIN, []);
  }

  lemma DomainInGrammar(uri: string)
    requires uri == SCHEME + TRUST_DOMAIN
    ensures InGrammar(uri, TRUST_DOMAIN, [])
  {
    assert PathOf([]) == "" && uri == uri + "";
  }

  lemma DomainUriIsTheOne(uri: string)
    requires Parse(uri).Success? && Parse(uri).value.path == "" && Parse(uri).value.trustDomain == TRUST_DOMAIN
    ensures uri == "spiffe://fizzled.internal"
  {
    ParseSound(uri);
    assert uri == SCHEME + TRUST_DOMAIN + "";
    DomainUriIsLiteral();
  }

  /** What a bundle takes for a root, in the fields of the certificate. */
  lemma RootExact(root: Certificate)
    ensures Anchors(root) <==> IsRoot(root)
  {
    DomainUriParses();
    if |root.uris| == 1 {
      assert root.uris == [root.uris[0]];
      if Anchors(root) {
        DomainUriIsTheOne(root.uris[0]);
      }
    }
  }

  ghost predicate AllAnchor(roots: seq<Certificate>) {
    forall k :: 0 <= k < |roots| ==> Anchors(roots[k])
  }

  lemma OneMoreAnchor(roots: seq<Certificate>, certificate: Certificate)
    requires AllAnchor(roots) && Anchors(certificate)
    ensures AllAnchor(roots + [certificate])
  {
  }

  lemma AnchorsCertificate(block: Block)
    requires BundleCertificate(block).Success?
    ensures Anchors(BundleCertificate(block).value)
  {
  }

  /** One turn of the reading. */
  lemma ReadStep(decode: Decoder, check: Check, rest: string, roots: seq<Certificate>)
    returns (certificate: Certificate, remainder: string)
    requires ReadsLines(decode) && rest != ""
    requires ReadBlocks(decode, check, rest, roots).Success?
    ensures MARKER <= rest && decode(rest).Some? && decode(rest).value.1 == remainder && CutsLine(rest, remainder)
    ensures check(decode(rest).value.0) == Success(certificate)
    ensures |Trim(remainder)| < |rest|
    ensures ReadBlocks(decode, check, rest, roots) == ReadBlocks(decode, check, Trim(remainder), roots + [certificate])
    ensures Trim(remainder) != "" ==> MARKER <= Trim(remainder)
  {
    certificate, remainder := DecodeBlock(decode, check, rest).value.0, DecodeBlock(decode, check, rest).value.1;
    assert CutsLine(rest, remainder);
  }

  /** What one piece contributes, when another follows. */
  lemma PieceStep(chunk: string, gap: string, next: string)
    requires EndsLine(chunk) && AllSpace(gap) && MARKER <= next
    ensures BeginMarkers(chunk + (gap + next)) + (if Piece(chunk, gap).Indents() then 1 else 0)
            == BeginMarkers(chunk) + BeginMarkers(next)
  {
    MarkersOfLines(chunk, gap + next);
    MarkersOfSpace(gap, next);
  }

  /** Reading a bundle conserves its text and accounts for every marker in it: the pieces rebuild the
      text, there is one for each root, and the markers of the text are those shown to the decoder less
      one for each block that does not begin a line. */
  lemma {:induction false} Accounting(
    decode: Decoder, check: Check, rest: string, roots: seq<Certificate>, all: seq<Certificate>, pieces: seq<Piece>)
    requires ReadsLines(decode) && RightTrimmed(rest)
    requires ReadBlocks(decode, check, rest, roots) == Success(all)
    requires pieces == Pieces(decode, rest)
    ensures |all| == |roots| + |pieces|
    ensures Accounts(pieces, rest)
    ensures Tidy(pieces)
    decreases |rest|
  {
    if rest != "" {
      var certificate, remainder := ReadStep(decode, check, rest, roots);
      var next := Trim(remainder);
      FirstPiece(decode, rest, remainder, next, pieces);
      OnePieceMore(pieces, rest, remainder, next);
      Accounting(decode, check, next, roots + [certificate], all, pieces[1..]);
    }
  }

  lemma OnePieceMore(pieces: seq<Piece>, rest: string, remainder: string, next: string)
    requires CutsLine(rest, remainder) && MARKER <= rest
    requires pieces != [] && pieces[0].chunk == Chunk(rest, remainder)
    requires AllSpace(pieces[0].gap) && remainder == pieces[0].gap + next
    requires if next == "" then remainder == "" else MARKER <= next
    ensures Accounts(pieces[1..], next) ==> Accounts(pieces, rest)
    ensures Tidy(pieces[1..]) ==> Tidy(pieces)
  {
    var chunk, gap := pieces[0].chunk, pieces[0].gap;
    MarkerInChunk(rest, remainder);
    if Tidy(pieces[1..]) {
      TidyFirst(pieces);
    }
    assert rest == chunk + remainder;
    if next == "" {
      assert gap == "" && rest == chunk;
    } else {
      PieceStep(chunk, gap, next);
    }
    if Accounts(pieces[1..], next) {
      assert chunk + gap + next == rest;
      AccountsFirst(pieces, rest, next);
    }
  }

  lemma FirstPiece(decode: Decoder, rest: string, remainder: string, next: string, pieces: seq<Piece>)
    requires ReadsLines(decode) && rest != "" && RightTrimmed(rest)
    requires decode(rest).Some? && decode(rest).value.1 == remainder && CutsLine(rest, remainder)
    requires next == Trim(remainder) && pieces == Pieces(decode, rest)
    ensures pieces != [] && pieces[1..] == Pieces(decode, next)
    ensures pieces[0].chunk == Chunk(rest, remainder)
    ensures AllSpace(pieces[0].gap) && remainder == pieces[0].gap + next
    ensures next == "" ==> remainder == ""
    ensures RightTrimmed(next)
  {
    NextBlock(rest, remainder);
  }

  lemma MarkerInChunk(rest: string, remainder: string)
    requires CutsLine(rest, remainder) && MARKER <= rest
    ensures MARKER <= Chunk(rest, remainder)
  {
    var chunk := Chunk(rest, remainder);
    assert rest == chunk + remainder;
    if remainder != "" {
      NoStraddle(MARKER, chunk, remainder);
    } else {
      assert chunk == rest;
    }
  }

  lemma {:induction false} ShownAtLeast(pieces: seq<Piece>)
    requires Tidy(pieces)
    ensures |pieces| <= Shown(pieces)
    ensures Shown(pieces) == |pieces| <==> NoneSkipped(pieces)
  {
    if pieces != [] {
      ShownAtLeast(pieces[1..]);
      assert NoneSkipped(pieces) <==> BeginMarkers(pieces[0].chunk) == 1 && NoneSkipped(pieces[1..]);
    }
  }

  /** A bundle is accepted exactly if it reads as one certificate or more and the blocks the decoder
      passed over are as many as the blocks that do not begin a line. */
  lemma AcceptedIff(decode: Decoder, check: Check, raw: string)
    requires ReadsLines(decode)
    ensures var pieces := Pieces(decode, Trim(raw));
            ParseBundle(decode, check, raw).Success? <==>
            && ReadBlocks(decode, check, Trim(raw), []).Success?
            && pieces != []
            && Shown(pieces) - |pieces| == Indented(pieces)
  {
    TrimIsTrimmed(raw);
    var read := ReadBlocks(decode, check, Trim(raw), []);
    if read.Success? {
      Accounting(decode, check, Trim(raw), [], read.value, Pieces(decode, Trim(raw)));
    }
  }

  lemma AcceptedPieces(decode: Decoder, check: Check, raw: string)
    requires ReadsLines(decode)
    requires ParseBundle(decode, check, raw).Success?
    ensures var pieces := Pieces(decode, Trim(raw));
            && |ParseBundle(decode, check, raw).value.roots| == |pieces|
            && Written(pieces) == Trim(raw)
            && Tidy(pieces)
            && Shown(pieces) == |pieces| + Indented(pieces)
  {
    TrimIsTrimmed(raw);
    var pieces := Pieces(decode, Trim(raw));
    Accounting(decode, check, Trim(raw), [], ReadBlocks(decode, check, Trim(raw), []).value, pieces);
  }

  /** Conservation: an accepted bundle lost no block, each decoder call consuming exactly one, if and
      only if every block of it begins a line. */
  lemma NothingSkippedIff(decode: Decoder, check: Check, raw: string)
    requires ReadsLines(decode)
    requires ParseBundle(decode, check, raw).Success?
    ensures var pieces := Pieces(decode, Trim(raw));
            && |ParseBundle(decode, check, raw).value.roots| == |pieces|
            && Written(pieces) == Trim(raw)
            && (NoneSkipped(pieces) <==> NoneIndented(pieces))
  {
    var pieces := Pieces(decode, Trim(raw));
    AcceptedPieces(decode, check, raw);
    ShownAtLeast(pieces);
    IndentedNone(pieces);
  }

  lemma {:induction false} IndentedNone(pieces: seq<Piece>)
    ensures Indented(pieces) == 0 <==> NoneIndented(pieces)
  {
    if pieces != [] {
      IndentedNone(pieces[1..]);
      assert NoneIndented(pieces) <==> !pieces[0].Indents() && NoneIndented(pieces[1..]);
    }
  }

  /** No marker stands behind white space on its line. */
  predicate MarkersBeginLines(text: string) {
    forall i :: 1 <= i < |text| && MARKER <= text[i..] ==> text[i - 1] == '\n' || !IsSpace(text[i - 1])
  }

  lemma SuffixBeginsLines(text: string, n: nat)
    requires n <= |text| && MarkersBeginLines(text)
    ensures MarkersBeginLines(text[n..])
  {
    var suffix := text[n..];
    forall i | 1 <= i < |suffix| && MARKER <= suffix[i..] ensures suffix[i - 1] == '\n' || !IsSpace(suffix[i - 1]) {
      assert suffix[i..] == text[n + i..];
    }
  }

  /** The first block is not followed by an indented one. */
  lemma FirstNotIndented(pieces: seq<Piece>, text: string)
    requires pieces != [] && Tidy(pieces) && Written(pieces) == text
    requires RightTrimmed(text) && MarkersBeginLines(text)
    ensures !pieces[0].Indents()
  {
    var front := pieces[0].chunk + pieces[0].gap;
    var next := Written(pieces[1..]);
    assert text == front + next && text[|front|..] == next;
    assert pieces[0].gap != "" ==> text[|front| - 1] == pieces[0].gap[|pieces[0].gap| - 1];
    assert next != "" ==> MARKER <= next by {
      if |pieces| > 1 {
        assert MARKER <= pieces[1..][0].chunk;
      }
    }
  }

  lemma {:induction false} BegunLinesAreNotIndented(pieces: seq<Piece>, text: string)
    requires Tidy(pieces) && Written(pieces) == text
    requires RightTrimmed(text) && MarkersBeginLines(text)
    ensures NoneIndented(pieces)
  {
    if pieces != [] {
      var front := pieces[0].chunk + pieces[0].gap;
      var next := Written(pieces[1..]);
      FirstNotIndented(pieces, text);
      assert text == front + next && text[|front|..] == next;
      SuffixBeginsLines(text, |front|);
      BegunLinesAreNotIndented(pieces[1..], next);
      assert NoneIndented(pieces) <==> !pieces[0].Indents() && NoneIndented(pieces[1..]);
    }
  }

  /** A bundle in whose text no marker stands behind white space on its line loses no block. */
  lemma NothingSkipped(decode: Decoder, check: Check, raw: string)
    requires ReadsLines(decode)
    requires ParseBundle(decode, check, raw).Success?
    requires MarkersBeginLines(Trim(raw))
    ensures NoneSkipped(Pieces(decode, Trim(raw)))
  {
    AcceptedPieces(decode, check, raw);
    TrimIsTrimmed(raw);
    BegunLinesAreNotIndented(Pieces(decode, Trim(raw)), Trim(raw));
    NothingSkippedIff(decode, check, raw);
  }

  predicate NoMarkerInside(chunk: string) {
    forall i :: 1 <= i < |chunk| ==> !(MARKER <= chunk[i..])
  }

  predicate WholeBlock(rest: string, block: Block, remainder: string) {
    (&& CutsLine(rest, remainder) && block.kind == CERTIFICATE && !block.hasHeaders
     && BeginMarkers(Chunk(rest, remainder)) == 1) ==> NoMarkerInside(Chunk(rest, remainder))
  }

  /** Where a decoder consumed one marker to read a certificate block without headers, no other marker
      is in what it consumed: between the lines of the block is base64, which has no dash. */
  ghost predicate ReadsBase64(decode: Decoder) {
    forall rest :: decode(rest).Some? ==> WholeBlock(rest, decode(rest).value.0, decode(rest).value.1)
  }

  /** Every marker but one at the start stands right behind a line break. */
  predicate MarkersFollowBreaks(text: string) {
    forall i :: 1 <= i < |text| && MARKER <= text[i..] ==> text[i - 1] == '\n'
  }

  lemma SplitAt(x: string, y: string, i: nat)
    requires i <= |x|
    ensures (x + y)[i..] == x[i..] + y
  {
  }

  /** The markers of a chunk, at i, when another block follows. */
  lemma MarkerInFront(chunk: string, rest: string, i: nat)
    requires NoMarkerInside(chunk) && 1 <= i < |chunk|
    requires rest == "" || EndsLine(chunk)
    ensures !(MARKER <= (chunk + rest)[i..])
  {
    SplitAt(chunk, rest, i);
    if rest == "" {
      assert chunk[i..] + rest == chunk[i..];
    } else {
      NoStraddle(MARKER, chunk[i..], rest);
    }
  }

  /** The markers of a gap and of what follows it. */
  lemma GapKeepsBreaks(gap: string, next: string)
    requires AllSpace(gap) && (gap == "" || EndsLine(gap)) && MarkersFollowBreaks(next)
    ensures MarkersFollowBreaks(gap + next)
  {
    var text := gap + next;
    forall i | 1 <= i < |text| && MARKER <= text[i..] ensures text[i - 1] == '\n' {
      PrefixAt(MARKER, text[i..], 0);
      assert text[i] == '-' && i >= |gap|;
      if i > |gap| {
        assert text[i..] == next[i - |gap|..] && text[i - 1] == next[i - |gap| - 1];
      }
    }
  }

  lemma ChunkKeepsBreaks(chunk: string, rest: string)
    requires NoMarkerInside(chunk) && MarkersFollowBreaks(rest)
    requires rest == "" || EndsLine(chunk)
    ensures MarkersFollowBreaks(chunk + rest)
  {
    var text := chunk + rest;
    forall i | 1 <= i < |text| && MARKER <= text[i..] ensures text[i - 1] == '\n' {
      if i < |chunk| {
        MarkerInFront(chunk, rest, i);
      } else if i > |chunk| {
        assert text[i..] == rest[i - |chunk|..] && text[i - 1] == rest[i - |chunk| - 1];
      }
    }
  }

  lemma FirstChunk(decode: Decoder, rest: string, remainder: string, pieces: seq<Piece>)
    requires ReadsBase64(decode) && CutsLine(rest, remainder)
    requires decode(rest).Some? && decode(rest).value.1 == remainder
    requires BundleCertificate(decode(rest).value.0).Success?
    requires pieces != [] && pieces[0].chunk == Chunk(rest, remainder) && NoneSkipped(pieces)
    ensures NoMarkerInside(pieces[0].chunk)
    ensures remainder == "" || EndsLine(pieces[0].chunk)
  {
    assert WholeBlock(rest, decode(rest).value.0, remainder);
    assert BeginMarkers(pieces[0].chunk) == 1;
  }

  lemma PieceKeepsBreaks(piece: Piece, remainder: string, next: string)
    requires NoMarkerInside(piece.chunk) && (remainder == "" || EndsLine(piece.chunk))
    requires AllSpace(piece.gap) && (piece.gap == "" || EndsLine(piece.gap))
    requires remainder == piece.gap + next && MarkersFollowBreaks(next)
    ensures MarkersFollowBreaks(piece.chunk + remainder)
  {
    GapKeepsBreaks(piece.gap, next);
    ChunkKeepsBreaks(piece.chunk, remainder);
  }

  lemma ChunkIsFront(rest: string, remainder: string)
    requires CutsLine(rest, remainder)
    ensures rest == Chunk(rest, remainder) + remainder
  {
  }

  /** One piece, and what is read after it. */
  lemma FirstWholeBlock(decode: Decoder, rest: string, roots: seq<Certificate>, pieces: seq<Piece>)
    returns (certificate: Certificate, next: string)
    requires ReadsLines(decode) && ReadsBase64(decode) && RightTrimmed(rest) && rest != ""
    requires ReadBlocks(decode, BundleCertificate, rest, roots).Success?
    requires pieces == Pieces(decode, rest) && NoneSkipped(pieces) && NoneIndented(pieces)
    ensures |next| < |rest| && RightTrimmed(next)
    ensures ReadBlocks(decode, BundleCertificate, next, roots + [certificate]).Success?
    ensures pieces != [] && pieces[1..] == Pieces(decode, next)
    ensures MarkersFollowBreaks(next) ==> MarkersFollowBreaks(rest)
  {
    var remainder;
    certificate, remainder := ReadStep(decode, BundleCertificate, rest, roots);
    next := Trim(remainder);
    FirstPiece(decode, rest, remainder, next, pieces);
    FirstChunk(decode, rest, remainder, pieces);
    LaterPieces(pieces);
    ChunkIsFront(rest, remainder);
    if MarkersFollowBreaks(next) {
      PieceKeepsBreaks(pieces[0], remainder, next);
    }
  }

  lemma {:induction false} WholeBlocksFollowBreaks(
    decode: Decoder, rest: string, roots: seq<Certificate>, pieces: seq<Piece>)
    requires ReadsLines(decode) && ReadsBase64(decode) && RightTrimmed(rest)
    requires ReadBlocks(decode, BundleCertificate, rest, roots).Success?
    requires pieces == Pieces(decode, rest) && NoneSkipped(pieces) && NoneIndented(pieces)
    ensures MarkersFollowBreaks(rest)
    decreases |rest|
  {
    if rest != "" {
      var certificate, next := FirstWholeBlock(decode, rest, roots, pieces);
      LaterPieces(pieces);
      WholeBlocksFollowBreaks(decode, next, roots + [certificate], pieces[1..]);
    }
  }

  lemma LaterPieces(pieces: seq<Piece>)
    requires pieces != [] && NoneSkipped(pieces) && NoneIndented(pieces)
    ensures NoneSkipped(pieces[1..]) && NoneIndented(pieces[1..])
    ensures pieces[0].gap == "" || EndsLine(pieces[0].gap)
  {
  }

  /** What a caller can see before the call: an accepted bundle lost no block if and only if no marker
      of its text stands behind white space on its line. */
  lemma NothingSkippedByText(decode: Decoder, raw: string)
    requires ReadsLines(decode) && ReadsBase64(decode)
    requires ParseBundle(decode, BundleCertificate, raw).Success?
    ensures NoneSkipped(Pieces(decode, Trim(raw))) <==> MarkersBeginLines(Trim(raw))
  {
    var pieces := Pieces(decode, Trim(raw));
    if MarkersBeginLines(Trim(raw)) {
      NothingSkipped(decode, BundleCertificate, raw);
    }
    if NoneSkipped(pieces) {
      NothingSkippedIff(decode, BundleCertificate, raw);
      TrimIsTrimmed(raw);
      WholeBlocksFollowBreaks(decode, Trim(raw), [], pieces);
    }
  }

  // Two blocks.

  const BEGIN_LINE: string := MARKER + "CERTIFICATE-----"
  const END_LINE: string := "-----END CERTIFICATE-----"

  /** A begin line that lost its closing dashes. A PEM decoder passes it over. */
  const MALFORMED_LINE: string := MARKER + "CERTIFICATE"

  /** A PEM block around the base64 of a certificate. */
  function Pem(base64: string, end: string): string {
    (BEGIN_LINE + "\n") + ((base64 + "\n") + (END_LINE + end))
  }

  lemma MarkerBeforeBreak(line: string)
    requires '\n' !in line
    ensures MARKER <= line + "\n" <==> MARKER <= line
  {
    if |line| < |MARKER| {
      PrefixAt(MARKER, line + "\n", |line|);
    }
  }

  /** The markers of a single line. */
  lemma LineMarkers(line: string)
    requires '\n' !in line
    ensures BeginMarkers(line) == if MARKER <= line then 1 else 0
    ensures BeginMarkers(line + "\n") == if MARKER <= line then 1 else 0
  {
    assert (line + "\n")[|line|..] == "\n";
    SkipMarks(line, |line|);
    SkipMarks(line + "\n", |line|);
    ShortMarks("\n");
    MarkersAreMarks(line);
    MarkersAreMarks(line + "\n");
    MarkerBeforeBreak(line);
  }

  lemma {:induction false} NoDashNoMarks(s: string)
    requires '-' !in s
    ensures Marks(s) == 0
  {
    if s != "" {
      NoDashNoMarks(s[1..]);
      if |s| > 1 {
        assert s[1] in s;
        assert LINE_MARKER[1] == '-';
      }
    }
  }

  lemma NoDashNoMarkers(s: string)
    requires '-' !in s
    ensures BeginMarkers(s) == 0
  {
    NoDashNoMarks(s);
    MarkersAreMarks(s);
    if s != "" {
      assert s[0] in s;
      PrefixAt(MARKER, s, 0);
    }
  }

  lemma EndLineIsOneLine()
    ensures '\n' !in END_LINE
  {
  }

  lemma EndLineBeginsNothing()
    ensures !(MARKER <= END_LINE)
  {
    assert END_LINE[5] == 'E' && MARKER[5] == 'B';
    PrefixAt(MARKER, END_LINE, 5);
  }

  lemma EndLineHasNone(end: string)
    requires end == "" || end == "\n"
    ensures BeginMarkers(END_LINE + end) == 0
  {
    EndLineIsOneLine();
    EndLineBeginsNothing();
    LineMarkers(END_LINE);
    if end == "" {
      assert END_LINE + end == END_LINE;
    }
  }

  lemma PemHasOneMarker(base64: string, end: string)
    requires '-' !in base64 && (end == "" || end == "\n")
    ensures BeginMarkers(Pem(base64, end)) == 1
    ensures MARKER <= Pem(base64, end)
  {
    LineMarkers(BEGIN_LINE);
    NoDashNoMarkers(base64 + "\n");
    EndLineHasNone(end);
    MarkersOfLines(base64 + "\n", END_LINE + end);
    MarkersOfLines(BEGIN_LINE + "\n", (base64 + "\n") + (END_LINE + end));
    assert MARKER <= BEGIN_LINE;
  }

  lemma PemEnds(base64: string)
    ensures EndsLine(Pem(base64, "\n"))
    ensures var last := Pem(base64, ""); !IsSpace(last[|last| - 1])
  {
    assert END_LINE[|END_LINE| - 1] == '-';
  }

  function BlockOf(root: Certificate): Block {
    Block(CERTIFICATE, false, Some(root))
  }

  /** What the decoder makes of two blocks: one root off lead, with the gap and last left, and one off
      last. */
  ghost predicate ReadsPair(
    decode: Decoder, lead: string, gap: string, last: string, a: Certificate, b: Certificate) {
    && ReadsLines(decode)
    && decode(lead + (gap + last)) == Some((BlockOf(a), gap + last))
    && decode(last) == Some((BlockOf(b), ""))
  }

  /** Two blocks that a bundle can hold, in lines of their own but for the gap. */
  predicate MakesPair(lead: string, gap: string, last: string) {
    && EndsLine(lead) && MARKER <= lead && MARKER <= last && !IsSpace(last[|last| - 1])
    && (gap == "" || gap == " ")
  }

  /** There is such a decoder. */
  lemma PairIsReadable(lead: string, gap: string, last: string, a: Certificate, b: Certificate)
    requires MakesPair(lead, gap, last)
    ensures exists decode :: ReadsPair(decode, lead, gap, last, a, b)
  {
    var text := lead + (gap + last);
    var decode: Decoder :=
      rest => if rest == text then Some((BlockOf(a), gap + last))
              else if rest == last then Some((BlockOf(b), ""))
              else None;
    assert text[|lead|..] == gap + last;
    assert text[|lead| - 1] == lead[|lead| - 1];
    assert last[|last|..] == "";
    assert ReadsPair(decode, lead, gap, last, a, b);
  }

  lemma TrimNothing(s: string)
    requires s != "" && !IsSpace(s[0]) && !IsSpace(s[|s| - 1])
    ensures SpaceBefore(s) == 0 && UpToSpace(s) == |s| && Trim(s) == s
  {
  }

  lemma TrimGap(gap: string, last: string)
    requires gap == "" || gap == " "
    requires last != "" && !IsSpace(last[0]) && !IsSpace(last[|last| - 1])
    ensures Gap(gap + last) == gap && Trim(gap + last) == last
  {
    var s := gap + last;
    assert s[|gap|..] == last && s[..|gap|] == gap;
    TrimNothing(last);
    if gap == "" {
      assert s == last;
    } else {
      assert s[0] == ' ' && s[1..] == last;
    }
  }

  lemma TrimPair(lead: string, gap: string, last: string)
    requires MakesPair(lead, gap, last)
    ensures Trim(lead + (gap + last)) == lead + (gap + last)
    ensures Gap(gap + last) == gap && Trim(gap + last) == last
  {
    PrefixAt(MARKER, lead, 0);
    PrefixAt(MARKER, last, 0);
    TrimNothing(lead + (gap + last));
    TrimGap(gap, last);
  }

  lemma OneAndOne<T>(first: T, second: T)
    ensures [first] + [second] == [first, second]
  {
  }

  lemma NoneAndOne<T>(first: T)
    ensures [] + [first] == [first]
  {
  }

  lemma LastReads(decode: Decoder, last: string, a: Certificate, b: Certificate)
    requires ReadsLines(decode) && MARKER <= last && decode(last) == Some((BlockOf(b), ""))
    requires Anchors(b) && a.raw != b.raw
    ensures Pieces(decode, last) == [Piece(last, "")]
    ensures ReadBlocks(decode, BundleCertificate, last, [a]) == Success([a, b])
  {
    assert Trim("") == "" && Gap("") == "" && Chunk(last, "") == last;
    assert BundleCertificate(BlockOf(b)) == Success(b);
    assert DecodeBlock(decode, BundleCertificate, last) == Success((b, ""));
    OneAndOne(a, b);
  }

  lemma FirstReads(decode: Decoder, lead: string, second: string, a: Certificate)
    requires EndsLine(lead) && MARKER <= lead && Anchors(a)
    requires decode(lead + second) == Some((BlockOf(a), second))
    ensures CutsLine(lead + second, second) && Chunk(lead + second, second) == lead
    ensures DecodeBlock(decode, BundleCertificate, lead + second) == Success((a, second))
  {
    var text := lead + second;
    assert text[|lead|..] == second && text[..|lead|] == lead;
    assert text[|lead| - 1] == lead[|lead| - 1];
    assert BundleCertificate(BlockOf(a)) == Success(a);
  }

  lemma PiecesStep(decode: Decoder, rest: string)
    requires ReadsLines(decode) && rest != "" && decode(rest).Some?
    ensures var remainder := decode(rest).value.1;
            && CutsLine(rest, remainder)
            && Pieces(decode, rest) == [Piece(Chunk(rest, remainder), Gap(remainder))] + Pieces(decode, Trim(remainder))
  {
    assert CutsLine(rest, decode(rest).value.1);
  }

  lemma BlocksStep(
    decode: Decoder, check: Check, rest: string, roots: seq<Certificate>, certificate: Certificate, remainder: string)
    requires ReadsLines(decode) && rest != "" && certificate.raw !in Raws(roots)
    requires DecodeBlock(decode, check, rest) == Success((certificate, remainder))
    ensures CutsLine(rest, remainder)
    ensures ReadBlocks(decode, check, rest, roots) == ReadBlocks(decode, check, Trim(remainder), roots + [certificate])
  {
    assert CutsLine(rest, remainder);
  }

  lemma TwoPieces(decode: Decoder, text: string, second: string, first: Piece, last: Piece, next: string)
    requires ReadsLines(decode) && text != ""
    requires decode(text).Some? && decode(text).value.1 == second && |second| <= |text|
    requires first == Piece(Chunk(text, second), Gap(second)) && Trim(second) == next
    requires Pieces(decode, next) == [last]
    ensures Pieces(decode, text) == [first, last]
  {
    PiecesStep(decode, text);
    OneAndOne(first, last);
  }

  lemma TwoRoots(decode: Decoder, text: string, second: string, next: string, a: Certificate, b: Certificate)
    requires ReadsLines(decode) && text != ""
    requires DecodeBlock(decode, BundleCertificate, text) == Success((a, second)) && Trim(second) == next
    requires ReadBlocks(decode, BundleCertificate, next, [a]) == Success([a, b])
    ensures ReadBlocks(decode, BundleCertificate, text, []) == Success([a, b])
  {
    BlocksStep(decode, BundleCertificate, text, [], a, second);
    NoneAndOne(a);
  }

  lemma PairReadsAs(
    decode: Decoder, lead: string, second: string, last: string, a: Certificate, b: Certificate)
    requires EndsLine(lead) && MARKER <= lead && MARKER <= last && Trim(second) == last
    requires Anchors(a) && Anchors(b) && a.raw != b.raw && ReadsLines(decode)
    requires decode(lead + second) == Some((BlockOf(a), second)) && decode(last) == Some((BlockOf(b), ""))
    ensures Pieces(decode, lead + second) == [Piece(lead, Gap(second)), Piece(last, "")]
    ensures ReadBlocks(decode, BundleCertificate, lead + second, []) == Success([a, b])
  {
    FirstReads(decode, lead, second, a);
    LastReads(decode, last, a, b);
    TwoPieces(decode, lead + second, second, Piece(lead, Gap(second)), Piece(last, ""), last);
    TwoRoots(decode, lead + second, second, last, a, b);
  }

  /** What the pair of blocks reads as. */
  lemma PairReads(decode: Decoder, lead: string, gap: string, last: string, a: Certificate, b: Certificate)
    requires MakesPair(lead, gap, last) && Anchors(a) && Anchors(b) && a.raw != b.raw
    requires ReadsPair(decode, lead, gap, last, a, b)
    ensures Pieces(decode, lead + (gap + last)) == [Piece(lead, gap), Piece(last, "")]
    ensures ReadBlocks(decode, BundleCertificate, lead + (gap + last), []) == Success([a, b])
  {
    TrimPair(lead, gap, last);
    PairReadsAs(decode, lead, gap + last, last, a, b);
  }

  lemma PairMarkers(lead: string, gap: string, last: string)
    requires MakesPair(lead, gap, last)
    requires BeginMarkers(lead) == (if gap == "" then 1 else 2) && BeginMarkers(last) == 1
    ensures BeginMarkers(lead + (gap + last)) == 2
  {
    MarkersOfLines(lead, gap + last);
    MarkersOfSpace(gap, last);
    if gap == "" {
      assert gap + last == last;
    }
  }

  lemma PairParses(decode: Decoder, lead: string, gap: string, last: string, a: Certificate, b: Certificate)
    requires MakesPair(lead, gap, last) && Anchors(a) && Anchors(b) && a.raw != b.raw
    requires ReadsPair(decode, lead, gap, last, a, b)
    requires BeginMarkers(lead) == (if gap == "" then 1 else 2) && BeginMarkers(last) == 1
    ensures ParseBundle(decode, BundleCertificate, lead + (gap + last))
            == Success(Bundle([a, b], EarliestExpiry([a, b])))
  {
    TrimPair(lead, gap, last);
    PairReads(decode, lead, gap, last, a, b);
    PairMarkers(lead, gap, last);
  }

  /** A begin line that lost its dashes, the block of one root, and the block of another, indented. */
  function HidingText(x: string, y: string): string {
    ((MALFORMED_LINE + "\n") + Pem(x, "\n")) + (" " + Pem(y, ""))
  }

  lemma HidingPair(x: string, y: string)
    requires '-' !in x && '-' !in y
    ensures var lead := (MALFORMED_LINE + "\n") + Pem(x, "\n");
            MakesPair(lead, " ", Pem(y, "")) && BeginMarkers(lead) == 2 && BeginMarkers(Pem(y, "")) == 1
  {
    PemHasOneMarker(x, "\n");
    PemHasOneMarker(y, "");
    PemEnds(x);
    PemEnds(y);
    LineMarkers(MALFORMED_LINE);
    assert MARKER <= MALFORMED_LINE;
    MarkersOfLines(MALFORMED_LINE + "\n", Pem(x, "\n"));
  }

  /** The condition is needed: around the base64 of any two roots there is a text of three begin lines,
      the first malformed and the last indented, that is accepted with two roots by any decoder that
      passes the malformed line over, though its first call has consumed two markers. */
  lemma IndentedBlockHidesAnother(decode: Decoder, x: string, y: string, a: Certificate, b: Certificate)
    requires '-' !in x && '-' !in y
    requires Anchors(a) && Anchors(b) && a.raw != b.raw
    requires ReadsPair(decode, (MALFORMED_LINE + "\n") + Pem(x, "\n"), " ", Pem(y, ""), a, b)
    ensures ParseBundle(decode, BundleCertificate, HidingText(x, y)).Success?
    ensures ParseBundle(decode, BundleCertificate, HidingText(x, y)).value.roots == [a, b]
    ensures !NoneSkipped(Pieces(decode, Trim(HidingText(x, y))))
  {
    var lead, last := (MALFORMED_LINE + "\n") + Pem(x, "\n"), Pem(y, "");
    HidingPair(x, y);
    PairParses(decode, lead, " ", last, a, b);
    PairReads(decode, lead, " ", last, a, b);
    TrimPair(lead, " ", last);
    assert Pieces(decode, HidingText(x, y))[0].chunk == lead;
  }

  lemma HidingTextIsReadable(x: string, y: string, a: Certificate, b: Certificate)
    requires '-' !in x && '-' !in y
    ensures exists decode :: ReadsPair(decode, (MALFORMED_LINE + "\n") + Pem(x, "\n"), " ", Pem(y, ""), a, b)
  {
    HidingPair(x, y);
    PairIsReadable((MALFORMED_LINE + "\n") + Pem(x, "\n"), " ", Pem(y, ""), a, b);
  }

  // Expiry.

  ghost predicate IsEarliest(roots: seq<Certificate>, instant: int) {
    && (exists k :: 0 <= k < |roots| && roots[k].notAfter == instant)
    && (forall k :: 0 <= k < |roots| ==> instant <= roots[k].notAfter)
  }

  /** What the fold over the roots comes to, earliest being their true earliest expiry. */
  lemma {:induction false} ExpiryFold(roots: seq<Certificate>, earliest: int)
    requires IsEarliest(roots, earliest)
    ensures if earliest != ZERO_TIME || roots[|roots| - 1].notAfter == ZERO_TIME
            then EarliestExpiry(roots) == earliest
            else EarliestExpiry(roots) > earliest
  {
    var before, last := roots[..|roots| - 1], roots[|roots| - 1].notAfter;
    if before != [] {
      var previous := Minimum(before);
      ExpiryFold(before, previous);
      assert forall k :: 0 <= k < |before| ==> before[k] == roots[k];
      var k :| 0 <= k < |roots| && roots[k].notAfter == earliest;
      if k < |before| {
        assert before[k].notAfter == earliest;
      }
      var m :| 0 <= m < |before| && before[m].notAfter == previous;
      assert roots[m].notAfter == previous;
    }
  }

  lemma {:induction false} Minimum(roots: seq<Certificate>) returns (earliest: int)
    requires roots != []
    ensures IsEarliest(roots, earliest)
  {
    var before, last := roots[..|roots| - 1], roots[|roots| - 1].notAfter;
    if before == [] {
      earliest := last;
      assert roots[0].notAfter == earliest;
    } else {
      var previous := Minimum(before);
      earliest := if last < previous then last else previous;
      var m :| 0 <= m < |before| && before[m].notAfter == previous;
      assert roots[m].notAfter == previous && roots[|roots| - 1].notAfter == last;
      forall k | 0 <= k < |roots| ensures earliest <= roots[k].notAfter {
        if k < |before| {
          assert before[k] == roots[k];
        }
      }
    }
  }

  /** The expiry reported is the earliest of the roots', except when that earliest is the zero time and
      a root with a later one comes last. */
  lemma EarliestExpiryExact(roots: seq<Certificate>)
    requires roots != []
    ensures IsEarliest(roots, EarliestExpiry(roots)) <==>
            !IsEarliest(roots, ZERO_TIME) || roots[|roots| - 1].notAfter == ZERO_TIME
  {
    var earliest := Minimum(roots);
    ExpiryFold(roots, earliest);
  }

  /** What is reported when the zero time hides the earliest expiry: the earliest of the roots behind the
      last that has the zero time. */
  lemma {:induction false} ExpiryBehindZero(roots: seq<Certificate>, k: nat)
    requires k + 1 < |roots| && roots[k].notAfter == ZERO_TIME
    requires forall j :: 0 <= j <= k ==> ZERO_TIME <= roots[j].notAfter
    requires forall j :: k < j < |roots| ==> ZERO_TIME < roots[j].notAfter
    ensures IsEarliest(roots[k + 1..], EarliestExpiry(roots))
  {
    var front := roots[..k + 1];
    assert IsEarliest(front, ZERO_TIME) by {
      assert front[k].notAfter == ZERO_TIME;
    }
    ExpiryFold(front, ZERO_TIME);
    assert front[|front| - 1] == roots[k];
    ExpiryGoesOn(roots, k, |roots|);
    assert roots[..|roots|] == roots;
    assert roots[k + 1..|roots|] == roots[k + 1..];
  }

  lemma {:induction false} ExpiryGoesOn(roots: seq<Certificate>, k: nat, n: nat)
    requires k + 1 < n <= |roots| && EarliestExpiry(roots[..k + 1]) == ZERO_TIME
    requires forall j :: k < j < |roots| ==> ZERO_TIME < roots[j].notAfter
    ensures IsEarliest(roots[k + 1..n], EarliestExpiry(roots[..n])) && ZERO_TIME < EarliestExpiry(roots[..n])
    decreases n
  {
    assert roots[..n][..n - 1] == roots[..n - 1];
    var part := roots[k + 1..n];
    assert part[n - k - 2] == roots[n - 1];
    if n > k + 2 {
      ExpiryGoesOn(roots, k, n - 1);
      var shorter, before := roots[k + 1..n - 1], EarliestExpiry(roots[..n - 1]);
      assert part == shorter + [roots[n - 1]];
      var m :| 0 <= m < |shorter| && shorter[m].notAfter == before;
      assert part[m].notAfter == before;
    }
  }

  lemma EarliestOfPair(a: Certificate, b: Certificate)
    requires a.notAfter == ZERO_TIME < b.notAfter
    ensures !IsEarliest([a, b], EarliestExpiry([a, b]))
  {
    var roots := [a, b];
    assert roots[0].notAfter == ZERO_TIME && roots[1].notAfter == b.notAfter;
    assert IsEarliest(roots, ZERO_TIME);
    EarliestExpiryExact(roots);
  }

  /** The zero time among the roots can hide the earliest expiry: any two roots, the first with the zero
      time and the second later, make a bundle that is accepted and reports an expiry too late. */
  lemma ZeroTimeHidesExpiry(decode: Decoder, x: string, y: string, a: Certificate, b: Certificate)
    requires '-' !in x && '-' !in y
    requires Anchors(a) && Anchors(b) && a.raw != b.raw
    requires ReadsPair(decode, Pem(x, "\n"), "", Pem(y, ""), a, b)
    requires a.notAfter == ZERO_TIME < b.notAfter
    ensures var parsed := ParseBundle(decode, BundleCertificate, Pem(x, "\n") + Pem(y, ""));
            && parsed.Success? && parsed.value.roots == [a, b]
            && !IsEarliest(parsed.value.roots, parsed.value.earliestExpiry)
  {
    OrdinaryPair(x, y);
    PairParses(decode, Pem(x, "\n"), "", Pem(y, ""), a, b);
    EarliestOfPair(a, b);
    assert "" + Pem(y, "") == Pem(y, "");
  }

  lemma OrdinaryPair(x: string, y: string)
    requires '-' !in x && '-' !in y
    ensures MakesPair(Pem(x, "\n"), "", Pem(y, ""))
    ensures BeginMarkers(Pem(x, "\n")) == 1 && BeginMarkers(Pem(y, "")) == 1
  {
    PemHasOneMarker(x, "\n");
    PemHasOneMarker(y, "");
    PemEnds(x);
    PemEnds(y);
  }

  lemma OrdinaryTextIsReadable(x: string, y: string, a: Certificate, b: Certificate)
    requires '-' !in x && '-' !in y
    ensures exists decode :: ReadsPair(decode, Pem(x, "\n"), "", Pem(y, ""), a, b)
  {
    OrdinaryPair(x, y);
    PairIsReadable(Pem(x, "\n"), "", Pem(y, ""), a, b);
  }

  // The handshake.

  lemma {:induction false} ReadRootsAnchor(
    decode: Decoder, check: Check, rest: string, roots: seq<Certificate>, all: seq<Certificate>)
    requires ReadsLines(decode)
    requires ReadBlocks(decode, check, rest, roots) == Success(all)
    requires forall block :: check(block).Success? ==> Anchors(check(block).value)
    requires AllAnchor(roots)
    ensures AllAnchor(all)
    decreases |rest|
  {
    if rest != "" {
      var certificate, remainder := ReadStep(decode, check, rest, roots);
      OneMoreAnchor(roots, certificate);
      ReadRootsAnchor(decode, check, Trim(remainder), roots + [certificate], all);
    }
  }

  /** Every root of an accepted bundle is a signing certificate without an identity or of this domain. */
  lemma BundleAnchors(decode: Decoder, raw: string)
    requires ReadsLines(decode)
    requires ParseBundle(decode, BundleCertificate, raw).Success?
    ensures AllAnchor(ParseBundle(decode, BundleCertificate, raw).value.roots)
    ensures forall k :: 0 <= k < |ParseBundle(decode, BundleCertificate, raw).value.roots| ==>
              IsRoot(ParseBundle(decode, BundleCertificate, raw).value.roots[k])
  {
    forall block | BundleCertificate(block).Success? ensures Anchors(BundleCertificate(block).value) {
      AnchorsCertificate(block);
    }
    var roots := ParseBundle(decode, BundleCertificate, raw).value.roots;
    ReadRootsAnchor(decode, BundleCertificate, Trim(raw), [], roots);
    forall k | 0 <= k < |roots| ensures IsRoot(roots[k]) {
      assert Anchors(roots[k]);
      RootExact(roots[k]);
    }
  }

  /** A root suits a leaf exactly if it carries no identity or the leaf is in this trust domain. */
  lemma RootSuitsLeafIff(root: Certificate, leaf: ID)
    requires Anchors(root)
    ensures ValidateSigningCertificateForLeaf(root, leaf).None? <==>
            root.uris == [] || leaf.trustDomain == TRUST_DOMAIN
  {
  }

  lemma AnchoredRootsChangeNothing(
    leaf: Certificate, before: seq<Certificate>, roots: seq<Certificate>, after: seq<Certificate>)
    requires AllAnchor(roots)
    requires LeafVerdict(leaf).Success? ==> LeafVerdict(leaf).value.spiffeId.trustDomain == TRUST_DOMAIN
    ensures ChainVerdict(leaf, before + roots + after) == ChainVerdict(leaf, before + after)
  {
    if LeafVerdict(leaf).Success? {
      var id := LeafVerdict(leaf).value.spiffeId;
      forall k | 0 <= k < |roots| ensures ValidateSigningCertificateForLeaf(roots[k], id).None? {
        RootSuitsLeafIff(roots[k], id);
      }
      NoObjectionIff(roots, id);
      ObjectionOfConcat(before + roots, after, id);
      ObjectionOfConcat(before, roots, id);
      ObjectionOfConcat(before, after, id);
    }
  }

  /** Bundle and handshake agree: a peer may present any roots of an accepted bundle, in any number and
      anywhere behind a leaf of this trust domain, without changing the verdict on its chain. */
  lemma RootsChangeNothing(
    decode: Decoder, raw: string, leaf: Certificate,
    before: seq<Certificate>, roots: seq<Certificate>, after: seq<Certificate>)
    requires ReadsLines(decode) && ParseBundle(decode, BundleCertificate, raw).Success?
    requires forall k :: 0 <= k < |roots| ==> roots[k] in ParseBundle(decode, BundleCertificate, raw).value.roots
    requires LeafVerdict(leaf).Success? ==> LeafVerdict(leaf).value.spiffeId.trustDomain == TRUST_DOMAIN
    ensures ChainVerdict(leaf, before + roots + after) == ChainVerdict(leaf, before + after)
  {
    BundleAnchors(decode, raw);
    assert AllAnchor(roots);
    AnchoredRootsChangeNothing(leaf, before, roots, after);
  }
}

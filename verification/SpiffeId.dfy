/** SPIFFE IDs (internal/authn/spiffeid/id.go; SPIFFE-ID standard, sections 2, 2.1 and 2.2). */
module SpiffeId {
  import opened Wrappers
  import opened Text

  datatype ID = ID(uri: string, trustDomain: string, path: string) {

    /** The path split on its separator; none when the ID carries no path. */
    function PathComponents(): seq<string> {
      if path == "" then [] else Split(path[1..], '/')
    }
  }

  datatype ParseError =
    | NotSpiffe | IdTooLong | TrustDomainTooLong | InvalidTrustDomain | InvalidPathComponent

  const SCHEME: string := "spiffe://"
  const MAX_ID_LENGTH: nat := 2048
  const MAX_TRUST_DOMAIN_LENGTH: nat := 255

  predicate IsTrustDomainChar(c: char) {
    'a' <= c <= 'z' || '0' <= c <= '9' || c == '.' || c == '_' || c == '-'
  }

  predicate IsPathChar(c: char) {
    'a' <= c <= 'z' || 'A' <= c <= 'Z' || '0' <= c <= '9' || c == '.' || c == '_' || c == '-'
  }

  predicate MatchesTrustDomain(s: string) {
    |s| > 0 && forall k :: 0 <= k < |s| ==> IsTrustDomainChar(s[k])
  }

  predicate ValidComponent(s: string) {
    && |s| > 0 && (forall k :: 0 <= k < |s| ==> IsPathChar(s[k]))
    && s != "." && s != ".."
  }

  predicate AllValid(components: seq<string>) {
    forall k :: 0 <= k < |components| ==> ValidComponent(components[k])
  }

  function ValidateTrustDomain(trustDomain: string): Option<ParseError> {
    if |trustDomain| > MAX_TRUST_DOMAIN_LENGTH then Some(TrustDomainTooLong)
    else if !MatchesTrustDomain(trustDomain) then Some(InvalidTrustDomain)
    else None
  }

  function ValidatePath(path: string): Option<ParseError> {
    if path == "" then None
    else if AllValid(Split(path[1..], '/')) then None
    else Some(InvalidPathComponent)
  }

  /** Reads what follows the scheme: the trust domain up to the first slash, and the path with its
      leading separator. */
  function ParseAfterScheme(uri: string, rest: string): Result<ID, ParseError> {
    var trustDomain := rest[..IndexOf(rest, '/')];
    var path := rest[|trustDomain|..];
    match ValidateTrustDomain(trustDomain)
    case Some(error) => Failure(error)
    case None =>
      match ValidatePath(path)
      case Some(error) => Failure(error)
      case None => Success(ID(uri, trustDomain, path))
  }

  function Parse(uri: string): Result<ID, ParseError> {
    if !(SCHEME <= uri) then Failure(NotSpiffe)
    else if |uri| > MAX_ID_LENGTH then Failure(IdTooLong)
    else ParseAfterScheme(uri, uri[|SCHEME|..])
  }

  // The grammar.

  /** The path of the standard: each component behind a slash. */
  function PathOf(components: seq<string>): string {
    if components == [] then "" else "/" + components[0] + PathOf(components[1..])
  }

  /** scheme, trust domain and components make up a SPIFFE ID. */
  ghost predicate InGrammar(uri: string, trustDomain: string, components: seq<string>) {
    && uri == SCHEME + trustDomain + PathOf(components)
    && |uri| <= MAX_ID_LENGTH
    && |trustDomain| <= MAX_TRUST_DOMAIN_LENGTH
    && MatchesTrustDomain(trustDomain)
    && AllValid(components)
  }

  lemma {:induction false} PathIsJoin(components: seq<string>)
    requires components != []
    ensures PathOf(components) == "/" + Join(components, '/')
  {
    if |components| == 1 {
      assert PathOf(components[1..]) == "";
    } else {
      PathIsJoin(components[1..]);
    }
  }

  lemma NoSlashInside(component: string)
    requires ValidComponent(component)
    ensures '/' !in component
  {
  }

  lemma PathRebuilds(id: ID)
    requires id.path != "" ==> id.path[0] == '/'
    ensures id.path == PathOf(id.PathComponents())
  {
    if id.path != "" {
      JoinSplit(id.path[1..], '/');
      PathIsJoin(id.PathComponents());
    }
  }

  lemma RestSound(uri: string, rest: string)
    requires ParseAfterScheme(uri, rest).Success?
    ensures var id := ParseAfterScheme(uri, rest).value;
            && id.uri == uri && rest == id.trustDomain + id.path
            && id.path == PathOf(id.PathComponents())
            && ValidateTrustDomain(id.trustDomain).None?
            && AllValid(id.PathComponents())
  {
    var id := ParseAfterScheme(uri, rest).value;
    Rejoin(id.trustDomain, rest);
    PathRebuilds(id);
  }

  lemma ParseSound(uri: string)
    requires Parse(uri).Success?
    ensures var id := Parse(uri).value;
            && InGrammar(uri, id.trustDomain, id.PathComponents())
            && id.uri == uri == SCHEME + id.trustDomain + id.path
            && id.path == PathOf(id.PathComponents())
  {
    var rest := uri[|SCHEME|..];
    var id := Parse(uri).value;
    RestSound(uri, rest);
    Rejoin(SCHEME, uri);
    Regroup(SCHEME, id.trustDomain, id.path);
  }

  lemma PathReadsBack(uri: string, trustDomain: string, components: seq<string>)
    requires AllValid(components)
    ensures ID(uri, trustDomain, PathOf(components)).PathComponents() == components
    ensures ValidatePath(PathOf(components)) == None
  {
    if components != [] {
      PathIsJoin(components);
      forall k | 0 <= k < |components| ensures '/' !in components[k] {
        NoSlashInside(components[k]);
      }
      SplitJoin(components, '/');
      assert PathOf(components)[1..] == Join(components, '/');
    }
  }

  lemma TrustDomainReadsBack(trustDomain: string, path: string)
    requires '/' !in trustDomain
    requires path != "" ==> path[0] == '/'
    ensures IndexOf(trustDomain + path, '/') == |trustDomain|
  {
    IndexOfFirst(trustDomain, '/', trustDomain + path);
  }

  lemma PathStarts(components: seq<string>)
    ensures PathOf(components) != "" ==> PathOf(components)[0] == '/'
  {
  }

  lemma RestComplete(uri: string, trustDomain: string, components: seq<string>)
    requires ValidateTrustDomain(trustDomain).None?
    requires AllValid(components)
    ensures ParseAfterScheme(uri, trustDomain + PathOf(components))
            == Success(ID(uri, trustDomain, PathOf(components)))
  {
    var path := PathOf(components);
    PathReadsBack(uri, trustDomain, components);
    assert '/' !in trustDomain;
    PathStarts(components);
    TrustDomainReadsBack(trustDomain, path);
    CutAfter(trustDomain, path);
  }

  lemma ParseComplete(uri: string, trustDomain: string, components: seq<string>)
    requires InGrammar(uri, trustDomain, components)
    ensures Parse(uri) == Success(ID(uri, trustDomain, PathOf(components)))
    ensures ID(uri, trustDomain, PathOf(components)).PathComponents() == components
  {
    var rest := trustDomain + PathOf(components);
    PathReadsBack(uri, trustDomain, components);
    RestComplete(uri, trustDomain, components);
    Regroup(SCHEME, trustDomain, PathOf(components));
    CutAfter(SCHEME, rest);
  }

  // The standard in its own letters and numbers.

  const LOWER: set<char> := {
    'a', 'b', 'c', 'd', 'e', 'f', 'g', 'h', 'i', 'j', 'k', 'l', 'm',
    'n', 'o', 'p', 'q', 'r', 's', 't', 'u', 'v', 'w', 'x', 'y', 'z'}
  const UPPER: set<char> := {
    'A', 'B', 'C', 'D', 'E', 'F', 'G', 'H', 'I', 'J', 'K', 'L', 'M',
    'N', 'O', 'P', 'Q', 'R', 'S', 'T', 'U', 'V', 'W', 'X', 'Y', 'Z'}
  const DIGITS: set<char> := {'0', '1', '2', '3', '4', '5', '6', '7', '8', '9'}

  lemma Lower(c: char)
    ensures c in LOWER <==> 'a' <= c <= 'z'
  {
  }

  lemma Upper(c: char)
    ensures c in UPPER <==> 'A' <= c <= 'Z'
  {
  }

  lemma Digits(c: char)
    ensures c in DIGITS <==> '0' <= c <= '9'
  {
  }

  lemma TrustDomainAlphabet(c: char)
    ensures IsTrustDomainChar(c) <==> c in LOWER || c in DIGITS || c in {'.', '-', '_'}
  {
    Lower(c);
    Digits(c);
  }

  lemma PathAlphabet(c: char)
    ensures IsPathChar(c) <==> c in LOWER || c in UPPER || c in DIGITS || c in {'.', '-', '_'}
  {
    Lower(c);
    Upper(c);
    Digits(c);
  }

  ghost predicate StandardComponent(s: string) {
    && |s| > 0 && s != "." && s != ".."
    && forall k :: 0 <= k < |s| ==> s[k] in LOWER || s[k] in UPPER || s[k] in DIGITS || s[k] in {'.', '-', '_'}
  }

  ghost predicate AllStandard(components: seq<string>) {
    forall k :: 0 <= k < |components| ==> StandardComponent(components[k])
  }

  ghost predicate StandardTrustDomain(s: string) {
    && 1 <= |s| <= 255
    && forall k :: 0 <= k < |s| ==> s[k] in LOWER || s[k] in DIGITS || s[k] in {'.', '-', '_'}
  }

  /** A SPIFFE ID as sections 2, 2.1 and 2.2 of the standard have it. */
  ghost predicate InStandard(uri: string, trustDomain: string, components: seq<string>) {
    && uri == "spiffe://" + trustDomain + PathOf(components)
    && |uri| <= 2048
    && StandardTrustDomain(trustDomain)
    && AllStandard(components)
  }

  lemma ComponentIsStandard(s: string)
    ensures ValidComponent(s) <==> StandardComponent(s)
  {
    forall k | 0 <= k < |s|
      ensures IsPathChar(s[k]) <==> s[k] in LOWER || s[k] in UPPER || s[k] in DIGITS || s[k] in {'.', '-', '_'}
    {
      PathAlphabet(s[k]);
    }
  }

  lemma TrustDomainIsStandard(s: string)
    ensures ValidateTrustDomain(s).None? <==> StandardTrustDomain(s)
  {
    forall k | 0 <= k < |s|
      ensures IsTrustDomainChar(s[k]) <==> s[k] in LOWER || s[k] in DIGITS || s[k] in {'.', '-', '_'}
    {
      TrustDomainAlphabet(s[k]);
    }
  }

  lemma ComponentsAreStandard(components: seq<string>)
    ensures AllValid(components) <==> AllStandard(components)
  {
    forall k | 0 <= k < |components| ensures ValidComponent(components[k]) <==> StandardComponent(components[k]) {
      ComponentIsStandard(components[k]);
    }
  }

  lemma GrammarIsStandard(uri: string, trustDomain: string, components: seq<string>)
    ensures InStandard(uri, trustDomain, components) <==> InGrammar(uri, trustDomain, components)
  {
    TrustDomainIsStandard(trustDomain);
    ComponentsAreStandard(components);
  }

  /** Parse accepts exactly the language of the standard, and reads every member of it in its one way. */
  lemma ParseExact(uri: string, trustDomain: string, components: seq<string>)
    ensures InStandard(uri, trustDomain, components) <==>
            && Parse(uri).Success?
            && Parse(uri).value.trustDomain == trustDomain
            && Parse(uri).value.PathComponents() == components
    ensures Parse(uri).Success? <==>
            exists td, cs :: InStandard(uri, td, cs)
  {
    GrammarIsStandard(uri, trustDomain, components);
    if InGrammar(uri, trustDomain, components) {
      ParseComplete(uri, trustDomain, components);
    }
    if Parse(uri).Success? {
      ParseSound(uri);
      GrammarIsStandard(uri, Parse(uri).value.trustDomain, Parse(uri).value.PathComponents());
    }
    if exists td, cs :: InStandard(uri, td, cs) {
      var td, cs :| InStandard(uri, td, cs);
      GrammarIsStandard(uri, td, cs);
      ParseComplete(uri, td, cs);
    }
  }

  /** What follows the scheme, taken apart at its first slash. */
  predicate TakenApart(rest: string, trustDomain: string, path: string) {
    rest == trustDomain + path && '/' !in trustDomain && (path != "" ==> path[0] == '/')
  }

  lemma RestTakenApart(uri: string, rest: string, trustDomain: string, path: string)
    requires TakenApart(rest, trustDomain, path)
    ensures ParseAfterScheme(uri, rest) ==
            match ValidateTrustDomain(trustDomain)
            case Some(error) => Failure(error)
            case None => match ValidatePath(path)
                         case Some(error) => Failure(error)
                         case None => Success(ID(uri, trustDomain, path))
  {
    TrustDomainReadsBack(trustDomain, path);
    CutAfter(trustDomain, path);
  }

  lemma AfterScheme(rest: string)
    requires |SCHEME + rest| <= MAX_ID_LENGTH
    ensures Parse(SCHEME + rest) == ParseAfterScheme(SCHEME + rest, rest)
  {
    CutAfter(SCHEME, rest);
  }

  /** A string is refused for the first thing wrong with it: no scheme, then its length, then the length
      of its trust domain, then the trust domain's letters, then its path. */
  lemma ParseErrors(uri: string)
    ensures Parse(uri) == Failure(NotSpiffe) <==> !("spiffe://" <= uri)
    ensures Parse(uri) == Failure(IdTooLong) <==> "spiffe://" <= uri && |uri| > 2048
  {
  }

  lemma ParseErrorsBehindScheme(trustDomain: string, path: string)
    requires TakenApart(trustDomain + path, trustDomain, path)
    requires |SCHEME + (trustDomain + path)| <= 2048
    ensures var parsed := Parse(SCHEME + (trustDomain + path));
            && (parsed == Failure(TrustDomainTooLong) <==> |trustDomain| > 255)
            && (parsed == Failure(InvalidTrustDomain) <==> |trustDomain| <= 255 && !StandardTrustDomain(trustDomain))
            && (parsed == Failure(InvalidPathComponent) <==>
                  StandardTrustDomain(trustDomain) && path != "" && !AllStandard(Split(path[1..], '/')))
  {
    var rest := trustDomain + path;
    AfterScheme(rest);
    RestTakenApart(SCHEME + rest, rest, trustDomain, path);
    TrustDomainIsStandard(trustDomain);
    if path != "" {
      ComponentsAreStandard(Split(path[1..], '/'));
    }
  }

  /** Scheme, trust domain and path rebuild what was parsed, the components rebuild the path, and
      what is rebuilt parses to the same ID. */
  lemma RoundTrip(uri: string)
    requires Parse(uri).Success?
    ensures var id := Parse(uri).value;
            && SCHEME + id.trustDomain + id.path == uri
            && SCHEME + id.trustDomain + PathOf(id.PathComponents()) == uri
            && Parse(SCHEME + id.trustDomain + PathOf(id.PathComponents())) == Success(id)
  {
    ParseSound(uri);
  }
}

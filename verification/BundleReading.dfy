/** Exactly which bundles are accepted, with which roots, and for what a bundle is refused
    (internal/authn/trustbundle.go). */
module BundleReading {
  import opened Wrappers
  import opened X509Svid
  import Text
  import opened TrustBundle
  import opened BundleTheorems

  // White space.

  lemma SpaceExact(c: char)
    ensures IsSpace(c) <==> c as int in {9, 10, 11, 12, 13, 32}
  {
  }

  /** Trimming takes white space off both ends and nothing else, and all of it. */
  lemma TrimExact(s: string) returns (lead: string, tail: string)
    ensures s == lead + Trim(s) + tail && AllSpace(lead) && AllSpace(tail)
    ensures Trim(s) != "" ==> !IsSpace(Trim(s)[0]) && !IsSpace(Trim(s)[|Trim(s)| - 1])
  {
    var left := TrimLeft(s);
    lead, tail := s[..SpaceBefore(s)], left[UpToSpace(left)..];
    Halves(s, SpaceBefore(s));
    Halves(left, UpToSpace(left));
    Text.Regroup(lead, Trim(s), tail);
    EndsAreSpace(s);
    NoSpaceAtEnds(s);
  }

  lemma EndsAreSpace(s: string)
    ensures AllSpace(s[..SpaceBefore(s)]) && AllSpace(TrimLeft(s)[UpToSpace(TrimLeft(s))..])
  {
  }

  lemma Halves(s: string, n: nat)
    requires n <= |s|
    ensures s == s[..n] + s[n..]
  {
  }

  lemma NoSpaceAtEnds(s: string)
    ensures Trim(s) != "" ==> !IsSpace(Trim(s)[0]) && !IsSpace(Trim(s)[|Trim(s)| - 1])
  {
  }

  // Blocks.

  /** A block holds a root: a certificate block without headers. */
  predicate HoldsRoot(block: Block, root: Certificate) {
    block.kind == "CERTIFICATE" && !block.hasHeaders && block.certificate == Some(root) && IsRoot(root)
  }

  /** A block is taken exactly if it holds a root, and refused for the first thing wrong with it. */
  lemma BlockExact(block: Block, root: Certificate)
    ensures BundleCertificate(block) == Success(root) <==> HoldsRoot(block, root)
    ensures BundleCertificate(block) == Failure(NotCertificate) <==> block.kind != "CERTIFICATE"
    ensures BundleCertificate(block) == Failure(BlockHasHeaders) <==> block.kind == "CERTIFICATE" && block.hasHeaders
    ensures BundleCertificate(block) == Failure(Unparsable) <==>
            block.kind == "CERTIFICATE" && !block.hasHeaders && block.certificate.None?
    ensures block.kind == "CERTIFICATE" && !block.hasHeaders && block.certificate.Some? ==>
              var signing := ValidateSigningCertificate(block.certificate.value);
              && (signing.Failure? ==> BundleCertificate(block) == Failure(BadSigner(signing.error)))
              && (BundleCertificate(block) == Failure(WrongDomain) <==>
                    signing.Success? && signing.value.Some? &&
                    signing.value.value.trustDomain != "fizzled.internal")
  {
    if block.certificate.Some? {
      RootExact(block.certificate.value);
    }
  }

  // Readings.

  /** One block read: the text before it, the block, and what was left. */
  datatype Step = Step(text: string, block: Block, remainder: string)

  /** The steps lead from a text to another, each reading the block its text begins with and trimming
      what is left. */
  ghost predicate Leads(decode: Decoder, start: string, steps: seq<Step>, end: string) {
    && (forall k :: 0 <= k < |steps| ==> IsStep(decode, steps[k]))
    && (forall k :: 0 <= k < |steps| - 1 ==> steps[k + 1].text == Trim(steps[k].remainder))
    && (if steps == [] then start == end
        else steps[0].text == start && Trim(steps[|steps| - 1].remainder) == end)
  }

  ghost predicate IsStep(decode: Decoder, step: Step) {
    "-----BEGIN " <= step.text && decode(step.text) == Some((step.block, step.remainder))
  }

  predicate HoldRoots(steps: seq<Step>, roots: seq<Certificate>) {
    |roots| == |steps| && forall k :: 0 <= k < |steps| ==> HoldsRoot(steps[k].block, roots[k])
  }

  /** Behind these roots the text cannot be read on, for this reason. */
  ghost predicate IsFault(decode: Decoder, roots: seq<Certificate>, text: string, error: BundleError) {
    && text != ""
    && (if !("-----BEGIN " <= text) then error == UnexpectedData
        else if decode(text).None? then error == BlockDropped
        else
          match BundleCertificate(decode(text).value.0)
          case Failure(reason) => error == reason
          case Success(root) => error == DuplicateCertificate && IsAmong(root, roots))
  }

  predicate IsAmong(root: Certificate, roots: seq<Certificate>) {
    exists k :: 0 <= k < |roots| && roots[k].raw == root.raw
  }

  lemma AmongRaws(root: Certificate, roots: seq<Certificate>)
    ensures root.raw in Raws(roots) <==> IsAmong(root, roots)
  {
  }

  lemma LeadsOn(decode: Decoder, first: Step, steps: seq<Step>, end: string)
    requires IsStep(decode, first)
    ensures Leads(decode, first.text, [first] + steps, end) <==> Leads(decode, Trim(first.remainder), steps, end)
  {
    var all := [first] + steps;
    assert forall k :: 0 <= k < |steps| ==> all[k + 1] == steps[k];
    if Leads(decode, first.text, all, end) {
      forall k | 0 <= k < |steps| ensures IsStep(decode, steps[k]) {
        assert IsStep(decode, all[k + 1]);
      }
      forall k | 0 <= k < |steps| - 1 ensures steps[k + 1].text == Trim(steps[k].remainder) {
        assert all[k + 2].text == Trim(all[k + 1].remainder);
      }
      if steps != [] {
        assert all[1].text == Trim(all[0].remainder);
        assert all[|all| - 1] == steps[|steps| - 1];
      }
    }
    if Leads(decode, Trim(first.remainder), steps, end) {
      forall k | 0 <= k < |all| ensures IsStep(decode, all[k]) {
        assert k > 0 ==> all[k] == steps[k - 1];
      }
      forall k | 0 <= k < |all| - 1 ensures all[k + 1].text == Trim(all[k].remainder) {
        assert k > 0 ==> all[k] == steps[k - 1] && all[k + 1] == steps[k];
      }
      if steps != [] {
        assert all[|all| - 1] == steps[|steps| - 1];
      }
    }
  }

  /** No root is among those before it. */
  ghost predicate News(before: seq<Certificate>, more: seq<Certificate>) {
    forall k :: 0 <= k < |more| ==> !IsAmong(more[k], before + more[..k])
  }

  lemma NewsFirst(before: seq<Certificate>, root: Certificate, more: seq<Certificate>)
    ensures News(before, [root] + more) <==> !IsAmong(root, before) && News(before + [root], more)
  {
    var all := [root] + more;
    assert before + all[..0] == before;
    forall k | 0 <= k < |more|
      ensures all[k + 1] == more[k] && before + all[..k + 1] == (before + [root]) + more[..k]
    {
      assert all[..k + 1] == [root] + more[..k];
    }
    if News(before, all) {
      assert all[0] == root;
      forall k | 0 <= k < |more| ensures !IsAmong(more[k], (before + [root]) + more[..k]) {
        assert !IsAmong(all[k + 1], before + all[..k + 1]);
      }
    }
    if !IsAmong(root, before) && News(before + [root], more) {
      forall k | 0 <= k < |all| ensures !IsAmong(all[k], before + all[..k]) {
        assert k > 0 ==> !IsAmong(more[k - 1], (before + [root]) + more[..k - 1]);
      }
    }
  }

  lemma DistinctIsNews(roots: seq<Certificate>)
    ensures Distinct(roots) <==> News([], roots)
  {
    forall k | 0 <= k < |roots| ensures [] + roots[..k] == roots[..k] {
    }
    if News([], roots) {
      forall i, j | 0 <= i < j < |roots| ensures roots[i].raw != roots[j].raw {
        assert !IsAmong(roots[j], [] + roots[..j]);
        assert roots[..j][i] == roots[i];
      }
    }
  }

  /** One step of the reading. */
  lemma ReadsOn(decode: Decoder, step: Step, before: seq<Certificate>, root: Certificate)
    requires ReadsLines(decode) && IsStep(decode, step)
    requires HoldsRoot(step.block, root) && !IsAmong(root, before)
    ensures ReadBlocks(decode, BundleCertificate, step.text, before) ==
            ReadBlocks(decode, BundleCertificate, Trim(step.remainder), before + [root])
  {
    BlockExact(step.block, root);
    AmongRaws(root, before);
    BlocksStep(decode, BundleCertificate, step.text, before, root, step.remainder);
  }

  lemma FirstAndRest<T>(s: seq<T>)
    requires s != []
    ensures s == [s[0]] + s[1..]
  {
  }

  lemma Regrouped<T>(before: seq<T>, one: T, rest: seq<T>)
    ensures before + ([one] + rest) == (before + [one]) + rest
  {
  }

  lemma FirstHolds(steps: seq<Step>, roots: seq<Certificate>)
    requires steps != [] && HoldRoots(steps, roots)
    ensures roots != [] && HoldsRoot(steps[0].block, roots[0]) && HoldRoots(steps[1..], roots[1..])
  {
  }

  /** Reading follows the steps. */
  lemma {:induction false} ReadsAlong(
    decode: Decoder, start: string, steps: seq<Step>, end: string, before: seq<Certificate>, more: seq<Certificate>)
    requires ReadsLines(decode) && Leads(decode, start, steps, end)
    requires HoldRoots(steps, more) && News(before, more)
    ensures ReadBlocks(decode, BundleCertificate, start, before) ==
            ReadBlocks(decode, BundleCertificate, end, before + more)
    decreases |steps|
  {
    if steps == [] {
      assert before + more == before;
    } else {
      var first, later, root, rest := steps[0], steps[1..], more[0], more[1..];
      FirstAndRest(steps);
      FirstAndRest(more);
      LeadsOn(decode, first, later, end);
      NewsFirst(before, root, rest);
      FirstHolds(steps, more);
      ReadsOn(decode, first, before, root);
      ReadsAlong(decode, Trim(first.remainder), later, end, before + [root], rest);
      Regrouped(before, root, rest);
    }
  }

  lemma FaultStops(decode: Decoder, text: string, roots: seq<Certificate>, error: BundleError)
    requires ReadsLines(decode)
    ensures IsFault(decode, roots, text, error) ==>
              ReadBlocks(decode, BundleCertificate, text, roots) == Failure(error)
  {
    if decode(text).Some? && BundleCertificate(decode(text).value.0).Success? {
      AmongRaws(BundleCertificate(decode(text).value.0).value, roots);
    }
  }

  /** Where a text can be read on, how. */
  lemma NextStep(decode: Decoder, text: string, roots: seq<Certificate>) returns (step: Step, root: Certificate)
    requires ReadsLines(decode) && text != ""
    requires forall error :: !IsFault(decode, roots, text, error)
    ensures IsStep(decode, step) && step.text == text && |Trim(step.remainder)| < |text|
    ensures HoldsRoot(step.block, root) && !IsAmong(root, roots)
  {
    assert !IsFault(decode, roots, text, UnexpectedData);
    assert !IsFault(decode, roots, text, BlockDropped);
    var (block, remainder) := decode(text).value;
    assert CutsLine(text, remainder);
    var result := BundleCertificate(block);
    assert result.Failure? ==> IsFault(decode, roots, text, result.error);
    assert !IsFault(decode, roots, text, DuplicateCertificate);
    root := result.value;
    step := Step(text, block, remainder);
    BlockExact(block, root);
  }

  /** Every text is read to its end or to a fault. */
  lemma {:induction false} ReadsUpTo(decode: Decoder, start: string, before: seq<Certificate>)
    returns (steps: seq<Step>, end: string, more: seq<Certificate>)
    requires ReadsLines(decode)
    ensures Leads(decode, start, steps, end) && HoldRoots(steps, more) && News(before, more)
    ensures end == "" || exists error :: IsFault(decode, before + more, end, error)
    decreases |start|
  {
    if start == "" || exists error :: IsFault(decode, before, start, error) {
      steps, end, more := [], start, [];
      assert before + more == before;
    } else {
      var first, root := NextStep(decode, start, before);
      var later, rest;
      later, end, rest := ReadsUpTo(decode, Trim(first.remainder), before + [root]);
      steps, more := [first] + later, [root] + rest;
      LeadsOn(decode, first, later, end);
      NewsFirst(before, root, rest);
      Regrouped(before, root, rest);
    }
  }

  /** A reading of distinct roots from the text to this end. */
  ghost predicate Reading(decode: Decoder, text: string, roots: seq<Certificate>, end: string) {
    Distinct(roots) && exists steps :: Leads(decode, text, steps, end) && HoldRoots(steps, roots)
  }

  lemma ReadingReads(decode: Decoder, text: string, roots: seq<Certificate>, end: string)
    requires ReadsLines(decode) && Reading(decode, text, roots, end)
    ensures ReadBlocks(decode, BundleCertificate, text, []) == ReadBlocks(decode, BundleCertificate, end, roots)
  {
    var steps :| Leads(decode, text, steps, end) && HoldRoots(steps, roots);
    DistinctIsNews(roots);
    ReadsAlong(decode, text, steps, end, [], roots);
    assert [] + roots == roots;
  }

  lemma ReadingGoesFar(decode: Decoder, text: string) returns (roots: seq<Certificate>, end: string)
    requires ReadsLines(decode)
    ensures Reading(decode, text, roots, end)
    ensures end == "" || exists error :: IsFault(decode, roots, end, error)
  {
    var steps;
    steps, end, roots := ReadsUpTo(decode, text, []);
    DistinctIsNews(roots);
    assert [] + roots == roots;
  }

  /** A text reads as these roots exactly if there is a reading of them to its end. */
  lemma BlocksExact(decode: Decoder, text: string, all: seq<Certificate>)
    requires ReadsLines(decode)
    ensures ReadBlocks(decode, BundleCertificate, text, []) == Success(all) <==> Reading(decode, text, all, "")
  {
    if Reading(decode, text, all, "") {
      ReadingReads(decode, text, all, "");
    }
    if ReadBlocks(decode, BundleCertificate, text, []) == Success(all) {
      var roots, end := ReadingGoesFar(decode, text);
      ReadingReads(decode, text, roots, end);
      if error :| end != "" && IsFault(decode, roots, end, error) {
        FaultStops(decode, end, roots, error);
      }
    }
  }

  lemma FaultsExact(decode: Decoder, text: string, error: BundleError)
    requires ReadsLines(decode)
    ensures ReadBlocks(decode, BundleCertificate, text, []) == Failure(error) <==>
            exists roots, end :: Reading(decode, text, roots, end) && IsFault(decode, roots, end, error)
  {
    if roots, end :| Reading(decode, text, roots, end) && IsFault(decode, roots, end, error) {
      ReadingReads(decode, text, roots, end);
      FaultStops(decode, end, roots, error);
    }
    if ReadBlocks(decode, BundleCertificate, text, []) == Failure(error) {
      var roots, end := ReadingGoesFar(decode, text);
      ReadingReads(decode, text, roots, end);
      var reason :| end != "" && IsFault(decode, roots, end, reason);
      FaultStops(decode, end, roots, reason);
    }
  }

  /** A bundle is accepted with these roots exactly if its text, read block by block to its end, holds
      them: at least one, no two alike, and as many as the text has markers. */
  lemma AcceptedExactly(decode: Decoder, raw: string, bundle: Bundle)
    requires ReadsLines(decode)
    ensures ParseBundle(decode, BundleCertificate, raw) == Success(bundle) <==>
            && Reading(decode, Trim(raw), bundle.roots, "")
            && bundle.roots != [] && |bundle.roots| == BeginMarkers(Trim(raw))
            && bundle.earliestExpiry == EarliestExpiry(bundle.roots)
  {
    BlocksExact(decode, Trim(raw), bundle.roots);
  }

  /** And it is refused for the first block at fault, for being empty, or for a marker that was not read. */
  lemma RefusedExactly(decode: Decoder, raw: string, error: BundleError)
    requires ReadsLines(decode)
    ensures ParseBundle(decode, BundleCertificate, raw) == Failure(error) <==>
            || (error == EmptyBundle && Trim(raw) == "")
            || (exists roots, end :: Reading(decode, Trim(raw), roots, end) && IsFault(decode, roots, end, error))
            || (error == BlockDropped && exists roots ::
                  Reading(decode, Trim(raw), roots, "") && roots != [] && |roots| != BeginMarkers(Trim(raw)))
  {
    var read := ReadBlocks(decode, BundleCertificate, Trim(raw), []);
    FaultsExact(decode, Trim(raw), error);
    if read.Success? {
      BlocksExact(decode, Trim(raw), read.value);
      EmptyReadsNothing(decode, Trim(raw), read.value);
      if roots :| Reading(decode, Trim(raw), roots, "") && roots != [] && |roots| != BeginMarkers(Trim(raw)) {
        BlocksExact(decode, Trim(raw), roots);
      }
    } else {
      if roots :| Reading(decode, Trim(raw), roots, "") {
        BlocksExact(decode, Trim(raw), roots);
      }
    }
  }

  lemma EmptyReadsNothing(decode: Decoder, text: string, roots: seq<Certificate>)
    requires Reading(decode, text, roots, "")
    ensures roots == [] <==> text == ""
  {
    var steps :| Leads(decode, text, steps, "") && HoldRoots(steps, roots);
    assert steps != [] ==> IsStep(decode, steps[0]);
  }
}

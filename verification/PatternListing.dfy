/** The literal prefix a pattern is listed under, and why listing under it loses no match. */
module PatternListing {

  import opened Glob
  import opened LocationPattern
  import opened Percent
  import opened Text
  import opened Wrappers

  /** The leading segments without active glob characters. */
  function LiteralSegments(segments: seq<string>): seq<string> {
    if segments == [] || HasActiveGlob(segments[0]) then [] else [segments[0]] + LiteralSegments(segments[1..])
  }

  function LiteralPart(raw: string): string {
    Join(LiteralSegments(Split(raw, '/')), "/")
  }

  function DecodedLiteralPrefix(raw: string): Result<string, PatternError> {
    match Decoded(LiteralPart(raw))
    case Failure(error) => Failure(error)
    case Success(prefix) => Success(Unescape(prefix))
  }

  // ---------- segments are decoded independently ----------

  /** A separator ends every run of escapes, so segments are decoded independently. */
  lemma {:induction false} DecodedSplits(a: string, b: string)
    requires Decoded(a + (['/'] + b)).Success?
    ensures Decoded(a).Success? && Decoded(b).Success?
    ensures Decoded(a + (['/'] + b)).value == Decoded(a).value + (['/'] + Decoded(b).value)
    decreases |a|
  {
    var rest := ['/'] + b;
    if a == "" {
      ConcatEmpty(rest);
      AfterHead('/', b);
      ConcatEmpty(['/'] + Decoded(b).value);
    } else if a[0] == '%' {
      RunStops(a, b);
      var n := EscapeRun(a);
      assert (a + rest)[n..] == a[n..] + rest;
      DecodedSplits(a[n..], b);
      ConcatAssociates(Escape(DecodeUtf8(RunBytes(a)).value), Decoded(a[n..]).value, ['/'] + Decoded(b).value);
    } else {
      assert (a + rest)[0] == a[0] && (a + rest)[1..] == a[1..] + rest;
      DecodedSplits(a[1..], b);
      ConcatAssociates([a[0]], Decoded(a[1..]).value, ['/'] + Decoded(b).value);
    }
  }

  lemma {:induction false} RunStops(a: string, b: string)
    ensures EscapeRun(a + (['/'] + b)) == EscapeRun(a) && RunBytes(a + (['/'] + b)) == RunBytes(a)
    ensures Escaped(a + (['/'] + b)) <==> Escaped(a)
    decreases |a|
  {
    var all := a + (['/'] + b);
    assert forall i :: 0 <= i < |a| ==> all[i] == a[i];
    assert all[|a|] == '/';
    if Escaped(a) {
      assert all[3..] == a[3..] + (['/'] + b);
      RunStops(a[3..], b);
    }
  }

  lemma {:induction false} JoinConcat(a: seq<string>, b: seq<string>)
    requires a != [] && b != []
    ensures Join(a + b, "/") == Join(a, "/") + (['/'] + Join(b, "/"))
  {
    assert "/" == ['/'];
    assert (a + b)[1..] == a[1..] + b;
    if |a| == 1 {
      assert a[1..] + b == b;
      ConcatAssociates(a[0], "/", Join(b, "/"));
    } else {
      JoinConcat(a[1..], b);
      ConcatAssociates(a[0] + "/", Join(a[1..], "/"), ['/'] + Join(b, "/"));
    }
  }

  lemma {:induction false} LiteralSegmentsArePrefix(segments: seq<string>)
    ensures LiteralSegments(segments) <= segments
    ensures forall i :: 0 <= i < |LiteralSegments(segments)| ==> !HasActiveGlob(LiteralSegments(segments)[i])
  {
    if segments != [] && !HasActiveGlob(segments[0]) {
      LiteralSegmentsArePrefix(segments[1..]);
      HeadAndTail(segments);
    }
  }

  /** Only an active glob character keeps a segment out of the prefix. */
  lemma {:induction false} FirstOtherIsActive(segments: seq<string>)
    ensures LiteralSegments(segments) <= segments
    ensures |LiteralSegments(segments)| < |segments| ==> HasActiveGlob(segments[|LiteralSegments(segments)|])
  {
    if segments != [] && !HasActiveGlob(segments[0]) {
      FirstOtherIsActive(segments[1..]);
      HeadAndTail(segments);
    }
  }

  lemma {:induction false} JoinHasNoGlob(segments: seq<string>)
    requires forall i :: 0 <= i < |segments| ==> !HasActiveGlob(segments[i])
    ensures !HasActiveGlob(Join(segments, "/"))
  {
    if |segments| > 1 {
      JoinHasNoGlob(segments[1..]);
      GlobConcat(segments[0], "/");
      GlobConcat(segments[0] + "/", Join(segments[1..], "/"));
    }
  }

  /** A path is its literal part alone, or that part, a separator and the rest, unless its
    * first segment is already active. */
  lemma LiteralPartSplits(raw: string) returns (rest: string)
    ensures !HasActiveGlob(LiteralPart(raw))
    ensures !HasActiveGlob(raw) ==> LiteralPart(raw) == raw
    ensures HasActiveGlob(raw) && LiteralSegments(Split(raw, '/')) != [] ==>
      raw == LiteralPart(raw) + (['/'] + rest)
  {
    var segments := Split(raw, '/');
    var literal := LiteralSegments(segments);
    JoinUndoesSplit(raw, '/');
    assert "/" == ['/'];
    LiteralSegmentsArePrefix(segments);
    JoinHasNoGlob(literal);
    var others := segments[|literal|..];
    assert segments == literal + others;
    rest := Join(others, "/");
    if others == [] {
      assert literal == segments;
    } else if literal != [] {
      JoinConcat(literal, others);
    }
    if !HasActiveGlob(raw) {
      AllSegmentsLiteral(segments);
    }
  }

  lemma {:induction false} AllSegmentsLiteral(segments: seq<string>)
    requires !HasActiveGlob(Join(segments, "/"))
    ensures LiteralSegments(segments) == segments
  {
    if segments != [] {
      HeadAndTail(segments);
      if |segments| > 1 {
        GlobConcat(segments[0], "/");
        GlobConcat(segments[0] + "/", Join(segments[1..], "/"));
        AllSegmentsLiteral(segments[1..]);
      }
    }
  }

  /** Every object path the matcher accepts lies under the prefix that is listed: the prefix is
    * computed whenever the matcher is, and it is followed by a separator in the path. */
  lemma ListingLosesNoMatch(raw: string, tokens: seq<Token>, path: string)
    requires HasActiveGlob(raw) && Decoded(raw).Success?
    requires ParseGlob(None, Decoded(raw).value) == Some(tokens) && Matches(tokens, path)
    ensures DecodedLiteralPrefix(raw).Success?
    ensures LiteralSegments(Split(raw, '/')) == [] ==> DecodedLiteralPrefix(raw).value == ""
    ensures LiteralSegments(Split(raw, '/')) != [] ==> DecodedLiteralPrefix(raw).value + "/" <= path
  {
    var rest := LiteralPartSplits(raw);
    if LiteralSegments(Split(raw, '/')) != [] {
      var literal := LiteralPart(raw);
      DecodedSplits(literal, rest);
      var tail := ['/'] + Decoded(rest).value;
      var pinned, last := LiteralAhead(None, literal, tail);
      PlainCharParses(last, '/', Decoded(rest).value);
      var after := ParseGlob(last, tail).value;
      PinnedAhead(pinned, Unescape(Decoded(literal).value), after, path);
      FollowedBySeparator(Unescape(Decoded(literal).value), after, path);
    }
  }

  lemma FollowedBySeparator(prefix: string, after: seq<Token>, path: string)
    requires prefix <= path && after != [] && after[0] == Char('/') && Matches(after, path[|prefix|..])
    ensures prefix + "/" <= path
  {
    assert path[|prefix|..][0] == '/';
    assert path[|prefix|] == '/';
  }

  /** The store evaluates a prefix by whole segments; no prefix lists everything. */
  predicate Under(prefix: string, path: string) {
    prefix == "" || prefix + "/" <= path
  }

  function Listing(prefix: string, objects: seq<string>): seq<string> {
    if objects == [] then []
    else if Under(prefix, objects[0]) then [objects[0]] + Listing(prefix, objects[1..])
    else Listing(prefix, objects[1..])
  }

  function Matching(tokens: seq<Token>, objects: seq<string>): seq<string> {
    if objects == [] then []
    else if Matches(tokens, objects[0]) then [objects[0]] + Matching(tokens, objects[1..])
    else Matching(tokens, objects[1..])
  }

  lemma {:induction false} ListingKeepsMatches(raw: string, tokens: seq<Token>, objects: seq<string>)
    requires HasActiveGlob(raw) && Decoded(raw).Success? && DecodedLiteralPrefix(raw).Success?
    requires ParseGlob(None, Decoded(raw).value) == Some(tokens)
    ensures Matching(tokens, Listing(DecodedLiteralPrefix(raw).value, objects)) == Matching(tokens, objects)
  {
    if objects != [] {
      ListingKeepsMatches(raw, tokens, objects[1..]);
      if Matches(tokens, objects[0]) {
        ListingLosesNoMatch(raw, tokens, objects[0]);
      }
      AfterHead(objects[0], Listing(DecodedLiteralPrefix(raw).value, objects[1..]));
    }
  }

  datatype ExpandError = InvalidPrefix | ListingFailed | MatchRefused(path: string)

  /** What the world answers during one expansion: which prefixes are object paths, after how many objects the
    * listing fails if it does, and which matches have a URL the backend accepts. */
  datatype Answers = Answers(parses: string -> bool, failsAfter: Option<nat>, accepts: string -> bool)

  /** The first path that is not accepted. */
  function FirstRefused(accepts: string -> bool, paths: seq<string>): (refused: Option<string>)
    ensures refused.None? <==> forall path :: path in paths ==> accepts(path)
    ensures refused.Some? ==> refused.value in paths && !accepts(refused.value)
  {
    if paths == [] then None
    else if !accepts(paths[0]) then Some(paths[0])
    else FirstRefused(accepts, paths[1..])
  }

  /** The objects the listing yields before it fails. */
  function Yielded(prefix: string, objects: seq<string>, failsAfter: Option<nat>): (yielded: seq<string>)
    ensures yielded <= Listing(prefix, objects)
    ensures if Fails(prefix, objects, failsAfter) then |yielded| == failsAfter.value
            else yielded == Listing(prefix, objects)
  {
    var listed := Listing(prefix, objects);
    if failsAfter.Some? && failsAfter.value <= |listed| then listed[..failsAfter.value] else listed
  }

  predicate Fails(prefix: string, objects: seq<string>, failsAfter: Option<nat>) {
    failsAfter.Some? && failsAfter.value <= |Listing(prefix, objects)|
  }

  lemma {:induction false} MatchingConcat(tokens: seq<Token>, a: seq<string>, b: seq<string>)
    ensures Matching(tokens, a + b) == Matching(tokens, a) + Matching(tokens, b)
  {
    if a == [] {
      ConcatEmpty(b);
    } else {
      assert (a + b)[1..] == a[1..] + b;
      MatchingConcat(tokens, a[1..], b);
      ConcatAssociates([a[0]], Matching(tokens, a[1..]), Matching(tokens, b));
    }
  }

  lemma {:induction false} RefusedConcat(accepts: string -> bool, a: seq<string>, b: seq<string>)
    ensures FirstRefused(accepts, a + b) ==
            if FirstRefused(accepts, a).Some? then FirstRefused(accepts, a) else FirstRefused(accepts, b)
  {
    if a == [] {
      ConcatEmpty(b);
    } else {
      assert (a + b)[1..] == a[1..] + b;
      RefusedConcat(accepts, a[1..], b);
    }
  }

  lemma MatchedSoFar(tokens: seq<Token>, yielded: seq<string>, i: nat)
    requires i < |yielded|
    ensures Matching(tokens, yielded[..i + 1]) ==
            Matching(tokens, yielded[..i]) + (if Matches(tokens, yielded[i]) then [yielded[i]] else [])
  {
    assert yielded[..i + 1] == yielded[..i] + [yielded[i]];
    MatchingConcat(tokens, yielded[..i], [yielded[i]]);
    assert Matching(tokens, []) == [];
  }

  lemma RefusedStaysFirst(accepts: string -> bool, tokens: seq<Token>, yielded: seq<string>, i: nat)
    requires i < |yielded| && Matches(tokens, yielded[i]) && !accepts(yielded[i])
    requires FirstRefused(accepts, Matching(tokens, yielded[..i])).None?
    ensures FirstRefused(accepts, Matching(tokens, yielded)) == Some(yielded[i])
  {
    MatchedSoFar(tokens, yielded, i);
    assert yielded == yielded[..i + 1] + yielded[i + 1..];
    MatchingConcat(tokens, yielded[..i + 1], yielded[i + 1..]);
    RefusedConcat(accepts, Matching(tokens, yielded[..i]), [yielded[i]]);
    RefusedConcat(accepts, Matching(tokens, yielded[..i + 1]), Matching(tokens, yielded[i + 1..]));
  }

  /** Lists under the literal prefix and keeps what matches. An expansion succeeds exactly when the prefix is
    * an object path, the listing completes and every match is accepted, and then it is every object of the
    * store that the pattern accepts, and no other. Otherwise the first thing that went wrong is reported. */
  method ExpandUrlPattern(raw: string, tokens: seq<Token>, objects: seq<string>, answers: Answers)
    returns (result: Result<seq<string>, ExpandError>)
    requires HasActiveGlob(raw) && Decoded(raw).Success? && DecodedLiteralPrefix(raw).Success?
    requires ParseGlob(None, Decoded(raw).value) == Some(tokens)
    ensures var prefix := DecodedLiteralPrefix(raw).value;
      var invalid := prefix != "" && !answers.parses(prefix);
      var refused := FirstRefused(answers.accepts, Matching(tokens, Yielded(prefix, objects, answers.failsAfter)));
      && (result.Success? <==> && !invalid
                               && !Fails(prefix, objects, answers.failsAfter)
                               && forall path :: path in Matching(tokens, objects) ==> answers.accepts(path))
      && (result.Success? ==> result.value == Matching(tokens, objects))
      && (result.Failure? ==>
            result.error == if invalid then InvalidPrefix
                            else if refused.Some? then MatchRefused(refused.value) else ListingFailed)
  {
    var prefix := DecodedLiteralPrefix(raw).value;
    ListingKeepsMatches(raw, tokens, objects);
    if prefix != "" && !answers.parses(prefix) {
      return Failure(InvalidPrefix);
    }
    var yielded := Yielded(prefix, objects, answers.failsAfter);
    var handles := [];
    for i := 0 to |yielded|
      invariant handles == Matching(tokens, yielded[..i])
      invariant FirstRefused(answers.accepts, handles).None?
    {
      MatchedSoFar(tokens, yielded, i);
      if Matches(tokens, yielded[i]) {
        if !answers.accepts(yielded[i]) {
          RefusedStaysFirst(answers.accepts, tokens, yielded, i);
          YieldedMatches(tokens, prefix, objects, answers.failsAfter);
          return Failure(MatchRefused(yielded[i]));
        }
        RefusedConcat(answers.accepts, handles, [yielded[i]]);
        handles := handles + [yielded[i]];
      }
    }
    assert yielded[..|yielded|] == yielded;
    if Fails(prefix, objects, answers.failsAfter) {
      return Failure(ListingFailed);
    }
    result := Success(handles);
  }

  /** What is matched before a failure is matched by the whole listing too. */
  lemma YieldedMatches(tokens: seq<Token>, prefix: string, objects: seq<string>, failsAfter: Option<nat>)
    ensures forall path :: path in Matching(tokens, Yielded(prefix, objects, failsAfter)) ==>
              path in Matching(tokens, Listing(prefix, objects))
  {
    var yielded, listed := Yielded(prefix, objects, failsAfter), Listing(prefix, objects);
    assert listed == yielded + listed[|yielded|..];
    MatchingConcat(tokens, yielded, listed[|yielded|..]);
  }

}

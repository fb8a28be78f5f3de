/** Which paths a pattern accepts, said of the path as it is written, escapes and all. */
module PatternMeaning {

  import opened Glob
  import opened LocationPattern
  import opened PatternCompilation
  import opened PatternListing
  import opened Percent
  import opened Text
  import opened Wrappers

  // ---------- what a written path accepts ----------

  /** Membership in the list of a bracket class: single characters, and ranges `x-y`. */
  predicate Listed(members: string, c: char) {
    members != ""
    && (if |members| >= 3 && members[1] == '-' then members[0] <= c <= members[2] || Listed(members[3..], c)
        else c == members[0] || Listed(members[1..], c))
  }

  /** A bracket class, brackets included: one character other than a separator that is listed, or is not listed
    * behind `!`. */
  predicate InClass(bracketed: string, c: char)
    requires |bracketed| >= 3
  {
    && c != '/'
    && if bracketed[1] == '!' then !Listed(bracketed[2..|bracketed| - 1], c)
       else Listed(bracketed[1..|bracketed| - 1], c)
  }

  lemma SpanIsLong(text: string)
    requires ClassSpan(text).Some?
    ensures 3 <= ClassSpan(text).value <= |text|
    ensures text[1] == '!' ==> 4 <= ClassSpan(text).value
  {
  }

  /** The classes of a written path close before any escape. */
  predicate PlainClasses(raw: string)
    decreases |raw|
  {
    raw == ""
    || (if raw[0] == '[' then
          && ClassSpan(raw).Some? && '%' !in raw[..ClassSpan(raw).value]
          && PlainClasses(raw[ClassSpan(raw).value..])
        else PlainClasses(raw[1..]))
  }

  /** The paths a written path accepts: a run of escapes stands for the text it encodes, `?` for one character of
    * a segment, `*` for any of them, `**` for any segments, a class for one of its characters, and any other
    * character for itself. */
  ghost predicate Accepts(raw: string, path: string)
    decreases |raw|
  {
    if raw == "" then path == ""
    else if raw[0] == '%' then
      && Escaped(raw) && DecodeUtf8(RunBytes(raw)).Some?
      && var text := DecodeUtf8(RunBytes(raw)).value;
         text <= path && Accepts(raw[EscapeRun(raw)..], path[|text|..])
    else if raw[0] == '?' then path != "" && path[0] != '/' && Accepts(raw[1..], path[1..])
    else if raw == "**" then true
    else if "**/" <= raw then
      exists n :: 0 <= n <= |path| && WholeSegments(path, n) && Accepts(raw[3..], path[n..])
    else if raw[0] == '*' then
      exists n :: 0 <= n <= |path| && '/' !in path[..n] && Accepts(raw[1..], path[n..])
    else if raw[0] == '[' then
      && ClassSpan(raw).Some?
      && path != "" && IsIn(raw, path[0])
      && Accepts(raw[ClassSpan(raw).value..], path[1..])
    else path != "" && path[0] == raw[0] && Accepts(raw[1..], path[1..])
  }

  predicate IsIn(raw: string, c: char)
    requires ClassSpan(raw).Some?
  {
    SpanIsLong(raw);
    InClass(raw[..ClassSpan(raw).value], c)
  }

  /** The first characters of a path, up to a separator or to the end. */
  predicate WholeSegments(path: string, n: nat)
    requires n <= |path|
  {
    n == 0 || n == |path| || path[n - 1] == '/'
  }

  // ---------- classes ----------

  lemma {:induction false} SpecifiersList(members: string, c: char)
    ensures Within(c, Specifiers(members)) <==> Listed(members, c)
    decreases |members|
  {
    if members != "" {
      var n := if |members| >= 3 && members[1] == '-' then 3 else 1;
      SpecifiersList(members[n..], c);
      WithinCons(c, Specifiers(members)[0], Specifiers(members[n..]));
    }
  }

  lemma WithinCons(c: char, first: Specifier, others: seq<Specifier>)
    ensures Within(c, [first] + others) <==> Within(c, [first]) || Within(c, others)
    ensures Within(c, [first]) <==>
              match first case Single(d) => c == d case Range(low, high) => low <= c <= high
  {
    assert [first][0] == first && ([first] + others)[0] == first;
    if Within(c, others) {
      var i :| 0 <= i < |others| && match others[i] case Single(d) => c == d case Range(low, high) => low <= c <= high;
      assert ([first] + others)[i + 1] == others[i];
    }
  }

  lemma SliceOfFront(s: string, n: nat, i: nat, j: nat)
    requires i <= j <= n <= |s|
    ensures s[..n][i..j] == s[i..j]
  {
  }

  lemma ClassTokenAccepts(pattern: string, c: char)
    requires pattern != "" && pattern[0] == '[' && ClassSpan(pattern).Some?
    ensures ParseClass(pattern).Some?
    ensures TokenAccepts(ParseClass(pattern).value.0, c) <==> IsIn(pattern, c)
    ensures ParseClass(pattern).value.0.AnyWithin? || ParseClass(pattern).value.0.AnyExcept?
  {
    ClassParses(pattern);
    SpanIsLong(pattern);
    var n := ClassSpan(pattern).value;
    var bracketed := pattern[..n];
    SliceOfFront(pattern, n, 2, n - 1);
    SliceOfFront(pattern, n, 1, n - 1);
    SpecifiersList(pattern[2..n - 1], c);
    SpecifiersList(pattern[1..n - 1], c);
    if pattern[1] == '!' {
      CloseIsFirst(pattern[3..]);
    } else {
      CloseIsFirst(pattern[2..]);
    }
  }

  /** A class without escapes is decoded to itself. */
  lemma {:induction false} PlainDecodes(plain: string, rest: string)
    requires '%' !in plain && Decoded(plain + rest).Success?
    ensures Decoded(rest).Success? && Decoded(plain + rest).value == plain + Decoded(rest).value
    decreases |plain|
  {
    if plain == "" {
      ConcatEmpty(rest);
      ConcatEmpty(Decoded(rest).value);
    } else {
      assert (plain + rest)[0] == plain[0] && (plain + rest)[1..] == plain[1..] + rest;
      PlainDecodes(plain[1..], rest);
      HeadAndTail(plain);
      ConcatAssociates([plain[0]], plain[1..], Decoded(rest).value);
    }
  }

  lemma SpanOfFront(text: string, more: string, n: nat)
    requires ClassSpan(text) == Some(n)
    ensures ClassSpan(text[..n] + more) == Some(n)
    ensures (text[..n] + more)[..n] == text[..n] && (text[..n] + more)[n..] == more
  {
    SpanIsLong(text);
    var first := if text[1] == '!' then 2 else 1;
    var all := text[..n] + more;
    assert text[first + 1..][..n - first - 1] == text[first + 1..n] == all[first + 1..][..n - first - 1];
    FirstIndexOf(text[first + 1..], all[first + 1..], ']', n - first - 2);
  }

  lemma {:induction false} FirstIndexOf(a: string, b: string, c: char, k: nat)
    requires k < |a| && k < |b| && a[..k + 1] == b[..k + 1] && IndexOf(a, c) == k
    ensures IndexOf(b, c) == k
  {
    assert a[..k] == b[..k] by {
      assert a[..k] == a[..k + 1][..k] && b[..k] == b[..k + 1][..k];
    }
    assert a[k] == a[..k + 1][k] && b[k] == b[..k + 1][k];
    IndexIsFirst(b, c, k);
  }

  lemma {:induction false} IndexIsFirst(s: string, c: char, k: nat)
    requires k < |s| && s[k] == c && c !in s[..k]
    ensures IndexOf(s, c) == k
  {
    if k > 0 {
      assert s[0] == s[..k][0];
      assert s[1..][..k - 1] == s[..k][1..];
      IndexIsFirst(s[1..], c, k - 1);
    }
  }

  // ---------- the tokens mean the path ----------

  /** A path that starts with two stars stands at the front of a segment. */
  predicate FitsAfter(previous: Option<char>, raw: string) {
    "**" <= raw ==> previous == None || previous == Some('/')
  }

  ghost predicate MeansTheSame(previous: Option<char>, raw: string, path: string) {
    && Decoded(raw).Success?
    && var tokens := ParseGlob(previous, Decoded(raw).value);
       tokens.Some? && (Matches(tokens.value, path) <==> Accepts(raw, path))
  }

  /** The rest of a path after a character, or more, of it. */
  lemma RestIsChecked(raw: string, n: nat)
    requires PairsAlone(raw) && 0 < n <= |raw|
    ensures PairsAlone(raw[n..])
    ensures "**" <= raw[n..] ==> raw[n - 1] == '/'
  {
    var rest := raw[n..];
    forall i: nat | i < |rest| && PairAt(rest, i) ensures Alone(rest, i) {
      assert PairAt(raw, n + i) && Alone(raw, n + i);
      assert i > 0 ==> rest[i - 1] == raw[n + i - 1];
      assert i + 2 < |rest| ==> rest[i + 2] == raw[n + i + 2];
    }
    if "**" <= rest {
      assert rest[0] == '*' && rest[1] == '*';
      assert PairAt(raw, n);
    }
  }

  lemma {:induction false} PatternMeans(previous: Option<char>, raw: string, path: string)
    requires PairsAlone(raw) && PlainClasses(raw) && Decoded(raw).Success? && FitsAfter(previous, raw)
    ensures MeansTheSame(previous, raw, path)
    decreases |raw|, 2
  {
    if raw == "" {
    } else if raw[0] == '%' {
      EscapesMean(previous, raw, path);
    } else if raw[0] == '[' {
      ClassMeans(previous, raw, path);
    } else if "**" <= raw {
      SegmentsMean(previous, raw, path);
    } else if raw[0] == '*' {
      StarMeans(previous, raw, path);
    } else {
      CharacterMeans(previous, raw, path);
    }
  }

  lemma {:induction false} PlainClassesLater(raw: string, n: nat)
    requires PlainClasses(raw) && n <= |raw| && '[' !in raw[..n]
    ensures PlainClasses(raw[n..])
    decreases n
  {
    if n > 0 {
      assert raw[0] == raw[..n][0];
      assert raw[1..][..n - 1] == raw[..n][1..];
      PlainClassesLater(raw[1..], n - 1);
      assert raw[1..][n - 1..] == raw[n..];
    } else {
      assert raw[0..] == raw;
    }
  }

  lemma {:induction false} RunHasNoBracket(raw: string)
    ensures '[' !in raw[..EscapeRun(raw)]
    ensures EscapeRun(raw) > 0 ==> raw[EscapeRun(raw) - 1] != '/'
    decreases |raw|
  {
    if Escaped(raw) {
      var n := EscapeRun(raw[3..]);
      RunHasNoBracket(raw[3..]);
      assert raw[..3 + n] == raw[..3] + raw[3..][..n];
      assert n > 0 ==> raw[3 + n - 1] == raw[3..][n - 1];
    }
  }

  lemma EscapesMean(previous: Option<char>, raw: string, path: string)
    requires PairsAlone(raw) && PlainClasses(raw) && Decoded(raw).Success? && raw != "" && raw[0] == '%'
    ensures MeansTheSame(previous, raw, path)
    decreases |raw|, 0
  {
    var n, text := EscapeRun(raw), DecodeUtf8(RunBytes(raw)).value;
    var rest := raw[n..];
    RunHasNoBracket(raw);
    PlainClassesLater(raw, n);
    RestIsChecked(raw, n);
    var pinned, last := EscapedAhead(previous, text, Decoded(rest).value);
    if text <= path {
      PatternMeans(last, rest, path[|text|..]);
    } else {
      PatternMeans(last, rest, path);
    }
    PinnedAhead(pinned, text, ParseGlob(last, Decoded(rest).value).value, path);
  }

  lemma ClassInFront(raw: string, more: string, n: nat, c: char)
    requires raw != "" && raw[0] == '[' && ClassSpan(raw) == Some(n)
    ensures var parsed := ParseClass(raw[..n] + more);
      && parsed.Some? && parsed.value.1 == n
      && !parsed.value.0.AnySequence? && !parsed.value.0.AnyRecursive?
      && (TokenAccepts(parsed.value.0, c) <==> IsIn(raw, c))
  {
    SpanIsLong(raw);
    SpanOfFront(raw, more, n);
    ClassParses(raw[..n] + more);
    ClassTokenAccepts(raw[..n] + more, c);
  }

  lemma ClassGlob(previous: Option<char>, raw: string, more: string, n: nat)
    requires raw != "" && raw[0] == '[' && ClassSpan(raw) == Some(n)
    ensures ParseClass(raw[..n] + more).Some?
    ensures ParseGlob(previous, raw[..n] + more) ==
            Prepend(ParseClass(raw[..n] + more).value.0, ParseGlob(Some(']'), more))
  {
    SpanIsLong(raw);
    SpanOfFront(raw, more, n);
    ClassInFront(raw, more, n, 'x');
  }

  lemma ClassMeans(previous: Option<char>, raw: string, path: string)
    requires PairsAlone(raw) && PlainClasses(raw) && Decoded(raw).Success? && raw != "" && raw[0] == '['
    ensures MeansTheSame(previous, raw, path)
    decreases |raw|, 0
  {
    var n := ClassSpan(raw).value;
    var rest, later := raw[n..], if path == "" then "" else path[1..];
    SpanIsLong(raw);
    ClassEndsInBracket(raw);
    RestIsChecked(raw, n);
    assert raw == raw[..n] + rest;
    PlainDecodes(raw[..n], rest);
    var more := Decoded(rest).value;
    ClassGlob(previous, raw, more, n);
    PatternMeans(Some(']'), rest, later);
    ClassInFront(raw, more, n, if path == "" then 'x' else path[0]);
    OneTokenAhead(ParseClass(raw[..n] + more).value.0, ParseGlob(Some(']'), more).value, path);
  }

  lemma OneTokenAhead(token: Token, rest: seq<Token>, path: string)
    requires !token.AnySequence? && !token.AnyRecursive?
    ensures Matches([token] + rest, path) <==> path != "" && TokenAccepts(token, path[0]) && Matches(rest, path[1..])
  {
    AfterHead(token, rest);
  }

  lemma CharacterMeans(previous: Option<char>, raw: string, path: string)
    requires PairsAlone(raw) && PlainClasses(raw) && Decoded(raw).Success?
    requires raw != "" && raw[0] != '%' && raw[0] != '[' && raw[0] != '*'
    ensures MeansTheSame(previous, raw, path)
    decreases |raw|, 0
  {
    var c, rest, later := raw[0], raw[1..], if path == "" then "" else path[1..];
    RestIsChecked(raw, 1);
    PatternMeans(Some(c), rest, later);
    AfterHead(c, Decoded(rest).value);
    OneTokenAhead(if c == '?' then AnyChar else Char(c), ParseGlob(Some(c), Decoded(rest).value).value, path);
  }

  lemma StarMeans(previous: Option<char>, raw: string, path: string)
    requires PairsAlone(raw) && PlainClasses(raw) && Decoded(raw).Success?
    requires raw != "" && raw[0] == '*' && !("**" <= raw)
    ensures MeansTheSame(previous, raw, path)
    decreases |raw|, 0
  {
    var rest := raw[1..];
    RestIsChecked(raw, 1);
    assert rest != "" ==> rest[0] != '*';
    DecodedStart(rest);
    OneStarIsOne(Decoded(rest).value);
    forall n | 0 <= n <= |path| ensures MeansTheSame(Some('*'), rest, path[n..]) {
      PatternMeans(Some('*'), rest, path[n..]);
    }
    assert MeansTheSame(Some('*'), rest, path[0..]);
    AnyRunAhead(ParseGlob(Some('*'), Decoded(rest).value).value, path);
  }

  lemma OneStarIsOne(rest: string)
    requires rest != "" ==> rest[0] != '*'
    ensures Stars(['*'] + rest) == 1 && (['*'] + rest)[1..] == rest
  {
    AfterHead('*', rest);
  }

  lemma AnyRunAhead(rest: seq<Token>, path: string)
    ensures Matches([AnySequence] + rest, path) <==>
              exists n :: 0 <= n <= |path| && '/' !in path[..n] && Matches(rest, path[n..])
  {
    AfterHead(AnySequence, rest);
  }

  lemma AnySegmentsAhead(rest: seq<Token>, path: string)
    ensures Matches([AnyRecursive] + rest, path) <==>
              exists n :: 0 <= n <= |path| && WholeSegments(path, n) && Matches(rest, path[n..])
  {
    AfterHead(AnyRecursive, rest);
  }

  lemma SegmentsMean(previous: Option<char>, raw: string, path: string)
    requires PairsAlone(raw) && PlainClasses(raw) && Decoded(raw).Success? && FitsAfter(previous, raw)
    requires "**" <= raw
    ensures MeansTheSame(previous, raw, path)
    decreases |raw|, 1
  {
    assert raw[0] == '*' && raw[1] == '*';
    assert PairAt(raw, 0) && Alone(raw, 0);
    if |raw| == 2 {
      assert raw == "**";
      TwoStarsDecode();
      TwoStarsEnd(previous);
      AnySegmentsAhead([], path);
      assert WholeSegments(path, |path|) && Matches([], path[|path|..]);
      assert [AnyRecursive] + [] == [AnyRecursive];
    } else {
      SeparatorAfterStars(previous, raw, path);
    }
  }

  lemma TwoStarsEnd(previous: Option<char>)
    requires previous == None || previous == Some('/')
    ensures ParseGlob(previous, "**") == Some([AnyRecursive])
  {
    assert "**"[1..] == "*" && "*"[1..] == "";
    assert Stars("*") == 1 && Stars("**") == 2;
  }

  lemma SeparatorAfterStars(previous: Option<char>, raw: string, path: string)
    requires PairsAlone(raw) && PlainClasses(raw) && Decoded(raw).Success? && FitsAfter(previous, raw)
    requires "**" <= raw && |raw| > 2 && raw[2] == '/'
    ensures MeansTheSame(previous, raw, path)
    decreases |raw|, 0
  {
    var rest := raw[3..];
    assert raw[..3] == "**/" && raw == "**/" + rest;
    RestIsChecked(raw, 3);
    PlainClassesLater(raw, 3);
    PlainDecodes("**/", rest);
    StarsThenSeparator(previous, Decoded(rest).value);
    forall n | 0 <= n <= |path| ensures MeansTheSame(Some('/'), rest, path[n..]) {
      PatternMeans(Some('/'), rest, path[n..]);
    }
    assert MeansTheSame(Some('/'), rest, path[0..]);
    AnySegmentsAhead(ParseGlob(Some('/'), Decoded(rest).value).value, path);
  }

  lemma StarsThenSeparator(previous: Option<char>, rest: string)
    requires previous == None || previous == Some('/')
    ensures ParseGlob(previous, "**/" + rest) == Prepend(AnyRecursive, ParseGlob(Some('/'), rest))
  {
    var pattern := "**/" + rest;
    assert pattern[1..] == "*/" + rest && pattern[2..] == "/" + rest && pattern[3..] == rest;
    assert pattern[1..][1..] == pattern[2..];
    assert Stars(pattern[2..]) == 0 && Stars(pattern[1..]) == 1 && Stars(pattern) == 2;
  }

  // ---------- patterns ----------

  lemma {:induction false} StarsFillAlone(segments: seq<string>)
    requires segments != [] && forall i :: 0 <= i < |segments| ==> StarsFill(segments[i])
    ensures PairsAlone(Join(segments, "/"))
    decreases |segments|
  {
    SegmentOfStars(segments[0]);
    if |segments| > 1 {
      StarsFillAlone(segments[1..]);
      ConcatAssociates(segments[0], "/", Join(segments[1..], "/"));
      assert "/" == ['/'];
      PairsAloneInFront(segments[0], Join(segments[1..], "/"));
    }
  }

  lemma SegmentOfStars(segment: string)
    requires StarsFill(segment)
    ensures segment == "**" || NoPairs(segment)
    ensures PairsAlone(segment)
  {
    if segment != "**" {
      forall i: nat | i < |segment| ensures !PairAt(segment, i) {
        NotContained(segment, i);
      }
    }
  }

  lemma {:induction false} StarsSomewhere(text: string) returns (i: nat)
    requires Contains(text, "**")
    ensures i < |text| && PairAt(text, i)
  {
    if "**" <= text {
      i := 0;
    } else {
      i := StarsSomewhere(text[1..]);
      i := i + 1;
    }
  }

  lemma PairsAloneBehind(first: string, rest: string)
    requires PairsAlone(first + (['/'] + rest))
    ensures PairsAlone(rest)
  {
    var all, n := first + (['/'] + rest), |first| + 1;
    forall j: nat | j < |rest| && PairAt(rest, j) ensures Alone(rest, j) {
      assert all[n + j] == rest[j] && all[n + j + 1] == rest[j + 1];
      assert PairAt(all, n + j) && Alone(all, n + j);
      assert j > 0 ==> all[n + j - 1] == rest[j - 1];
      assert j + 2 < |rest| ==> all[n + j + 2] == rest[j + 2];
    }
  }

  lemma LoneStarsFill(first: string, more: string)
    requires '/' !in first && (more == "" || more[0] == '/') && PairsAlone(first + more)
    ensures StarsFill(first)
  {
    if Contains(first, "**") {
      var i := StarsSomewhere(first);
      assert PairAt(first + more, i) && Alone(first + more, i);
      assert first == "**";
    }
  }

  lemma {:induction false} AloneFills(segments: seq<string>)
    requires segments != [] && (forall i :: 0 <= i < |segments| ==> '/' !in segments[i])
    requires PairsAlone(Join(segments, "/"))
    ensures forall i :: 0 <= i < |segments| ==> StarsFill(segments[i])
    decreases |segments|
  {
    if |segments| == 1 {
      assert segments[0] + "" == segments[0];
      LoneStarsFill(segments[0], "");
    } else {
      var rest := Join(segments[1..], "/");
      ConcatAssociates(segments[0], "/", rest);
      assert "/" == ['/'];
      LoneStarsFill(segments[0], ['/'] + rest);
      PairsAloneBehind(segments[0], rest);
      AloneFills(segments[1..]);
      assert forall i :: 0 < i < |segments| ==> segments[i] == segments[1..][i - 1];
    }
  }

  /** A path passes the check on double stars exactly when each `**` stands between separators or the path's ends. */
  lemma RecursiveGlobsExactly(path: string)
    ensures ValidRecursiveGlobs(path) <==>
              forall i: nat :: i + 1 < |path| && path[i] == path[i + 1] == '*' ==>
                (i == 0 || path[i - 1] == '/') && (i + 2 == |path| || path[i + 2] == '/')
  {
    JoinUndoesSplit(path, '/');
    assert "/" == ['/'];
    var segments := Split(path, '/');
    if ValidRecursiveGlobs(path) {
      StarsFillAlone(segments);
      forall i: nat | i + 1 < |path| && path[i] == path[i + 1] == '*'
        ensures (i == 0 || path[i - 1] == '/') && (i + 2 == |path| || path[i + 2] == '/')
      {
        assert PairAt(path, i) && Alone(path, i);
      }
    } else if PairsAlone(path) {
      AloneFills(segments);
    }
  }

  /**
   The matcher of a pattern accepts exactly the paths its written path does: for every path that passes the
   check on double stars, decodes, and has no escape inside a bracket class.
   */
  lemma PatternMeansExactly(raw: string, path: string)
    requires ValidRecursiveGlobs(raw) && Decoded(raw).Success? && PlainClasses(raw)
    ensures ParseGlob(None, Decoded(raw).value).Some?
    ensures Matches(ParseGlob(None, Decoded(raw).value).value, path) <==> Accepts(raw, path)
  {
    JoinUndoesSplit(raw, '/');
    assert "/" == ['/'];
    StarsFillAlone(Split(raw, '/'));
    PatternMeans(None, raw, path);
  }

  // ---------- an escape inside a class ----------

  const ESCAPED_IN_CLASS := "[" + ("%5D" + "]")

  lemma BracketDecodes(rest: string)
    requires Decoded(rest).Success? && !Escaped(rest)
    ensures Decoded("%5D" + rest) == Success("[]]" + Decoded(rest).value)
  {
    var raw := "%5D" + rest;
    assert raw[3..] == rest;
    assert EscapedByte(raw) == 0x5D;
    assert RunBytes(rest) == [] && EscapeRun(rest) == 0;
    assert RunBytes(raw) == [0x5D] + [] && EscapeRun(raw) == 3;
    assert [0x5D as Byte][1..] == [];
    assert DecodeUtf8([0x5D]) == Some("]" + "");
    ConcatEmpty("]");
    assert "]"[1..] == "";
    assert Escape("]") == "[]]" + "";
    ConcatEmpty("[]]");
  }

  lemma EscapedInClassDecodes()
    ensures Decoded(ESCAPED_IN_CLASS) == Success("[[]" + ("]" + ("]" + "")))
  {
    assert "]"[1..] == "";
    assert Decoded("]") == Success("]" + "");
    ConcatEmpty("]");
    BracketDecodes("]");
    AfterHead('[', "%5D" + "]");
    assert "[" == ['['];
    assert "[" + ("[]]" + "]") == "[[]" + ("]" + ("]" + ""));
  }

  lemma OneBracketClass(rest: string)
    ensures ParseGlob(None, "[[]" + rest) == Prepend(AnyWithin([Single('[')]), ParseGlob(Some(']'), rest))
  {
    assert EscapeChar('[') == "[[]";
    EscapedCharParses(None, '[', rest);
  }

  /** An escaped bracket inside a class ends it: `[%5D]` accepts `[]]`, and not the bracket it spells. */
  lemma EscapeEndsItsClass()
    ensures Decoded(ESCAPED_IN_CLASS).Success?
    ensures var tokens := ParseGlob(None, Decoded(ESCAPED_IN_CLASS).value);
      tokens.Some? && Matches(tokens.value, "[]]") && !Matches(tokens.value, "]")
  {
    EscapedInClassDecodes();
    OneBracketClass("]" + ("]" + ""));
    PlainCharParses(Some(']'), ']', "]" + "");
    PlainCharParses(Some(']'), ']', "");
    assert "]" == [']'];
    var tail := [Char(']')] + ([Char(']')] + []);
    OneTokenAhead(AnyWithin([Single('[')]), tail, "[]]");
    OneTokenAhead(AnyWithin([Single('[')]), tail, "]");
    OneTokenAhead(Char(']'), [Char(']')] + [], "]]");
    OneTokenAhead(Char(']'), [], "]");
    assert "[]]"[1..] == "]]" && "]]"[1..] == "]" && "]"[1..] == "";
    WithinOne('[', '[');
    WithinOne(']', '[');
  }

}

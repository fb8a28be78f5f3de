/** Patterns that pass the check on double stars compile exactly when their bracket classes close. */
module PatternCompilation {

  import opened Glob
  import opened LocationPattern
  import opened PatternListing
  import opened Percent
  import opened Text
  import opened Wrappers

  /** Two stars together must fill the segment. */
  predicate StarsFill(segment: string) {
    !Contains(segment, "**") || segment == "**"
  }

  predicate ValidRecursiveGlobs(path: string) {
    forall i :: 0 <= i < |Split(path, '/')| ==> StarsFill(Split(path, '/')[i])
  }

  // ---------- bracket classes ----------

  /** How many characters a class at the front spans: it ends at the first `]` after its first member, which
    * stands behind a leading `!`. */
  function ClassSpan(text: string): Option<nat> {
    var first := if |text| > 1 && text[1] == '!' then 2 else 1;
    if |text| <= first then None
    else
      var end := first + 1 + IndexOf(text[first + 1..], ']');
      if end < |text| then Some(end + 1) else None
  }

  /** Every bracket that opens a class is closed; a bracket inside a class opens none. */
  predicate ClassesClose(text: string)
    decreases |text|
  {
    text == ""
    || (if text[0] == '[' then ClassSpan(text).Some? && ClassesClose(text[ClassSpan(text).value..])
        else ClassesClose(text[1..]))
  }

  lemma {:induction false} CloseIsFirst(text: string)
    ensures Close(text) == if IndexOf(text, ']') < |text| then Some(IndexOf(text, ']')) else None
  {
    if text != "" && text[0] != ']' {
      CloseIsFirst(text[1..]);
    }
  }

  /** The parser takes a class exactly where one closes, and takes all of it. */
  lemma ClassParses(pattern: string)
    requires pattern != "" && pattern[0] == '['
    ensures ParseClass(pattern).Some? <==> ClassSpan(pattern).Some?
    ensures ParseClass(pattern).Some? ==> ParseClass(pattern).value.1 == ClassSpan(pattern).value
  {
    if |pattern| > 1 && pattern[1] == '!' {
      if |pattern| >= 3 {
        CloseIsFirst(pattern[3..]);
      }
    } else if |pattern| >= 2 {
      CloseIsFirst(pattern[2..]);
    }
  }

  // ---------- stars ----------

  predicate PairAt(text: string, i: nat) {
    i + 1 < |text| && text[i] == '*' && text[i + 1] == '*'
  }

  predicate NoPairs(text: string) {
    forall i: nat :: i < |text| ==> !PairAt(text, i)
  }

  /** What stands next to two stars leaves them a segment of their own. */
  predicate Alone(text: string, i: nat)
    requires i + 1 < |text|
  {
    (i == 0 || text[i - 1] == '/') && (i + 2 == |text| || text[i + 2] == '/')
  }

  predicate PairsAlone(text: string) {
    forall i: nat :: i < |text| && PairAt(text, i) ==> Alone(text, i)
  }

  lemma {:induction false} NotContained(text: string, i: nat)
    requires !Contains(text, "**") && i < |text|
    ensures !PairAt(text, i)
    decreases i
  {
    if i == 0 {
      assert PairAt(text, 0) ==> "**" <= text;
    } else {
      NotContained(text[1..], i - 1);
    }
  }

  lemma {:induction false} EscapeHasNoPairs(text: string)
    ensures NoPairs(Escape(text)) && (text != "" ==> Escape(text) != "" && Escape(text)[0] != '*')
    ensures Escape(text) != "" ==> Escape(text)[|Escape(text)| - 1] != '*'
    decreases |text|
  {
    if text != "" {
      EscapeHasNoPairs(text[1..]);
      var first, others := EscapeChar(text[0]), Escape(text[1..]);
      assert Escape(text) == first + others;
      NoPairsConcat(first, others);
    }
  }

  lemma NoPairsConcat(a: string, b: string)
    requires NoPairs(a) && NoPairs(b)
    requires a != "" && b != "" ==> a[|a| - 1] != '*' || b[0] != '*'
    ensures NoPairs(a + b)
  {
    forall i: nat | i < |a + b| ensures !PairAt(a + b, i) {
      if i + 1 < |a| {
        assert !PairAt(a, i);
      } else if i >= |a| {
        assert !PairAt(b, i - |a|);
      }
    }
  }

  lemma DecodedStart(segment: string)
    requires Decoded(segment).Success? && (segment != "" ==> segment[0] != '*')
    ensures Decoded(segment).value != "" ==> Decoded(segment).value[0] != '*'
  {
    if segment != "" && segment[0] == '%' {
      assert RunBytes(segment) != [];
      EscapeHasNoPairs(DecodeUtf8(RunBytes(segment)).value);
    }
  }

  /** Decoding brings no stars together: the stars of an escape become classes. */
  lemma {:induction false} DecodingKeepsStarsApart(segment: string)
    requires NoPairs(segment) && Decoded(segment).Success?
    ensures NoPairs(Decoded(segment).value)
    decreases |segment|
  {
    if segment != "" {
      var n := if segment[0] == '%' then EscapeRun(segment) else 1;
      var rest := segment[n..];
      assert NoPairs(rest) by {
        forall i: nat | i < |rest| ensures !PairAt(rest, i) {
          assert !PairAt(segment, n + i);
        }
      }
      DecodingKeepsStarsApart(rest);
      if segment[0] == '%' {
        var text := DecodeUtf8(RunBytes(segment)).value;
        EscapeHasNoPairs(text);
        NoPairsConcat(Escape(text), Decoded(rest).value);
      } else {
        assert !PairAt(segment, 0);
        if segment[0] == '*' {
          DecodedStart(rest);
        }
        assert NoPairs([segment[0]]);
        NoPairsConcat([segment[0]], Decoded(rest).value);
      }
    }
  }

  lemma TwoStarsDecode()
    ensures Decoded("**") == Success("**")
  {
    assert "**"[1..] == "*" && "*"[1..] == "";
    assert Decoded("*") == Success("*" + "");
    ConcatEmpty("*");
    assert "*" + "*" == "**";
  }

  lemma SegmentStars(segment: string)
    requires StarsFill(segment) && Decoded(segment).Success?
    ensures Decoded(segment).value == "**" || NoPairs(Decoded(segment).value)
  {
    if segment == "**" {
      TwoStarsDecode();
    } else {
      forall i: nat | i < |segment| ensures !PairAt(segment, i) {
        NotContained(segment, i);
      }
      DecodingKeepsStarsApart(segment);
    }
  }

  lemma PairsAloneInFront(first: string, rest: string)
    requires (first == "**" || NoPairs(first)) && PairsAlone(rest)
    ensures PairsAlone(first) && PairsAlone(first + (['/'] + rest))
  {
    var all := first + (['/'] + rest);
    forall i: nat | i < |all| && PairAt(all, i) ensures Alone(all, i) {
      if i + 1 < |first| {
        assert PairAt(first, i);
      } else if i > |first| {
        var j := i - |first| - 1;
        assert PairAt(rest, j) && Alone(rest, j);
        assert j > 0 ==> all[i - 1] == rest[j - 1];
        assert j + 2 < |rest| ==> all[i + 2] == rest[j + 2];
      }
    }
  }

  /** Stars that fill raw segments are alone in the decoded matcher, whatever the escapes decode to. */
  lemma {:induction false} DecodedPairsAreAlone(segments: seq<string>)
    requires segments != [] && Decoded(Join(segments, "/")).Success?
    requires forall i :: 0 <= i < |segments| ==> StarsFill(segments[i])
    ensures PairsAlone(Decoded(Join(segments, "/")).value)
    decreases |segments|
  {
    if |segments| == 1 {
      SegmentStars(segments[0]);
    } else {
      var others := Join(segments[1..], "/");
      ConcatAssociates(segments[0], "/", others);
      assert "/" == ['/'];
      DecodedSplits(segments[0], others);
      DecodedPairsAreAlone(segments[1..]);
      SegmentStars(segments[0]);
      PairsAloneInFront(Decoded(segments[0]).value, Decoded(others).value);
    }
  }

  // ---------- compiling ----------

  /** The character before a position. */
  function Before(text: string, i: nat): Option<char>
    requires i <= |text|
  {
    if i == 0 then None else Some(text[i - 1])
  }

  lemma TwoStarsAhead(text: string, i: nat)
    requires PairAt(text, i) && Alone(text, i)
    ensures Stars(text[i..]) == 2
  {
    var ahead := text[i..];
    assert ahead[1..] == text[i + 1..] && ahead[2..] == text[i + 2..] && ahead[1..][1..] == ahead[2..];
    assert Stars(text[i + 2..]) == 0;
    assert Stars(text[i + 1..]) == 1;
  }

  lemma OneStarAhead(text: string, i: nat)
    requires i < |text| && text[i] == '*' && !PairAt(text, i)
    ensures Stars(text[i..]) == 1
  {
    assert text[i..][1..] == text[i + 1..];
    assert Stars(text[i + 1..]) == 0;
  }

  lemma ClassEndsInBracket(text: string)
    requires ClassSpan(text).Some?
    ensures 0 < ClassSpan(text).value <= |text| && text[ClassSpan(text).value - 1] == ']'
  {
  }

  /** With stars alone in their segments, the parser refuses nothing but a class that does not close. */
  lemma {:induction false} CompilesFrom(text: string, i: nat)
    requires PairsAlone(text) && i <= |text|
    ensures ParseGlob(Before(text, i), text[i..]).Some? <==> ClassesClose(text[i..])
    decreases |text| - i, 1
  {
    if i < |text| {
      var ahead := text[i..];
      assert ahead[1..] == text[i + 1..];
      if ahead[0] == '[' {
        ClassCompiles(text, i);
      } else if ahead[0] == '*' && PairAt(text, i) {
        PairCompiles(text, i);
      } else {
        if ahead[0] == '*' {
          OneStarAhead(text, i);
        }
        CompilesFrom(text, i + 1);
      }
    }
  }

  lemma ClassCompiles(text: string, i: nat)
    requires PairsAlone(text) && i < |text| && text[i] == '['
    ensures ParseGlob(Before(text, i), text[i..]).Some? <==> ClassesClose(text[i..])
    decreases |text| - i, 0
  {
    var ahead := text[i..];
    ClassParses(ahead);
    if ClassSpan(ahead).Some? {
      var n := ClassSpan(ahead).value;
      ClassEndsInBracket(ahead);
      assert ahead[n..] == text[i + n..] && ahead[n - 1] == text[i + n - 1];
      CompilesFrom(text, i + n);
    }
  }

  lemma PairCompiles(text: string, i: nat)
    requires PairsAlone(text) && PairAt(text, i)
    ensures ParseGlob(Before(text, i), text[i..]).Some? <==> ClassesClose(text[i..])
    decreases |text| - i, 0
  {
    var ahead := text[i..];
    TwoStarsAhead(text, i);
    assert ahead[1..] == text[i + 1..] && ahead[1..][1..] == ahead[2..] == text[i + 2..];
    assert ClassesClose(ahead) == ClassesClose(ahead[2..]);
    if |ahead| > 2 {
      assert ahead[3..] == text[i + 3..] && ahead[2..][1..] == ahead[3..];
      assert ahead[2] == text[i + 2] == '/';
      CompilesFrom(text, i + 3);
    }
  }

  /** A path whose double stars fill their segments gives a matcher that the glob parser accepts exactly when
    * its bracket classes close: the check leaves the parser nothing else to refuse. */
  lemma CheckedPatternsCompileExactly(raw: string)
    requires ValidRecursiveGlobs(raw) && Decoded(raw).Success?
    ensures ParseGlob(None, Decoded(raw).value).Some? <==> ClassesClose(Decoded(raw).value)
  {
    var matcher := Decoded(raw).value;
    JoinUndoesSplit(raw, '/');
    assert "/" == ['/'];
    DecodedPairsAreAlone(Split(raw, '/'));
    assert matcher[0..] == matcher;
    CompilesFrom(matcher, 0);
  }

  lemma {:induction false} EscapedClassesClose(text: string, rest: string)
    ensures ClassesClose(Escape(text) + rest) <==> ClassesClose(rest)
    decreases |text|
  {
    if text == "" {
      ConcatEmpty(rest);
    } else {
      var first, more := EscapeChar(text[0]), Escape(text[1..]) + rest;
      EscapedClassesClose(text[1..], rest);
      ConcatAssociates(first, Escape(text[1..]), rest);
      if Special(text[0]) {
        assert (first + more)[0] == '[' && (first + more)[1] == text[0] && (first + more)[2] == ']';
        assert (first + more)[2..][0] == ']' && (first + more)[3..] == more;
      } else {
        assert (first + more)[1..] == more;
      }
    }
  }

  /** Without a bracket in the path, the only classes are those of escaped characters, and they close. */
  lemma {:induction false} ClassesOfEscapesClose(raw: string)
    requires '[' !in raw && Decoded(raw).Success?
    ensures ClassesClose(Decoded(raw).value)
    decreases |raw|
  {
    if raw != "" {
      if raw[0] == '%' {
        var rest := Decoded(raw[EscapeRun(raw)..]).value;
        ClassesOfEscapesClose(raw[EscapeRun(raw)..]);
        EscapedClassesClose(DecodeUtf8(RunBytes(raw)).value, rest);
      } else {
        ClassesOfEscapesClose(raw[1..]);
        AfterHead(raw[0], Decoded(raw[1..]).value);
      }
    }
  }

  /** A path that passes the check and has no bracket class always gives a valid glob. */
  lemma CheckedPatternsCompile(raw: string)
    requires ValidRecursiveGlobs(raw) && '[' !in raw && Decoded(raw).Success?
    ensures ParseGlob(None, Decoded(raw).value).Some?
  {
    ClassesOfEscapesClose(raw);
    CheckedPatternsCompileExactly(raw);
  }

}

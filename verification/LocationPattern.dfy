/** Object-path patterns in explicit URLs: the percent-decoded matcher, what it means for a path
  * without globs, and the canonical URL of a pattern.
  *
  * A path reaches these functions only as part of a canonical URL, so its text is ASCII.
  */
module LocationPattern {

  import opened Wrappers
  import opened Text
  import opened Percent
  import opened Glob

  datatype PatternError = InvalidPercentEncoding

  predicate Active(c: char) {
    c == '*' || c == '?' || c == '['
  }

  predicate HasActiveGlob(text: string) {
    exists i :: 0 <= i < |text| && Active(text[i])
  }

  // ---------- the decoded matcher ----------

  /** The length of the escapes, one after another, at the front. */
  function EscapeRun(raw: string): (n: nat)
    ensures n <= |raw| && (n > 0 <==> Escaped(raw))
  {
    if Escaped(raw) then 3 + EscapeRun(raw[3..]) else 0
  }

  function RunBytes(raw: string): seq<Byte> {
    if Escaped(raw) then [EscapedByte(raw)] + RunBytes(raw[3..]) else []
  }

  function PrependText(text: string, rest: Result<string, PatternError>): Result<string, PatternError> {
    match rest
    case Failure(error) => Failure(error)
    case Success(tail) => Success(text + tail)
  }

  /** Each run of escapes is decoded as one text and escaped for the glob; other characters
    * keep their glob meaning. */
  function Decoded(raw: string): Result<string, PatternError>
    decreases |raw|
  {
    if raw == "" then Success("")
    else if raw[0] == '%' then
      if !Escaped(raw) then Failure(InvalidPercentEncoding)
      else
        match DecodeUtf8(RunBytes(raw))
        case None => Failure(InvalidPercentEncoding)
        case Some(text) => PrependText(Escape(text), Decoded(raw[EscapeRun(raw)..]))
    else PrependText([raw[0]], Decoded(raw[1..]))
  }

  // ---------- unescaping ----------

  /** A class of one special character stands for that character. */
  predicate EscapedLiteral(text: string) {
    |text| >= 3 && text[0] == '[' && text[2] == ']' && Special(text[1])
  }

  function Unescape(text: string): string {
    if text == "" then ""
    else if EscapedLiteral(text) then [text[1]] + Unescape(text[3..])
    else [text[0]] + Unescape(text[1..])
  }

  // ---------- literal text becomes pinned tokens ----------

  function PrependAll(tokens: seq<Token>, rest: Option<seq<Token>>): Option<seq<Token>> {
    match rest
    case None => None
    case Some(tail) => Some(tokens + tail)
  }

  lemma PrependAllOne(token: Token, tokens: seq<Token>, rest: Option<seq<Token>>)
    ensures Prepend(token, PrependAll(tokens, rest)) == PrependAll([token] + tokens, rest)
  {
    if rest.Some? {
      ConcatAssociates([token], tokens, rest.value);
    }
  }

  lemma PrependAllTwice(a: seq<Token>, b: seq<Token>, rest: Option<seq<Token>>)
    ensures PrependAll(a, PrependAll(b, rest)) == PrependAll(a + b, rest)
  {
    if rest.Some? {
      ConcatAssociates(a, b, rest.value);
    }
  }

  lemma PrependAllNone(rest: Option<seq<Token>>)
    ensures PrependAll([], rest) == rest
  {
    if rest.Some? {
      ConcatEmpty(rest.value);
    }
  }

  lemma AllPinConcat(a: seq<Token>, s: string, b: seq<Token>, t: string)
    requires AllPin(a, s) && AllPin(b, t)
    ensures AllPin(a + b, s + t)
  {
  }

  lemma UnescapeOne(c: char, rest: string)
    ensures Unescape(EscapeChar(c) + rest) == [c] + Unescape(rest)
    ensures c != '[' ==> Unescape([c] + rest) == [c] + Unescape(rest)
  {
    var text := EscapeChar(c) + rest;
    if Special(c) {
      assert text[0] == '[' && text[1] == c && text[2] == ']' && text[3..] == rest;
    } else {
      assert text[0] == c && text[1..] == rest;
    }
    AfterHead(c, rest);
  }

  /** Escaped text in front is parsed to tokens that pin it, and unescapes to itself. */
  lemma {:induction false} EscapedAhead(previous: Option<char>, text: string, rest: string)
    returns (pinned: seq<Token>, last: Option<char>)
    ensures ParseGlob(previous, Escape(text) + rest) == PrependAll(pinned, ParseGlob(last, rest))
    ensures AllPin(pinned, text)
    ensures Unescape(Escape(text) + rest) == text + Unescape(rest)
    decreases |text|
  {
    if text == "" {
      pinned, last := [], previous;
      ConcatEmpty(rest);
      ConcatEmpty(Unescape(rest));
      PrependAllNone(ParseGlob(last, rest));
    } else {
      var c, others := text[0], Escape(text[1..]);
      var tail, end := EscapedAhead(Some(if Special(c) then ']' else c), text[1..], rest);
      ConcatAssociates(EscapeChar(c), others, rest);
      EscapedCharParses(previous, c, others + rest);
      UnescapeOne(c, others + rest);
      ConcatAssociates([c], text[1..], Unescape(rest));
      HeadAndTail(text);
      PrependAllOne(Pin(c, true), tail, ParseGlob(end, rest));
      AllPinConcat([Pin(c, true)], [c], tail, text[1..]);
      pinned, last := [Pin(c, true)] + tail, end;
    }
  }

  lemma NoGlobLater(raw: string, n: nat)
    requires !HasActiveGlob(raw) && n <= |raw|
    ensures !HasActiveGlob(raw[n..])
  {
    forall i | 0 <= i < |raw| - n ensures !Active(raw[n..][i]) {
      assert raw[n..][i] == raw[n + i];
    }
  }

  /** A path part without active glob characters is parsed to tokens that pin exactly its
    * unescaped matcher, whatever follows. */
  lemma {:induction false} LiteralAhead(previous: Option<char>, raw: string, rest: string)
    returns (pinned: seq<Token>, last: Option<char>)
    requires !HasActiveGlob(raw) && Decoded(raw).Success?
    ensures ParseGlob(previous, Decoded(raw).value + rest) == PrependAll(pinned, ParseGlob(last, rest))
    ensures AllPin(pinned, Unescape(Decoded(raw).value))
    decreases |raw|
  {
    if raw == "" {
      pinned, last := [], previous;
      ConcatEmpty(rest);
      PrependAllNone(ParseGlob(last, rest));
    } else if raw[0] == '%' {
      var text, n := DecodeUtf8(RunBytes(raw)).value, EscapeRun(raw);
      NoGlobLater(raw, n);
      var later := Decoded(raw[n..]).value;
      var front, middle := EscapedAhead(previous, text, later + rest);
      var tail, end := LiteralAhead(middle, raw[n..], rest);
      ConcatAssociates(Escape(text), later, rest);
      PrependAllTwice(front, tail, ParseGlob(end, rest));
      var again, ignored := EscapedAhead(previous, text, later);
      AllPinConcat(front, text, tail, Unescape(later));
      pinned, last := front + tail, end;
    } else {
      var c := raw[0];
      assert !Active(raw[0]);
      NoGlobLater(raw, 1);
      var later := Decoded(raw[1..]).value;
      var tail, end := LiteralAhead(Some(c), raw[1..], rest);
      ConcatAssociates([c], later, rest);
      PlainCharParses(previous, c, later + rest);
      PrependAllOne(Char(c), tail, ParseGlob(end, rest));
      UnescapeOne(c, later);
      AllPinConcat([Char(c)], [c], tail, Unescape(later));
      pinned, last := [Char(c)] + tail, end;
    }
  }

  // ---------- a path without globs names one object ----------

  /** The run's bytes are the plain decoding of the escapes at the front. */
  lemma {:induction false} RunIsPlain(raw: string)
    requires Ascii(raw)
    ensures Ascii(raw[EscapeRun(raw)..])
    ensures PercentBytes(raw) == RunBytes(raw) + PercentBytes(raw[EscapeRun(raw)..])
    ensures WellEscaped(raw) <==> WellEscaped(raw[EscapeRun(raw)..])
    ensures !Escaped(raw[EscapeRun(raw)..])
    decreases |raw|
  {
    if Escaped(raw) {
      RunIsPlain(raw[3..]);
      var n := EscapeRun(raw[3..]);
      assert raw[3..][n..] == raw[3 + n..];
      ConcatAssociates([EscapedByte(raw)], RunBytes(raw[3..]), PercentBytes(raw[3 + n..]));
    } else {
      assert raw[0..] == raw;
      ConcatEmpty(PercentBytes(raw));
    }
  }

  /** The matcher is computed exactly when the whole path percent-decodes to text, and without
    * active glob characters it then unescapes to that text. */
  lemma {:induction false} DecodedIsPlain(raw: string)
    requires Ascii(raw)
    ensures Decoded(raw).Success? <==> WellEscaped(raw) && DecodeUtf8(PercentBytes(raw)).Some?
    ensures !HasActiveGlob(raw) && Decoded(raw).Success? ==>
      Unescape(Decoded(raw).value) == DecodeUtf8(PercentBytes(raw)).value
    decreases |raw|
  {
    if raw == "" {
    } else if raw[0] == '%' {
      if Escaped(raw) {
        RunDecodesPlainly(raw);
      }
    } else {
      CharDecodesPlainly(raw);
    }
  }

  lemma RunDecodesPlainly(raw: string)
    requires Ascii(raw) && Escaped(raw)
    ensures Decoded(raw).Success? <==> WellEscaped(raw) && DecodeUtf8(PercentBytes(raw)).Some?
    ensures !HasActiveGlob(raw) && Decoded(raw).Success? ==>
      Unescape(Decoded(raw).value) == DecodeUtf8(PercentBytes(raw)).value
    decreases |raw|, 0
  {
    var n := EscapeRun(raw);
    var rest := raw[n..];
    RunIsPlain(raw);
    DecodedIsPlain(rest);
    if WellEscaped(rest) {
      DecodeSplits(RunBytes(raw), PercentBytes(rest));
    }
    if !HasActiveGlob(raw) && Decoded(raw).Success? {
      NoGlobLater(raw, n);
      var pinned, last := EscapedAhead(None, DecodeUtf8(RunBytes(raw)).value, Decoded(rest).value);
    }
  }

  lemma CharDecodesPlainly(raw: string)
    requires Ascii(raw) && raw != "" && raw[0] != '%'
    ensures Decoded(raw).Success? <==> WellEscaped(raw) && DecodeUtf8(PercentBytes(raw)).Some?
    ensures !HasActiveGlob(raw) && Decoded(raw).Success? ==>
      Unescape(Decoded(raw).value) == DecodeUtf8(PercentBytes(raw)).value
    decreases |raw|, 0
  {
    var c := raw[0];
    DecodedIsPlain(raw[1..]);
    var code: Byte := c as int;
    assert PercentBytes(raw) == [code] + PercentBytes(raw[1..]);
    AfterHead(code, PercentBytes(raw[1..]));
    if !HasActiveGlob(raw) && Decoded(raw).Success? {
      assert !Active(raw[0]);
      NoGlobLater(raw, 1);
      UnescapeOne(c, Decoded(raw[1..]).value);
    }
  }

  /** Without active glob characters the matcher is a valid pattern that accepts exactly the
    * percent-decoded path. */
  lemma NoGlobNamesOneObject(raw: string, path: string)
    requires Ascii(raw) && !HasActiveGlob(raw) && Decoded(raw).Success?
    ensures ParseGlob(None, Decoded(raw).value).Some?
    ensures Matches(ParseGlob(None, Decoded(raw).value).value, path) <==> Some(path) == DecodeUtf8(PercentBytes(raw))
  {
    DecodedIsPlain(raw);
    var pinned, last := LiteralAhead(None, raw, "");
    ConcatEmpty(Decoded(raw).value);
    ConcatEmpty(pinned);
    PinnedAhead(pinned, Unescape(Decoded(raw).value), [], path);
    PrefixAndNothing(Unescape(Decoded(raw).value), path);
  }

  lemma PrefixAndNothing(text: string, path: string)
    ensures text <= path && path[|text|..] == "" <==> path == text
  {
  }

  lemma GlobConcat(a: string, b: string)
    ensures HasActiveGlob(a + b) <==> HasActiveGlob(a) || HasActiveGlob(b)
  {
    if HasActiveGlob(a) {
      var i :| 0 <= i < |a| && Active(a[i]);
      assert (a + b)[i] == a[i];
    }
    if HasActiveGlob(b) {
      var i :| 0 <= i < |b| && Active(b[i]);
      assert (a + b)[|a| + i] == b[i];
    }
  }

  // ---------- the canonical URL ----------

  function CanonicalChar(c: char): string {
    match c
    case '*' => "%2A"
    case '?' => "%3F"
    case '[' => "%5B"
    case ']' => "%5D"
    case _ => [c]
  }

  function CanonicalPath(raw: string): string {
    EscapeAll(CanonicalChar, raw)
  }

  lemma CanonicalStep(c: char, rest: string)
    requires (c as int) < 0x80 && Ascii(rest)
    ensures var text := CanonicalChar(c) + rest;
      && Ascii(text)
      && (c != '%' ==> PercentBytes(text) == [c as int as Byte] + PercentBytes(rest))
      && (c != '%' ==> (WellEscaped(text) <==> WellEscaped(rest)))
  {
    var text := CanonicalChar(c) + rest;
    if Special(c) {
      assert text[0] == '%' && text[3..] == rest;
      assert Escaped(text) && EscapedByte(text) == c as int;
    } else {
      assert text[0] == c && text[1..] == rest;
    }
  }

  lemma {:induction false} CanonicalHasNoGlob(raw: string)
    requires Ascii(raw)
    ensures Ascii(CanonicalPath(raw)) && !HasActiveGlob(CanonicalPath(raw))
  {
    if raw != "" {
      CanonicalHasNoGlob(raw[1..]);
      CanonicalStep(raw[0], CanonicalPath(raw[1..]));
      GlobConcat(CanonicalChar(raw[0]), CanonicalPath(raw[1..]));
    }
  }

  lemma {:induction false} CanonicalKeepsBytes(raw: string)
    requires Ascii(raw) && WellEscaped(raw)
    ensures Ascii(CanonicalPath(raw)) && WellEscaped(CanonicalPath(raw))
    ensures PercentBytes(CanonicalPath(raw)) == PercentBytes(raw)
    decreases |raw|
  {
    if raw != "" {
      if raw[0] == '%' {
        CanonicalKeepsBytes(raw[3..]);
        CanonicalKeepsEscape(raw);
      } else {
        CanonicalKeepsBytes(raw[1..]);
        CanonicalStep(raw[0], CanonicalPath(raw[1..]));
      }
    }
  }

  /** The canonical path has no active glob characters left and denotes the same bytes. */
  lemma CanonicalPathIsLiteral(raw: string)
    requires Ascii(raw)
    ensures Ascii(CanonicalPath(raw)) && !HasActiveGlob(CanonicalPath(raw))
    ensures WellEscaped(raw) ==>
      WellEscaped(CanonicalPath(raw)) && PercentBytes(CanonicalPath(raw)) == PercentBytes(raw)
  {
    CanonicalHasNoGlob(raw);
    if WellEscaped(raw) {
      CanonicalKeepsBytes(raw);
    }
  }

  lemma CanonicalKeepsEscape(raw: string)
    requires Ascii(raw) && Escaped(raw)
    requires Ascii(CanonicalPath(raw[3..])) && WellEscaped(CanonicalPath(raw[3..]))
    requires PercentBytes(CanonicalPath(raw[3..])) == PercentBytes(raw[3..])
    ensures Ascii(CanonicalPath(raw)) && WellEscaped(CanonicalPath(raw))
    ensures PercentBytes(CanonicalPath(raw)) == PercentBytes(raw)
  {
    var rest, text := CanonicalPath(raw[3..]), CanonicalPath(raw);
    assert raw[1..][1..] == raw[2..] && raw[2..][1..] == raw[3..];
    assert CanonicalPath(raw[2..]) == [raw[2]] + rest;
    assert CanonicalPath(raw[1..]) == [raw[1]] + CanonicalPath(raw[2..]);
    assert text == [raw[0]] + ([raw[1]] + ([raw[2]] + rest));
    assert text[0] == raw[0] && text[1] == raw[1] && text[2] == raw[2] && text[3..] == rest;
    assert EscapedByte(text) == EscapedByte(raw);
  }

}

/** The loops that decode, unescape and canonicalise a pattern's path, each proved to compute the
  * function the results about patterns are stated for.
  */
module PatternLoops {

  import opened Glob
  import opened LocationPattern
  import opened Percent
  import opened Text
  import opened Wrappers

  lemma PrependTwice(a: string, b: string, rest: Result<string, PatternError>)
    ensures PrependText(a, PrependText(b, rest)) == PrependText(a + b, rest)
  {
    if rest.Success? {
      ConcatAssociates(a, b, rest.value);
    }
  }

  lemma PrependNone(rest: Result<string, PatternError>)
    ensures PrependText("", rest) == rest
  {
    if rest.Success? {
      ConcatEmpty(rest.value);
    }
  }

  method DecodedMatcher(raw: string) returns (result: Result<string, PatternError>)
    ensures result == Decoded(raw)
  {
    var matcher := "";
    var index := 0;
    assert raw[0..] == raw;
    PrependNone(Decoded(raw));
    while index < |raw|
      invariant index <= |raw|
      invariant Decoded(raw) == PrependText(matcher, Decoded(raw[index..]))
    {
      if raw[index] == '%' {
        var end := RunEnd(raw, index);
        if end == index {
          return Failure(InvalidPercentEncoding);
        }
        var bytes := CollectRun(raw, index, end);
        var decoded := DecodeUtf8(bytes);
        if decoded.None? {
          return Failure(InvalidPercentEncoding);
        }
        assert raw[index..][end - index..] == raw[end..];
        PrependTwice(matcher, Escape(decoded.value), Decoded(raw[end..]));
        matcher := matcher + Escape(decoded.value);
        index := end;
      } else {
        assert raw[index..][1..] == raw[index + 1..];
        PrependTwice(matcher, [raw[index]], Decoded(raw[index + 1..]));
        matcher := matcher + [raw[index]];
        index := index + 1;
      }
    }
    ConcatEmpty(matcher);
    result := Success(matcher);
  }

  /** Where the escapes that start at a position end. */
  method RunEnd(raw: string, start: nat) returns (index: nat)
    requires start <= |raw|
    ensures index <= |raw| && index - start == EscapeRun(raw[start..])
  {
    index := start;
    while index + 2 < |raw| && raw[index] == '%' && IsHex(raw[index + 1]) && IsHex(raw[index + 2])
      invariant start <= index <= |raw|
      invariant EscapeRun(raw[start..]) == index - start + EscapeRun(raw[index..])
      decreases |raw| - index
    {
      assert raw[index..][3..] == raw[index + 3..];
      index := index + 3;
    }
  }

  /** The bytes of the escapes between two positions. */
  method CollectRun(raw: string, start: nat, end: nat) returns (bytes: seq<Byte>)
    requires start <= end <= |raw| && end - start == EscapeRun(raw[start..])
    ensures bytes == RunBytes(raw[start..])
  {
    bytes := [];
    var at := start;
    while at < end
      invariant start <= at <= end
      invariant end - at == EscapeRun(raw[at..])
      invariant bytes + RunBytes(raw[at..]) == RunBytes(raw[start..])
    {
      assert raw[at..][3..] == raw[at + 3..];
      ConcatAssociates(bytes, [EscapedByte(raw[at..])], RunBytes(raw[at + 3..]));
      bytes := bytes + [EscapedByte(raw[at..])];
      at := at + 3;
    }
    ConcatEmpty(bytes);
  }

  method UnescapeMatcherLiterals(text: string) returns (literal: string)
    ensures literal == Unescape(text)
  {
    literal := "";
    var index := 0;
    while index < |text|
      invariant index <= |text|
      invariant literal + Unescape(text[index..]) == Unescape(text)
    {
      if index + 2 < |text| && text[index] == '[' && text[index + 2] == ']' && Special(text[index + 1]) {
        assert text[index..][3..] == text[index + 3..];
        ConcatAssociates(literal, [text[index + 1]], Unescape(text[index + 3..]));
        literal := literal + [text[index + 1]];
        index := index + 3;
      } else {
        assert text[index..][1..] == text[index + 1..];
        ConcatAssociates(literal, [text[index]], Unescape(text[index + 1..]));
        literal := literal + [text[index]];
        index := index + 1;
      }
    }
    ConcatEmpty(literal);
  }

  /** Percent-encodes the glob characters of the path and appends the query. */
  method CanonicalPatternUrl(beforeQuery: string, pathStart: nat, query: Option<string>) returns (canonical: string)
    requires pathStart <= |beforeQuery|
    ensures canonical == beforeQuery[..pathStart] + CanonicalPath(beforeQuery[pathStart..])
                         + (if query.Some? then "?" + query.value else "")
  {
    canonical := beforeQuery[..pathStart];
    ghost var path := beforeQuery[pathStart..];
    for i := pathStart to |beforeQuery|
      invariant canonical + CanonicalPath(beforeQuery[i..]) == beforeQuery[..pathStart] + CanonicalPath(path)
    {
      assert beforeQuery[i..][1..] == beforeQuery[i + 1..];
      ConcatAssociates(canonical, CanonicalChar(beforeQuery[i]), CanonicalPath(beforeQuery[i + 1..]));
      canonical := canonical + CanonicalChar(beforeQuery[i]);
    }
    ConcatEmpty(canonical);
    if query.Some? {
      canonical := canonical + ("?" + query.value);
    } else {
      ConcatEmpty(canonical);
    }
  }

}

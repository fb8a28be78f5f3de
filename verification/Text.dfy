/** Decimal numerals, escaped quotations and the string operations the printers share. */
module Text {
  import opened Wrappers

  type Byte = n: nat | n < 256

  // ---------------------------------------------------------------------------------------------------
  // Numerals
  // ---------------------------------------------------------------------------------------------------

  function Digit(n: nat): (c: char)
    requires n < 10
    ensures IsDigit(c) && DigitValue(c) == n
  {
    '0' + n as char
  }

  predicate IsDigit(c: char) { '0' <= c <= '9' }

  function DigitValue(c: char): (n: nat)
    requires IsDigit(c)
    ensures n < 10
  {
    (c - '0') as nat
  }

  predicate IsHex(c: char) { IsDigit(c) || 'a' <= c <= 'f' || 'A' <= c <= 'F' }

  function HexValue(c: char): (n: nat)
    requires IsHex(c)
    ensures n < 16
  {
    if IsDigit(c) then DigitValue(c)
    else if 'a' <= c then (c - 'a') as nat + 10
    else (c - 'A') as nat + 10
  }

  predicate AllDigits(s: string) { forall i :: 0 <= i < |s| ==> IsDigit(s[i]) }

  function NatText(n: nat): (s: string)
    ensures s != "" && AllDigits(s)
  {
    if n < 10 then [Digit(n)] else NatText(n / 10) + [Digit(n % 10)]
  }

  function IntText(n: int): string {
    if n < 0 then "-" + NatText(-n) else NatText(n)
  }

  function DigitsValue(s: string): nat
    requires AllDigits(s)
  {
    if s == "" then 0 else DigitsValue(s[..|s| - 1]) * 10 + DigitValue(s[|s| - 1])
  }

  lemma {:induction false} NatTextRoundTrip(n: nat)
    ensures DigitsValue(NatText(n)) == n
  {
    if n < 10 {
      assert NatText(n)[..0] == "";
    } else {
      NatTextRoundTrip(n / 10);
      assert NatText(n)[..|NatText(n)| - 1] == NatText(n / 10);
    }
  }

  function Power10(n: nat): nat { if n == 0 then 1 else 10 * Power10(n - 1) }

  function Zeros(n: nat): (s: string)
    ensures |s| == n && AllDigits(s)
  {
    seq(n, _ => '0')
  }

  lemma {:induction false} LeadingZerosAddNothing(n: nat, s: string)
    requires AllDigits(s)
    ensures DigitsValue(Zeros(n) + s) == DigitsValue(s)
    decreases n + |s|
  {
    var all := Zeros(n) + s;
    if s != "" {
      assert all[..|all| - 1] == Zeros(n) + s[..|s| - 1];
      LeadingZerosAddNothing(n, s[..|s| - 1]);
    } else if n > 0 {
      assert all[..|all| - 1] == Zeros(n - 1) + "";
      LeadingZerosAddNothing(n - 1, "");
    }
  }

  // ---------------------------------------------------------------------------------------------------
  // Quotations
  // ---------------------------------------------------------------------------------------------------

  /** The text up to the closing quote with its escapes undone, and what follows the quote. */
  function ReadQuoted(text: string, quote: char): Option<(string, string)>
    decreases |text|
  {
    if text == "" then None
    else if text[0] == quote then Some(("", text[1..]))
    else if text[0] == '\\' then
      if |text| < 2 then None
      else
        var c := Unescaped(text[1]);
        var rest := ReadQuoted(text[2..], quote);
        if c.None? || rest.None? then None else Some(([c.value] + rest.value.0, rest.value.1))
    else
      var rest := ReadQuoted(text[1..], quote);
      if rest.None? then None else Some(([text[0]] + rest.value.0, rest.value.1))
  }

  function Unescaped(c: char): Option<char> {
    match c
    case '\\' => Some('\\')
    case '\'' => Some('\'')
    case '`' => Some('`')
    case '"' => Some('"')
    case 'n' => Some('\n')
    case 'r' => Some('\r')
    case 't' => Some('\t')
    case _ => None
  }

  /** The escape of one character that `ReadQuoted` undoes and that does not look like the quote. */
  ghost predicate Undoable(escape: char -> string, c: char, quote: char) {
    || (escape(c) == [c] && c != quote && c != '\\')
    || (|escape(c)| == 2 && escape(c)[0] == '\\' && quote != '\\' && Unescaped(escape(c)[1]) == Some(c))
  }

  ghost predicate Reversible(escape: char -> string, s: string, quote: char) {
    forall i :: 0 <= i < |s| ==> Undoable(escape, s[i], quote)
  }

  function EscapeAll(escape: char -> string, s: string): string {
    if s == "" then "" else escape(s[0]) + EscapeAll(escape, s[1..])
  }

  lemma ReadQuotedStep(escape: char -> string, c: char, quote: char, tail: string, s: string, rest: string)
    requires Undoable(escape, c, quote) && ReadQuoted(tail, quote) == Some((s, rest))
    ensures ReadQuoted(escape(c) + tail, quote) == Some(([c] + s, rest))
  {
    var text := escape(c) + tail;
    if escape(c) == [c] && c != quote && c != '\\' {
      assert text[1..] == tail;
    } else {
      assert text[2..] == tail;
    }
  }

  lemma ReadQuotedEnd(quote: char, rest: string)
    ensures ReadQuoted([quote] + rest, quote) == Some(("", rest))
  {
    assert ([quote] + rest)[1..] == rest;
  }

  /** Reading an escaped text back gives the text: no quote inside ends it early. */
  lemma {:induction false} ReadQuotedUndoesEscape(escape: char -> string, s: string, quote: char, rest: string)
    requires Reversible(escape, s, quote)
    ensures ReadQuoted(EscapeAll(escape, s) + ([quote] + rest), quote) == Some((s, rest))
    decreases |s|
  {
    var end := [quote] + rest;
    if s == "" {
      ReadQuotedEnd(quote, rest);
      ConcatEmpty(end);
    } else {
      var first, others := escape(s[0]), EscapeAll(escape, s[1..]);
      ReadQuotedUndoesEscape(escape, s[1..], quote, rest);
      ReadQuotedStep(escape, s[0], quote, others + end, s[1..], rest);
      ConcatAssociates(first, others, end);
      HeadAndTail(s);
    }
  }

  lemma ConcatEmpty<T>(a: seq<T>)
    ensures [] + a == a && a + [] == a
  {
  }

  lemma ConcatAssociates<T>(a: seq<T>, b: seq<T>, c: seq<T>)
    ensures (a + b) + c == a + (b + c)
  {
  }

  lemma HeadAndTail<T>(s: seq<T>)
    requires s != []
    ensures [s[0]] + s[1..] == s
  {
  }

  lemma AfterHead<T>(head: T, tail: seq<T>)
    ensures ([head] + tail)[1..] == tail
  {
  }

  lemma {:induction false} EscapeAllAppend(escape: char -> string, a: string, c: char)
    ensures EscapeAll(escape, a + [c]) == EscapeAll(escape, a) + escape(c)
  {
    if a == "" {
      assert a + [c] == [c] && [c][1..] == "";
    } else {
      assert (a + [c])[1..] == a[1..] + [c];
      EscapeAllAppend(escape, a[1..], c);
    }
  }

  // ---------------------------------------------------------------------------------------------------
  // Replacing, splitting, joining
  // ---------------------------------------------------------------------------------------------------

  /** Replaces every occurrence of one character. */
  function Replace(s: string, from: char, to: string): string {
    if s == "" then ""
    else (if s[0] == from then to else [s[0]]) + Replace(s[1..], from, to)
  }

  lemma {:induction false} ReplaceConcat(a: string, b: string, from: char, to: string)
    ensures Replace(a + b, from, to) == Replace(a, from, to) + Replace(b, from, to)
  {
    if a == "" {
      assert a + b == b;
    } else {
      assert (a + b)[1..] == a[1..] + b;
      ReplaceConcat(a[1..], b, from, to);
    }
  }

  /** The pieces of `s` between separators; never empty. */
  function Split(s: string, separator: char): (parts: seq<string>)
    ensures parts != [] && forall p :: p in parts ==> separator !in p
  {
    if s == "" then [""]
    else
      var rest := Split(s[1..], separator);
      if s[0] == separator then [""] + rest else [[s[0]] + rest[0]] + rest[1..]
  }

  function Join(parts: seq<string>, separator: string): string {
    if parts == [] then ""
    else if |parts| == 1 then parts[0]
    else parts[0] + separator + Join(parts[1..], separator)
  }

  lemma {:induction false} SplitAtFirst(a: string, b: string, separator: char)
    requires separator !in a
    ensures Split(a + [separator] + b, separator) == [a] + Split(b, separator)
  {
    var s := a + [separator] + b;
    if a == "" {
      assert s[1..] == b;
    } else {
      assert s[1..] == a[1..] + [separator] + b;
      SplitAtFirst(a[1..], b, separator);
      assert [a[0]] + a[1..] == a;
    }
  }

  lemma {:induction false} SplitWithoutSeparator(a: string, separator: char)
    requires separator !in a
    ensures Split(a, separator) == [a]
  {
    if a != "" {
      SplitWithoutSeparator(a[1..], separator);
      assert [a[0]] + a[1..] == a;
    }
  }

  lemma {:induction false} SplitUndoesJoin(parts: seq<string>, separator: char)
    requires parts != [] && forall i :: 0 <= i < |parts| ==> separator !in parts[i]
    ensures Split(Join(parts, [separator]), separator) == parts
  {
    if |parts| == 1 {
      SplitWithoutSeparator(parts[0], separator);
    } else {
      SplitUndoesJoin(parts[1..], separator);
      SplitAtFirst(parts[0], Join(parts[1..], [separator]), separator);
      assert [parts[0]] + parts[1..] == parts;
    }
  }

  lemma {:induction false} JoinUndoesSplit(s: string, separator: char)
    ensures Join(Split(s, separator), [separator]) == s
    decreases |s|
  {
    if s != "" {
      JoinUndoesSplit(s[1..], separator);
      HeadAndTail(s);
      var rest := Split(s[1..], separator);
      if s[0] == separator {
        assert ([""] + rest)[1..] == rest;
        ConcatEmpty([separator]);
      } else if |rest| > 1 {
        ConcatAssociates([s[0]], rest[0], [separator]);
        ConcatAssociates([s[0]], rest[0] + [separator], Join(rest[1..], [separator]));
        assert ([[s[0]] + rest[0]] + rest[1..])[1..] == rest[1..];
      }
    }
  }

  /** Where a character first occurs; the length of the text when it does not. */
  function IndexOf(s: string, c: char): (i: nat)
    ensures i <= |s|
    ensures i < |s| ==> s[i] == c
    ensures c !in s[..i]
  {
    if s == "" || s[0] == c then 0 else 1 + IndexOf(s[1..], c)
  }

  // ---------------------------------------------------------------------------------------------------
  // Order
  // ---------------------------------------------------------------------------------------------------

  /** The first place where two sequences differ decides; a prefix comes first. */
  predicate Lexicographic<T(==)>(less: (T, T) -> bool, a: seq<T>, b: seq<T>) {
    b != [] && (a == [] || less(a[0], b[0]) || (a[0] == b[0] && Lexicographic(less, a[1..], b[1..])))
  }

  /** Exactly one of two values is less, or they are equal. */
  ghost predicate Trichotomous<T(!new)>(less: (T, T) -> bool) {
    forall a, b :: !less(a, a) && (less(a, b) || less(b, a) || a == b) && !(less(a, b) && less(b, a))
  }

  lemma {:induction false} LexicographicIsTrichotomous<T(!new)>(less: (T, T) -> bool, a: seq<T>, b: seq<T>)
    requires Trichotomous(less)
    ensures !Lexicographic(less, a, a)
    ensures Lexicographic(less, a, b) || Lexicographic(less, b, a) || a == b
    ensures !(Lexicographic(less, a, b) && Lexicographic(less, b, a))
  {
    if a != [] {
      LexicographicIsTrichotomous(less, a[1..], if b == [] then [] else b[1..]);
      if b != [] {
        HeadAndTail(a);
        HeadAndTail(b);
      }
    }
  }

  predicate LessChar(a: char, b: char) { a < b }

  predicate LessByte(a: Byte, b: Byte) { a < b }

  /** Text in the order of its characters. */
  predicate LessText(a: string, b: string) { Lexicographic(LessChar, a, b) }

  // ---------------------------------------------------------------------------------------------------
  // Letters and parts
  // ---------------------------------------------------------------------------------------------------

  function Upper(c: char): char {
    if 'a' <= c <= 'z' then c - 'a' + 'A' else c
  }

  function UpperText(s: string): string {
    seq(|s|, i requires 0 <= i < |s| => Upper(s[i]))
  }

  predicate Contains(s: string, part: string) {
    part <= s || (s != "" && Contains(s[1..], part))
  }
}

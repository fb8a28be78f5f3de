/** The parts of a filter's text (pushdown.rs): column resolution, identifier and literal printing. */
module Pushdown {
  import opened Wrappers
  import opened Text
  import opened GoogleSql
  import opened SqlSyntax
  import opened SqlReading
  import opened Calendar

  // ---------------------------------------------------------------------------------------------------
  // Schemas and expressions
  // ---------------------------------------------------------------------------------------------------

  datatype TimeUnit = Second | Millisecond | Microsecond | Nanosecond

  datatype DataType =
    | Boolean
    | Int64
    | Utf8
    | Binary
    | Float64
    | Date32
    | Time64(unit: TimeUnit)
    | Timestamp(unit: TimeUnit, timezone: Option<string>)
    | Decimal128(precision: nat, scale: int)
    | Decimal256(precision: nat, scale: int)
    | Struct(fields: seq<Field>)
    | OtherType(id: nat)

  datatype Field = Field(name: string, dataType: DataType, metadata: seq<(string, string)>)

  type Schema = seq<Field>

  datatype Operator = And | Or | Comparing(op: Comparison) | OtherOperator(id: nat)

  datatype Relation = NoRelation | Bare(table: string) | Qualified(text: string)

  /** A literal of the query; every integer width is an `IntScalar`. */
  datatype Scalar =
    | BooleanScalar(truth: bool)
    | IntScalar(number: int)
    | Utf8Scalar(text: string)
    | BinaryScalar(bytes: seq<Byte>)
    | Date32Scalar(days: int)
    | Time64Scalar(micros: int)
    | TimestampScalar(unit: TimeUnit, value: int, timezone: Option<string>)
    | Decimal128Scalar(unscaled: int, precision: nat, scale: int)
    | Decimal256Scalar(unscaled: int, precision: nat, scale: int)
    | NullScalar
    | OtherScalar(id: nat)

  datatype Expr =
    | Column(relation: Relation, name: string)
    | Literal(scalar: Scalar)
    | Binary(left: Expr, operator: Operator, right: Expr)
    | Not(child: Expr)
    | IsNull(child: Expr)
    | IsNotNull(child: Expr)
    | InList(child: Expr, list: seq<Expr>, negated: bool)
    | Between(child: Expr, negated: bool, low: Expr, high: Expr)
    | OtherExpr(id: nat)

  // ---------------------------------------------------------------------------------------------------
  // Columns
  // ---------------------------------------------------------------------------------------------------

  datatype ResolvedColumn = ResolvedColumn(path: seq<string>, dataType: DataType)

  function FieldNamed(fields: seq<Field>, name: string): (r: Option<Field>)
    ensures r.Some? ==> r.value in fields && r.value.name == name
  {
    if fields == [] then None
    else if fields[0].name == name then Some(fields[0])
    else FieldNamed(fields[1..], name)
  }

  predicate UnsupportedLogicalType(metadata: seq<(string, string)>) {
    exists m :: m in metadata
                && (Contains(UpperText(m.0), "LOGICAL") || Contains(UpperText(m.0), "EXTENSION"))
                && (Contains(UpperText(m.1), "GEOGRAPHY") || Contains(UpperText(m.1), "JSON"))
  }

  predicate SupportedField(field: Field) {
    && !UnsupportedLogicalType(field.metadata)
    && match field.dataType
       case Time64(unit) => unit.Microsecond?
       case Timestamp(unit, _) => unit.Microsecond? || unit.Nanosecond?
       case Struct(_) => false
       case OtherType(_) => false
       case _ => true
  }

  function Supported(path: seq<string>, field: Field): Option<ResolvedColumn> {
    if SupportedField(field) then Some(ResolvedColumn(path, field.dataType)) else None
  }

  /** The field reached from `field` by following struct members. */
  function Descend(field: Field, parts: seq<string>): Option<Field>
    decreases |parts|
  {
    if parts == [] then Some(field)
    else if !field.dataType.Struct? then None
    else
      var next := FieldNamed(field.dataType.fields, parts[0]);
      if next.None? then None else Descend(next.value, parts[1..])
  }

  function ResolvePath(schema: Schema, path: string): Option<ResolvedColumn> {
    var whole := FieldNamed(schema, path);
    if whole.Some? then Supported([path], whole.value)
    else
      var parts := Split(path, '.');
      var first := FieldNamed(schema, parts[0]);
      if first.None? then None
      else
        var last := Descend(first.value, parts[1..]);
        if last.None? then None else Supported(parts, last.value)
  }

  method ResolveColumnPath(schema: Schema, path: string) returns (r: Option<ResolvedColumn>)
    ensures r == ResolvePath(schema, path)
  {
    var whole := FieldNamed(schema, path);
    if whole.Some? {
      return Supported([path], whole.value);
    }
    var parts := Split(path, '.');
    var field := FieldNamed(schema, parts[0]);
    if field.None? {
      return None;
    }
    ghost var first := field.value;
    var current := field.value;
    var i := 1;
    while i < |parts|
      invariant 1 <= i <= |parts|
      invariant Descend(first, parts[1..]) == Descend(current, parts[i..])
    {
      assert parts[i..][1..] == parts[i + 1..];
      if !current.dataType.Struct? {
        return None;
      }
      var next := FieldNamed(current.dataType.fields, parts[i]);
      if next.None? {
        return None;
      }
      current := next.value;
      i := i + 1;
    }
    return Supported(parts, current);
  }

  function ResolveColumn(schema: Schema, e: Expr): Option<ResolvedColumn> {
    if !e.Column? then None
    else
      var whole := FieldNamed(schema, e.name);
      if whole.Some? then Supported([e.name], whole.value)
      else
        var qualified := if e.relation.Bare? then ResolvePath(schema, e.relation.table + "." + e.name) else None;
        if qualified.Some? then qualified else ResolvePath(schema, e.name)
  }

  lemma ResolvedPathIsNotEmpty(schema: Schema, e: Expr)
    ensures ResolveColumn(schema, e).Some? ==> ResolveColumn(schema, e).value.path != []
  {
  }

  // ---------------------------------------------------------------------------------------------------
  // Identifiers
  // ---------------------------------------------------------------------------------------------------

  /** The two replacement passes of `quote_identifier` between backquotes. */
  function QuoteIdentifier(value: string): string {
    "`" + Replace(Replace(value, '\\', "\\\\"), '`', "\\`") + "`"
  }

  function EscapeIdentifierChar(c: char): string {
    if c == '\\' then "\\\\" else if c == '`' then "\\`" else [c]
  }

  /** The two passes together escape every character once, at the same time. */
  lemma {:induction false} TwoPassesAreOneEscape(value: string)
    ensures Replace(Replace(value, '\\', "\\\\"), '`', "\\`") == EscapeAll(EscapeIdentifierChar, value)
  {
    if value != "" {
      var head := if value[0] == '\\' then "\\\\" else [value[0]];
      ReplaceConcat(head, Replace(value[1..], '\\', "\\\\"), '`', "\\`");
      assert Replace("\\\\", '`', "\\`") == "\\\\" by {
        assert "\\\\"[1..] == "\\" && "\\"[1..] == "";
      }
      assert Replace([value[0]], '`', "\\`") == if value[0] == '`' then "\\`" else [value[0]] by {
        assert [value[0]][1..] == "";
      }
      TwoPassesAreOneEscape(value[1..]);
    }
  }

  /** Reading a quoted identifier back gives the identifier, and no quote inside ends it early. */
  lemma QuoteIdentifierRoundTrip(value: string, rest: string)
    ensures Scan(QuoteIdentifier(value) + rest) == Some(Scanned(QuotedName(value), rest))
    ensures Lex(QuoteIdentifier(value) + rest) == Prepend([QuotedName(value)], Lex(rest))
  {
    TwoPassesAreOneEscape(value);
    ReadQuotedUndoesEscape(EscapeIdentifierChar, value, '`', rest);
    assert (QuoteIdentifier(value) + rest)[1..] == EscapeAll(EscapeIdentifierChar, value) + (['`'] + rest);
    QuotedReads(QuoteIdentifier(value) + rest, value, rest);
  }

  lemma QuoteIdentifierInjective(a: string, b: string)
    requires QuoteIdentifier(a) == QuoteIdentifier(b)
    ensures a == b
  {
    QuoteIdentifierRoundTrip(a, "");
    QuoteIdentifierRoundTrip(b, "");
  }

  function QuoteAll(path: seq<string>): seq<string> {
    if path == [] then [] else [QuoteIdentifier(path[0])] + QuoteAll(path[1..])
  }

  /** The text of a resolved column: its quoted parts joined by dots. */
  function ColumnText(path: seq<string>): string { Join(QuoteAll(path), ".") }

  lemma ColumnTextStep(path: seq<string>)
    requires path != []
    ensures ColumnText(path) ==
            if |path| == 1 then QuoteIdentifier(path[0])
            else QuoteIdentifier(path[0]) + ("." + ColumnText(path[1..]))
  {
    assert QuoteAll(path)[1..] == QuoteAll(path[1..]);
  }

  function PathTokens(path: seq<string>): seq<Token> {
    if path == [] then []
    else if |path| == 1 then [QuotedName(path[0])]
    else [QuotedName(path[0]), Dot] + PathTokens(path[1..])
  }

  lemma NameAlone(name: string)
    ensures Lex(QuoteIdentifier(name)) == Some(Lexed([QuotedName(name)], false))
  {
    QuoteIdentifierRoundTrip(name, "");
    ConcatEmpty(QuoteIdentifier(name));
    ConcatEmpty([QuotedName(name)]);
  }

  lemma NameThenDot(name: string, more: string)
    ensures Lex(QuoteIdentifier(name) + ("." + more)) == Prepend([QuotedName(name), Dot], Lex(more))
  {
    QuoteIdentifierRoundTrip(name, "." + more);
    DotReads(more);
    PrependTwice([QuotedName(name)], [Dot], Lex(more));
    assert [QuotedName(name)] + [Dot] == [QuotedName(name), Dot];
  }

  /** A column text is read as its quoted names and the dots between them. */
  lemma {:induction false} ColumnTextReads(path: seq<string>)
    requires path != []
    ensures Lex(ColumnText(path)) == Some(Lexed(PathTokens(path), false))
    decreases |path|
  {
    ColumnTextStep(path);
    if |path| == 1 {
      NameAlone(path[0]);
    } else {
      ColumnTextReads(path[1..]);
      NameThenDot(path[0], ColumnText(path[1..]));
    }
  }

  lemma PathEnds(name: string, rest: seq<Token>)
    requires rest != [] ==> !rest[0].Dot?
    ensures ParsePath([QuotedName(name)] + rest) == Some(([name], rest))
  {
    var ts := [QuotedName(name)] + rest;
    AfterHead(QuotedName(name), rest);
    assert ts[0] == QuotedName(name) && (|ts| > 1 ==> ts[1] == rest[0]);
  }

  lemma PathGoesOn(name: string, more: seq<Token>, path: seq<string>, rest: seq<Token>)
    requires ParsePath(more) == Some((path, rest))
    ensures ParsePath([QuotedName(name), Dot] + more) == Some(([name] + path, rest))
  {
    var ts := [QuotedName(name), Dot] + more;
    assert ts[0] == QuotedName(name) && ts[1] == Dot && ts[2..] == more;
  }

  lemma {:induction false} PathTokensParse(path: seq<string>, rest: seq<Token>)
    requires path != [] && (rest != [] ==> !rest[0].Dot?)
    ensures ParsePath(PathTokens(path) + rest) == Some((path, rest))
    decreases |path|
  {
    if |path| == 1 {
      PathEnds(path[0], rest);
      assert path == [path[0]];
    } else {
      PathTokensParse(path[1..], rest);
      PathGoesOn(path[0], PathTokens(path[1..]) + rest, path[1..], rest);
      ConcatAssociates([QuotedName(path[0]), Dot], PathTokens(path[1..]), rest);
      HeadAndTail(path);
    }
  }

  /** A column text reads back as its path, names with dots, quotes and backslashes included, whatever
   boundary follows it. */
  lemma ColumnTextRoundTrip(path: seq<string>, more: string)
    requires path != [] && Boundary(more) && Lex(more).Some?
    requires Tokens(more) != [] ==> !Tokens(more)[0].Dot?
    ensures Lex(ColumnText(path) + more).Some?
    ensures ParsePath(Tokens(ColumnText(path) + more)) == Some((path, Tokens(more)))
  {
    ColumnTextReads(path);
    LexExtends(ColumnText(path), more);
    PathTokensParse(path, Tokens(more));
  }

  // ---------------------------------------------------------------------------------------------------
  // Literals
  // ---------------------------------------------------------------------------------------------------

  predicate IsControl(c: char) {
    (c as int) < 0x20 || 0x7F <= (c as int) <= 0x9F
  }

  function EscapeStringChar(c: char): string {
    match c
    case '\\' => "\\\\"
    case '\'' => "\\'"
    case '\n' => "\\n"
    case '\r' => "\\r"
    case '\t' => "\\t"
    case _ => [c]
  }

  predicate Printable(c: char) { c == '\n' || c == '\r' || c == '\t' || !IsControl(c) }

  function StringText(value: string): (r: Option<string>)
    ensures r.None? <==> exists i :: 0 <= i < |value| && !Printable(value[i])
  {
    if forall i :: 0 <= i < |value| ==> Printable(value[i]) then
      Some("'" + (EscapeAll(EscapeStringChar, value) + "'"))
    else None
  }

  method StringLiteral(value: string) returns (r: Option<string>)
    ensures r == StringText(value)
  {
    var escaped := "'";
    for i := 0 to |value|
      invariant escaped == "'" + EscapeAll(EscapeStringChar, value[..i])
      invariant forall k :: 0 <= k < i ==> Printable(value[k])
    {
      var c := value[i];
      if !Printable(c) {
        return None;
      }
      assert value[..i + 1] == value[..i] + [c];
      EscapeAllAppend(EscapeStringChar, value[..i], c);
      ConcatAssociates("'", EscapeAll(EscapeStringChar, value[..i]), EscapeStringChar(c));
      escaped := escaped + EscapeStringChar(c);
    }
    assert value[..|value|] == value;
    ConcatAssociates("'", EscapeAll(EscapeStringChar, value), "'");
    return Some(escaped + "'");
  }

  lemma AroundQuotes(body: string, rest: string)
    ensures ("'" + (body + "'")) + rest == "'" + (body + ("'" + rest))
    ensures ("'" + (body + ("'" + rest)))[1..] == body + ("'" + rest)
  {
  }

  lemma StringEscapesAreUndone(value: string)
    ensures Reversible(EscapeStringChar, value, '\'')
  {
    forall i | 0 <= i < |value| ensures Undoable(EscapeStringChar, value[i], '\'') {
      StringEscapeIsUndone(value[i]);
    }
  }

  lemma StringEscapeIsUndone(c: char)
    ensures Undoable(EscapeStringChar, c, '\'')
  {
  }

  lemma QuotedBodyReads(body: string, value: string, rest: string)
    requires ReadQuoted(body + ("'" + rest), '\'') == Some((value, rest))
    ensures Scan(("'" + (body + "'")) + rest) == Some(Scanned(StringToken(value), rest))
    ensures Lex(("'" + (body + "'")) + rest) == Prepend([StringToken(value)], Lex(rest))
  {
    AroundQuotes(body, rest);
    QuotedReads(("'" + (body + "'")) + rest, value, rest);
  }

  /** A printed string literal reads back as the string; no quote inside ends it early. */
  lemma StringTextRoundTrip(value: string, rest: string)
    requires StringText(value).Some?
    ensures Scan(StringText(value).value + rest) == Some(Scanned(StringToken(value), rest))
    ensures Lex(StringText(value).value + rest) == Prepend([StringToken(value)], Lex(rest))
  {
    StringEscapesAreUndone(value);
    ReadQuotedUndoesEscape(EscapeStringChar, value, '\'', rest);
    QuotedBodyReads(EscapeAll(EscapeStringChar, value), value, rest);
  }

  function HexDigit(n: nat): (c: char)
    requires n < 16
    ensures IsHex(c) && HexValue(c) == n
  {
    if n < 10 then Digit(n) else 'a' + (n - 10) as char
  }

  function HexText(bytes: seq<Byte>): string {
    if bytes == [] then "" else ['\\', 'x', HexDigit(bytes[0] / 16), HexDigit(bytes[0] % 16)] + HexText(bytes[1..])
  }

  lemma HexByteReads(b: Byte, tail: string, bytes: seq<Byte>, rest: string)
    requires ReadBytes(tail) == Some((bytes, rest))
    ensures ReadBytes(['\\', 'x', HexDigit(b / 16), HexDigit(b % 16)] + tail) == Some(([b] + bytes, rest))
  {
    var text := ['\\', 'x', HexDigit(b / 16), HexDigit(b % 16)] + tail;
    assert text[4..] == tail;
  }

  lemma {:induction false} HexTextRoundTrip(bytes: seq<Byte>, rest: string)
    ensures ReadBytes(HexText(bytes) + "'" + rest) == Some((bytes, rest))
  {
    if bytes == [] {
      assert (HexText(bytes) + "'" + rest)[1..] == rest;
    } else {
      var first, more := ['\\', 'x', HexDigit(bytes[0] / 16), HexDigit(bytes[0] % 16)], HexText(bytes[1..]);
      HexTextRoundTrip(bytes[1..], rest);
      HexByteReads(bytes[0], more + "'" + rest, bytes[1..], rest);
      assert (first + more) + "'" + rest == first + (more + "'" + rest);
      HeadAndTail(bytes);
    }
  }

  function BytesText(bytes: seq<Byte>): string { "b'" + HexText(bytes) + "'" }

  lemma BytesBodyReads(body: string, bytes: seq<Byte>, rest: string)
    requires ReadBytes(body + "'" + rest) == Some((bytes, rest))
    ensures Scan("b'" + body + "'" + rest) == Some(Scanned(BytesToken(bytes), rest))
  {
    var text := "b'" + body + "'" + rest;
    assert text[2..] == body + "'" + rest;
    assert text[0] == 'b' && text[1] == '\'';
    assert ScanBytes(text) == Some(Scanned(BytesToken(bytes), rest));
  }

  lemma BytesTextRoundTrip(bytes: seq<Byte>, rest: string)
    ensures Scan(BytesText(bytes) + rest) == Some(Scanned(BytesToken(bytes), rest))
  {
    HexTextRoundTrip(bytes, rest);
    BytesBodyReads(HexText(bytes), bytes, rest);
  }

  function Padded(digits: string, scale: nat): string {
    Zeros(if |digits| <= scale then scale + 1 - |digits| else 0) + digits
  }

  function Pointed(padded: string, scale: nat): string
    requires scale <= |padded|
  {
    padded[..|padded| - scale] + ("." + padded[|padded| - scale..])
  }

  /** The digits of a magnitude with a decimal point `scale` digits from the right, padded with zeros. */
  function PointedText(digits: string, scale: nat): string {
    Pointed(Padded(digits, scale), scale)
  }

  function ScaledText(value: string, scale: int): Option<string> {
    if scale < 0 then None
    else if scale == 0 then Some(value)
    else if value != "" && value[0] == '-' then Some("-" + PointedText(value[1..], scale))
    else Some(PointedText(value, scale))
  }

  method ScaledDecimalString(value: string, scale: int) returns (r: Option<string>)
    ensures r == ScaledText(value, scale)
  {
    if scale < 0 {
      return None;
    }
    if scale == 0 {
      return Some(value);
    }
    var negative := value != "" && value[0] == '-';
    var digits := if negative then value[1..] else value;
    var padded := "";
    if |digits| <= scale {
      padded := padded + Zeros(scale + 1 - |digits|);
    }
    padded := padded + digits;
    assert padded == Padded(digits, scale);
    var point := |padded| - scale;
    padded := padded[..point] + ("." + padded[point..]);
    assert padded == PointedText(digits, scale);
    if negative {
      padded := "-" + padded;
    }
    return Some(padded);
  }

  lemma IndexOfPoint(a: string, b: string)
    requires AllDigits(a)
    ensures IndexOf(a + ("." + b), '.') == |a|
  {
    var s := a + ("." + b);
    assert s[|a|] == '.' && forall k :: 0 <= k < |a| ==> s[k] == a[k];
  }

  lemma DigitsHaveNoPoint(a: string)
    requires AllDigits(a)
    ensures IndexOf(a, '.') == |a|
  {
  }

  lemma PartsOfNumeral(a: string, b: string)
    ensures (a + ("." + b))[..|a|] == a && (a + ("." + b))[|a| + 1..] == b
  {
  }

  lemma ParseUnsignedOfParts(a: string, b: string)
    requires a != "" && b != "" && AllDigits(a) && AllDigits(b)
    ensures ParseUnsigned(a + ("." + b)) == Some((DigitsValue(a + b), |b|))
  {
    IndexOfPoint(a, b);
    PartsOfNumeral(a, b);
  }

  lemma PointedDenotes(padded: string, scale: nat)
    requires AllDigits(padded) && 0 < scale < |padded|
    ensures Pointed(padded, scale) != "" && Pointed(padded, scale)[0] != '-'
    ensures ParseUnsigned(Pointed(padded, scale)) == Some((DigitsValue(padded), scale))
  {
    var a, b := padded[..|padded| - scale], padded[|padded| - scale..];
    assert a + b == padded;
    ParseUnsignedOfParts(a, b);
  }

  lemma PaddedKeepsValue(digits: string, scale: nat)
    requires AllDigits(digits)
    ensures AllDigits(Padded(digits, scale)) && scale < |Padded(digits, scale)|
    ensures DigitsValue(Padded(digits, scale)) == DigitsValue(digits)
  {
    LeadingZerosAddNothing(if |digits| <= scale then scale + 1 - |digits| else 0, digits);
  }

  lemma UnsignedTextDenotes(n: nat)
    ensures ParseUnsigned(NatText(n)) == Some((n, 0))
  {
    NatTextRoundTrip(n);
    DigitsHaveNoPoint(NatText(n));
    assert NatText(n)[..|NatText(n)|] + "" == NatText(n);
  }

  /** What `ScaledText` prints, in terms of the digits of the magnitude. */
  lemma ScaledTextOfInt(value: int, scale: nat)
    ensures var digits := NatText(if value < 0 then -value else value);
            var body := if scale == 0 then digits else PointedText(digits, scale);
            ScaledText(IntText(value), scale) == Some(if value < 0 then "-" + body else body)
  {
    var digits := NatText(if value < 0 then -value else value);
    assert value < 0 ==> IntText(value)[1..] == digits;
  }

  /** The printed decimal denotes exactly value / 10^scale, with exactly `scale` fraction digits. */
  lemma ScaledTextDenotes(value: int, scale: nat)
    ensures ScaledText(IntText(value), scale).Some?
    ensures ParseDecimal(ScaledText(IntText(value), scale).value) == Some((value, scale))
  {
    var magnitude: nat := if value < 0 then -value else value;
    var digits := NatText(magnitude);
    var body := if scale == 0 then digits else PointedText(digits, scale);
    ScaledTextOfInt(value, scale);
    if scale == 0 {
      UnsignedTextDenotes(magnitude);
    } else {
      NatTextRoundTrip(magnitude);
      PaddedKeepsValue(digits, scale);
      PointedDenotes(Padded(digits, scale), scale);
    }
    if value < 0 {
      assert ("-" + body)[1..] == body;
      NegativeTextDenotes("-" + body, magnitude, scale);
    } else {
      PlainTextDenotes(body, magnitude, scale);
    }
  }

  /** The literal of a decimal: its type's name and the quoted numeral. */
  function DecimalText(name: string, value: int, scale: int): Option<string> {
    var body := ScaledText(IntText(value), scale);
    if body.None? then None else Some(name + (" " + ("'" + (body.value + "'"))))
  }

  predicate PlainChar(c: char) { c != '\'' && c != '\\' }

  /** A text that a string literal can hold as it is. */
  predicate Plain(s: string) { forall i :: 0 <= i < |s| ==> PlainChar(s[i]) }

  lemma {:induction false} UnescapedTextReadsBack(s: string, rest: string)
    requires Plain(s)
    ensures ReadQuoted(s + ("'" + rest), '\'') == Some((s, rest))
  {
    var text := s + ("'" + rest);
    if s == "" {
      assert text == "'" + rest && text[1..] == rest;
    } else {
      UnescapedTextReadsBack(s[1..], rest);
      assert text[1..] == s[1..] + ("'" + rest);
      assert [s[0]] + s[1..] == s;
    }
  }

  lemma PointedTextIsPlain(digits: string, scale: nat)
    requires AllDigits(digits)
    ensures Plain(PointedText(digits, scale))
  {
  }

  lemma DecimalBodyIsPlain(value: int, scale: nat)
    ensures ScaledText(IntText(value), scale).Some?
    ensures Plain(ScaledText(IntText(value), scale).value)
  {
    PointedTextIsPlain(NatText(if value < 0 then -value else value), scale);
    ScaledTextOfInt(value, scale);
  }

  const NUMERIC := "NUMERIC"
  const BIGNUMERIC := "BIGNUMERIC"

  lemma QuotedNumeralReads(body: string)
    requires Plain(body)
    ensures Lex(" " + ("'" + (body + "'"))) == Some(Lexed([StringToken(body)], false))
    ensures Boundary(" " + ("'" + (body + "'")))
  {
    var quoted := "'" + (body + "'");
    UnescapedTextReadsBack(body, "");
    ConcatEmpty("'");
    assert quoted[1..] == body + "'";
    StringReads(quoted, body);
    SpaceReads(quoted);
  }

  const DATE := "DATE"
  const TIME := "TIME"
  const DATETIME := "DATETIME"
  const TIMESTAMP := "TIMESTAMP"

  predicate TypeName(name: string) {
    name == NUMERIC || name == BIGNUMERIC || name == DATE || name == TIME || name == DATETIME || name == TIMESTAMP
  }

  lemma TypeNames(name: string)
    requires TypeName(name)
    ensures IsWord(name) && UpperText(name) == name && name != "TRUE" && name != "FALSE"
  {
  }

  lemma TypedTokensParse(name: string, body: string, more: seq<Token>)
    requires UpperText(name) == name && name != "TRUE" && name != "FALSE"
    ensures ParseLiteral([Word(name), StringToken(body)] + more) == Followed(TypedLiteral(name, body), more)
  {
    var ts := [Word(name), StringToken(body)] + more;
    assert ts[0] == Word(name) && ts[1] == StringToken(body) && ts[2..] == more;
  }

  lemma TypedParses(name: string, body: string)
    requires TypeName(name)
    ensures ParseLiteral([Word(name), StringToken(body)]) == Followed(TypedLiteral(name, body), [])
  {
    TypeNames(name);
    TypedTokensParse(name, body, []);
    ConcatEmpty([Word(name), StringToken(body)]);
  }

  lemma TypedTextReads(name: string, body: string)
    requires TypeName(name)
    requires Plain(body)
    ensures Lex(name + (" " + ("'" + (body + "'")))) == Some(Lexed([Word(name), StringToken(body)], false))
  {
    QuotedNumeralReads(body);
    TypeNames(name);
    WordReads(name, " " + ("'" + (body + "'")));
    assert [Word(name)] + [StringToken(body)] == [Word(name), StringToken(body)];
  }

  lemma {:induction false} WholeNumber(digits: string)
    requires AllDigits(digits)
    ensures DigitsPrefix(digits) == |digits|
  {
    if digits != "" {
      WholeNumber(digits[1..]);
    }
  }

  lemma DigitsScan(text: string)
    requires text != "" && AllDigits(text)
    ensures Scan(text) == Some(Scanned(Number(DigitsValue(text)), ""))
  {
    WholeNumber(text);
    assert text[..|text|] == text && text[|text|..] == "";
    assert ScanNumber(text) == Some(Scanned(Number(DigitsValue(text)), ""));
  }

  lemma NatTextScans(n: nat)
    ensures Scan(NatText(n)) == Some(Scanned(Number(n), ""))
  {
    NatTextRoundTrip(n);
    DigitsScan(NatText(n));
  }

  lemma NatTextReads(n: nat)
    ensures Lex(NatText(n)) == Some(Lexed([Number(n)], false))
  {
    NatTextScans(n);
    LexWhole(NatText(n), Number(n));
  }

  lemma NumbersParse(n: nat)
    ensures n <= MAX_INT64 ==> ParseLiteral([Number(n)]) == Some((IntValue(n), []))
    ensures -(n as int) >= MIN_INT64 ==> ParseLiteral([Minus] + [Number(n)]) == Some((IntValue(-(n as int)), []))
  {
    assert [Minus] + [Number(n)] == [Minus, Number(n)];
    assert [Minus, Number(n)][2..] == [] && [Number(n)][1..] == [];
  }

  lemma IntTextReadsBack(n: int)
    requires MIN_INT64 <= n <= MAX_INT64
    ensures ReadsLiteral(IntText(n), IntValue(n))
  {
    var magnitude: nat := if n < 0 then -n else n;
    NatTextReads(magnitude);
    NumbersParse(magnitude);
    if n < 0 {
      MinusReads(NatText(magnitude));
      TokensAreLiteral(IntText(n), [Minus] + [Number(magnitude)], IntValue(n));
    } else {
      TokensAreLiteral(IntText(n), [Number(magnitude)], IntValue(n));
    }
  }

  lemma TruthWordsParse(truth: bool)
    ensures var word := if truth then "TRUE" else "FALSE";
            IsWord(word) && ParseLiteral([Word(word)]) == Some((BoolValue(truth), []))
  {
    assert UpperText("TRUE") == "TRUE" && UpperText("FALSE") == "FALSE";
  }

  lemma WordIsLiteral(truth: bool)
    ensures ReadsLiteral(if truth then "TRUE" else "FALSE", BoolValue(truth))
  {
    var word := if truth then "TRUE" else "FALSE";
    TruthWordsParse(truth);
    WordAlone(word);
    TokensAreLiteral(word, [Word(word)], BoolValue(truth));
  }

  lemma StringParses(value: string)
    ensures ParseLiteral([StringToken(value)]) == Some((StringValue(value), []))
  {
    assert [StringToken(value)][1..] == [];
  }

  lemma StringIsLiteral(value: string)
    requires StringText(value).Some?
    ensures ReadsLiteral(StringText(value).value, StringValue(value))
  {
    StringTextRoundTrip(value, "");
    ConcatEmpty(StringText(value).value);
    ConcatEmpty([StringToken(value)]);
    StringParses(value);
    TokensAreLiteral(StringText(value).value, [StringToken(value)], StringValue(value));
  }

  lemma BytesAreLiteral(bytes: seq<Byte>)
    ensures ReadsLiteral(BytesText(bytes), BytesValue(bytes))
  {
    var text := BytesText(bytes);
    BytesTextRoundTrip(bytes, "");
    ConcatEmpty(text);
    LexWhole(text, BytesToken(bytes));
    TokensAreLiteral(text, [BytesToken(bytes)], BytesValue(bytes));
  }

  // ---------------------------------------------------------------------------------------------------
  // Dates and times
  // ---------------------------------------------------------------------------------------------------

  /** A type's name and a quoted text. */
  function TypedText(name: string, body: string): string { name + (" " + ("'" + (body + "'"))) }

  /** The dates the date library can represent. */
  predicate Representable(d: Date) { -262143 <= d.year <= 262142 }

  function DateLiteral(days: int): Option<string> {
    if Representable(DateOf(days)) then Some(TypedText(DATE, DayText(days))) else None
  }

  function TimeText(micros: nat): string
    requires micros < 86_400_000_000
  {
    ClockText(micros / 1_000_000, "." + Numeral(micros % 1_000_000, 6))
  }

  function TimeLiteral(micros: int): Option<string> {
    if 0 <= micros < 86_400_000_000 then Some(TypedText(TIME, TimeText(micros))) else None
  }

  function NanosPerUnit(unit: TimeUnit): nat {
    match unit
    case Second => 1_000_000_000
    case Millisecond => 1_000_000
    case Microsecond => 1_000
    case Nanosecond => 1
  }

  predicate IsUtc(timezone: string) { timezone == "UTC" || timezone == "+00:00" }

  predicate EquivalentTimezone(expected: Option<string>, actual: Option<string>) {
    || expected == actual
    || (expected.Some? && actual.Some? && IsUtc(expected.value) && IsUtc(actual.value))
  }

  function TimestampLiteral(nanos: int, timezone: Option<string>): Option<string> {
    if !Representable(DateOf(nanos / 86_400_000_000_000)) then None
    else
      match timezone
      case None => Some(TypedText(DATETIME, DatetimeText(nanos)))
      case Some(zone) => if IsUtc(zone) then Some(TypedText(TIMESTAMP, DatetimeText(nanos) + "+00")) else None
  }

  lemma DateTextIsPlain(d: Date)
    ensures Plain(DateText(d))
  {
    JoinThree(YearText(d.year), Numeral(d.month, 2), Numeral(d.day, 2), "-");
  }

  lemma ClockTextIsPlain(seconds: nat, fraction: string)
    requires seconds < 86_400 && Plain(fraction)
    ensures Plain(ClockText(seconds, fraction))
  {
    JoinThree(Numeral(seconds / 3600, 2), Numeral(seconds / 60 % 60, 2), Numeral(seconds % 60, 2) + fraction, ":");
  }

  lemma TimeOfDayTextIsPlain(rest: nat)
    requires rest < 86_400_000_000_000
    ensures Plain(TimeOfDayText(rest))
  {
    assert Plain(FractionText(rest % 1_000_000_000));
    ClockTextIsPlain(rest / 1_000_000_000, FractionText(rest % 1_000_000_000));
  }

  lemma DatetimeTextIsPlain(nanos: int)
    ensures Plain(DatetimeText(nanos)) && Plain(DatetimeText(nanos) + "+00")
  {
    DateTextIsPlain(DateOf(nanos / 86_400_000_000_000));
    TimeOfDayTextIsPlain(nanos % 86_400_000_000_000);
    PlainParts(DayText(nanos / 86_400_000_000_000), TimeOfDayText(nanos % 86_400_000_000_000));
  }

  lemma PlainParts(date: string, clock: string)
    requires Plain(date) && Plain(clock)
    ensures Plain(date + (" " + clock)) && Plain((date + (" " + clock)) + "+00")
  {
  }

  lemma TypedReads(name: string, body: string)
    requires TypeName(name) && Plain(body)
    ensures TypedLiteral(name, body).Some? ==> ReadsLiteral(TypedText(name, body), TypedLiteral(name, body).value)
    ensures TypedLiteral(name, body).None? ==> NeverLiteral(TypedText(name, body))
  {
    TypedTextReads(name, body);
    TypedParses(name, body);
    if TypedLiteral(name, body).None? {
      forall more: seq<Token> ensures ParseLiteral([Word(name), StringToken(body)] + more) == None {
        TypedNeverParses(name, body, more);
      }
    }
  }

  lemma TypedNeverParses(name: string, body: string, more: seq<Token>)
    requires TypeName(name) && TypedLiteral(name, body).None?
    ensures ParseLiteral([Word(name), StringToken(body)] + more) == None
  {
    TypeNames(name);
    TypedTokensParse(name, body, more);
  }

  lemma TypedLiterals(body: string)
    ensures TypedLiteral(DATE, body) == if ReadDate(body).None? then None else Some(DateValue(ReadDate(body).value))
    ensures TypedLiteral(TIME, body) == if ReadClock(body).None? then None else Some(TimeValue(ReadClock(body).value))
    ensures TypedLiteral(DATETIME, body) ==
            if ReadDatetime(body).None? then None else Some(DatetimeValue(ReadDatetime(body).value))
    ensures TypedLiteral(TIMESTAMP, body) ==
            if ReadTimestamp(body).None? then None else Some(TimestampValue(ReadTimestamp(body).value))
  {
  }

  lemma DecimalLiterals(body: string, unscaled: int, scale: nat)
    requires ParseDecimal(body) == Some((unscaled, scale))
    ensures TypedLiteral(NUMERIC, body) ==
            if FitsNumeric(unscaled, scale) then Some(DecimalValue(unscaled, scale)) else None
    ensures TypedLiteral(BIGNUMERIC, body) ==
            if FitsBigNumeric(unscaled, scale) then Some(DecimalValue(unscaled, scale)) else None
  {
  }

  /** A printed decimal reads back exactly when its type has it, and then to its value and scale. */
  lemma DecimalLiteralReads(name: string, value: int, scale: nat)
    requires name == NUMERIC || name == BIGNUMERIC
    ensures DecimalText(name, value, scale).Some?
    ensures if (if name == NUMERIC then FitsNumeric(value, scale) else FitsBigNumeric(value, scale)) then
              ReadsLiteral(DecimalText(name, value, scale).value, DecimalValue(value, scale))
            else NeverLiteral(DecimalText(name, value, scale).value)
  {
    var body := ScaledText(IntText(value), scale).value;
    ScaledTextDenotes(value, scale);
    DecimalBodyIsPlain(value, scale);
    DecimalLiterals(body, value, scale);
    TypedReads(name, body);
  }

  /** A printed date reads back exactly when its year is from 1 to 9999, and then to its day. */
  lemma DateLiteralReads(days: int)
    requires DateLiteral(days).Some?
    ensures if ReadableDay(days) then ReadsLiteral(DateLiteral(days).value, DateValue(days))
            else NeverLiteral(DateLiteral(days).value)
  {
    DayReads(days);
    DateTextIsPlain(DateOf(days));
    TypedLiterals(DayText(days));
    TypedReads(DATE, DayText(days));
  }

  lemma MicrosTextReads(seconds: nat, micros: nat)
    requires seconds < 86_400 && micros < 1_000_000
    ensures var text := ClockText(seconds, "." + Numeral(micros, 6));
            Plain(text) && ReadClock(text) == Some(seconds * 1_000_000_000 + micros * 1_000)
  {
    MicrosRead(micros);
    SecondsTextReads(seconds, "." + Numeral(micros, 6), micros * 1_000);
  }

  lemma SecondsAndMicros(micros: nat)
    ensures micros / 1_000_000 * 1_000_000_000 + micros % 1_000_000 * 1_000 == micros * 1_000
  {
  }

  lemma TimeTextReads(micros: nat)
    requires micros < 86_400_000_000
    ensures Plain(TimeText(micros)) && ReadClock(TimeText(micros)) == Some(micros * 1_000)
  {
    MicrosTextReads(micros / 1_000_000, micros % 1_000_000);
    SecondsAndMicros(micros);
  }

  lemma SecondsTextReads(seconds: nat, fraction: string, nanos: nat)
    requires seconds < 86_400 && ReadFraction(fraction) == Some(nanos) && ':' !in fraction && Plain(fraction)
    ensures Plain(ClockText(seconds, fraction))
    ensures ReadClock(ClockText(seconds, fraction)) == Some(seconds * 1_000_000_000 + nanos)
  {
    ClockReads(seconds, fraction, nanos);
    ClockTextIsPlain(seconds, fraction);
  }

  lemma TimeLiteralReads(micros: int)
    requires TimeLiteral(micros).Some?
    ensures ReadsLiteral(TimeLiteral(micros).value, TimeValue(micros * 1_000))
  {
    TimeTextReads(micros);
    TypedLiterals(TimeText(micros));
    TypedReads(TIME, TimeText(micros));
  }

  lemma DatetimeLiteralReads(nanos: int)
    ensures if ReadableDatetime(nanos) then ReadsLiteral(TypedText(DATETIME, DatetimeText(nanos)), DatetimeValue(nanos))
            else NeverLiteral(TypedText(DATETIME, DatetimeText(nanos)))
  {
    DatetimeTextIsPlain(nanos);
    DatetimeReads(nanos);
    TypedLiterals(DatetimeText(nanos));
    TypedReads(DATETIME, DatetimeText(nanos));
  }

  lemma UtcLiteralReads(nanos: int)
    ensures var text := TypedText(TIMESTAMP, DatetimeText(nanos) + "+00");
            if ReadableDatetime(nanos) then ReadsLiteral(text, TimestampValue(nanos)) else NeverLiteral(text)
  {
    var body := DatetimeText(nanos) + "+00";
    DatetimeTextIsPlain(nanos);
    TimestampReads(nanos);
    TypedLiterals(body);
    TypedReads(TIMESTAMP, body);
  }

  /** A printed timestamp reads back exactly when its date does, and then to its nanosecond. */
  lemma TimestampLiteralReads(nanos: int, timezone: Option<string>)
    requires TimestampLiteral(nanos, timezone).Some?
    ensures if ReadableDatetime(nanos) then
              ReadsLiteral(TimestampLiteral(nanos, timezone).value,
                           if timezone.None? then DatetimeValue(nanos) else TimestampValue(nanos))
            else NeverLiteral(TimestampLiteral(nanos, timezone).value)
  {
    if timezone.None? {
      DatetimeLiteralReads(nanos);
    } else {
      UtcLiteralReads(nanos);
    }
  }

  // ---------------------------------------------------------------------------------------------------
  // Literals of a column's type
  // ---------------------------------------------------------------------------------------------------

  function IntegerLiteral(scalar: Scalar): Option<string> {
    if scalar.IntScalar? && MIN_INT64 <= scalar.number <= MAX_INT64 then Some(IntText(scalar.number)) else None
  }

  function LiteralFor(e: Expr, expected: DataType): Option<string> {
    if !e.Literal? then None
    else match (expected, e.scalar)
      case (Boolean, BooleanScalar(truth)) => Some(if truth then "TRUE" else "FALSE")
      case (Int64, scalar) => IntegerLiteral(scalar)
      case (Utf8, Utf8Scalar(text)) => StringText(text)
      case (Binary, BinaryScalar(bytes)) => Some(BytesText(bytes))
      case (Date32, Date32Scalar(days)) => DateLiteral(days)
      case (Time64(unit), Time64Scalar(micros)) => if unit.Microsecond? then TimeLiteral(micros) else None
      case (Timestamp(unit, timezone), TimestampScalar(u, value, tz)) =>
        if unit == u && (unit.Microsecond? || unit.Nanosecond?) && EquivalentTimezone(timezone, tz) then
          TimestampLiteral(value * NanosPerUnit(unit), timezone)
        else None
      case (Decimal128(precision, scale), Decimal128Scalar(value, p, s)) =>
        if precision == p && scale == s then DecimalText(NUMERIC, value, scale) else None
      case (Decimal256(precision, scale), Decimal256Scalar(value, p, s)) =>
        if precision == p && scale == s then DecimalText(BIGNUMERIC, value, scale) else None
      case _ => None
  }

  /** The value a literal of the query stands for. */
  function ScalarValue(s: Scalar): Option<Value> {
    match s
    case BooleanScalar(truth) => Some(BoolValue(truth))
    case IntScalar(number) => Some(IntValue(number))
    case Utf8Scalar(text) => Some(StringValue(text))
    case BinaryScalar(bytes) => Some(BytesValue(bytes))
    case Date32Scalar(days) => Some(DateValue(days))
    case Time64Scalar(micros) => if 0 <= micros < 86_400_000_000 then Some(TimeValue(micros * 1_000)) else None
    case TimestampScalar(unit, value, timezone) =>
      var nanos := value * NanosPerUnit(unit);
      Some(if timezone.None? then DatetimeValue(nanos) else TimestampValue(nanos))
    case Decimal128Scalar(unscaled, _, scale) => if scale < 0 then None else Some(DecimalValue(unscaled, scale))
    case Decimal256Scalar(unscaled, _, scale) => if scale < 0 then None else Some(DecimalValue(unscaled, scale))
    case NullScalar => None
    case OtherScalar(_) => None
  }

  /** The server has the literal's value: a date, if it has one, in years 1 to 9999, a decimal in the range of
   its type. */
  predicate InServerRange(e: Expr) {
    e.Literal? ==>
      match e.scalar
      case Date32Scalar(days) => ReadableDay(days)
      case TimestampScalar(unit, value, _) => ReadableDatetime(value * NanosPerUnit(unit))
      case Decimal128Scalar(unscaled, _, scale) => scale >= 0 ==> FitsNumeric(unscaled, scale)
      case Decimal256Scalar(unscaled, _, scale) => scale >= 0 ==> FitsBigNumeric(unscaled, scale)
      case _ => true
  }

  /** A printed literal denotes the query's literal, exactly when the server has its value; otherwise the
   server cannot read it. */
  lemma LiteralForReadsBack(e: Expr, expected: DataType)
    requires LiteralFor(e, expected).Some?
    ensures e.Literal? && ScalarValue(e.scalar).Some?
    ensures if InServerRange(e) then ReadsLiteral(LiteralFor(e, expected).value, ScalarValue(e.scalar).value)
            else NeverLiteral(LiteralFor(e, expected).value)
  {
    match e.scalar {
      case BooleanScalar(truth) => WordIsLiteral(truth);
      case IntScalar(number) => IntTextReadsBack(number);
      case Utf8Scalar(value) => StringIsLiteral(value);
      case BinaryScalar(bytes) => BytesAreLiteral(bytes);
      case Date32Scalar(days) => DateLiteralReads(days);
      case Time64Scalar(micros) => TimeLiteralReads(micros);
      case TimestampScalar(unit, value, _) =>
        TimestampLiteralReads(value * NanosPerUnit(unit), expected.timezone);
      case Decimal128Scalar(value, _, scale) => DecimalLiteralReads(NUMERIC, value, scale);
      case Decimal256Scalar(value, _, scale) => DecimalLiteralReads(BIGNUMERIC, value, scale);
      case _ =>
    }
  }
}

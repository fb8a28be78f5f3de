/**
 The syntax of a fragment of GoogleSQL: boolean expressions over column paths and literals, with white
 space and line comments anywhere between tokens, keywords in any case, OR below AND below NOT below the
 predicates, and parentheses around any expression.
 */
module SqlSyntax {
  import opened Wrappers
  import opened Text
  import opened GoogleSql
  import Calendar

  // ---------------------------------------------------------------------------------------------------
  // Tokens
  // ---------------------------------------------------------------------------------------------------

  datatype Token =
    | OpenParen
    | CloseParen
    | Comma
    | Dot
    | Minus
    | Symbol(op: Comparison)
    | Word(text: string)
    | QuotedName(name: string)
    | StringToken(value: string)
    | BytesToken(bytes: seq<Byte>)
    | Number(n: nat)

  predicate Space(c: char) { c == ' ' || c == '\t' || c == '\n' || c == '\r' }

  predicate WordStart(c: char) { 'a' <= c <= 'z' || 'A' <= c <= 'Z' || c == '_' }

  predicate WordChar(c: char) { WordStart(c) || IsDigit(c) }

  function WordLength(text: string): (n: nat)
    ensures n <= |text|
    ensures text != "" && WordChar(text[0]) ==> n > 0
  {
    if text == "" || !WordChar(text[0]) then 0 else 1 + WordLength(text[1..])
  }

  /** The bytes of a hexadecimal bytes literal after its opening quote, and what follows it. */
  function ReadBytes(text: string): Option<(seq<Byte>, string)>
    decreases |text|
  {
    if text == "" then None
    else if text[0] == '\'' then Some(([], text[1..]))
    else if |text| >= 4 && text[0] == '\\' && text[1] == 'x' && IsHex(text[2]) && IsHex(text[3]) then
      var rest := ReadBytes(text[4..]);
      if rest.None? then None
      else Some(([HexValue(text[2]) * 16 + HexValue(text[3])] + rest.value.0, rest.value.1))
    else None
  }

  function DigitsPrefix(s: string): (n: nat)
    ensures n <= |s| && AllDigits(s[..n])
  {
    if s == "" || !IsDigit(s[0]) then 0 else 1 + DigitsPrefix(s[1..])
  }

  lemma {:induction false} QuotedConsumes(text: string, quote: char)
    ensures ReadQuoted(text, quote).Some? ==> |ReadQuoted(text, quote).value.1| < |text|
    decreases |text|
  {
    if text != "" && text[0] != quote {
      if text[0] == '\\' && |text| >= 2 {
        QuotedConsumes(text[2..], quote);
      } else {
        QuotedConsumes(text[1..], quote);
      }
    }
  }

  lemma {:induction false} BytesConsume(text: string)
    ensures ReadBytes(text).Some? ==> |ReadBytes(text).value.1| < |text|
    decreases |text|
  {
    if |text| >= 4 && text[0] != '\'' {
      BytesConsume(text[4..]);
    }
  }

  datatype Scanned = Scanned(token: Token, rest: string)

  function ScanQuoted(text: string): (r: Option<Scanned>)
    requires text != ""
    ensures r.Some? ==> |r.value.rest| < |text|
  {
    var body := ReadQuoted(text[1..], text[0]);
    if body.None? then None
    else
      QuotedConsumes(text[1..], text[0]);
      var (value, rest) := body.value;
      Some(Scanned(if text[0] == '`' then QuotedName(value) else StringToken(value), rest))
  }

  function ScanBytes(text: string): (r: Option<Scanned>)
    requires |text| >= 2
    ensures r.Some? ==> |r.value.rest| < |text|
  {
    var body := ReadBytes(text[2..]);
    if body.None? then None
    else
      BytesConsume(text[2..]);
      Some(Scanned(BytesToken(body.value.0), body.value.1))
  }

  /** A number ends where no word character follows it. */
  function ScanNumber(text: string): (r: Option<Scanned>)
    requires text != "" && IsDigit(text[0])
    ensures r.Some? ==> |r.value.rest| < |text|
  {
    var n := DigitsPrefix(text);
    if n < |text| && WordStart(text[n]) then None
    else Some(Scanned(Number(DigitsValue(text[..n])), text[n..]))
  }

  function ScanSymbol(text: string): (r: Option<Scanned>)
    requires text != ""
    ensures r.Some? ==> |r.value.rest| < |text|
  {
    var next := if |text| > 1 then text[1] else ' ';
    match text[0]
    case '=' => Some(Scanned(Symbol(Eq), text[1..]))
    case '!' => if next == '=' then Some(Scanned(Symbol(NotEq), text[2..])) else None
    case '<' =>
      if next == '=' then Some(Scanned(Symbol(LtEq), text[2..]))
      else if next == '>' then Some(Scanned(Symbol(NotEq), text[2..]))
      else Some(Scanned(Symbol(Lt), text[1..]))
    case '>' =>
      if next == '=' then Some(Scanned(Symbol(GtEq), text[2..])) else Some(Scanned(Symbol(Gt), text[1..]))
    case _ => None
  }

  predicate StartsBytes(text: string) {
    |text| >= 2 && (text[0] == 'b' || text[0] == 'B') && text[1] == '\''
  }

  /** The token at the front of a text and what follows it. */
  function Scan(text: string): (r: Option<Scanned>)
    requires text != ""
    ensures r.Some? ==> |r.value.rest| < |text|
  {
    var c := text[0];
    if c == '(' then Some(Scanned(OpenParen, text[1..]))
    else if c == ')' then Some(Scanned(CloseParen, text[1..]))
    else if c == ',' then Some(Scanned(Comma, text[1..]))
    else if c == '.' then Some(Scanned(Dot, text[1..]))
    else if c == '-' then Some(Scanned(Minus, text[1..]))
    else if c == '`' || c == '\'' || c == '"' then ScanQuoted(text)
    else if StartsBytes(text) then ScanBytes(text)
    else if WordStart(c) then Some(Scanned(Word(text[..WordLength(text)]), text[WordLength(text)..]))
    else if IsDigit(c) then ScanNumber(text)
    else ScanSymbol(text)
  }

  /** A comment runs to the end of its line. */
  predicate StartsComment(text: string) { text != "" && (text[0] == '#' || "--" <= text) }

  function AfterLine(text: string): (rest: string)
    ensures |rest| <= |text| && (text != "" ==> |rest| < |text|)
  {
    if text == "" then "" else if text[0] == '\n' then text[1..] else AfterLine(text[1..])
  }

  /** The tokens of a text; `open` when it ends inside a comment, which would swallow what follows. */
  datatype Lexed = Lexed(tokens: seq<Token>, open: bool)

  function Prepend(ts: seq<Token>, l: Option<Lexed>): Option<Lexed> {
    if l.None? then None else Some(Lexed(ts + l.value.tokens, l.value.open))
  }

  function Lex(text: string): Option<Lexed>
    decreases |text|
  {
    if text == "" then Some(Lexed([], false))
    else if Space(text[0]) then Lex(text[1..])
    else if StartsComment(text) then
      if '\n' in text then Lex(AfterLine(text)) else Some(Lexed([], true))
    else
      match Scan(text)
      case None => None
      case Some(Scanned(token, rest)) => Prepend([token], Lex(rest))
  }

  // ---------------------------------------------------------------------------------------------------
  // Parsing
  // ---------------------------------------------------------------------------------------------------

  predicate Is(ts: seq<Token>, keyword: string) {
    ts != [] && ts[0].Word? && UpperText(ts[0].text) == keyword
  }

  const RESERVED := ["AND", "OR", "NOT", "IS", "NULL", "IN", "BETWEEN", "TRUE", "FALSE"]

  /** The column name a token stands for: quoted, or a word that is not reserved. */
  function NameOf(t: Token): Option<string> {
    match t
    case QuotedName(name) => Some(name)
    case Word(text) => if UpperText(text) in RESERVED then None else Some(text)
    case _ => None
  }

  function ParsePath(ts: seq<Token>): (r: Option<(seq<string>, seq<Token>)>)
    ensures r.Some? ==> |r.value.1| < |ts|
    decreases |ts|
  {
    if ts == [] || NameOf(ts[0]).None? then None
    else
      var name := NameOf(ts[0]).value;
      if |ts| > 1 && ts[1].Dot? then
        var more := ParsePath(ts[2..]);
        if more.None? then None else Some(([name] + more.value.0, more.value.1))
      else Some(([name], ts[1..]))
  }

  /** An unsigned decimal numeral: its digits as a number and how many of them are fraction digits. */
  function ParseUnsigned(body: string): Option<(nat, nat)> {
    var point := IndexOf(body, '.');
    if point == 0 || point == |body| - 1 then None
    else
      var fraction := if point < |body| then body[point + 1..] else "";
      if !AllDigits(body[..point]) || !AllDigits(fraction) then None
      else Some((DigitsValue(body[..point] + fraction), |fraction|))
  }

  /** A signed decimal numeral: its digits as an integer and how many of them are fraction digits. */
  function ParseDecimal(s: string): Option<(int, nat)> {
    var negative := s != "" && s[0] == '-';
    var d := ParseUnsigned(if negative then s[1..] else s);
    if d.None? then None else Some((if negative then -(d.value.0 as int) else d.value.0, d.value.1))
  }

  lemma NegativeTextDenotes(s: string, magnitude: nat, scale: nat)
    requires s != "" && s[0] == '-' && ParseUnsigned(s[1..]) == Some((magnitude, scale))
    ensures ParseDecimal(s) == Some((-(magnitude as int), scale))
  {
  }

  lemma PlainTextDenotes(text: string, magnitude: nat, scale: nat)
    requires text != "" && text[0] != '-' && ParseUnsigned(text) == Some((magnitude, scale))
    ensures ParseDecimal(text) == Some((magnitude as int, scale))
  {
  }

  /** An integer literal is one of 64 bits. */
  function Int64Literal(n: int): Option<Value> {
    if MIN_INT64 <= n <= MAX_INT64 then Some(IntValue(n)) else None
  }

  /** NUMERIC: at most 9 fraction digits, and 29 before the point. */
  predicate FitsNumeric(unscaled: int, scale: nat) {
    && scale <= 9
    && -100_000_000_000_000_000_000_000_000_000_000_000_000 < unscaled * Power10(9 - scale)
       < 100_000_000_000_000_000_000_000_000_000_000_000_000
  }

  /** BIGNUMERIC: at most 38 fraction digits, and in units of the last of them an integer of 256 bits. */
  predicate FitsBigNumeric(unscaled: int, scale: nat) {
    && scale <= 38
    && -0x8000_0000_0000_0000_0000_0000_0000_0000_0000_0000_0000_0000_0000_0000_0000_0000
       <= unscaled * Power10(38 - scale)
       < 0x8000_0000_0000_0000_0000_0000_0000_0000_0000_0000_0000_0000_0000_0000_0000_0000
  }

  /** What the text after a type's name denotes. */
  function TypedLiteral(keyword: string, body: string): Option<Value> {
    if keyword == "NUMERIC" then
      var d := ParseDecimal(body);
      if d.None? || !FitsNumeric(d.value.0, d.value.1) then None else Some(DecimalValue(d.value.0, d.value.1))
    else if keyword == "BIGNUMERIC" then
      var d := ParseDecimal(body);
      if d.None? || !FitsBigNumeric(d.value.0, d.value.1) then None else Some(DecimalValue(d.value.0, d.value.1))
    else if keyword == "DATE" then
      var d := Calendar.ReadDate(body);
      if d.None? then None else Some(DateValue(d.value))
    else if keyword == "TIME" then
      var t := Calendar.ReadClock(body);
      if t.None? then None else Some(TimeValue(t.value))
    else if keyword == "DATETIME" then
      var t := Calendar.ReadDatetime(body);
      if t.None? then None else Some(DatetimeValue(t.value))
    else if keyword == "TIMESTAMP" then
      var t := Calendar.ReadTimestamp(body);
      if t.None? then None else Some(TimestampValue(t.value))
    else None
  }

  function Followed(value: Option<Value>, rest: seq<Token>): Option<(Value, seq<Token>)> {
    if value.None? then None else Some((value.value, rest))
  }

  function ParseLiteral(ts: seq<Token>): (r: Option<(Value, seq<Token>)>)
    ensures r.Some? ==> |r.value.1| < |ts|
  {
    if ts == [] then None
    else
      match ts[0]
      case Number(n) => Followed(Int64Literal(n), ts[1..])
      case Minus => if |ts| > 1 && ts[1].Number? then Followed(Int64Literal(-(ts[1].n as int)), ts[2..]) else None
      case StringToken(value) => Some((StringValue(value), ts[1..]))
      case BytesToken(bytes) => Some((BytesValue(bytes), ts[1..]))
      case Word(_) =>
        if Is(ts, "TRUE") then Some((BoolValue(true), ts[1..]))
        else if Is(ts, "FALSE") then Some((BoolValue(false), ts[1..]))
        else if |ts| > 1 && ts[1].StringToken? then
          Followed(TypedLiteral(UpperText(ts[0].text), ts[1].value), ts[2..])
        else None
      case _ => None
  }

  /** One or more literals separated by commas, and the parenthesis that closes them. */
  function ParseList(ts: seq<Token>): (r: Option<(seq<Value>, seq<Token>)>)
    ensures r.Some? ==> |r.value.1| < |ts|
    decreases |ts|
  {
    match ParseLiteral(ts)
    case None => None
    case Some((value, rest)) =>
      if rest == [] then None
      else if rest[0].CloseParen? then Some(([value], rest[1..]))
      else if !rest[0].Comma? then None
      else
        match ParseList(rest[1..])
        case None => None
        case Some((values, after)) => Some(([value] + values, after))
  }

  function ParseBetween(path: seq<string>, negated: bool, ts: seq<Token>): (r: Option<(SqlExpr, seq<Token>)>)
    ensures r.Some? ==> |r.value.1| < |ts|
  {
    match ParseLiteral(ts)
    case None => None
    case Some((low, rest)) =>
      if !Is(rest, "AND") then None
      else
        match ParseLiteral(rest[1..])
        case None => None
        case Some((high, after)) => Some((BetweenExpr(path, low, high, negated), after))
  }

  function ParseRange(path: seq<string>, negated: bool, ts: seq<Token>): (r: Option<(SqlExpr, seq<Token>)>)
    ensures r.Some? ==> |r.value.1| < |ts|
  {
    if Is(ts, "BETWEEN") then ParseBetween(path, negated, ts[1..])
    else if Is(ts, "IN") && |ts| > 1 && ts[1].OpenParen? then
      match ParseList(ts[2..])
      case None => None
      case Some((values, rest)) => Some((InExpr(path, values, negated), rest))
    else None
  }

  /** What a predicate says of the column before it. */
  function ParsePredicate(path: seq<string>, ts: seq<Token>): (r: Option<(SqlExpr, seq<Token>)>)
    ensures r.Some? ==> |r.value.1| < |ts|
  {
    if ts == [] then None
    else if ts[0].Symbol? then
      match ParseLiteral(ts[1..])
      case None => None
      case Some((value, rest)) => Some((CompareExpr(path, ts[0].op, value), rest))
    else if Is(ts, "IS") then
      if Is(ts[1..], "NULL") then Some((NullExpr(path, false), ts[2..]))
      else if Is(ts[1..], "NOT") && Is(ts[2..], "NULL") then Some((NullExpr(path, true), ts[3..]))
      else None
    else if Is(ts, "NOT") then ParseRange(path, true, ts[1..])
    else ParseRange(path, false, ts)
  }

  function ParsePrimary(ts: seq<Token>): (r: Option<(SqlExpr, seq<Token>)>)
    ensures r.Some? ==> |r.value.1| < |ts|
    decreases |ts|, 0
  {
    if ts == [] then None
    else if ts[0].OpenParen? then
      match ParseOr(ts[1..])
      case None => None
      case Some((e, rest)) => if rest != [] && rest[0].CloseParen? then Some((e, rest[1..])) else None
    else
      match ParsePath(ts)
      case None => None
      case Some((path, rest)) => ParsePredicate(path, rest)
  }

  function ParseNot(ts: seq<Token>): (r: Option<(SqlExpr, seq<Token>)>)
    ensures r.Some? ==> |r.value.1| < |ts|
    decreases |ts|, 1
  {
    if Is(ts, "NOT") then
      match ParseNot(ts[1..])
      case None => None
      case Some((e, rest)) => Some((NotExpr(e), rest))
    else ParsePrimary(ts)
  }

  function AndTail(left: SqlExpr, ts: seq<Token>): (r: Option<(SqlExpr, seq<Token>)>)
    ensures r.Some? ==> |r.value.1| <= |ts|
    decreases |ts|, 2
  {
    if !Is(ts, "AND") then Some((left, ts))
    else
      match ParseNot(ts[1..])
      case None => None
      case Some((right, rest)) => AndTail(AndExpr(left, right), rest)
  }

  function ParseAnd(ts: seq<Token>): (r: Option<(SqlExpr, seq<Token>)>)
    ensures r.Some? ==> |r.value.1| < |ts|
    decreases |ts|, 3
  {
    match ParseNot(ts)
    case None => None
    case Some((left, rest)) => AndTail(left, rest)
  }

  function OrTail(left: SqlExpr, ts: seq<Token>): (r: Option<(SqlExpr, seq<Token>)>)
    ensures r.Some? ==> |r.value.1| <= |ts|
    decreases |ts|, 4
  {
    if !Is(ts, "OR") then Some((left, ts))
    else
      match ParseAnd(ts[1..])
      case None => None
      case Some((right, rest)) => OrTail(OrExpr(left, right), rest)
  }

  function ParseOr(ts: seq<Token>): (r: Option<(SqlExpr, seq<Token>)>)
    ensures r.Some? ==> |r.value.1| < |ts|
    decreases |ts|, 5
  {
    match ParseAnd(ts)
    case None => None
    case Some((left, rest)) => OrTail(left, rest)
  }

  /** Reads a whole text as one boolean expression. */
  function ReadExpression(text: string): Option<SqlExpr> {
    match Lex(text)
    case None => None
    case Some(Lexed(tokens, _)) =>
      match ParseOr(tokens)
      case None => None
      case Some((e, rest)) => if rest == [] then Some(e) else None
  }

  /** The text ends inside a line comment. */
  predicate EndsInComment(text: string) { Lex(text).Some? && Lex(text).value.open }
}

/** Reading text piece by piece: what may be put after a text without changing how it was read. */
module SqlReading {
  import opened Wrappers
  import opened Text
  import opened GoogleSql
  import opened SqlSyntax

  // ---------------------------------------------------------------------------------------------------
  // Tokens
  // ---------------------------------------------------------------------------------------------------

  /** What may follow a token without being absorbed by it. */
  predicate Boundary(rest: string) { rest == "" || rest[0] == ' ' || rest[0] == ')' || rest[0] == ',' }

  lemma {:induction false} QuotedExtends(text: string, quote: char, more: string)
    requires ReadQuoted(text, quote).Some?
    ensures ReadQuoted(text + more, quote) ==
            Some((ReadQuoted(text, quote).value.0, ReadQuoted(text, quote).value.1 + more))
    decreases |text|
  {
    var all := text + more;
    assert all[0] == text[0];
    if text[0] == quote {
      assert all[1..] == text[1..] + more;
    } else if text[0] == '\\' {
      assert all[1] == text[1] && all[2..] == text[2..] + more;
      QuotedExtends(text[2..], quote, more);
    } else {
      assert all[1..] == text[1..] + more;
      QuotedExtends(text[1..], quote, more);
    }
  }

  lemma {:induction false} BytesExtend(text: string, more: string)
    requires ReadBytes(text).Some?
    ensures ReadBytes(text + more) == Some((ReadBytes(text).value.0, ReadBytes(text).value.1 + more))
    decreases |text|
  {
    var all := text + more;
    assert all[0] == text[0];
    if text[0] == '\'' {
      assert all[1..] == text[1..] + more;
    } else {
      assert all[1] == text[1] && all[2] == text[2] && all[3] == text[3] && all[4..] == text[4..] + more;
      BytesExtend(text[4..], more);
    }
  }

  lemma {:induction false} WordLengthExtends(text: string, more: string)
    requires Boundary(more)
    ensures WordLength(text + more) == WordLength(text)
  {
    if text == "" {
      ConcatEmpty(more);
    } else {
      assert (text + more)[1..] == text[1..] + more;
      WordLengthExtends(text[1..], more);
    }
  }

  lemma {:induction false} DigitsPrefixExtends(text: string, more: string)
    requires Boundary(more)
    ensures DigitsPrefix(text + more) == DigitsPrefix(text)
  {
    if text == "" {
      ConcatEmpty(more);
    } else {
      assert (text + more)[1..] == text[1..] + more;
      DigitsPrefixExtends(text[1..], more);
    }
  }

  lemma ScanQuotedExtends(text: string, more: string)
    requires text != "" && ScanQuoted(text).Some?
    ensures ScanQuoted(text + more) == Some(Scanned(ScanQuoted(text).value.token, ScanQuoted(text).value.rest + more))
  {
    assert (text + more)[1..] == text[1..] + more && (text + more)[0] == text[0];
    QuotedExtends(text[1..], text[0], more);
  }

  lemma ScanBytesExtends(text: string, more: string)
    requires |text| >= 2 && ScanBytes(text).Some?
    ensures ScanBytes(text + more) == Some(Scanned(ScanBytes(text).value.token, ScanBytes(text).value.rest + more))
  {
    assert (text + more)[2..] == text[2..] + more;
    BytesExtend(text[2..], more);
  }

  lemma ScanNumberExtends(text: string, more: string)
    requires text != "" && IsDigit(text[0]) && ScanNumber(text).Some? && Boundary(more)
    ensures ScanNumber(text + more) == Some(Scanned(ScanNumber(text).value.token, ScanNumber(text).value.rest + more))
  {
    var n, all := DigitsPrefix(text), text + more;
    DigitsPrefixExtends(text, more);
    assert all[..n] == text[..n] && all[n..] == text[n..] + more;
    assert n < |all| ==> all[n] == if n < |text| then text[n] else more[0];
  }

  lemma ScanSymbolExtends(text: string, more: string)
    requires text != "" && ScanSymbol(text).Some? && Boundary(more)
    ensures ScanSymbol(text + more) == Some(Scanned(ScanSymbol(text).value.token, ScanSymbol(text).value.rest + more))
  {
    var all := text + more;
    assert all[0] == text[0] && all[1..] == text[1..] + more;
    if |text| > 1 {
      assert all[1] == text[1] && all[2..] == text[2..] + more;
    }
  }

  lemma ScanWordExtends(text: string, more: string)
    requires text != "" && Boundary(more)
    ensures (text + more)[..WordLength(text + more)] == text[..WordLength(text)]
    ensures (text + more)[WordLength(text + more)..] == text[WordLength(text)..] + more
    ensures StartsBytes(text + more) <==> StartsBytes(text)
  {
    WordLengthExtends(text, more);
    assert (text + more)[0] == text[0];
    assert |text| > 1 ==> (text + more)[1] == text[1];
  }

  lemma ScanExtends(text: string, more: string)
    requires text != "" && Scan(text).Some? && Boundary(more)
    ensures Scan(text + more) == Some(Scanned(Scan(text).value.token, Scan(text).value.rest + more))
  {
    var c, all := text[0], text + more;
    assert all[0] == c && all[1..] == text[1..] + more;
    ScanWordExtends(text, more);
    if c == '(' || c == ')' || c == ',' || c == '.' || c == '-' {
    } else if c == '`' || c == '\'' || c == '"' {
      ScanQuotedExtends(text, more);
    } else if StartsBytes(text) {
      ScanBytesExtends(text, more);
    } else if WordStart(c) {
    } else if IsDigit(c) {
      ScanNumberExtends(text, more);
    } else {
      ScanSymbolExtends(text, more);
    }
  }

  // ---------------------------------------------------------------------------------------------------
  // Texts
  // ---------------------------------------------------------------------------------------------------

  lemma {:induction false} AfterLineExtends(text: string, more: string)
    requires '\n' in text
    ensures AfterLine(text + more) == AfterLine(text) + more
  {
    assert (text + more)[0] == text[0] && (text + more)[1..] == text[1..] + more;
    if text[0] != '\n' {
      HeadAndTail(text);
      AfterLineExtends(text[1..], more);
    }
  }

  lemma PrependTwice(a: seq<Token>, b: seq<Token>, l: Option<Lexed>)
    ensures Prepend(a, Prepend(b, l)) == Prepend(a + b, l)
  {
    if l.Some? {
      ConcatAssociates(a, b, l.value.tokens);
    }
  }

  lemma PrependNothing(l: Option<Lexed>)
    ensures Prepend([], l) == l
  {
    if l.Some? {
      ConcatEmpty(l.value.tokens);
    }
  }

  lemma CommentExtends(text: string, more: string)
    requires text != "" && Boundary(more)
    ensures StartsComment(text + more) <==> StartsComment(text)
  {
    var all := text + more;
    assert all[0] == text[0];
    assert |all| > 1 ==> all[1] == if |text| > 1 then text[1] else more[0];
  }

  /** The text was read to its end, outside any comment. */
  predicate Closed(text: string) { Lex(text).Some? && !Lex(text).value.open }

  function Tokens(text: string): seq<Token>
    requires Lex(text).Some?
  {
    Lex(text).value.tokens
  }

  /** A text that ends outside a comment is read the same whatever is put after a boundary. */
  lemma {:induction false} LexExtends(text: string, more: string)
    requires Closed(text) && Boundary(more)
    ensures Lex(text + more) == Prepend(Tokens(text), Lex(more))
    decreases |text|
  {
    var all := text + more;
    if text == "" {
      ConcatEmpty(more);
      PrependNothing(Lex(more));
    } else if Space(text[0]) {
      assert all[0] == text[0] && all[1..] == text[1..] + more;
      LexExtends(text[1..], more);
    } else if StartsComment(text) {
      CommentExtends(text, more);
      AfterLineExtends(text, more);
      LexExtends(AfterLine(text), more);
    } else {
      LexTokenExtends(text, more);
    }
  }

  lemma LexTokenExtends(text: string, more: string)
    requires Closed(text) && Boundary(more) && text != "" && !Space(text[0]) && !StartsComment(text)
    ensures Lex(text + more) == Prepend(Tokens(text), Lex(more))
    decreases |text|, 0
  {
    var all := text + more;
    assert all[0] == text[0];
    CommentExtends(text, more);
    ScanExtends(text, more);
    var Scanned(token, rest) := Scan(text).value;
    LexExtends(rest, more);
    PrependTwice([token], Tokens(rest), Lex(more));
  }

  /** A comment left open swallows whatever is put after it on the same line. */
  lemma {:induction false} OpenCommentSwallows(text: string, more: string)
    requires EndsInComment(text) && Boundary(more) && '\n' !in more
    ensures Lex(text + more) == Lex(text)
    decreases |text|
  {
    var all := text + more;
    assert all[0] == text[0];
    if Space(text[0]) {
      assert all[1..] == text[1..] + more;
      OpenCommentSwallows(text[1..], more);
    } else if StartsComment(text) {
      CommentExtends(text, more);
      if '\n' in text {
        AfterLineExtends(text, more);
        OpenCommentSwallows(AfterLine(text), more);
      }
    } else {
      CommentExtends(text, more);
      ScanExtends(text, more);
      OpenCommentSwallows(Scan(text).value.rest, more);
    }
  }

  // ---------------------------------------------------------------------------------------------------
  // Parses
  // ---------------------------------------------------------------------------------------------------

  /** Nothing, or a closing parenthesis, ends every expression. */
  predicate Ends(ts: seq<Token>) { ts == [] || ts[0].CloseParen? }

  lemma Shifts(ts: seq<Token>, more: seq<Token>, n: nat)
    requires n <= |ts|
    ensures (ts + more)[n..] == ts[n..] + more
    ensures forall i :: 0 <= i < |ts| ==> (ts + more)[i] == ts[i]
  {
  }

  lemma IsExtends(ts: seq<Token>, more: seq<Token>, keyword: string)
    requires ts != [] || Ends(more)
    ensures Is(ts + more, keyword) <==> Is(ts, keyword)
  {
    if ts == [] {
      ConcatEmpty(more);
    }
  }

  lemma {:induction false} PathExtends(ts: seq<Token>, more: seq<Token>)
    requires ParsePath(ts).Some? && (ParsePath(ts).value.1 != [] || Ends(more))
    ensures ParsePath(ts + more) == Some((ParsePath(ts).value.0, ParsePath(ts).value.1 + more))
    decreases |ts|
  {
    Shifts(ts, more, 1);
    if |ts| > 1 {
      if ts[1].Dot? {
        Shifts(ts, more, 2);
        PathExtends(ts[2..], more);
      }
    } else {
      assert more != [] ==> (ts + more)[1] == more[0];
    }
  }

  lemma LiteralExtends(ts: seq<Token>, more: seq<Token>)
    requires ParseLiteral(ts).Some?
    ensures ParseLiteral(ts + more) == Some((ParseLiteral(ts).value.0, ParseLiteral(ts).value.1 + more))
  {
    Shifts(ts, more, 1);
    if |ts| > 1 {
      Shifts(ts, more, 2);
    }
  }

  lemma {:induction false} ListExtends(ts: seq<Token>, more: seq<Token>)
    requires ParseList(ts).Some?
    ensures ParseList(ts + more) == Some((ParseList(ts).value.0, ParseList(ts).value.1 + more))
    decreases |ts|
  {
    LiteralExtends(ts, more);
    var rest := ParseLiteral(ts).value.1;
    Shifts(rest, more, 1);
    if rest[0].Comma? {
      ListExtends(rest[1..], more);
    }
  }

  lemma BetweenExtends(path: seq<string>, negated: bool, ts: seq<Token>, more: seq<Token>)
    requires ParseBetween(path, negated, ts).Some?
    ensures ParseBetween(path, negated, ts + more) ==
            Some((ParseBetween(path, negated, ts).value.0, ParseBetween(path, negated, ts).value.1 + more))
  {
    LiteralExtends(ts, more);
    var rest := ParseLiteral(ts).value.1;
    Shifts(rest, more, 1);
    LiteralExtends(rest[1..], more);
  }

  lemma RangeExtends(path: seq<string>, negated: bool, ts: seq<Token>, more: seq<Token>)
    requires ParseRange(path, negated, ts).Some?
    ensures ParseRange(path, negated, ts + more) ==
            Some((ParseRange(path, negated, ts).value.0, ParseRange(path, negated, ts).value.1 + more))
  {
    Shifts(ts, more, 1);
    if Is(ts, "BETWEEN") {
      BetweenExtends(path, negated, ts[1..], more);
    } else {
      Shifts(ts, more, 2);
      ListExtends(ts[2..], more);
    }
  }

  lemma PredicateExtends(path: seq<string>, ts: seq<Token>, more: seq<Token>)
    requires ParsePredicate(path, ts).Some?
    ensures ParsePredicate(path, ts + more) ==
            Some((ParsePredicate(path, ts).value.0, ParsePredicate(path, ts).value.1 + more))
  {
    Shifts(ts, more, 1);
    if ts[0].Symbol? {
      LiteralExtends(ts[1..], more);
    } else if Is(ts, "IS") {
      NullTestExtends(ts, more);
    } else if Is(ts, "NOT") {
      RangeExtends(path, true, ts[1..], more);
    } else {
      RangeExtends(path, false, ts, more);
    }
  }

  lemma NullTestExtends(ts: seq<Token>, more: seq<Token>)
    requires Is(ts, "IS") && (Is(ts[1..], "NULL") || (Is(ts[1..], "NOT") && Is(ts[2..], "NULL")))
    ensures (ts + more)[1..] == ts[1..] + more && (ts + more)[2..] == ts[2..] + more
    ensures Is((ts + more)[1..], "NULL") <==> Is(ts[1..], "NULL")
    ensures Is((ts + more)[1..], "NOT") <==> Is(ts[1..], "NOT")
    ensures Is(ts[2..], "NULL") ==> Is((ts + more)[2..], "NULL") && (ts + more)[3..] == ts[3..] + more
  {
    Shifts(ts, more, 1);
    Shifts(ts, more, 2);
  }

  lemma {:induction false} PrimaryExtends(ts: seq<Token>, more: seq<Token>)
    requires ParsePrimary(ts).Some?
    ensures ParsePrimary(ts + more) == Some((ParsePrimary(ts).value.0, ParsePrimary(ts).value.1 + more))
    decreases |ts|, 0
  {
    Shifts(ts, more, 1);
    if ts[0].OpenParen? {
      OrExtends(ts[1..], more);
      var rest := ParseOr(ts[1..]).value.1;
      Shifts(rest, more, 1);
    } else {
      PathExtends(ts, more);
      var (path, rest) := ParsePath(ts).value;
      PredicateExtends(path, rest, more);
    }
  }

  lemma {:induction false} NotExtends(ts: seq<Token>, more: seq<Token>)
    requires ParseNot(ts).Some?
    ensures ParseNot(ts + more) == Some((ParseNot(ts).value.0, ParseNot(ts).value.1 + more))
    decreases |ts|, 1
  {
    IsExtends(ts, more, "NOT");
    if Is(ts, "NOT") {
      Shifts(ts, more, 1);
      NotExtends(ts[1..], more);
    } else {
      PrimaryExtends(ts, more);
    }
  }

  lemma {:induction false} AndTailExtends(left: SqlExpr, ts: seq<Token>, more: seq<Token>)
    requires AndTail(left, ts).Some? && (AndTail(left, ts).value.1 != [] || Ends(more))
    ensures AndTail(left, ts + more) == Some((AndTail(left, ts).value.0, AndTail(left, ts).value.1 + more))
    decreases |ts|, 2
  {
    IsExtends(ts, more, "AND");
    if Is(ts, "AND") {
      Shifts(ts, more, 1);
      NotExtends(ts[1..], more);
      var (right, rest) := ParseNot(ts[1..]).value;
      AndTailExtends(AndExpr(left, right), rest, more);
    }
  }

  lemma {:induction false} AndExtends(ts: seq<Token>, more: seq<Token>)
    requires ParseAnd(ts).Some? && (ParseAnd(ts).value.1 != [] || Ends(more))
    ensures ParseAnd(ts + more) == Some((ParseAnd(ts).value.0, ParseAnd(ts).value.1 + more))
    decreases |ts|, 3
  {
    NotExtends(ts, more);
    var (left, rest) := ParseNot(ts).value;
    AndTailExtends(left, rest, more);
  }

  lemma {:induction false} OrTailExtends(left: SqlExpr, ts: seq<Token>, more: seq<Token>)
    requires OrTail(left, ts).Some? && (OrTail(left, ts).value.1 != [] || Ends(more))
    ensures OrTail(left, ts + more) == Some((OrTail(left, ts).value.0, OrTail(left, ts).value.1 + more))
    decreases |ts|, 4
  {
    IsExtends(ts, more, "OR");
    if Is(ts, "OR") {
      Shifts(ts, more, 1);
      AndExtends(ts[1..], more);
      var (right, rest) := ParseAnd(ts[1..]).value;
      OrTailExtends(OrExpr(left, right), rest, more);
    }
  }

  /** A parsed expression is parsed the same in front of anything that ends it. */
  lemma {:induction false} OrExtends(ts: seq<Token>, more: seq<Token>)
    requires ParseOr(ts).Some? && (ParseOr(ts).value.1 != [] || Ends(more))
    ensures ParseOr(ts + more) == Some((ParseOr(ts).value.0, ParseOr(ts).value.1 + more))
    decreases |ts|, 5
  {
    AndExtends(ts, more);
    var (left, rest) := ParseAnd(ts).value;
    OrTailExtends(left, rest, more);
  }

  // ---------------------------------------------------------------------------------------------------
  // Pieces of text in front of others
  // ---------------------------------------------------------------------------------------------------

  lemma LexOne(text: string, token: Token, rest: string)
    requires text != "" && !Space(text[0]) && !StartsComment(text) && Scan(text) == Some(Scanned(token, rest))
    ensures Lex(text) == Prepend([token], Lex(rest))
  {
  }

  /** A text that is one token. */
  lemma LexWhole(text: string, token: Token)
    requires text != "" && !Space(text[0]) && !StartsComment(text) && Scan(text) == Some(Scanned(token, ""))
    ensures Lex(text) == Some(Lexed([token], false))
  {
    LexOne(text, token, "");
    ConcatEmpty([token]);
  }

  /** A quoted text is read to its own closing quote. */
  lemma QuotedReads(text: string, value: string, rest: string)
    requires text != "" && (text[0] == '`' || text[0] == '\'') && ReadQuoted(text[1..], text[0]) == Some((value, rest))
    ensures Scan(text) == Some(Scanned(if text[0] == '`' then QuotedName(value) else StringToken(value), rest))
    ensures Lex(text) == Prepend([if text[0] == '`' then QuotedName(value) else StringToken(value)], Lex(rest))
  {
    LexOne(text, if text[0] == '`' then QuotedName(value) else StringToken(value), rest);
  }

  lemma StringReads(text: string, value: string)
    requires text != "" && text[0] == '\'' && ReadQuoted(text[1..], '\'') == Some((value, ""))
    ensures Lex(text) == Some(Lexed([StringToken(value)], false))
  {
    QuotedReads(text, value, "");
    ConcatEmpty([StringToken(value)]);
  }

  lemma SpaceReads(text: string)
    ensures Lex(" " + text) == Lex(text) && Boundary(" " + text)
  {
    assert (" " + text)[1..] == text;
  }

  lemma OpenReads(text: string)
    ensures Lex("(" + text) == Prepend([OpenParen], Lex(text))
  {
    assert ("(" + text)[1..] == text;
  }

  lemma CloseReads(text: string)
    ensures Lex(")" + text) == Prepend([CloseParen], Lex(text)) && Boundary(")" + text)
  {
    assert (")" + text)[1..] == text;
  }

  lemma CommaReads(text: string)
    ensures Lex("," + text) == Prepend([Comma], Lex(text)) && Boundary("," + text)
  {
    assert ("," + text)[1..] == text;
  }

  lemma DotReads(text: string)
    ensures Lex("." + text) == Prepend([Dot], Lex(text))
  {
    assert ("." + text)[1..] == text;
  }

  lemma MinusReads(text: string)
    requires text != "" && text[0] != '-'
    ensures Lex("-" + text) == Prepend([Minus], Lex(text))
  {
    assert ("-" + text)[1..] == text && ("-" + text)[1] == text[0];
  }

  /** One word, of any case. */
  predicate IsWord(text: string) {
    text != "" && WordStart(text[0]) && forall i :: 0 <= i < |text| ==> WordChar(text[i])
  }

  lemma {:induction false} WholeWord(text: string)
    requires forall i :: 0 <= i < |text| ==> WordChar(text[i])
    ensures WordLength(text) == |text|
  {
    if text != "" {
      WholeWord(text[1..]);
    }
  }

  lemma WordScans(word: string)
    requires IsWord(word)
    ensures Scan(word) == Some(Scanned(Word(word), ""))
  {
    WholeWord(word);
    assert word[..|word|] == word && word[|word|..] == "";
    assert |word| > 1 ==> WordChar(word[1]);
  }

  lemma WordAlone(word: string)
    requires IsWord(word)
    ensures Lex(word) == Some(Lexed([Word(word)], false))
  {
    WordScans(word);
    LexWhole(word, Word(word));
  }

  lemma WordReads(word: string, text: string)
    requires IsWord(word) && Boundary(text)
    ensures Lex(word + text) == Prepend([Word(word)], Lex(text))
  {
    WordAlone(word);
    LexExtends(word, text);
  }

  function SymbolText(op: Comparison): string {
    match op
    case Eq => "="
    case NotEq => "!="
    case Lt => "<"
    case LtEq => "<="
    case Gt => ">"
    case GtEq => ">="
  }

  lemma SymbolScans(op: Comparison)
    ensures Scan(SymbolText(op)) == Some(Scanned(Symbol(op), ""))
  {
    assert SymbolText(op)[|SymbolText(op)|..] == "";
  }

  lemma SymbolReads(op: Comparison, text: string)
    requires Boundary(text)
    ensures Lex(SymbolText(op) + text) == Prepend([Symbol(op)], Lex(text))
  {
    SymbolScans(op);
    LexWhole(SymbolText(op), Symbol(op));
    LexExtends(SymbolText(op), text);
  }

  lemma ClosedExtends(text: string, more: string)
    requires Closed(text) && Closed(more) && Boundary(more)
    ensures Closed(text + more) && Tokens(text + more) == Tokens(text) + Tokens(more)
  {
    LexExtends(text, more);
  }

  /** A text that reads, to its end and outside any comment, as a literal. */
  ghost predicate ReadsLiteral(text: string, value: Value) {
    Closed(text) && ParseLiteral(Tokens(text)) == Some((value, []))
  }

  lemma TokensAreLiteral(text: string, ts: seq<Token>, value: Value)
    requires Lex(text) == Some(Lexed(ts, false)) && ParseLiteral(ts) == Some((value, []))
    ensures ReadsLiteral(text, value)
  {
  }

  /** A text that reads as a parenthesised expression or a predicate. */
  ghost predicate ReadsPrimary(text: string, tree: SqlExpr) {
    Closed(text) && ParsePrimary(Tokens(text)) == Some((tree, []))
  }

  // ---------------------------------------------------------------------------------------------------
  // Texts of expressions
  // ---------------------------------------------------------------------------------------------------

  /** A text that reads, to its end and outside any comment, as an expression. */
  ghost predicate ReadsExpression(text: string, tree: SqlExpr) {
    Closed(text) && ParseOr(Tokens(text)) == Some((tree, []))
  }

  lemma ReadsExactly(text: string, tree: SqlExpr)
    ensures ReadsExpression(text, tree) <==> ReadExpression(text) == Some(tree) && !EndsInComment(text)
  {
  }

  lemma NoPrimaryIsNot(ts: seq<Token>)
    requires Is(ts, "NOT")
    ensures ParsePrimary(ts).None?
  {
  }

  /** What is left of an expression after its first factor, or its first conjunction. */
  lemma TailsParse(ts: seq<Token>, left: SqlExpr, rest: seq<Token>)
    requires ParseNot(ts) == Some((left, rest))
    ensures ParseAnd(ts) == AndTail(left, rest)
    ensures !Is(rest, "AND") ==> AndTail(left, rest) == Some((left, rest)) && ParseOr(ts) == OrTail(left, rest)
    ensures !Is(rest, "AND") && !Is(rest, "OR") ==> ParseOr(ts) == Some((left, rest))
  {
  }

  lemma PrimaryParses(ts: seq<Token>, tree: SqlExpr)
    requires ParsePrimary(ts) == Some((tree, []))
    ensures ParseNot(ts) == Some((tree, [])) && ParseAnd(ts) == Some((tree, [])) && ParseOr(ts) == Some((tree, []))
  {
    if Is(ts, "NOT") {
      NoPrimaryIsNot(ts);
    }
    TailsParse(ts, tree, []);
  }

  lemma PrimaryIsExpression(text: string, tree: SqlExpr)
    requires ReadsPrimary(text, tree)
    ensures ReadsExpression(text, tree)
  {
    PrimaryParses(Tokens(text), tree);
  }

  lemma ParenthesesParse(ts: seq<Token>, tree: SqlExpr)
    requires ParseOr(ts) == Some((tree, []))
    ensures ParsePrimary([OpenParen] + (ts + [CloseParen])) == Some((tree, []))
  {
    OrExtends(ts, [CloseParen]);
    ConcatEmpty([CloseParen]);
    AfterHead(OpenParen, ts + [CloseParen]);
    assert [CloseParen][1..] == [];
  }

  lemma CloseAlone()
    ensures Lex(")") == Some(Lexed([CloseParen], false)) && Boundary(")")
  {
    CloseReads("");
    ConcatEmpty(")");
    ConcatEmpty([CloseParen]);
  }

  /** An expression in parentheses is a primary. */
  lemma ParenthesesRead(text: string, tree: SqlExpr)
    requires ReadsExpression(text, tree)
    ensures ReadsPrimary("(" + (text + ")"), tree)
  {
    CloseAlone();
    LexExtends(text, ")");
    OpenReads(text + ")");
    ParenthesesParse(Tokens(text), tree);
  }

  /** A keyword between white space. */
  function Spaced(word: string): string { " " + (word + " ") }

  lemma SpacedIs(word: string, text: string)
    ensures Spaced(word) + text == " " + (word + (" " + text))
  {
  }

  lemma SpacedWordReads(word: string, text: string)
    requires IsWord(word) && Boundary(text)
    ensures Lex(" " + (word + text)) == Prepend([Word(word)], Lex(text)) && Boundary(" " + (word + text))
  {
    WordReads(word, text);
    SpaceReads(word + text);
  }

  lemma SpacedReads(word: string, text: string)
    requires IsWord(word)
    ensures Lex(Spaced(word) + text) == Prepend([Word(word)], Lex(text)) && Boundary(Spaced(word) + text)
  {
    SpacedIs(word, text);
    SpaceReads(text);
    SpacedWordReads(word, " " + text);
  }

  lemma AndParses(l: seq<Token>, r: seq<Token>, a: SqlExpr, b: SqlExpr, conjunction: Token)
    requires ParseNot(l) == Some((a, [])) && ParseNot(r) == Some((b, [])) && Is([conjunction], "AND")
    ensures ParseOr(l + ([conjunction] + r)) == Some((AndExpr(a, b), []))
  {
    var more := [conjunction] + r;
    NotExtends(l, more);
    ConcatEmpty(more);
    AfterHead(conjunction, r);
    TailsParse(l + more, a, more);
    assert AndTail(AndExpr(a, b), []) == Some((AndExpr(a, b), []));
    assert AndTail(a, more) == Some((AndExpr(a, b), []));
    assert OrTail(AndExpr(a, b), []) == Some((AndExpr(a, b), []));
  }

  lemma OrParses(l: seq<Token>, r: seq<Token>, a: SqlExpr, b: SqlExpr, disjunction: Token)
    requires ParseNot(l) == Some((a, [])) && ParseNot(r) == Some((b, [])) && Is([disjunction], "OR")
    ensures ParseOr(l + ([disjunction] + r)) == Some((OrExpr(a, b), []))
  {
    var more := [disjunction] + r;
    NotExtends(l, more);
    ConcatEmpty(more);
    AfterHead(disjunction, r);
    assert Is(more, "OR") && !Is(more, "AND");
    TailsParse(l + more, a, more);
    TailsParse(r, b, []);
    assert OrTail(OrExpr(a, b), []) == Some((OrExpr(a, b), []));
  }

  lemma NotParses(ts: seq<Token>, tree: SqlExpr, negation: Token)
    requires ParseNot(ts) == Some((tree, [])) && Is([negation], "NOT")
    ensures ParseOr([negation] + ts) == Some((NotExpr(tree), []))
  {
    AfterHead(negation, ts);
    assert Is([negation] + ts, "NOT");
    TailsParse([negation] + ts, NotExpr(tree), []);
  }

  lemma {:induction false} Keyword(word: string)
    requires word in RESERVED
    ensures IsWord(word) && UpperText(word) == word
  {
    assert forall k, i :: 0 <= k < |RESERVED| && 0 <= i < |RESERVED[k]| ==> 'A' <= RESERVED[k][i] <= 'Z';
  }

  lemma AndReads(l: string, r: string, a: SqlExpr, b: SqlExpr)
    requires ReadsPrimary(l, a) && ReadsPrimary(r, b)
    ensures ReadsExpression(l + (Spaced("AND") + r), AndExpr(a, b))
  {
    Keyword("AND");
    SpacedReads("AND", r);
    LexExtends(l, Spaced("AND") + r);
    PrimaryParses(Tokens(l), a);
    PrimaryParses(Tokens(r), b);
    AndParses(Tokens(l), Tokens(r), a, b, Word("AND"));
  }

  lemma OrReads(l: string, r: string, a: SqlExpr, b: SqlExpr)
    requires ReadsPrimary(l, a) && ReadsPrimary(r, b)
    ensures ReadsExpression(l + (Spaced("OR") + r), OrExpr(a, b))
  {
    Keyword("OR");
    SpacedReads("OR", r);
    LexExtends(l, Spaced("OR") + r);
    PrimaryParses(Tokens(l), a);
    PrimaryParses(Tokens(r), b);
    OrParses(Tokens(l), Tokens(r), a, b, Word("OR"));
  }

  lemma NotReads(text: string, tree: SqlExpr)
    requires ReadsPrimary(text, tree)
    ensures ReadsExpression("NOT" + (" " + text), NotExpr(tree))
  {
    Keyword("NOT");
    SpaceReads(text);
    WordReads("NOT", " " + text);
    PrimaryParses(Tokens(text), tree);
    NotParses(Tokens(text), tree, Word("NOT"));
  }

  // ---------------------------------------------------------------------------------------------------
  // Texts that do not read
  // ---------------------------------------------------------------------------------------------------

  /** A text that is not a literal, and does not become one in front of anything. */
  ghost predicate NeverLiteral(text: string) {
    Closed(text) && Tokens(text) != [] && forall more: seq<Token> :: ParseLiteral(Tokens(text) + more) == None
  }

  /** A text that, after a column, is not a predicate about it, whatever follows. */
  ghost predicate NeverPredicate(path: seq<string>, text: string) {
    && Closed(text) && Boundary(text)
    && Tokens(text) != [] && !Tokens(text)[0].Dot?
    && forall more: seq<Token> :: ParsePredicate(path, Tokens(text) + more) == None
  }

  /** A text that is not a primary, whatever follows. */
  ghost predicate NeverPrimary(text: string) {
    && Closed(text)
    && Tokens(text) != [] && !Is(Tokens(text), "NOT")
    && forall more: seq<Token> :: ParsePrimary(Tokens(text) + more) == None
  }

  /** A text that is not an expression, whatever follows. */
  ghost predicate NeverExpression(text: string) {
    Closed(text) && forall more: seq<Token> :: ParseOr(Tokens(text) + more) == None
  }

  lemma NoFactor(ts: seq<Token>, more: seq<Token>)
    requires ts != [] && !Is(ts, "NOT") && ParsePrimary(ts + more) == None
    ensures ParseNot(ts + more) == None && ParseAnd(ts + more) == None && ParseOr(ts + more) == None
  {
    IsExtends(ts, more, "NOT");
  }

  lemma NeverPrimaryIsNoExpression(text: string)
    requires NeverPrimary(text)
    ensures NeverExpression(text)
  {
    forall more: seq<Token> ensures ParseOr(Tokens(text) + more) == None {
      NoFactor(Tokens(text), more);
    }
  }

  lemma NeverRead(text: string)
    requires NeverExpression(text)
    ensures ReadExpression(text) == None
  {
    ConcatEmpty(Tokens(text));
  }

  lemma OpenBroken(ts: seq<Token>, more: seq<Token>)
    requires ParseOr(ts + more) == None
    ensures ParsePrimary([OpenParen] + (ts + more)) == None
  {
    AfterHead(OpenParen, ts + more);
  }

  /** Parentheses do not repair what is inside them. */
  lemma ParenthesesNeverRead(text: string)
    requires NeverExpression(text)
    ensures NeverPrimary("(" + (text + ")"))
  {
    CloseAlone();
    LexExtends(text, ")");
    OpenReads(text + ")");
    forall more: seq<Token> ensures ParsePrimary(([OpenParen] + (Tokens(text) + [CloseParen])) + more) == None {
      OpenStaysBroken(Tokens(text), more);
    }
  }

  lemma OpenStaysBroken(ts: seq<Token>, more: seq<Token>)
    requires ParseOr(ts + ([CloseParen] + more)) == None
    ensures ParsePrimary(([OpenParen] + (ts + [CloseParen])) + more) == None
  {
    OpenBroken(ts, [CloseParen] + more);
    assert ([OpenParen] + (ts + [CloseParen])) + more == [OpenParen] + (ts + ([CloseParen] + more));
  }

  lemma LeftBroken(l: seq<Token>, tail: seq<Token>, more: seq<Token>)
    requires forall rest: seq<Token> :: ParseOr(l + rest) == None
    ensures ParseOr((l + tail) + more) == None
  {
    ConcatAssociates(l, tail, more);
  }

  lemma RightConjunctBroken(l: seq<Token>, a: SqlExpr, conjunction: Token, r: seq<Token>)
    requires ParseNot(l) == Some((a, [])) && Is([conjunction], "AND") && ParseNot(r) == None
    ensures ParseOr(l + ([conjunction] + r)) == None
  {
    var more := [conjunction] + r;
    NotExtends(l, more);
    ConcatEmpty(more);
    AfterHead(conjunction, r);
    assert Is(more, "AND");
    TailsParse(l + more, a, more);
    assert AndTail(a, more) == None;
  }

  lemma RightDisjunctBroken(l: seq<Token>, a: SqlExpr, disjunction: Token, r: seq<Token>)
    requires ParseNot(l) == Some((a, [])) && Is([disjunction], "OR") && ParseNot(r) == None
    ensures ParseOr(l + ([disjunction] + r)) == None
  {
    var more := [disjunction] + r;
    NotExtends(l, more);
    ConcatEmpty(more);
    AfterHead(disjunction, r);
    assert Is(more, "OR") && !Is(more, "AND");
    TailsParse(l + more, a, more);
    assert ParseAnd(r) == None;
  }

  lemma NegationBroken(negation: Token, ts: seq<Token>)
    requires Is([negation], "NOT") && ParseNot(ts) == None
    ensures ParseOr([negation] + ts) == None
  {
    AfterHead(negation, ts);
    assert Is([negation] + ts, "NOT");
    assert ParseNot([negation] + ts) == None;
  }

  /** AND and OR do not repair a broken side. */
  lemma LeftNeverReads(l: string, word: string, r: string)
    requires word == "AND" || word == "OR"
    requires NeverPrimary(l) && Closed(r)
    ensures NeverExpression(l + (Spaced(word) + r))
  {
    Keyword(word);
    SpacedReads(word, r);
    LexExtends(l, Spaced(word) + r);
    NeverPrimaryIsNoExpression(l);
    var tail := [Word(word)] + Tokens(r);
    forall more: seq<Token> ensures ParseOr((Tokens(l) + tail) + more) == None {
      LeftBroken(Tokens(l), tail, more);
    }
  }

  lemma RightBroken(l: seq<Token>, a: SqlExpr, word: string, r: seq<Token>, more: seq<Token>)
    requires word == "AND" || word == "OR"
    requires ParseNot(l) == Some((a, [])) && ParseNot(r + more) == None
    ensures ParseOr((l + ([Word(word)] + r)) + more) == None
  {
    Keyword(word);
    if word == "AND" {
      RightConjunctBroken(l, a, Word(word), r + more);
    } else {
      RightDisjunctBroken(l, a, Word(word), r + more);
    }
    assert (l + ([Word(word)] + r)) + more == l + ([Word(word)] + (r + more));
  }

  lemma RightNeverReads(l: string, a: SqlExpr, word: string, r: string)
    requires word == "AND" || word == "OR"
    requires ReadsPrimary(l, a) && NeverPrimary(r)
    ensures NeverExpression(l + (Spaced(word) + r))
  {
    Keyword(word);
    SpacedReads(word, r);
    LexExtends(l, Spaced(word) + r);
    PrimaryParses(Tokens(l), a);
    var all := Tokens(l) + ([Word(word)] + Tokens(r));
    assert Tokens(l + (Spaced(word) + r)) == all;
    forall more: seq<Token> ensures ParseOr(all + more) == None {
      NoFactor(Tokens(r), more);
      RightBroken(Tokens(l), a, word, Tokens(r), more);
    }
  }

  lemma NotNeverReads(text: string)
    requires NeverPrimary(text)
    ensures NeverExpression("NOT" + (" " + text))
  {
    Keyword("NOT");
    SpaceReads(text);
    WordReads("NOT", " " + text);
    forall more: seq<Token> ensures ParseOr(([Word("NOT")] + Tokens(text)) + more) == None {
      NoFactor(Tokens(text), more);
      NegationBroken(Word("NOT"), Tokens(text) + more);
      ConcatAssociates([Word("NOT")], Tokens(text), more);
    }
  }
}

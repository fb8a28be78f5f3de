/**
 The boolean translator (pushdown.rs): the explicit-stack printer, the recursive printer it refines, what
 the printed text reads back as, and what it means on every row.
 */
module Translation {
  import opened Wrappers
  import opened Text
  import opened GoogleSql
  import opened SqlSyntax
  import opened SqlReading
  import opened Calendar
  import opened Pushdown
  import opened Columns

  // ---------------------------------------------------------------------------------------------------
  // Leaves
  // ---------------------------------------------------------------------------------------------------

  function Reverse(op: Comparison): Comparison {
    match op
    case Eq => Eq
    case NotEq => NotEq
    case Lt => Gt
    case LtEq => GtEq
    case Gt => Lt
    case GtEq => LtEq
  }

  function ComparisonText(column: ResolvedColumn, op: Comparison, literal: Expr): Option<string> {
    var text := LiteralFor(literal, column.dataType);
    if text.None? then None
    else Some(ColumnText(column.path) + (" " + (SymbolText(op) + (" " + text.value))))
  }

  function TranslateComparison(schema: Schema, left: Expr, op: Comparison, right: Expr): Option<string> {
    var column := ResolveColumn(schema, left);
    if column.Some? then ComparisonText(column.value, op, right)
    else
      var flipped := ResolveColumn(schema, right);
      if flipped.None? then None else ComparisonText(flipped.value, Reverse(op), left)
  }

  function LiteralTexts(list: seq<Expr>, dataType: DataType): Option<seq<string>> {
    if list == [] then Some([])
    else
      var first := LiteralFor(list[0], dataType);
      var rest := LiteralTexts(list[1..], dataType);
      if first.None? || rest.None? then None else Some([first.value] + rest.value)
  }

  function Negation(negated: bool): string { if negated then " NOT" else "" }

  function TranslateLeaf(schema: Schema, e: Expr): Option<string> {
    match e
    case Binary(left, operator, right) =>
      if operator.Comparing? then TranslateComparison(schema, left, operator.op, right) else None
    case IsNull(child) =>
      var column := ResolveColumn(schema, child);
      if column.None? then None else Some(ColumnText(column.value.path) + " IS NULL")
    case IsNotNull(child) =>
      var column := ResolveColumn(schema, child);
      if column.None? then None else Some(ColumnText(column.value.path) + " IS NOT NULL")
    case InList(child, list, negated) =>
      var column := ResolveColumn(schema, child);
      if list == [] || column.None? then None
      else
        var values := LiteralTexts(list, column.value.dataType);
        if values.None? then None
        else
          Some(ColumnText(column.value.path) + (Negation(negated) + (" IN (" + (Join(values.value, ", ") + ")"))))
    case Between(child, negated, low, high) =>
      var column := ResolveColumn(schema, child);
      if column.None? then None
      else
        var l := LiteralFor(low, column.value.dataType);
        var h := LiteralFor(high, column.value.dataType);
        if l.None? || h.None? then None
        else
          Some(ColumnText(column.value.path)
               + (Negation(negated) + (" BETWEEN " + (l.value + (" AND " + h.value)))))
    case _ => None
  }

  // ---------------------------------------------------------------------------------------------------
  // The recursive printer and the explicit stack
  // ---------------------------------------------------------------------------------------------------

  predicate IsConnective(e: Expr) { e.Binary? && (e.operator.And? || e.operator.Or?) }

  function ConnectiveText(e: Expr): string
    requires IsConnective(e)
  {
    if e.operator.And? then " AND " else " OR "
  }

  function Append(a: Option<string>, b: Option<string>): Option<string> {
    if a.None? || b.None? then None else Some(a.value + b.value)
  }

  /** The fully parenthesised printer. */
  function PrintText(schema: Schema, e: Expr): Option<string> {
    if IsConnective(e) then
      Append(Some("("), Append(PrintText(schema, e.left),
             Append(Some(ConnectiveText(e)), Append(PrintText(schema, e.right), Some(")")))))
    else if e.Not? then Append(Some("(NOT "), Append(PrintText(schema, e.child), Some(")")))
    else TranslateLeaf(schema, e)
  }

  datatype Pending = Expression(e: Expr) | Fragment(text: string)

  /** What a stack still has to print, top (last element) first. */
  function StackText(schema: Schema, stack: seq<Pending>): Option<string> {
    if stack == [] then Some("")
    else
      var top := stack[|stack| - 1];
      Append(
        if top.Fragment? then Some(top.text) else PrintText(schema, top.e),
        StackText(schema, stack[..|stack| - 1]))
  }

  function Size(e: Expr): nat {
    if IsConnective(e) then 4 + Size(e.left) + Size(e.right)
    else if e.Not? then 2 + Size(e.child)
    else 1
  }

  function StackSize(stack: seq<Pending>): nat {
    if stack == [] then 0
    else
      var top := stack[|stack| - 1];
      (if top.Fragment? then 1 else 1 + Size(top.e)) + StackSize(stack[..|stack| - 1])
  }

  lemma PushText(schema: Schema, stack: seq<Pending>, item: Pending)
    ensures StackText(schema, stack + [item]) ==
            Append(if item.Fragment? then Some(item.text) else PrintText(schema, item.e), StackText(schema, stack))
    ensures StackSize(stack + [item]) == (if item.Fragment? then 1 else 1 + Size(item.e)) + StackSize(stack)
  {
    assert (stack + [item])[..|stack|] == stack;
  }

  lemma AppendAssociates(a: Option<string>, b: Option<string>, c: Option<string>)
    ensures Append(Append(a, b), c) == Append(a, Append(b, c))
  {
    if a.Some? && b.Some? && c.Some? {
      ConcatAssociates(a.value, b.value, c.value);
    }
  }

  /** Popping a connective and pushing its four pieces leaves the same text to print. */
  lemma PushConnective(schema: Schema, stack: seq<Pending>, e: Expr, sql: string)
    requires IsConnective(e)
    ensures var pieces := [Fragment(")"), Expression(e.right), Fragment(ConnectiveText(e)), Expression(e.left)];
            && Append(Some(sql + "("), StackText(schema, stack + pieces)) ==
               Append(Some(sql), StackText(schema, stack + [Expression(e)]))
            && StackSize(stack + pieces) < StackSize(stack + [Expression(e)])
  {
    var op := Fragment(ConnectiveText(e));
    var s1 := stack + [Fragment(")")];
    var s2 := s1 + [Expression(e.right)];
    var s3 := s2 + [op];
    var s4 := s3 + [Expression(e.left)];
    assert stack + [Fragment(")"), Expression(e.right), op, Expression(e.left)] == s4;
    PushText(schema, stack, Fragment(")"));
    PushText(schema, s1, Expression(e.right));
    PushText(schema, s2, op);
    PushText(schema, s3, Expression(e.left));
    PushText(schema, stack, Expression(e));
    var rest := StackText(schema, stack);
    var l, r := PrintText(schema, e.left), PrintText(schema, e.right);
    var o, close := Some(op.text), Some(")");
    AppendAssociates(r, close, rest);
    AppendAssociates(o, Append(r, close), rest);
    AppendAssociates(l, Append(o, Append(r, close)), rest);
    AppendAssociates(Some("("), Append(l, Append(o, Append(r, close))), rest);
    AppendAssociates(Some(sql), Some("("), StackText(schema, s4));
  }

  lemma PushNot(schema: Schema, stack: seq<Pending>, e: Expr, sql: string)
    requires e.Not?
    ensures var pieces := [Fragment(")"), Expression(e.child)];
            && Append(Some(sql + "(NOT "), StackText(schema, stack + pieces)) ==
               Append(Some(sql), StackText(schema, stack + [Expression(e)]))
            && StackSize(stack + pieces) < StackSize(stack + [Expression(e)])
  {
    var s1 := stack + [Fragment(")")];
    assert stack + [Fragment(")"), Expression(e.child)] == s1 + [Expression(e.child)];
    PushText(schema, stack, Fragment(")"));
    PushText(schema, s1, Expression(e.child));
    PushText(schema, stack, Expression(e));
    var rest, c, close := StackText(schema, stack), PrintText(schema, e.child), Some(")");
    AppendAssociates(c, close, rest);
    AppendAssociates(Some("(NOT "), Append(c, close), rest);
    AppendAssociates(Some(sql), Some("(NOT "), StackText(schema, s1 + [Expression(e.child)]));
  }

  lemma PushLeaf(schema: Schema, stack: seq<Pending>, e: Expr, sql: string)
    requires !IsConnective(e) && !e.Not?
    ensures var leaf := TranslateLeaf(schema, e);
            Append(Some(sql), StackText(schema, stack + [Expression(e)])) ==
            if leaf.None? then None else Append(Some(sql + leaf.value), StackText(schema, stack))
    ensures StackSize(stack) < StackSize(stack + [Expression(e)])
  {
    PushText(schema, stack, Expression(e));
    var leaf := TranslateLeaf(schema, e);
    if leaf.Some? {
      AppendAssociates(Some(sql), Some(leaf.value), StackText(schema, stack));
    }
  }

  lemma PushFragment(schema: Schema, stack: seq<Pending>, text: string, sql: string)
    ensures Append(Some(sql), StackText(schema, stack + [Fragment(text)])) ==
            Append(Some(sql + text), StackText(schema, stack))
    ensures StackSize(stack) < StackSize(stack + [Fragment(text)])
  {
    PushText(schema, stack, Fragment(text));
    AppendAssociates(Some(sql), Some(text), StackText(schema, stack));
  }

  lemma PopLast<T>(stack: seq<T>)
    requires stack != []
    ensures stack == stack[..|stack| - 1] + [stack[|stack| - 1]]
  {
  }

  lemma WholeStack(schema: Schema, e: Expr)
    ensures Append(Some(""), StackText(schema, [Expression(e)])) == PrintText(schema, e)
  {
    PushText(schema, [], Expression(e));
    assert [] + [Expression(e)] == [Expression(e)];
    if PrintText(schema, e).Some? {
      ConcatEmpty(PrintText(schema, e).value);
    }
  }

  lemma EmptyStack(schema: Schema, sql: string)
    ensures Append(Some(sql), StackText(schema, [])) == Some(sql)
  {
    ConcatEmpty(sql);
  }

  /** The explicit stack terminates and prints what the recursive printer prints. */
  method Translate(schema: Schema, expression: Expr) returns (r: Option<string>)
    ensures r == PrintText(schema, expression)
  {
    var sql := "";
    var pending := [Expression(expression)];
    WholeStack(schema, expression);
    ghost var goal := PrintText(schema, expression);
    while pending != []
      invariant Append(Some(sql), StackText(schema, pending)) == goal
      decreases StackSize(pending)
    {
      var top := pending[|pending| - 1];
      PopLast(pending);
      pending := pending[..|pending| - 1];
      if top.Fragment? {
        PushFragment(schema, pending, top.text, sql);
        sql := sql + top.text;
      } else if IsConnective(top.e) {
        var operator := if top.e.operator.And? then " AND " else " OR ";
        PushConnective(schema, pending, top.e, sql);
        sql := sql + "(";
        pending := pending + [Fragment(")"), Expression(top.e.right), Fragment(operator), Expression(top.e.left)];
      } else if top.e.Not? {
        PushNot(schema, pending, top.e, sql);
        sql := sql + "(NOT ";
        pending := pending + [Fragment(")"), Expression(top.e.child)];
      } else {
        PushLeaf(schema, pending, top.e, sql);
        var leaf := TranslateLeaf(schema, top.e);
        if leaf.None? {
          return None;
        }
        sql := sql + leaf.value;
      }
    }
    EmptyStack(schema, sql);
    return Some(sql);
  }

  function Leaves(e: Expr): seq<Expr> {
    if IsConnective(e) then Leaves(e.left) + Leaves(e.right) else if e.Not? then Leaves(e.child) else [e]
  }

  /** A translation exists exactly when every leaf has one: one unsupported leaf spoils the whole filter. */
  lemma {:induction false} UnsupportedExactlyByALeaf(schema: Schema, e: Expr)
    ensures PrintText(schema, e).None? <==> exists leaf :: leaf in Leaves(e) && TranslateLeaf(schema, leaf).None?
  {
    if IsConnective(e) {
      UnsupportedExactlyByALeaf(schema, e.left);
      UnsupportedExactlyByALeaf(schema, e.right);
    } else if e.Not? {
      UnsupportedExactlyByALeaf(schema, e.child);
    } else {
      assert e in Leaves(e);
    }
  }

  // ---------------------------------------------------------------------------------------------------
  // Reading the text back
  // ---------------------------------------------------------------------------------------------------

  function ValueOf(e: Expr): Option<Value> {
    if e.Literal? then ScalarValue(e.scalar) else None
  }

  function Values(list: seq<Expr>): seq<Value> {
    if list == [] then []
    else (if ValueOf(list[0]).Some? then [ValueOf(list[0]).value] else []) + Values(list[1..])
  }

  function ValueOr(e: Expr): Value {
    if ValueOf(e).Some? then ValueOf(e).value else BoolValue(false)
  }

  function PathOr(schema: Schema, e: Expr): seq<string> {
    var column := ResolveColumn(schema, e);
    if column.Some? then column.value.path else []
  }

  /** The tree a translated filter stands for. */
  function Tree(schema: Schema, e: Expr): SqlExpr {
    match e
    case Binary(left, And, right) => AndExpr(Tree(schema, left), Tree(schema, right))
    case Binary(left, Or, right) => OrExpr(Tree(schema, left), Tree(schema, right))
    case Binary(left, Comparing(op), right) =>
      if ResolveColumn(schema, left).Some? then CompareExpr(PathOr(schema, left), op, ValueOr(right))
      else CompareExpr(PathOr(schema, right), Reverse(op), ValueOr(left))
    case Not(child) => NotExpr(Tree(schema, child))
    case IsNull(child) => NullExpr(PathOr(schema, child), false)
    case IsNotNull(child) => NullExpr(PathOr(schema, child), true)
    case InList(child, list, negated) => InExpr(PathOr(schema, child), Values(list), negated)
    case Between(child, negated, low, high) =>
      BetweenExpr(PathOr(schema, child), ValueOr(low), ValueOr(high), negated)
    case _ => NullExpr([], false)
  }

  /** Every literal of a filter is a value the server has. */
  predicate ServerReadable(e: Expr) {
    match e
    case Binary(left, operator, right) =>
      if IsConnective(e) then ServerReadable(left) && ServerReadable(right)
      else InServerRange(left) && InServerRange(right)
    case Not(child) => ServerReadable(child)
    case InList(_, list, _) => forall i :: 0 <= i < |list| ==> InServerRange(list[i])
    case Between(_, _, low, high) => InServerRange(low) && InServerRange(high)
    case _ => true
  }

  /** A text that, after a column, reads as a predicate about it. */
  ghost predicate ReadsPredicate(path: seq<string>, text: string, tree: SqlExpr) {
    Closed(text) && Boundary(text) && ParsePredicate(path, Tokens(text)) == Some((tree, []))
  }

  lemma PathThenPredicate(path: seq<string>, ts: seq<Token>, tree: SqlExpr)
    requires path != [] && ParsePredicate(path, ts) == Some((tree, []))
    ensures ParsePrimary(PathTokens(path) + ts) == Some((tree, []))
  {
    PathTokensParse(path, ts);
    assert (PathTokens(path) + ts)[0] == QuotedName(path[0]);
  }

  /** A column and a predicate about it read as a primary, whatever the column's names contain. */
  lemma ColumnThenPredicate(path: seq<string>, text: string, tree: SqlExpr)
    requires path != [] && ReadsPredicate(path, text, tree)
    ensures ReadsPrimary(ColumnText(path) + text, tree)
  {
    ColumnTextReads(path);
    ClosedExtends(ColumnText(path), text);
    PathThenPredicate(path, Tokens(text), tree);
  }

  lemma SymbolParses(path: seq<string>, op: Comparison, literal: seq<Token>, value: Value)
    requires ParseLiteral(literal) == Some((value, []))
    ensures ParsePredicate(path, [Symbol(op)] + literal) == Some((CompareExpr(path, op, value), []))
  {
    AfterHead(Symbol(op), literal);
  }

  lemma ComparisonReads(path: seq<string>, op: Comparison, literal: string, value: Value)
    requires ReadsLiteral(literal, value)
    ensures ReadsPredicate(path, " " + (SymbolText(op) + (" " + literal)), CompareExpr(path, op, value))
  {
    SpaceReads(literal);
    SymbolReads(op, " " + literal);
    SpaceReads(SymbolText(op) + (" " + literal));
    SymbolParses(path, op, Tokens(literal), value);
  }

  lemma NullTestParses(path: seq<string>)
    ensures ParsePredicate(path, [Word("IS")] + [Word("NULL")]) == Some((NullExpr(path, false), []))
    ensures ParsePredicate(path, [Word("IS")] + ([Word("NOT")] + [Word("NULL")])) == Some((NullExpr(path, true), []))
  {
    Keyword("IS");
    Keyword("NOT");
    Keyword("NULL");
    assert [Word("IS")] + [Word("NULL")] == [Word("IS"), Word("NULL")];
    assert [Word("IS")] + ([Word("NOT")] + [Word("NULL")]) == [Word("IS"), Word("NOT"), Word("NULL")];
  }

  lemma LastWordReads(word: string)
    requires IsWord(word)
    ensures Lex(" " + word) == Some(Lexed([Word(word)], false)) && Boundary(" " + word)
  {
    WordAlone(word);
    SpaceReads(word);
  }

  lemma TwoWordsRead(a: string, b: string)
    requires IsWord(a) && IsWord(b)
    ensures Lex(" " + (a + (" " + b))) == Some(Lexed([Word(a)] + [Word(b)], false))
    ensures Boundary(" " + (a + (" " + b)))
  {
    LastWordReads(b);
    SpacedWordReads(a, " " + b);
  }

  lemma ThreeWordsRead(a: string, b: string, c: string)
    requires IsWord(a) && IsWord(b) && IsWord(c)
    ensures Lex(" " + (a + (" " + (b + (" " + c))))) == Some(Lexed([Word(a)] + ([Word(b)] + [Word(c)]), false))
    ensures Boundary(" " + (a + (" " + (b + (" " + c)))))
  {
    TwoWordsRead(b, c);
    SpacedWordReads(a, " " + (b + (" " + c)));
  }

  lemma NullTestWords()
    ensures IsWord("IS") && IsWord("NOT") && IsWord("NULL")
    ensures " IS NULL" == " " + ("IS" + (" " + "NULL"))
    ensures " IS NOT NULL" == " " + ("IS" + (" " + ("NOT" + (" " + "NULL"))))
  {
    Keyword("IS");
    Keyword("NOT");
    Keyword("NULL");
  }

  lemma PredicateReads(path: seq<string>, text: string, ts: seq<Token>, tree: SqlExpr)
    requires Lex(text) == Some(Lexed(ts, false)) && Boundary(text) && ParsePredicate(path, ts) == Some((tree, []))
    ensures ReadsPredicate(path, text, tree)
  {
  }

  lemma NullTestReads(path: seq<string>)
    ensures ReadsPredicate(path, " IS NULL", NullExpr(path, false))
  {
    NullTestWords();
    TwoWordsRead("IS", "NULL");
    NullTestParses(path);
    PredicateReads(path, " IS NULL", [Word("IS")] + [Word("NULL")], NullExpr(path, false));
  }

  lemma NotNullTestReads(path: seq<string>)
    ensures ReadsPredicate(path, " IS NOT NULL", NullExpr(path, true))
  {
    NullTestWords();
    ThreeWordsRead("IS", "NOT", "NULL");
    NullTestParses(path);
    PredicateReads(path, " IS NOT NULL", [Word("IS")] + ([Word("NOT")] + [Word("NULL")]), NullExpr(path, true));
  }

  /** A text that reads as a list of literals and the parenthesis that closes it. */
  ghost predicate ReadsList(text: string, values: seq<Value>) {
    Closed(text) && ParseList(Tokens(text)) == Some((values, []))
  }

  lemma ListEnds(literal: seq<Token>, value: Value)
    requires ParseLiteral(literal) == Some((value, []))
    ensures ParseList(literal + [CloseParen]) == Some(([value], []))
  {
    LiteralExtends(literal, [CloseParen]);
    ConcatEmpty([CloseParen]);
    assert [CloseParen][1..] == [];
  }

  lemma ListGoesOn(literal: seq<Token>, value: Value, more: seq<Token>, values: seq<Value>)
    requires ParseLiteral(literal) == Some((value, [])) && ParseList(more) == Some((values, []))
    ensures ParseList(literal + ([Comma] + more)) == Some(([value] + values, []))
  {
    LiteralExtends(literal, [Comma] + more);
    ConcatEmpty([Comma] + more);
    AfterHead(Comma, more);
  }

  lemma LastItemReads(item: string, value: Value)
    requires ReadsLiteral(item, value)
    ensures ReadsList(item + ")", [value])
  {
    CloseAlone();
    ClosedExtends(item, ")");
    ListEnds(Tokens(item), value);
  }

  lemma MoreItemsRead(item: string, value: Value, rest: string, values: seq<Value>)
    requires ReadsLiteral(item, value) && ReadsList(rest, values)
    ensures ReadsList(item + ("," + (" " + rest)), [value] + values)
  {
    SpaceReads(rest);
    CommaReads(" " + rest);
    ClosedExtends(item, "," + (" " + rest));
    ListGoesOn(Tokens(item), value, Tokens(rest), values);
  }

  lemma JoinedItems(first: string, rest: string)
    ensures (first + ", " + rest) + ")" == first + ("," + (" " + (rest + ")")))
  {
  }

  lemma TranslatedLiteral(e: Expr, dataType: DataType)
    requires LiteralFor(e, dataType).Some?
    ensures ValueOf(e).Some? && ValueOf(e).value == ValueOr(e)
    ensures if InServerRange(e) then ReadsLiteral(LiteralFor(e, dataType).value, ValueOr(e))
            else NeverLiteral(LiteralFor(e, dataType).value)
  {
    LiteralForReadsBack(e, dataType);
  }

  lemma ValuesStep(list: seq<Expr>)
    requires list != [] && ValueOf(list[0]).Some?
    ensures Values(list) == [ValueOr(list[0])] + Values(list[1..])
  {
  }

  lemma {:induction false} ListReads(list: seq<Expr>, dataType: DataType)
    requires list != [] && LiteralTexts(list, dataType).Some?
    requires forall i :: 0 <= i < |list| ==> InServerRange(list[i])
    ensures ReadsList(Join(LiteralTexts(list, dataType).value, ", ") + ")", Values(list))
    decreases |list|
  {
    TranslatedLiteral(list[0], dataType);
    ValuesStep(list);
    var first, rest := LiteralFor(list[0], dataType).value, LiteralTexts(list[1..], dataType).value;
    AfterHead(first, rest);
    if |list| == 1 {
      assert list[1..] == [] && [first] + rest == [first];
      ConcatEmpty([ValueOr(list[0])]);
      LastItemReads(first, ValueOr(list[0]));
    } else {
      ListReads(list[1..], dataType);
      MoreItemsRead(first, ValueOr(list[0]), Join(rest, ", ") + ")", Values(list[1..]));
      JoinedItems(first, Join(rest, ", "));
      LiteralTextsAreNotEmpty(list[1..], dataType);
    }
  }

  lemma LiteralTextsAreNotEmpty(list: seq<Expr>, dataType: DataType)
    requires list != [] && LiteralTexts(list, dataType).Some?
    ensures LiteralTexts(list, dataType).value != []
  {
  }

  /** A text that reads as a range, an IN list or a BETWEEN, of a column. */
  ghost predicate ReadsRange(path: seq<string>, negated: bool, text: string, tree: SqlExpr) {
    && Closed(text) && Boundary(text)
    && !Is(Tokens(text), "IS") && !Is(Tokens(text), "NOT")
    && ParseRange(path, negated, Tokens(text)) == Some((tree, []))
  }

  lemma RangeParses(path: seq<string>, ts: seq<Token>, negated: bool, tree: SqlExpr, not: Token)
    requires ParseRange(path, negated, ts) == Some((tree, [])) && !Is(ts, "IS") && !Is(ts, "NOT")
    requires not.Word? && Is([not], "NOT")
    ensures ParsePredicate(path, (if negated then [not] else []) + ts) == Some((tree, []))
  {
    ConcatEmpty(ts);
    AfterHead(not, ts);
    assert Is([not] + ts, "NOT") && !Is([not] + ts, "IS");
  }

  lemma NotPrefixReads(text: string)
    requires Boundary(text)
    ensures Lex(" NOT" + text) == Prepend([Word("NOT")], Lex(text)) && Boundary(" NOT" + text)
  {
    Keyword("NOT");
    SpacedWordReads("NOT", text);
    assert " NOT" + text == " " + ("NOT" + text);
  }

  lemma NegationReads(negated: bool, text: string)
    requires Boundary(text)
    ensures Lex(Negation(negated) + text) == Prepend(if negated then [Word("NOT")] else [], Lex(text))
    ensures Boundary(Negation(negated) + text)
  {
    if negated {
      NotPrefixReads(text);
    } else {
      ConcatEmpty(text);
      PrependNothing(Lex(text));
    }
  }

  lemma RangeReads(path: seq<string>, negated: bool, text: string, tree: SqlExpr)
    requires ReadsRange(path, negated, text, tree)
    ensures ReadsPredicate(path, Negation(negated) + text, tree)
  {
    Keyword("NOT");
    RangeParses(path, Tokens(text), negated, tree, Word("NOT"));
    NegationReads(negated, text);
  }

  lemma InParses(path: seq<string>, negated: bool, list: seq<Token>, values: seq<Value>, word: Token)
    requires ParseList(list) == Some((values, [])) && Is([word], "IN")
    ensures var ts := [word] + ([OpenParen] + list);
            && !Is(ts, "IS") && !Is(ts, "NOT")
            && ParseRange(path, negated, ts) == Some((InExpr(path, values, negated), []))
  {
    var ts := [word] + ([OpenParen] + list);
    assert ts[0] == word && ts[1] == OpenParen && ts[2..] == list;
  }

  lemma InLexes(list: string)
    requires Closed(list)
    ensures Lex(" IN (" + list) == Some(Lexed([Word("IN")] + ([OpenParen] + Tokens(list)), false))
    ensures Boundary(" IN (" + list) && Is([Word("IN")], "IN")
  {
    Keyword("IN");
    OpenReads(list);
    SpacedReads("IN", "(" + list);
    assert " IN (" + list == Spaced("IN") + ("(" + list);
  }

  lemma InReads(path: seq<string>, negated: bool, list: string, values: seq<Value>)
    requires ReadsList(list, values)
    ensures ReadsRange(path, negated, " IN (" + list, InExpr(path, values, negated))
  {
    InLexes(list);
    InParses(path, negated, Tokens(list), values, Word("IN"));
  }

  lemma BetweenParses(
    path: seq<string>, negated: bool, l: seq<Token>, low: Value, h: seq<Token>, high: Value)
    requires ParseLiteral(l) == Some((low, [])) && ParseLiteral(h) == Some((high, []))
    ensures var ts := [Word("BETWEEN")] + (l + ([Word("AND")] + h));
            && !Is(ts, "IS") && !Is(ts, "NOT")
            && ParseRange(path, negated, ts) == Some((BetweenExpr(path, low, high, negated), []))
  {
    Keyword("BETWEEN");
    Keyword("AND");
    AfterHead(Word("BETWEEN"), l + ([Word("AND")] + h));
    LiteralExtends(l, [Word("AND")] + h);
    ConcatEmpty([Word("AND")] + h);
    AfterHead(Word("AND"), h);
    assert Is([Word("AND")] + h, "AND");
  }

  lemma BoundsRead(l: string, low: Value, h: string, high: Value)
    requires ReadsLiteral(l, low) && ReadsLiteral(h, high)
    ensures Lex(l + (" AND " + h)) == Some(Lexed(Tokens(l) + ([Word("AND")] + Tokens(h)), false))
  {
    Keyword("AND");
    SpacedReads("AND", h);
    assert " AND " == Spaced("AND");
    ClosedExtends(l, " AND " + h);
  }

  lemma BetweenReads(path: seq<string>, negated: bool, l: string, low: Value, h: string, high: Value)
    requires ReadsLiteral(l, low) && ReadsLiteral(h, high)
    ensures ReadsRange(path, negated, " BETWEEN " + (l + (" AND " + h)), BetweenExpr(path, low, high, negated))
  {
    BoundsRead(l, low, h, high);
    BetweenOpens(l + (" AND " + h));
    BetweenParses(path, negated, Tokens(l), low, Tokens(h), high);
  }

  lemma BetweenOpens(bounds: string)
    ensures Lex(" BETWEEN " + bounds) == Prepend([Word("BETWEEN")], Lex(bounds)) && Boundary(" BETWEEN " + bounds)
  {
    Keyword("BETWEEN");
    SpacedReads("BETWEEN", bounds);
    assert " BETWEEN " == Spaced("BETWEEN");
  }

  lemma ResolvedPath(schema: Schema, e: Expr)
    requires ResolveColumn(schema, e).Some?
    ensures ResolveColumn(schema, e).value.path == PathOr(schema, e) != []
  {
    ResolvedPathIsNotEmpty(schema, e);
  }

  lemma ComparisonIsPrimary(schema: Schema, column: Expr, op: Comparison, literal: Expr)
    requires ResolveColumn(schema, column).Some?
    requires ComparisonText(ResolveColumn(schema, column).value, op, literal).Some? && InServerRange(literal)
    ensures ReadsPrimary(ComparisonText(ResolveColumn(schema, column).value, op, literal).value,
                         CompareExpr(PathOr(schema, column), op, ValueOr(literal)))
  {
    var resolved, path := ResolveColumn(schema, column).value, PathOr(schema, column);
    var text := LiteralFor(literal, resolved.dataType).value;
    ResolvedPath(schema, column);
    TranslatedLiteral(literal, resolved.dataType);
    ComparisonReads(path, op, text, ValueOr(literal));
    ColumnThenPredicate(path, " " + (SymbolText(op) + (" " + text)), CompareExpr(path, op, ValueOr(literal)));
  }

  lemma NullTestIsPrimary(schema: Schema, column: Expr)
    requires ResolveColumn(schema, column).Some?
    ensures var path := PathOr(schema, column);
            && ReadsPrimary(ColumnText(path) + " IS NULL", NullExpr(path, false))
            && ReadsPrimary(ColumnText(path) + " IS NOT NULL", NullExpr(path, true))
  {
    var path := PathOr(schema, column);
    ResolvedPath(schema, column);
    NullTestReads(path);
    NotNullTestReads(path);
    ColumnThenPredicate(path, " IS NULL", NullExpr(path, false));
    ColumnThenPredicate(path, " IS NOT NULL", NullExpr(path, true));
  }

  lemma InListNeeds(schema: Schema, child: Expr, list: seq<Expr>, negated: bool)
    requires TranslateLeaf(schema, InList(child, list, negated)).Some?
    ensures list != [] && ResolveColumn(schema, child).Some?
    ensures LiteralTexts(list, ResolveColumn(schema, child).value.dataType).Some?
  {
  }

  lemma BetweenNeeds(schema: Schema, child: Expr, negated: bool, low: Expr, high: Expr)
    requires TranslateLeaf(schema, Between(child, negated, low, high)).Some?
    ensures ResolveColumn(schema, child).Some?
    ensures LiteralFor(low, ResolveColumn(schema, child).value.dataType).Some?
    ensures LiteralFor(high, ResolveColumn(schema, child).value.dataType).Some?
  {
  }

  lemma BetweenLeafText(schema: Schema, column: ResolvedColumn, child: Expr, negated: bool, low: Expr, high: Expr)
    requires ResolveColumn(schema, child) == Some(column)
    requires LiteralFor(low, column.dataType).Some? && LiteralFor(high, column.dataType).Some?
    ensures TranslateLeaf(schema, Between(child, negated, low, high)) ==
            Some(ColumnText(column.path)
                 + (Negation(negated)
                    + (" BETWEEN " + (LiteralFor(low, column.dataType).value
                                      + (" AND " + LiteralFor(high, column.dataType).value)))))
  {
  }

  lemma InListLeafText(schema: Schema, column: ResolvedColumn, child: Expr, list: seq<Expr>, negated: bool)
    requires list != [] && ResolveColumn(schema, child) == Some(column)
    requires LiteralTexts(list, column.dataType).Some?
    ensures TranslateLeaf(schema, InList(child, list, negated)) ==
            Some(ColumnText(column.path)
                 + (Negation(negated) + (" IN (" + (Join(LiteralTexts(list, column.dataType).value, ", ") + ")"))))
  {
  }

  lemma InListIsPrimary(path: seq<string>, negated: bool, items: string, values: seq<Value>)
    requires path != [] && ReadsList(items, values)
    ensures ReadsPrimary(ColumnText(path) + (Negation(negated) + (" IN (" + items)), InExpr(path, values, negated))
  {
    InReads(path, negated, items, values);
    RangeReads(path, negated, " IN (" + items, InExpr(path, values, negated));
    ColumnThenPredicate(path, Negation(negated) + (" IN (" + items), InExpr(path, values, negated));
  }

  lemma InListLeafReads(schema: Schema, child: Expr, list: seq<Expr>, negated: bool)
    requires TranslateLeaf(schema, InList(child, list, negated)).Some?
    requires forall i :: 0 <= i < |list| ==> InServerRange(list[i])
    ensures ReadsPrimary(TranslateLeaf(schema, InList(child, list, negated)).value,
                         InExpr(PathOr(schema, child), Values(list), negated))
  {
    InListNeeds(schema, child, list, negated);
    var column := ResolveColumn(schema, child).value;
    ResolvedPath(schema, child);
    ListReads(list, column.dataType);
    InListIsPrimary(column.path, negated, Join(LiteralTexts(list, column.dataType).value, ", ") + ")", Values(list));
    InListLeafText(schema, column, child, list, negated);
  }

  lemma BetweenIsPrimary(path: seq<string>, negated: bool, l: string, low: Value, h: string, high: Value)
    requires path != [] && ReadsLiteral(l, low) && ReadsLiteral(h, high)
    ensures ReadsPrimary(ColumnText(path) + (Negation(negated) + (" BETWEEN " + (l + (" AND " + h)))),
                         BetweenExpr(path, low, high, negated))
  {
    var range, tree := " BETWEEN " + (l + (" AND " + h)), BetweenExpr(path, low, high, negated);
    BetweenReads(path, negated, l, low, h, high);
    RangeReads(path, negated, range, tree);
    ColumnThenPredicate(path, Negation(negated) + range, tree);
  }

  lemma BetweenLeafReads(schema: Schema, child: Expr, negated: bool, low: Expr, high: Expr)
    requires TranslateLeaf(schema, Between(child, negated, low, high)).Some?
    requires InServerRange(low) && InServerRange(high)
    ensures ReadsPrimary(TranslateLeaf(schema, Between(child, negated, low, high)).value,
                         BetweenExpr(PathOr(schema, child), ValueOr(low), ValueOr(high), negated))
  {
    BetweenNeeds(schema, child, negated, low, high);
    var column := ResolveColumn(schema, child).value;
    ResolvedPath(schema, child);
    BoundsAreLiterals(column, negated, low, high);
    BetweenLeafText(schema, column, child, negated, low, high);
  }

  lemma BoundsAreLiterals(column: ResolvedColumn, negated: bool, low: Expr, high: Expr)
    requires column.path != [] && LiteralFor(low, column.dataType).Some? && LiteralFor(high, column.dataType).Some?
    requires InServerRange(low) && InServerRange(high)
    ensures ReadsPrimary(ColumnText(column.path)
                         + (Negation(negated)
                            + (" BETWEEN " + (LiteralFor(low, column.dataType).value
                                              + (" AND " + LiteralFor(high, column.dataType).value)))),
                         BetweenExpr(column.path, ValueOr(low), ValueOr(high), negated))
  {
    TranslatedLiteral(low, column.dataType);
    TranslatedLiteral(high, column.dataType);
    BetweenIsPrimary(column.path, negated, LiteralFor(low, column.dataType).value, ValueOr(low),
                     LiteralFor(high, column.dataType).value, ValueOr(high));
  }

  lemma LeafReads(schema: Schema, e: Expr)
    requires !IsConnective(e) && !e.Not? && TranslateLeaf(schema, e).Some? && ServerReadable(e)
    ensures ReadsPrimary(TranslateLeaf(schema, e).value, Tree(schema, e))
  {
    match e {
      case Binary(left, operator, right) =>
        if ResolveColumn(schema, left).Some? {
          ComparisonIsPrimary(schema, left, operator.op, right);
        } else {
          ComparisonIsPrimary(schema, right, Reverse(operator.op), left);
        }
      case IsNull(child) => NullTestIsPrimary(schema, child);
      case IsNotNull(child) => NullTestIsPrimary(schema, child);
      case InList(child, list, negated) => InListLeafReads(schema, child, list, negated);
      case Between(child, negated, low, high) => BetweenLeafReads(schema, child, negated, low, high);
      case _ =>
    }
  }

  lemma ConnectiveReads(l: string, r: string, a: SqlExpr, b: SqlExpr)
    requires ReadsPrimary(l, a) && ReadsPrimary(r, b)
    ensures ReadsPrimary("(" + (l + (" AND " + (r + ")"))), AndExpr(a, b))
    ensures ReadsPrimary("(" + (l + (" OR " + (r + ")"))), OrExpr(a, b))
  {
    AndReads(l, r, a, b);
    OrReads(l, r, a, b);
    assert " AND " == Spaced("AND") && " OR " == Spaced("OR");
    ParenthesesRead(l + (Spaced("AND") + r), AndExpr(a, b));
    ParenthesesRead(l + (Spaced("OR") + r), OrExpr(a, b));
    Regrouped(l, Spaced("AND"), r, ")");
    Regrouped(l, Spaced("OR"), r, ")");
  }

  lemma Regrouped(a: string, b: string, c: string, d: string)
    ensures (a + (b + c)) + d == a + (b + (c + d))
  {
  }

  lemma NotIsPrimary(c: string, tree: SqlExpr)
    requires ReadsPrimary(c, tree)
    ensures ReadsPrimary("(NOT " + (c + ")"), NotExpr(tree))
  {
    NotReads(c, tree);
    ParenthesesRead("NOT" + (" " + c), NotExpr(tree));
    Regrouped("NOT", " ", c, ")");
    assert "(NOT " + (c + ")") == "(" + ("NOT" + (" " + (c + ")")));
  }

  /** A translated filter reads as a primary of the expression grammar, standing for the filter's tree. */
  lemma {:induction false} PrintReads(schema: Schema, e: Expr)
    requires PrintText(schema, e).Some? && ServerReadable(e)
    ensures ReadsPrimary(PrintText(schema, e).value, Tree(schema, e))
  {
    if IsConnective(e) {
      PrintReads(schema, e.left);
      PrintReads(schema, e.right);
      ConnectiveReads(PrintText(schema, e.left).value, PrintText(schema, e.right).value,
                      Tree(schema, e.left), Tree(schema, e.right));
    } else if e.Not? {
      PrintReads(schema, e.child);
      NotIsPrimary(PrintText(schema, e.child).value, Tree(schema, e.child));
    } else {
      LeafReads(schema, e);
    }
  }

  /**
   The text the translator returns reads back, character by character, as the filter's tree: alone, in
   parentheses, and in front of whatever else a boundary separates from it.
   */
  lemma TextReadsBack(schema: Schema, e: Expr, more: string)
    requires PrintText(schema, e).Some? && ServerReadable(e)
    ensures ReadExpression(PrintText(schema, e).value) == Some(Tree(schema, e))
    ensures ReadExpression("(" + (PrintText(schema, e).value + ")")) == Some(Tree(schema, e))
    ensures Boundary(more) && Lex(more).Some? ==>
              Lex(PrintText(schema, e).value + more).Some?
              && ParsePrimary(Tokens(PrintText(schema, e).value + more)) == Some((Tree(schema, e), Tokens(more)))
  {
    var text, tree := PrintText(schema, e).value, Tree(schema, e);
    PrintReads(schema, e);
    PrimaryIsExpression(text, tree);
    ParenthesesRead(text, tree);
    PrimaryIsExpression("(" + (text + ")"), tree);
    if Boundary(more) && Lex(more).Some? {
      LexExtends(text, more);
      PrimaryExtends(Tokens(text), Tokens(more));
      ConcatEmpty(Tokens(more));
    }
  }

  // ---------------------------------------------------------------------------------------------------
  // Literals the server does not have
  // ---------------------------------------------------------------------------------------------------

  lemma PathThenNothing(path: seq<string>, ts: seq<Token>, more: seq<Token>)
    requires path != [] && ts != [] && !ts[0].Dot? && ParsePredicate(path, ts + more) == None
    ensures ParsePrimary((PathTokens(path) + ts) + more) == None
  {
    PathTokensParse(path, ts + more);
    ConcatAssociates(PathTokens(path), ts, more);
    assert (PathTokens(path) + (ts + more))[0] == QuotedName(path[0]);
  }

  lemma ColumnThenNothing(path: seq<string>, text: string)
    requires path != [] && NeverPredicate(path, text)
    ensures NeverPrimary(ColumnText(path) + text)
  {
    ColumnTextReads(path);
    ClosedExtends(ColumnText(path), text);
    assert (PathTokens(path) + Tokens(text))[0] == QuotedName(path[0]);
    forall more: seq<Token> ensures ParsePrimary((PathTokens(path) + Tokens(text)) + more) == None {
      PathThenNothing(path, Tokens(text), more);
    }
  }

  lemma SymbolBroken(path: seq<string>, op: Comparison, literal: seq<Token>, more: seq<Token>)
    requires ParseLiteral(literal + more) == None
    ensures ParsePredicate(path, ([Symbol(op)] + literal) + more) == None
  {
    ConcatAssociates([Symbol(op)], literal, more);
    AfterHead(Symbol(op), literal + more);
  }

  lemma ComparisonNeverReads(path: seq<string>, op: Comparison, literal: string)
    requires NeverLiteral(literal)
    ensures NeverPredicate(path, " " + (SymbolText(op) + (" " + literal)))
  {
    SpaceReads(literal);
    SymbolReads(op, " " + literal);
    SpaceReads(SymbolText(op) + (" " + literal));
    forall more: seq<Token> ensures ParsePredicate(path, ([Symbol(op)] + Tokens(literal)) + more) == None {
      SymbolBroken(path, op, Tokens(literal), more);
    }
  }

  /** A text that is not a list of literals, whatever follows. */
  ghost predicate NeverList(text: string) {
    Closed(text) && forall more: seq<Token> :: ParseList(Tokens(text) + more) == None
  }

  lemma ItemBroken(item: string, tail: string)
    requires NeverLiteral(item) && Closed(tail) && Boundary(tail)
    ensures NeverList(item + tail)
  {
    ClosedExtends(item, tail);
    forall more: seq<Token> ensures ParseList((Tokens(item) + Tokens(tail)) + more) == None {
      ConcatAssociates(Tokens(item), Tokens(tail), more);
      assert ParseLiteral(Tokens(item) + (Tokens(tail) + more)) == None;
    }
  }

  lemma ListStaysBroken(literal: seq<Token>, value: Value, rest: seq<Token>, more: seq<Token>)
    requires ParseLiteral(literal) == Some((value, [])) && ParseList(rest + more) == None
    ensures ParseList((literal + ([Comma] + rest)) + more) == None
  {
    var tail := [Comma] + (rest + more);
    assert (literal + ([Comma] + rest)) + more == literal + tail;
    LiteralExtends(literal, tail);
    ConcatEmpty(tail);
    AfterHead(Comma, rest + more);
  }

  lemma RestBroken(item: string, value: Value, rest: string)
    requires ReadsLiteral(item, value) && NeverList(rest)
    ensures NeverList(item + ("," + (" " + rest)))
  {
    SpaceReads(rest);
    CommaReads(" " + rest);
    ClosedExtends(item, "," + (" " + rest));
    assert Tokens(item + ("," + (" " + rest))) == Tokens(item) + ([Comma] + Tokens(rest));
    forall more: seq<Token> ensures ParseList((Tokens(item) + ([Comma] + Tokens(rest))) + more) == None {
      ListStaysBroken(Tokens(item), value, Tokens(rest), more);
    }
  }

  lemma {:induction false} ItemsLex(list: seq<Expr>, dataType: DataType)
    requires list != [] && LiteralTexts(list, dataType).Some?
    ensures Closed(Join(LiteralTexts(list, dataType).value, ", ") + ")")
    decreases |list|
  {
    TranslatedLiteral(list[0], dataType);
    var first, rest := LiteralFor(list[0], dataType).value, LiteralTexts(list[1..], dataType).value;
    AfterHead(first, rest);
    if |list| == 1 {
      assert list[1..] == [] && [first] + rest == [first];
      CloseAlone();
      ClosedExtends(first, ")");
    } else {
      ItemsLex(list[1..], dataType);
      LiteralTextsAreNotEmpty(list[1..], dataType);
      JoinedItems(first, Join(rest, ", "));
      SpaceReads(Join(rest, ", ") + ")");
      CommaReads(" " + (Join(rest, ", ") + ")"));
      ClosedExtends(first, "," + (" " + (Join(rest, ", ") + ")")));
    }
  }

  lemma {:induction false} ListNeverReads(list: seq<Expr>, dataType: DataType)
    requires list != [] && LiteralTexts(list, dataType).Some?
    requires !(forall i :: 0 <= i < |list| ==> InServerRange(list[i]))
    ensures NeverList(Join(LiteralTexts(list, dataType).value, ", ") + ")")
    decreases |list|
  {
    TranslatedLiteral(list[0], dataType);
    var first, rest := LiteralFor(list[0], dataType).value, LiteralTexts(list[1..], dataType).value;
    AfterHead(first, rest);
    if |list| == 1 {
      assert list[1..] == [] && [first] + rest == [first];
      CloseAlone();
      ItemBroken(first, ")");
    } else {
      var tail := Join(rest, ", ") + ")";
      LiteralTextsAreNotEmpty(list[1..], dataType);
      JoinedItems(first, Join(rest, ", "));
      ItemsLex(list[1..], dataType);
      SpaceReads(tail);
      CommaReads(" " + tail);
      if InServerRange(list[0]) {
        HeadAndTail(list);
        ListNeverReads(list[1..], dataType);
        RestBroken(first, ValueOr(list[0]), tail);
      } else {
        ItemBroken(first, "," + (" " + tail));
      }
    }
  }

  /** A text that is not a range of a column, whatever follows. */
  ghost predicate NeverRange(path: seq<string>, negated: bool, text: string) {
    && Closed(text) && Boundary(text)
    && Tokens(text) != [] && Tokens(text)[0].Word? && !Is(Tokens(text), "IS") && !Is(Tokens(text), "NOT")
    && forall more: seq<Token> :: ParseRange(path, negated, Tokens(text) + more) == None
  }

  lemma RangeBroken(path: seq<string>, ts: seq<Token>, negated: bool, not: Token, more: seq<Token>)
    requires ParseRange(path, negated, ts + more) == None
    requires ts != [] && ts[0].Word? && !Is(ts, "IS") && !Is(ts, "NOT")
    requires not.Word? && Is([not], "NOT")
    ensures ParsePredicate(path, ((if negated then [not] else []) + ts) + more) == None
  {
    ConcatEmpty(ts);
    IsExtends(ts, more, "IS");
    IsExtends(ts, more, "NOT");
    if negated {
      ConcatAssociates([not], ts, more);
      AfterHead(not, ts + more);
      assert Is([not] + (ts + more), "NOT") && !Is([not] + (ts + more), "IS");
    }
  }

  lemma RangeNeverReads(path: seq<string>, negated: bool, text: string)
    requires NeverRange(path, negated, text)
    ensures NeverPredicate(path, Negation(negated) + text)
  {
    Keyword("NOT");
    NegationReads(negated, text);
    var prefix := if negated then [Word("NOT")] else [];
    assert (prefix + Tokens(text))[0].Word?;
    forall more: seq<Token> ensures ParsePredicate(path, (prefix + Tokens(text)) + more) == None {
      RangeBroken(path, Tokens(text), negated, Word("NOT"), more);
    }
  }

  lemma InBroken(path: seq<string>, negated: bool, list: seq<Token>, more: seq<Token>, word: Token)
    requires ParseList(list + more) == None && Is([word], "IN")
    ensures ParseRange(path, negated, ([word] + ([OpenParen] + list)) + more) == None
  {
    var ts := [word] + ([OpenParen] + (list + more));
    assert ([word] + ([OpenParen] + list)) + more == ts;
    assert ts[0] == word && ts[1] == OpenParen && ts[2..] == list + more;
  }

  lemma InNeverReads(path: seq<string>, negated: bool, list: string)
    requires NeverList(list)
    ensures NeverRange(path, negated, " IN (" + list)
  {
    InLexes(list);
    var ts := [Word("IN")] + ([OpenParen] + Tokens(list));
    assert ts[0] == Word("IN");
    forall more: seq<Token> ensures ParseRange(path, negated, ts + more) == None {
      InBroken(path, negated, Tokens(list), more, Word("IN"));
    }
  }

  lemma LowBroken(path: seq<string>, negated: bool, l: seq<Token>, tail: seq<Token>)
    requires ParseLiteral(l + tail) == None
    ensures ParseRange(path, negated, [Word("BETWEEN")] + (l + tail)) == None
  {
    Keyword("BETWEEN");
    AfterHead(Word("BETWEEN"), l + tail);
  }

  lemma HighBroken(path: seq<string>, negated: bool, l: seq<Token>, low: Value, h: seq<Token>)
    requires ParseLiteral(l) == Some((low, [])) && ParseLiteral(h) == None
    ensures ParseRange(path, negated, [Word("BETWEEN")] + (l + ([Word("AND")] + h))) == None
  {
    Keyword("BETWEEN");
    Keyword("AND");
    AfterHead(Word("BETWEEN"), l + ([Word("AND")] + h));
    LiteralExtends(l, [Word("AND")] + h);
    ConcatEmpty([Word("AND")] + h);
    AfterHead(Word("AND"), h);
    assert Is([Word("AND")] + h, "AND");
  }

  lemma BetweenLexes(l: string, h: string)
    requires Closed(l) && Closed(h)
    ensures Lex(" BETWEEN " + (l + (" AND " + h))) ==
            Some(Lexed([Word("BETWEEN")] + (Tokens(l) + ([Word("AND")] + Tokens(h))), false))
    ensures Boundary(" BETWEEN " + (l + (" AND " + h)))
  {
    Keyword("AND");
    SpacedReads("AND", h);
    assert " AND " == Spaced("AND");
    ClosedExtends(l, " AND " + h);
    BetweenOpens(l + (" AND " + h));
  }

  lemma BetweenStaysBroken(
    path: seq<string>, negated: bool, l: seq<Token>, low: Option<Value>, h: seq<Token>, more: seq<Token>)
    requires if low.Some? then ParseLiteral(l) == Some((low.value, [])) && ParseLiteral(h + more) == None
             else forall rest: seq<Token> :: ParseLiteral(l + rest) == None
    ensures ParseRange(path, negated, ([Word("BETWEEN")] + (l + ([Word("AND")] + h))) + more) == None
  {
    assert ([Word("BETWEEN")] + (l + ([Word("AND")] + h))) + more
        == [Word("BETWEEN")] + (l + ([Word("AND")] + (h + more)));
    if low.Some? {
      HighBroken(path, negated, l, low.value, h + more);
    } else {
      LowBroken(path, negated, l, [Word("AND")] + (h + more));
    }
  }

  lemma BetweenNeverReads(path: seq<string>, negated: bool, l: string, low: Option<Value>, h: string)
    requires Closed(h)
    requires if low.Some? then ReadsLiteral(l, low.value) && NeverLiteral(h) else NeverLiteral(l)
    ensures NeverRange(path, negated, " BETWEEN " + (l + (" AND " + h)))
  {
    Keyword("BETWEEN");
    BetweenLexes(l, h);
    var ts := [Word("BETWEEN")] + (Tokens(l) + ([Word("AND")] + Tokens(h)));
    assert ts[0] == Word("BETWEEN");
    forall more: seq<Token> ensures ParseRange(path, negated, ts + more) == None {
      BetweenStaysBroken(path, negated, Tokens(l), low, Tokens(h), more);
    }
  }

  lemma ComparisonNeverPrimary(schema: Schema, column: Expr, op: Comparison, literal: Expr)
    requires ResolveColumn(schema, column).Some? && !InServerRange(literal)
    requires ComparisonText(ResolveColumn(schema, column).value, op, literal).Some?
    ensures NeverPrimary(ComparisonText(ResolveColumn(schema, column).value, op, literal).value)
  {
    var resolved := ResolveColumn(schema, column).value;
    var text := LiteralFor(literal, resolved.dataType).value;
    ResolvedPath(schema, column);
    TranslatedLiteral(literal, resolved.dataType);
    ComparisonNeverReads(resolved.path, op, text);
    ColumnThenNothing(resolved.path, " " + (SymbolText(op) + (" " + text)));
  }

  lemma InListNeverPrimary(path: seq<string>, negated: bool, items: string)
    requires path != [] && NeverList(items)
    ensures NeverPrimary(ColumnText(path) + (Negation(negated) + (" IN (" + items)))
  {
    InNeverReads(path, negated, items);
    RangeNeverReads(path, negated, " IN (" + items);
    ColumnThenNothing(path, Negation(negated) + (" IN (" + items));
  }

  lemma InListLeafNeverReads(schema: Schema, child: Expr, list: seq<Expr>, negated: bool)
    requires TranslateLeaf(schema, InList(child, list, negated)).Some?
    requires !(forall i :: 0 <= i < |list| ==> InServerRange(list[i]))
    ensures NeverPrimary(TranslateLeaf(schema, InList(child, list, negated)).value)
  {
    InListNeeds(schema, child, list, negated);
    var column := ResolveColumn(schema, child).value;
    ResolvedPath(schema, child);
    ListNeverReads(list, column.dataType);
    InListNeverPrimary(column.path, negated, Join(LiteralTexts(list, column.dataType).value, ", ") + ")");
    InListLeafText(schema, column, child, list, negated);
  }

  lemma BetweenNeverPrimary(path: seq<string>, negated: bool, l: string, low: Option<Value>, h: string)
    requires path != [] && Closed(h)
    requires if low.Some? then ReadsLiteral(l, low.value) && NeverLiteral(h) else NeverLiteral(l)
    ensures NeverPrimary(ColumnText(path) + (Negation(negated) + (" BETWEEN " + (l + (" AND " + h)))))
  {
    BetweenNeverReads(path, negated, l, low, h);
    RangeNeverReads(path, negated, " BETWEEN " + (l + (" AND " + h)));
    ColumnThenNothing(path, Negation(negated) + (" BETWEEN " + (l + (" AND " + h))));
  }

  lemma BoundsNeverRead(column: ResolvedColumn, negated: bool, low: Expr, high: Expr)
    requires column.path != [] && LiteralFor(low, column.dataType).Some? && LiteralFor(high, column.dataType).Some?
    requires !InServerRange(low) || !InServerRange(high)
    ensures NeverPrimary(ColumnText(column.path)
                         + (Negation(negated)
                            + (" BETWEEN " + (LiteralFor(low, column.dataType).value
                                              + (" AND " + LiteralFor(high, column.dataType).value)))))
  {
    TranslatedLiteral(low, column.dataType);
    TranslatedLiteral(high, column.dataType);
    BetweenNeverPrimary(column.path, negated, LiteralFor(low, column.dataType).value,
                        if InServerRange(low) then Some(ValueOr(low)) else None,
                        LiteralFor(high, column.dataType).value);
  }

  lemma BetweenLeafNeverReads(schema: Schema, child: Expr, negated: bool, low: Expr, high: Expr)
    requires TranslateLeaf(schema, Between(child, negated, low, high)).Some?
    requires !InServerRange(low) || !InServerRange(high)
    ensures NeverPrimary(TranslateLeaf(schema, Between(child, negated, low, high)).value)
  {
    BetweenNeeds(schema, child, negated, low, high);
    var column := ResolveColumn(schema, child).value;
    ResolvedPath(schema, child);
    BoundsNeverRead(column, negated, low, high);
    BetweenLeafText(schema, column, child, negated, low, high);
  }

  lemma LeafNeverReads(schema: Schema, e: Expr)
    requires !IsConnective(e) && !e.Not? && TranslateLeaf(schema, e).Some? && !ServerReadable(e)
    ensures NeverPrimary(TranslateLeaf(schema, e).value)
  {
    match e {
      case Binary(left, operator, right) =>
        if ResolveColumn(schema, left).Some? {
          ComparisonNeverPrimary(schema, left, operator.op, right);
        } else {
          ComparisonNeverPrimary(schema, right, Reverse(operator.op), left);
        }
      case InList(child, list, negated) => InListLeafNeverReads(schema, child, list, negated);
      case Between(child, negated, low, high) => BetweenLeafNeverReads(schema, child, negated, low, high);
      case _ =>
    }
  }

  lemma ConnectiveNeverReads(l: string, a: Option<SqlExpr>, word: string, r: string)
    requires word == "AND" || word == "OR"
    requires if a.Some? then ReadsPrimary(l, a.value) && NeverPrimary(r) else NeverPrimary(l) && Closed(r)
    ensures NeverPrimary("(" + (l + (Spaced(word) + (r + ")"))))
  {
    if a.Some? {
      RightNeverReads(l, a.value, word, r);
    } else {
      LeftNeverReads(l, word, r);
    }
    ParenthesesNeverRead(l + (Spaced(word) + r));
    Regrouped(l, Spaced(word), r, ")");
  }

  lemma NotNeverPrimary(c: string)
    requires NeverPrimary(c)
    ensures NeverPrimary("(NOT " + (c + ")"))
  {
    NotNeverReads(c);
    ParenthesesNeverRead("NOT" + (" " + c));
    Regrouped("NOT", " ", c, ")");
    assert "(NOT " + (c + ")") == "(" + ("NOT" + (" " + (c + ")")));
  }

  lemma ConnectiveIsSpaced(e: Expr)
    requires IsConnective(e)
    ensures ConnectiveText(e) == Spaced(if e.operator.And? then "AND" else "OR")
  {
  }

  /** One literal the server does not have, anywhere in a filter, leaves a text that cannot be read at all. */
  lemma {:induction false} PrintNeverReads(schema: Schema, e: Expr)
    requires PrintText(schema, e).Some? && !ServerReadable(e)
    ensures NeverPrimary(PrintText(schema, e).value)
  {
    if IsConnective(e) {
      var l, r := PrintText(schema, e.left).value, PrintText(schema, e.right).value;
      ConnectiveIsSpaced(e);
      if ServerReadable(e.left) {
        PrintReads(schema, e.left);
        PrintNeverReads(schema, e.right);
        ConnectiveNeverReads(l, Some(Tree(schema, e.left)), if e.operator.And? then "AND" else "OR", r);
      } else {
        PrintNeverReads(schema, e.left);
        if ServerReadable(e.right) {
          PrintReads(schema, e.right);
        } else {
          PrintNeverReads(schema, e.right);
        }
        ConnectiveNeverReads(l, None, if e.operator.And? then "AND" else "OR", r);
      }
    } else if e.Not? {
      PrintNeverReads(schema, e.child);
      NotNeverPrimary(PrintText(schema, e.child).value);
    } else {
      LeafNeverReads(schema, e);
    }
  }

  /** The text of a filter reads back exactly when the server has each of its literals: its dates from year 1
   to 9999, its decimals in the range of their types. */
  lemma ReadsBackExactly(schema: Schema, e: Expr)
    requires PrintText(schema, e).Some?
    ensures ReadExpression(PrintText(schema, e).value).Some? <==> ServerReadable(e)
    ensures ReadExpression("(" + (PrintText(schema, e).value + ")")).Some? <==> ServerReadable(e)
  {
    var text := PrintText(schema, e).value;
    if ServerReadable(e) {
      TextReadsBack(schema, e, "");
    } else {
      PrintNeverReads(schema, e);
      NeverPrimaryIsNoExpression(text);
      NeverRead(text);
      ParenthesesNeverRead(text);
      NeverPrimaryIsNoExpression("(" + (text + ")"));
      NeverRead("(" + (text + ")"));
    }
  }

  const DAYS: Schema := [Field("day", Date32, [])]
  const FAR := Expr.Binary(Column(NoRelation, "day"), Comparing(Lt), Literal(Date32Scalar(LAST_DAY + 1)))

  lemma DayResolves()
    ensures ResolveColumn(DAYS, Column(NoRelation, "day")) == Some(ResolvedColumn(["day"], Date32))
  {
    assert FieldNamed(DAYS, "day") == Some(DAYS[0]);
    assert !UnsupportedLogicalType([]);
  }

  lemma ComparisonPrints(schema: Schema, left: Expr, column: ResolvedColumn, op: Comparison, right: Expr)
    requires ResolveColumn(schema, left) == Some(column) && LiteralFor(right, column.dataType).Some?
    ensures PrintText(schema, Expr.Binary(left, Comparing(op), right)).Some?
  {
  }

  lemma FarDatePrints()
    ensures LiteralFor(Literal(Date32Scalar(LAST_DAY + 1)), Date32).Some?
  {
    DayAfterTheLast();
  }

  /** A comparison with the first day of year 10000 is reported as exactly supported and cannot be read. */
  lemma FarDateIsSentUnreadable()
    ensures PrintText(DAYS, FAR).Some? && ReadExpression(PrintText(DAYS, FAR).value) == None
  {
    DayResolves();
    FarDatePrints();
    ComparisonPrints(DAYS, Column(NoRelation, "day"), ResolvedColumn(["day"], Date32), Lt,
                     Literal(Date32Scalar(LAST_DAY + 1)));
    ReadsBackExactly(DAYS, FAR);
  }

  const AMOUNTS: Schema := [Field("amount", Decimal128(38, 0), [])]
  const LARGE_LITERAL := Literal(Decimal128Scalar(1_000_000_000_000_000_000_000_000_000_000, 38, 0))
  const LARGE := Expr.Binary(Column(NoRelation, "amount"), Comparing(Eq), LARGE_LITERAL)

  lemma AmountResolves()
    ensures ResolveColumn(AMOUNTS, Column(NoRelation, "amount")) == Some(ResolvedColumn(["amount"], Decimal128(38, 0)))
  {
    assert FieldNamed(AMOUNTS, "amount") == Some(AMOUNTS[0]);
    assert !UnsupportedLogicalType([]);
  }

  lemma LargeDecimalPrints()
    ensures LiteralFor(LARGE_LITERAL, Decimal128(38, 0)).Some? && !InServerRange(LARGE_LITERAL)
  {
    Powers();
  }

  /** A comparison of a decimal column without fraction digits with 10^30 is reported as exactly supported and
   cannot be read. */
  lemma LargeDecimalIsSentUnreadable()
    ensures PrintText(AMOUNTS, LARGE).Some? && ReadExpression(PrintText(AMOUNTS, LARGE).value) == None
  {
    AmountResolves();
    LargeDecimalPrints();
    ComparisonPrints(AMOUNTS, Column(NoRelation, "amount"), ResolvedColumn(["amount"], Decimal128(38, 0)), Eq,
                     LARGE_LITERAL);
    ReadsBackExactly(AMOUNTS, LARGE);
  }

  // ---------------------------------------------------------------------------------------------------
  // Meaning
  // ---------------------------------------------------------------------------------------------------

  /** The cell a scalar operand denotes, or None for an operand this model does not interpret. */
  ghost function Operand(schema: Schema, cells: seq<Cell>, e: Expr): Option<Option<Value>> {
    match e
    case Column(relation, name) => ColumnValue(schema, cells, relation, name)
    case Literal(NullScalar) => Some(None)
    case Literal(scalar) => if ScalarValue(scalar).None? then None else Some(ScalarValue(scalar))
    case _ => None
  }

  /** What operands denote on one row. */
  type Denotation = Expr -> Option<Option<Value>>

  ghost function OnRow(schema: Schema, cells: seq<Cell>): Denotation {
    (e: Expr) => Operand(schema, cells, e)
  }

  function Operands(operand: Denotation, list: seq<Expr>): Option<seq<Option<Value>>> {
    if list == [] then Some([])
    else
      var first, rest := operand(list[0]), Operands(operand, list[1..]);
      if first.None? || rest.None? then None else Some([first.value] + rest.value)
  }

  /**
   The query's own three-valued meaning of a filter on a row. Whatever this model does not interpret is
   given by `other`, about which nothing is assumed.
   */
  function Meaning(operand: Denotation, e: Expr, other: Expr -> Truth): Truth {
    match e
    case Binary(left, And, right) => And3(Meaning(operand, left, other), Meaning(operand, right, other))
    case Binary(left, Or, right) => Or3(Meaning(operand, left, other), Meaning(operand, right, other))
    case Not(child) => Not3(Meaning(operand, child, other))
    case Binary(left, Comparing(op), right) =>
      var l, r := operand(left), operand(right);
      if l.None? || r.None? then other(e) else Compare(op, l.value, r.value)
    case IsNull(child) =>
      var c := operand(child);
      if c.None? then other(e) else Of(c.value.None?)
    case IsNotNull(child) =>
      var c := operand(child);
      if c.None? then other(e) else Of(c.value.Some?)
    case InList(child, list, negated) =>
      var c, items := operand(child), Operands(operand, list);
      if c.None? || items.None? || list == [] then other(e)
      else Negated(negated, Among(c.value, items.value))
    case Between(child, negated, low, high) =>
      var c, l, h := operand(child), operand(low), operand(high);
      if c.None? || l.None? || h.None? then other(e)
      else Negated(negated, Within(c.value, l.value, h.value))
    case _ => other(e)
  }

  lemma ReverseFlips(op: Comparison, a: Option<Value>, b: Option<Value>)
    ensures Compare(op, a, b) == Compare(Reverse(op), b, a)
  {
  }

  lemma TranslatedColumn(schema: Schema, cells: seq<Cell>, e: Expr)
    requires ResolveColumn(schema, e).Some? && Conforms(schema, cells)
    ensures OnRow(schema, cells)(e) == Some(CellAt(Named(schema, cells), PathOr(schema, e)))
  {
    ResolvedColumnIsDenoted(schema, cells, e.relation, e.name);
  }

  lemma LiteralOperand(schema: Schema, cells: seq<Cell>, e: Expr, dataType: DataType)
    requires LiteralFor(e, dataType).Some?
    ensures ValueOf(e).Some? && OnRow(schema, cells)(e) == Some(Some(ValueOr(e)))
  {
    TranslatedLiteral(e, dataType);
  }

  lemma {:induction false} TranslatedList(schema: Schema, cells: seq<Cell>, list: seq<Expr>, dataType: DataType)
    requires LiteralTexts(list, dataType).Some?
    ensures Operands(OnRow(schema, cells), list) == Some(Known(Values(list)))
    decreases |list|
  {
    if list != [] {
      LiteralOperand(schema, cells, list[0], dataType);
      TranslatedList(schema, cells, list[1..], dataType);
      ValuesStep(list);
      AfterHead(ValueOr(list[0]), Values(list[1..]));
    }
  }

  lemma ComparisonMeans(
    schema: Schema, row: Row, operand: Denotation, left: Expr, op: Comparison, right: Expr, other: Expr -> Truth)
    requires operand(left).Some? && operand(right).Some?
    requires if ResolveColumn(schema, left).Some? then
               operand(left).value == CellAt(row, PathOr(schema, left)) && operand(right).value == Some(ValueOr(right))
             else
               operand(right).value == CellAt(row, PathOr(schema, right)) && operand(left).value == Some(ValueOr(left))
    ensures var e := Expr.Binary(left, Comparing(op), right);
            Evaluate(row, Tree(schema, e)) == Meaning(operand, e, other)
  {
    ReverseFlips(op, operand(left).value, operand(right).value);
  }

  lemma ComparisonPreservesMeaning(
    schema: Schema, cells: seq<Cell>, left: Expr, op: Comparison, right: Expr, other: Expr -> Truth)
    requires TranslateComparison(schema, left, op, right).Some? && Conforms(schema, cells)
    ensures var e := Expr.Binary(left, Comparing(op), right);
            Evaluate(Named(schema, cells), Tree(schema, e)) == Meaning(OnRow(schema, cells), e, other)
  {
    if ResolveColumn(schema, left).Some? {
      TranslatedColumn(schema, cells, left);
      LiteralOperand(schema, cells, right, ResolveColumn(schema, left).value.dataType);
    } else {
      TranslatedColumn(schema, cells, right);
      LiteralOperand(schema, cells, left, ResolveColumn(schema, right).value.dataType);
    }
    ComparisonMeans(schema, Named(schema, cells), OnRow(schema, cells), left, op, right, other);
  }

  lemma InListMeans(
    schema: Schema, row: Row, operand: Denotation, child: Expr, list: seq<Expr>, negated: bool,
    other: Expr -> Truth)
    requires operand(child) == Some(CellAt(row, PathOr(schema, child)))
    requires list != [] && Operands(operand, list) == Some(Known(Values(list)))
    ensures Evaluate(row, Tree(schema, InList(child, list, negated))) ==
            Meaning(operand, InList(child, list, negated), other)
  {
  }

  lemma InListPreservesMeaning(
    schema: Schema, cells: seq<Cell>, child: Expr, list: seq<Expr>, negated: bool, other: Expr -> Truth)
    requires TranslateLeaf(schema, InList(child, list, negated)).Some? && Conforms(schema, cells)
    ensures Evaluate(Named(schema, cells), Tree(schema, InList(child, list, negated))) ==
            Meaning(OnRow(schema, cells), InList(child, list, negated), other)
  {
    InListNeeds(schema, child, list, negated);
    TranslatedColumn(schema, cells, child);
    TranslatedList(schema, cells, list, ResolveColumn(schema, child).value.dataType);
    InListMeans(schema, Named(schema, cells), OnRow(schema, cells), child, list, negated, other);
  }

  lemma BetweenMeans(
    schema: Schema, row: Row, operand: Denotation, child: Expr, negated: bool, low: Expr, high: Expr,
    other: Expr -> Truth)
    requires operand(child) == Some(CellAt(row, PathOr(schema, child)))
    requires operand(low) == Some(Some(ValueOr(low))) && operand(high) == Some(Some(ValueOr(high)))
    ensures Evaluate(row, Tree(schema, Between(child, negated, low, high))) ==
            Meaning(operand, Between(child, negated, low, high), other)
  {
  }

  lemma BetweenPreservesMeaning(
    schema: Schema, cells: seq<Cell>, child: Expr, negated: bool, low: Expr, high: Expr, other: Expr -> Truth)
    requires TranslateLeaf(schema, Between(child, negated, low, high)).Some? && Conforms(schema, cells)
    ensures Evaluate(Named(schema, cells), Tree(schema, Between(child, negated, low, high))) ==
            Meaning(OnRow(schema, cells), Between(child, negated, low, high), other)
  {
    BetweenNeeds(schema, child, negated, low, high);
    TranslatedColumn(schema, cells, child);
    LiteralOperand(schema, cells, low, ResolveColumn(schema, child).value.dataType);
    LiteralOperand(schema, cells, high, ResolveColumn(schema, child).value.dataType);
    BetweenMeans(schema, Named(schema, cells), OnRow(schema, cells), child, negated, low, high, other);
  }

  lemma NullTestMeans(schema: Schema, row: Row, operand: Denotation, child: Expr, other: Expr -> Truth)
    requires operand(child) == Some(CellAt(row, PathOr(schema, child)))
    ensures Evaluate(row, Tree(schema, IsNull(child))) == Meaning(operand, IsNull(child), other)
    ensures Evaluate(row, Tree(schema, IsNotNull(child))) == Meaning(operand, IsNotNull(child), other)
  {
  }

  lemma NullTestPreservesMeaning(schema: Schema, cells: seq<Cell>, child: Expr, other: Expr -> Truth)
    requires ResolveColumn(schema, child).Some? && Conforms(schema, cells)
    ensures Evaluate(Named(schema, cells), Tree(schema, IsNull(child))) ==
            Meaning(OnRow(schema, cells), IsNull(child), other)
    ensures Evaluate(Named(schema, cells), Tree(schema, IsNotNull(child))) ==
            Meaning(OnRow(schema, cells), IsNotNull(child), other)
  {
    TranslatedColumn(schema, cells, child);
    NullTestMeans(schema, Named(schema, cells), OnRow(schema, cells), child, other);
  }

  lemma LeafPreservesMeaning(schema: Schema, cells: seq<Cell>, e: Expr, other: Expr -> Truth)
    requires !IsConnective(e) && !e.Not? && TranslateLeaf(schema, e).Some? && Conforms(schema, cells)
    ensures Evaluate(Named(schema, cells), Tree(schema, e)) == Meaning(OnRow(schema, cells), e, other)
  {
    match e {
      case Binary(left, operator, right) =>
        ComparisonPreservesMeaning(schema, cells, left, operator.op, right, other);
      case IsNull(child) => NullTestPreservesMeaning(schema, cells, child, other);
      case IsNotNull(child) => NullTestPreservesMeaning(schema, cells, child, other);
      case InList(child, list, negated) => InListPreservesMeaning(schema, cells, child, list, negated, other);
      case Between(child, negated, low, high) =>
        BetweenPreservesMeaning(schema, cells, child, negated, low, high, other);
      case _ =>
    }
  }

  lemma {:induction false} TreePreservesMeaning(schema: Schema, cells: seq<Cell>, e: Expr, other: Expr -> Truth)
    requires PrintText(schema, e).Some? && Conforms(schema, cells)
    ensures Evaluate(Named(schema, cells), Tree(schema, e)) == Meaning(OnRow(schema, cells), e, other)
  {
    if IsConnective(e) {
      TreePreservesMeaning(schema, cells, e.left, other);
      TreePreservesMeaning(schema, cells, e.right, other);
    } else if e.Not? {
      TreePreservesMeaning(schema, cells, e.child, other);
    } else {
      LeafPreservesMeaning(schema, cells, e, other);
    }
  }

  /**
   Pushdown preserves meaning: whenever a filter is translated, reading the text as GoogleSQL and
   evaluating it on the server's copy of any row gives the filter's own truth value on that row.
   */
  lemma PushdownPreservesMeaning(schema: Schema, e: Expr, cells: seq<Cell>, other: Expr -> Truth)
    requires PrintText(schema, e).Some? && ServerReadable(e) && Conforms(schema, cells)
    ensures ReadExpression(PrintText(schema, e).value).Some?
    ensures Evaluate(Named(schema, cells), ReadExpression(PrintText(schema, e).value).value) ==
            Meaning(OnRow(schema, cells), e, other)
  {
    TextReadsBack(schema, e, "");
    TreePreservesMeaning(schema, cells, e, other);
  }
}

/** Composition of translated filters and the explicit restriction into one row restriction (pushdown.rs). */
module Restriction {
  import opened Wrappers
  import opened Text
  import opened GoogleSql
  import opened SqlSyntax
  import opened SqlReading
  import opened Pushdown
  import opened Columns
  import opened Translation
  import opened Conjunctions

  predicate IsExact(schema: Schema, e: Expr) { PrintText(schema, e).Some? }

  /** The filters that can be translated, in order. */
  function Translatable(schema: Schema, filters: seq<Expr>): seq<Expr> {
    if filters == [] then []
    else (if IsExact(schema, filters[0]) then [filters[0]] else []) + Translatable(schema, filters[1..])
  }

  function Wrapped(text: string): string { "(" + (text + ")") }

  function Parenthesised(schema: Schema, filters: seq<Expr>): seq<string> {
    if filters == [] then []
    else
      (if IsExact(schema, filters[0]) then [Wrapped(PrintText(schema, filters[0]).value)] else [])
      + Parenthesised(schema, filters[1..])
  }

  /** An empty explicit restriction counts as absent. */
  predicate Given(explicit: Option<string>) { explicit.Some? && explicit.value != "" }

  function ExplicitClause(explicit: Option<string>): seq<string> {
    if Given(explicit) then [Wrapped(explicit.value)] else []
  }

  function RowRestriction(schema: Schema, filters: seq<Expr>, explicit: Option<string>): Option<string> {
    var restrictions := Parenthesised(schema, filters) + ExplicitClause(explicit);
    if restrictions == [] then None else Some(Join(restrictions, " AND "))
  }

  // ---------------------------------------------------------------------------------------------------
  // What an explicit restriction reads as
  // ---------------------------------------------------------------------------------------------------

  /** The parenthesised explicit text is an expression. */
  predicate Acceptable(explicit: Option<string>) {
    Given(explicit) ==> ReadExpression(Wrapped(explicit.value)).Some?
  }

  /** What the parenthesised explicit text requires first. */
  function ExplicitConjuncts(explicit: Option<string>): seq<SqlExpr> {
    if Given(explicit) && Lex(Wrapped(explicit.value)).Some? then Conjuncts(Tokens(Wrapped(explicit.value))) else []
  }

  /** What the explicit text offers instead, once it has closed its parenthesis and gone on with OR. */
  function ExplicitAlternatives(explicit: Option<string>): seq<SqlExpr> {
    if Given(explicit) && Lex(Wrapped(explicit.value)).Some? then Alternatives(Tokens(Wrapped(explicit.value)))
    else []
  }

  /** Reading the parenthesised text as a conjunction leaves nothing over. */
  predicate Conjoined(explicit: Option<string>) {
    Given(explicit) ==>
      && Lex(Wrapped(explicit.value)).Some?
      && var first := ParseAnd(Tokens(Wrapped(explicit.value)));
         first.Some? && first.value.1 == []
  }

  lemma WholeText(text: string)
    ensures ReadExpression(text).Some? <==> Lex(text).Some? && Whole(Tokens(text))
    ensures ReadExpression(text).Some? ==> ReadExpression(text).value == ParseOr(Tokens(text)).value.0
  {
  }

  lemma NothingOver(ts: seq<Token>)
    requires ParseAnd(ts).Some?
    ensures ParseAnd(ts).value.1 == [] ==> Whole(ts) && Alternatives(ts) == []
    ensures Whole(ts) && Alternatives(ts) == [] ==> ParseAnd(ts).value.1 == []
  {
    var (left, rest) := ParseAnd(ts).value;
    if !Is(rest, "OR") {
      assert OrTail(left, rest) == Some((left, rest));
    } else if ParseAnd(rest[1..]).Some? {
      var first := ParseAnd(rest[1..]).value;
      assert LaterAlternatives(rest) == [first.0] + LaterAlternatives(first.1);
    } else {
      assert OrTail(left, rest) == None;
    }
  }

  /** An explicit text is conjoined exactly when its parenthesised form reads without alternatives. */
  lemma ConjoinedExactly(explicit: Option<string>)
    ensures Conjoined(explicit) <==> Acceptable(explicit) && ExplicitAlternatives(explicit) == []
  {
    if Given(explicit) && Lex(Wrapped(explicit.value)).Some? {
      WholeText(Wrapped(explicit.value));
      if ParseAnd(Tokens(Wrapped(explicit.value))).Some? {
        NothingOver(Tokens(Wrapped(explicit.value)));
      }
    }
  }

  /** An explicit restriction that is itself an expression, or none. */
  predicate Readable(explicit: Option<string>) { Given(explicit) ==> ReadExpression(explicit.value).Some? }

  /** The explicit text ends inside a line comment, which the closing parenthesis then falls into. */
  predicate LeftOpen(explicit: Option<string>) { explicit.Some? && EndsInComment(explicit.value) }

  /** The expression an explicit restriction stands for, if there is one. */
  function ExplicitTrees(explicit: Option<string>): seq<SqlExpr> {
    if Given(explicit) && ReadExpression(explicit.value).Some? then [ReadExpression(explicit.value).value] else []
  }

  lemma UnclosedParses(ts: seq<Token>, tree: SqlExpr)
    requires ParseOr(ts) == Some((tree, []))
    ensures ParseNot([OpenParen] + ts) == None
  {
    AfterHead(OpenParen, ts);
  }

  lemma OpenCommentBreaks(explicit: string, tree: SqlExpr)
    requires ReadExpression(explicit) == Some(tree) && EndsInComment(explicit)
    ensures ReadExpression(Wrapped(explicit)) == None
  {
    CloseAlone();
    OpenCommentSwallows(explicit, ")");
    OpenReads(explicit + ")");
    UnclosedParses(Tokens(explicit), tree);
    assert ParseAnd([OpenParen] + Tokens(explicit)) == None;
  }

  lemma OwnExpressionReads(explicit: string, tree: SqlExpr)
    requires ReadsExpression(explicit, tree)
    ensures ReadExpression(Wrapped(explicit)) == Some(tree)
    ensures Conjuncts(Tokens(Wrapped(explicit))) == [tree] && Alternatives(Tokens(Wrapped(explicit))) == []
  {
    ParenthesesRead(explicit, tree);
    PrimaryIsExpression(Wrapped(explicit), tree);
    PrimaryParts(Tokens(Wrapped(explicit)), tree);
  }

  /**
   An explicit text that is an expression by itself is one in parentheses exactly when it does not end
   inside a line comment, which would hide the closing parenthesis; and then it is conjoined as it is.
   */
  lemma OwnExpressionIsConjoined(explicit: Option<string>)
    requires Readable(explicit)
    ensures Acceptable(explicit) <==> !LeftOpen(explicit)
    ensures Acceptable(explicit) ==>
              && Conjoined(explicit)
              && ExplicitConjuncts(explicit) == ExplicitTrees(explicit)
              && ExplicitAlternatives(explicit) == []
  {
    if Given(explicit) {
      var tree := ReadExpression(explicit.value).value;
      if LeftOpen(explicit) {
        OpenCommentBreaks(explicit.value, tree);
      } else {
        ReadsExactly(explicit.value, tree);
        OwnExpressionReads(explicit.value, tree);
      }
    }
    ConjoinedExactly(explicit);
  }

  // ---------------------------------------------------------------------------------------------------
  // What the whole restriction reads as
  // ---------------------------------------------------------------------------------------------------

  function Trees(schema: Schema, exact: seq<Expr>): seq<SqlExpr> {
    if exact == [] then [] else [Tree(schema, exact[0])] + Trees(schema, exact[1..])
  }

  /** The server has every literal of the filters that are sent. */
  predicate AllReadable(schema: Schema, filters: seq<Expr>) {
    forall i :: 0 <= i < |filters| && IsExact(schema, filters[i]) ==> ServerReadable(filters[i])
  }

  /** What each translatable filter reads as; nothing for one with a literal the server does not have. */
  function Readings(schema: Schema, filters: seq<Expr>): seq<Option<SqlExpr>> {
    if filters == [] then []
    else
      (if IsExact(schema, filters[0]) then
         [if ServerReadable(filters[0]) then Some(Tree(schema, filters[0])) else None]
       else [])
      + Readings(schema, filters[1..])
  }

  lemma WrappedReadsAsFar(schema: Schema, e: Expr)
    requires IsExact(schema, e)
    ensures var text := Wrapped(PrintText(schema, e).value);
            if ServerReadable(e) then ReadsPrimary(text, Tree(schema, e)) else NeverPrimary(text)
  {
    var text := PrintText(schema, e).value;
    if ServerReadable(e) {
      PrintReads(schema, e);
      PrimaryIsExpression(text, Tree(schema, e));
      ParenthesesRead(text, Tree(schema, e));
    } else {
      PrintNeverReads(schema, e);
      NeverPrimaryIsNoExpression(text);
      ParenthesesNeverRead(text);
    }
  }

  lemma ReadAsFarGrows(text: string, tree: Option<SqlExpr>, texts: seq<string>, trees: seq<Option<SqlExpr>>)
    requires ReadAsFar(texts, trees)
    requires if tree.Some? then ReadsPrimary(text, tree.value) else NeverPrimary(text)
    ensures ReadAsFar([text] + texts, [tree] + trees)
  {
  }

  lemma {:induction false} FiltersReadAsFar(schema: Schema, filters: seq<Expr>)
    ensures ReadAsFar(Parenthesised(schema, filters), Readings(schema, filters))
  {
    if filters != [] {
      FiltersReadAsFar(schema, filters[1..]);
      var texts, trees := Parenthesised(schema, filters[1..]), Readings(schema, filters[1..]);
      if IsExact(schema, filters[0]) {
        var tree := if ServerReadable(filters[0]) then Some(Tree(schema, filters[0])) else None;
        WrappedReadsAsFar(schema, filters[0]);
        ReadAsFarGrows(Wrapped(PrintText(schema, filters[0]).value), tree, texts, trees);
      } else {
        ConcatEmpty(texts);
        ConcatEmpty(trees);
      }
    }
  }

  lemma {:induction false} ReadingsAreTrees(schema: Schema, filters: seq<Expr>)
    ensures AllReadable(schema, filters) <==> AllSome(Readings(schema, filters))
    ensures AllReadable(schema, filters) ==>
              TreesOf(Readings(schema, filters)) == Trees(schema, Translatable(schema, filters))
    ensures |Readings(schema, filters)| == |Translatable(schema, filters)|
  {
    if filters != [] {
      ReadingsAreTrees(schema, filters[1..]);
      AllReadableStep(schema, filters);
      var trees, exact := Readings(schema, filters[1..]), Translatable(schema, filters[1..]);
      if IsExact(schema, filters[0]) {
        AllSomeStep(if ServerReadable(filters[0]) then Some(Tree(schema, filters[0])) else None, trees);
        AfterHead(filters[0], exact);
        if AllReadable(schema, filters) {
          TreesOfStep(Tree(schema, filters[0]), trees);
        }
      } else {
        ConcatEmpty(trees);
        ConcatEmpty(exact);
      }
    }
  }

  lemma AllReadableStep(schema: Schema, filters: seq<Expr>)
    requires filters != []
    ensures AllReadable(schema, filters) <==>
              (IsExact(schema, filters[0]) ==> ServerReadable(filters[0])) && AllReadable(schema, filters[1..])
  {
    if AllReadable(schema, filters[1..]) {
      forall i | 0 < i < |filters| && IsExact(schema, filters[i]) ensures ServerReadable(filters[i]) {
        assert filters[1..][i - 1] == filters[i];
      }
    }
  }

  lemma AllSomeButLast(trees: seq<Option<SqlExpr>>)
    requires trees != []
    ensures var k := |trees| - 1;
            && (AllSome(trees) <==> AllSome(trees[..k]) && trees[k].Some?)
            && (AllSome(trees) ==> TreesOf(trees) == TreesOf(trees[..k]) + [trees[k].value])
  {
    var k := |trees| - 1;
    if AllSome(trees[..k]) && trees[k].Some? {
      forall i | 0 <= i < |trees| ensures trees[i].Some? {
        assert i < k ==> trees[..k][i] == trees[i];
      }
    }
  }

  lemma ReadAsFarButLast(texts: seq<string>, trees: seq<Option<SqlExpr>>)
    requires texts != [] && ReadAsFar(texts, trees)
    ensures ReadAsFar(texts[..|texts| - 1], trees[..|texts| - 1])
  {
    var k := |texts| - 1;
    forall i | 0 <= i < k
      ensures if trees[..k][i].Some? then ReadsPrimary(texts[..k][i], trees[..k][i].value)
              else NeverPrimary(texts[..k][i])
    {
      assert trees[..k][i] == trees[i] && texts[..k][i] == texts[i];
    }
  }

  /** Filters alone: each of them is a conjunct, and there are no alternatives. */
  lemma FiltersAlone(texts: seq<string>, trees: seq<Option<SqlExpr>>)
    requires texts != [] && ReadAsFar(texts, trees)
    ensures Lex(Join(texts, " AND ")).Some?
    ensures var ts := Tokens(Join(texts, " AND "));
            && (Whole(ts) <==> AllSome(trees))
            && (AllSome(trees) ==> Conjuncts(ts) == TreesOf(trees) && Alternatives(ts) == [])
  {
    var k := |texts| - 1;
    PopLast(texts);
    ReadAsFarButLast(texts, trees);
    AllSomeButLast(trees);
    JoinedReads(texts[..k], trees[..k], texts[k]);
    if trees[k].Some? {
      PrimaryParts(Tokens(texts[k]), trees[k].value);
    } else {
      NeverPrimaryIsNotWhole(Tokens(texts[k]));
    }
  }

  /** Filters and an explicit clause: the clause goes on where the filters end. */
  lemma FiltersAndClause(texts: seq<string>, trees: seq<Option<SqlExpr>>, clause: string)
    requires ReadAsFar(texts, trees)
    ensures Lex(Join(texts + [clause], " AND ")).Some? <==> Lex(clause).Some?
    ensures Lex(clause).Some? ==> Continues(Join(texts + [clause], " AND "), trees, clause)
  {
    JoinedLexes(texts, trees, clause);
    if Lex(clause).Some? {
      JoinedReads(texts, trees, clause);
    }
  }

  /** The restriction's tokens, whatever the explicit text is. */
  lemma RestrictionTokens(schema: Schema, filters: seq<Expr>, explicit: Option<string>)
    requires RowRestriction(schema, filters, explicit).Some?
    ensures var text := RowRestriction(schema, filters, explicit).value;
            var sent := Trees(schema, Translatable(schema, filters));
            && (ReadExpression(text).Some? <==> AllReadable(schema, filters) && Acceptable(explicit))
            && (ReadExpression(text).Some? ==>
                  && Lex(text).Some? && Whole(Tokens(text))
                  && Conjuncts(Tokens(text)) == sent + ExplicitConjuncts(explicit)
                  && Alternatives(Tokens(text)) == ExplicitAlternatives(explicit))
  {
    var texts, trees := Parenthesised(schema, filters), Readings(schema, filters);
    var text := RowRestriction(schema, filters, explicit).value;
    FiltersReadAsFar(schema, filters);
    ReadingsAreTrees(schema, filters);
    WholeText(text);
    if Given(explicit) {
      WholeText(Wrapped(explicit.value));
      FiltersAndClause(texts, trees, Wrapped(explicit.value));
    } else {
      ConcatEmpty(texts);
      ConcatEmpty(Trees(schema, Translatable(schema, filters)));
      FiltersAlone(texts, trees);
    }
  }

  /**
   A restriction reads back exactly when the server has the literals sent and the explicit text, in the
   parentheses it is put in, is an expression.
   */
  lemma RestrictionReadsExactly(schema: Schema, filters: seq<Expr>, explicit: Option<string>)
    requires RowRestriction(schema, filters, explicit).Some?
    ensures ReadExpression(RowRestriction(schema, filters, explicit).value).Some? <==>
              AllReadable(schema, filters) && Acceptable(explicit)
  {
    RestrictionTokens(schema, filters, explicit);
  }

  lemma NothingToSend(schema: Schema, filters: seq<Expr>, explicit: Option<string>)
    ensures RowRestriction(schema, filters, explicit).None? <==>
              Translatable(schema, filters) == [] && !Given(explicit)
  {
    FiltersReadAsFar(schema, filters);
    ReadingsAreTrees(schema, filters);
  }

  /**
   What a restriction reads as: the filters and what the explicit text requires first, all of them, or one
   of the alternatives the explicit text offers.
   */
  lemma RestrictionReads(schema: Schema, filters: seq<Expr>, explicit: Option<string>)
    requires RowRestriction(schema, filters, explicit).Some?
    requires AllReadable(schema, filters) && Acceptable(explicit)
    ensures var conjuncts := Trees(schema, Translatable(schema, filters)) + ExplicitConjuncts(explicit);
            && conjuncts != []
            && ReadExpression(RowRestriction(schema, filters, explicit).value) ==
               Some(Assembled(conjuncts, ExplicitAlternatives(explicit)))
  {
    var text := RowRestriction(schema, filters, explicit).value;
    RestrictionTokens(schema, filters, explicit);
    WholeText(text);
    PartsParse(Tokens(text));
  }

  function RestrictionTrees(schema: Schema, filters: seq<Expr>, explicit: Option<string>): seq<SqlExpr> {
    Trees(schema, Translatable(schema, filters)) + ExplicitTrees(explicit)
  }

  /**
   With an explicit text that is an expression by itself, the restriction reads back as the conjunction of
   the translatable filters and that expression. There is no restriction exactly when there is nothing to
   read.
   */
  lemma FiltersReadBack(schema: Schema, filters: seq<Expr>, explicit: Option<string>)
    requires AllReadable(schema, filters) && Readable(explicit) && !LeftOpen(explicit)
    ensures RowRestriction(schema, filters, explicit).None? <==> RestrictionTrees(schema, filters, explicit) == []
    ensures RowRestriction(schema, filters, explicit).Some? ==>
              ReadExpression(RowRestriction(schema, filters, explicit).value) ==
              Some(Conjunction(RestrictionTrees(schema, filters, explicit)))
  {
    NothingToSend(schema, filters, explicit);
    OwnExpressionIsConjoined(explicit);
    if RowRestriction(schema, filters, explicit).Some? {
      RestrictionReads(schema, filters, explicit);
    }
  }

  /** With a filter sent, the restriction has AND on top exactly when the explicit text is conjoined. */
  lemma ConjoinedIsOnTop(schema: Schema, filters: seq<Expr>, explicit: Option<string>)
    requires RowRestriction(schema, filters, explicit).Some? && Given(explicit)
    requires AllReadable(schema, filters) && Acceptable(explicit) && Translatable(schema, filters) != []
    ensures var tree := ReadExpression(RowRestriction(schema, filters, explicit).value);
            tree.Some? && if Conjoined(explicit) then tree.value.AndExpr? else tree.value.OrExpr?
  {
    var conjuncts := Trees(schema, Translatable(schema, filters)) + ExplicitConjuncts(explicit);
    RestrictionReads(schema, filters, explicit);
    ConjoinedExactly(explicit);
    if Conjoined(explicit) {
      assert |conjuncts| > 1;
      ConjunctsComeOnTop(conjuncts[0], conjuncts[1..]);
    } else {
      AlternativesComeOnTop(Conjunction(conjuncts), ExplicitAlternatives(explicit));
    }
  }

  /** An explicit restriction is parenthesised and joined by AND; an empty one counts as absent. */
  lemma ExplicitIsConjoined(schema: Schema, filters: seq<Expr>, explicit: string)
    ensures RowRestriction(schema, filters, Some(explicit)) ==
            var own := RowRestriction(schema, filters, None);
            if explicit == "" then own
            else Some((if own.None? then "" else own.value + " AND ") + Wrapped(explicit))
  {
    ConcatEmpty(Parenthesised(schema, filters));
    if explicit != "" {
      JoinAppend(Parenthesised(schema, filters), Wrapped(explicit), " AND ");
      ConcatEmpty([Wrapped(explicit)]);
      ConcatEmpty(Wrapped(explicit));
    }
  }

  lemma {:induction false} JoinAppend(parts: seq<string>, last: string, separator: string)
    ensures Join(parts + [last], separator) ==
            if parts == [] then last else (Join(parts, separator) + separator) + last
    decreases |parts|
  {
    var all := parts + [last];
    if parts == [] {
      assert all == [last];
    } else {
      assert all[1..] == parts[1..] + [last];
      JoinAppend(parts[1..], last, separator);
      if |parts| > 1 {
        ConcatAssociates(parts[0] + separator, Join(parts[1..], separator) + separator, last);
        ConcatAssociates(parts[0] + separator, Join(parts[1..], separator), separator);
      }
    }
  }

  // ---------------------------------------------------------------------------------------------------
  // What the restriction keeps
  // ---------------------------------------------------------------------------------------------------

  function MeaningOfAll(operand: Denotation, filters: seq<Expr>, other: Expr -> Truth): Truth {
    if filters == [] then Yes
    else And3(Meaning(operand, filters[0], other), MeaningOfAll(operand, filters[1..], other))
  }

  lemma {:induction false} TreesMean(schema: Schema, cells: seq<Cell>, filters: seq<Expr>, other: Expr -> Truth)
    requires Conforms(schema, cells)
    ensures EvaluateAll(Named(schema, cells), Trees(schema, Translatable(schema, filters))) ==
            MeaningOfAll(OnRow(schema, cells), Translatable(schema, filters), other)
    decreases |filters|
  {
    if filters != [] {
      var rest := Translatable(schema, filters[1..]);
      TreesMean(schema, cells, filters[1..], other);
      if IsExact(schema, filters[0]) {
        TreePreservesMeaning(schema, cells, filters[0], other);
        AfterHead(filters[0], rest);
        AfterHead(Tree(schema, filters[0]), Trees(schema, rest));
      } else {
        ConcatEmpty(rest);
      }
    }
  }

  predicate AllExact(schema: Schema, filters: seq<Expr>) {
    forall i :: 0 <= i < |filters| ==> IsExact(schema, filters[i])
  }

  lemma {:induction false} TranslatableIsImplied(
    schema: Schema, operand: Denotation, filters: seq<Expr>, other: Expr -> Truth)
    ensures MeaningOfAll(operand, filters, other) == Yes ==>
              MeaningOfAll(operand, Translatable(schema, filters), other) == Yes
    ensures AllExact(schema, filters) ==> Translatable(schema, filters) == filters
    decreases |filters|
  {
    if filters != [] {
      TranslatableIsImplied(schema, operand, filters[1..], other);
      HeadAndTail(filters);
      var rest := Translatable(schema, filters[1..]);
      if IsExact(schema, filters[0]) {
        AfterHead(filters[0], rest);
      } else {
        ConcatEmpty(rest);
      }
    }
  }

  /** What the explicit text says of a row in the parentheses it is put in; nothing when there is none. */
  function ExplicitMeaning(row: Row, explicit: Option<string>): Truth
    requires Acceptable(explicit)
  {
    if Given(explicit) then Evaluate(row, ReadExpression(Wrapped(explicit.value)).value) else Yes
  }

  lemma ExplicitMeans(row: Row, explicit: Option<string>)
    requires Acceptable(explicit)
    ensures ExplicitMeaning(row, explicit) ==
            Or3(EvaluateAll(row, ExplicitConjuncts(explicit)), EvaluateAny(row, ExplicitAlternatives(explicit)))
  {
    if Given(explicit) {
      WholeText(Wrapped(explicit.value));
      PartsParse(Tokens(Wrapped(explicit.value)));
      AssembledMeans(row, ExplicitConjuncts(explicit), ExplicitAlternatives(explicit));
    }
  }

  /** An expression by itself means in parentheses what it means alone. */
  lemma OwnExpressionMeans(row: Row, explicit: Option<string>)
    requires Readable(explicit) && !LeftOpen(explicit) && Given(explicit)
    ensures Acceptable(explicit)
    ensures ExplicitMeaning(row, explicit) == Evaluate(row, ReadExpression(explicit.value).value)
  {
    ReadsExactly(explicit.value, ReadExpression(explicit.value).value);
    OwnExpressionReads(explicit.value, ReadExpression(explicit.value).value);
  }

  /** The restriction means its translatable filters and what the explicit text requires first, or one of the
   alternatives the explicit text offers. */
  lemma RestrictionEvaluates(
    schema: Schema, filters: seq<Expr>, explicit: Option<string>, cells: seq<Cell>, other: Expr -> Truth)
    requires AllReadable(schema, filters) && Acceptable(explicit) && Conforms(schema, cells)
    requires RowRestriction(schema, filters, explicit).Some?
    ensures var tree := ReadExpression(RowRestriction(schema, filters, explicit).value);
            var row := Named(schema, cells);
            && tree.Some?
            && Evaluate(row, tree.value) ==
               Or3(And3(MeaningOfAll(OnRow(schema, cells), Translatable(schema, filters), other),
                        EvaluateAll(row, ExplicitConjuncts(explicit))),
                   EvaluateAny(row, ExplicitAlternatives(explicit)))
  {
    var sent := Trees(schema, Translatable(schema, filters));
    RestrictionReads(schema, filters, explicit);
    AssembledMeans(Named(schema, cells), sent + ExplicitConjuncts(explicit), ExplicitAlternatives(explicit));
    EvaluateConcat(Named(schema, cells), sent, ExplicitConjuncts(explicit));
    TreesMean(schema, cells, filters, other);
  }

  /** What is kept, what the filters sent and all filters say, what the explicit text says and its alternatives. */
  ghost predicate Keeps(kept: Truth, wanted: Truth, explicitly: Truth, alternative: Truth, exact: bool, conjoined: bool)
  {
    && (wanted == Yes && explicitly == Yes ==> kept == Yes)
    && (explicitly != Yes ==> kept != Yes)
    && (exact ==> (kept == Yes <==> (wanted == Yes && explicitly == Yes) || alternative == Yes))
    && (exact && conjoined ==> kept == And3(wanted, explicitly))
  }

  lemma KeepsFollows(sent: Truth, wanted: Truth, first: Truth, alternative: Truth, exact: bool, conjoined: bool)
    requires wanted == Yes ==> sent == Yes
    requires exact ==> sent == wanted
    requires conjoined ==> alternative == No
    ensures Keeps(Or3(And3(sent, first), alternative), wanted, Or3(first, alternative), alternative, exact, conjoined)
  {
  }

  /**
   The restriction never drops a row that satisfies every filter and the explicit text, and never keeps one
   that the explicit text rejects. When every filter is reported as exactly supported, it keeps those rows
   and, besides them, exactly the rows that satisfy an alternative the explicit text offers; none when the
   explicit text is conjoined, as every expression by itself is.
   */
  lemma RestrictionKeepsMatches(
    schema: Schema, filters: seq<Expr>, explicit: Option<string>, cells: seq<Cell>, other: Expr -> Truth)
    requires AllReadable(schema, filters) && Acceptable(explicit) && Conforms(schema, cells)
    requires RowRestriction(schema, filters, explicit).Some?
    ensures ReadExpression(RowRestriction(schema, filters, explicit).value).Some?
    ensures Keeps(
              Evaluate(Named(schema, cells), ReadExpression(RowRestriction(schema, filters, explicit).value).value),
              MeaningOfAll(OnRow(schema, cells), filters, other),
              ExplicitMeaning(Named(schema, cells), explicit),
              EvaluateAny(Named(schema, cells), ExplicitAlternatives(explicit)),
              AllExact(schema, filters),
              Conjoined(explicit))
  {
    var row, operand := Named(schema, cells), OnRow(schema, cells);
    RestrictionEvaluates(schema, filters, explicit, cells, other);
    TranslatableIsImplied(schema, operand, filters, other);
    ExplicitMeans(row, explicit);
    ConjoinedExactly(explicit);
    KeepsFollows(MeaningOfAll(operand, Translatable(schema, filters), other), MeaningOfAll(operand, filters, other),
                 EvaluateAll(row, ExplicitConjuncts(explicit)), EvaluateAny(row, ExplicitAlternatives(explicit)),
                 AllExact(schema, filters), Conjoined(explicit));
  }

  // ---------------------------------------------------------------------------------------------------
  // Explicit texts that do not mean what they mean alone
  // ---------------------------------------------------------------------------------------------------

  const COMMENTED := "x" + (" IS NULL" + " #")

  /** An expression with a comment after it is readable alone and not in a restriction. */
  lemma CommentBreaksTheRestriction(schema: Schema, filters: seq<Expr>)
    ensures ReadExpression(COMMENTED) == Some(NullExpr(["x"], false))
    ensures ReadExpression(RowRestriction(schema, filters, Some(COMMENTED)).value) == None
  {
    CommentedReads();
    OwnExpressionIsConjoined(Some(COMMENTED));
    RestrictionReadsExactly(schema, filters, Some(COMMENTED));
  }

  lemma CommentReads()
    ensures Lex(" #") == Some(Lexed([], true)) && Boundary(" #")
  {
    SpaceReads("#");
    assert " " + "#" == " #";
  }

  lemma CommentedLexes()
    ensures Lex(COMMENTED) == Some(Lexed([Word("x")] + ([Word("IS")] + [Word("NULL")]), true))
  {
    CommentReads();
    NullTestWords();
    TwoWordsRead("IS", "NULL");
    LexExtends(" IS NULL", " #");
    ConcatEmpty([Word("IS")] + [Word("NULL")]);
    WordReads("x", " IS NULL" + " #");
  }

  lemma CommentedParses()
    ensures ParseOr([Word("x")] + ([Word("IS")] + [Word("NULL")])) == Some((NullExpr(["x"], false), []))
  {
    var test := [Word("IS")] + [Word("NULL")];
    NullTestParses(["x"]);
    AfterHead(Word("x"), test);
    assert UpperText("x") == "X";
    assert ParsePath([Word("x")] + test) == Some((["x"], test));
    PrimaryParses([Word("x")] + test, NullExpr(["x"], false));
  }

  lemma CommentedReads()
    ensures ReadExpression(COMMENTED) == Some(NullExpr(["x"], false)) && EndsInComment(COMMENTED)
  {
    CommentedLexes();
    CommentedParses();
  }

  /** The text `l) OR (r`. */
  function Escaping(l: string, r: string): string { l + (")" + (Spaced("OR") + ("(" + r))) }

  lemma EscapingWrapped(l: string, r: string)
    ensures Wrapped(Escaping(l, r)) == Wrapped(l) + (Spaced("OR") + Wrapped(r))
  {
    var middle := Spaced("OR") + ("(" + r);
    assert (l + (")" + middle)) + ")" == l + (")" + (middle + ")"));
    assert middle + ")" == Spaced("OR") + ("(" + (r + ")"));
    assert Wrapped(l) + (Spaced("OR") + Wrapped(r)) == "(" + (l + (")" + (Spaced("OR") + Wrapped(r))));
  }

  lemma DisjunctionParts(l: seq<Token>, a: SqlExpr, r: seq<Token>, b: SqlExpr)
    requires ParsePrimary(l) == Some((a, [])) && ParsePrimary(r) == Some((b, []))
    ensures var ts := l + ([Word("OR")] + r);
            Whole(ts) && Conjuncts(ts) == [a] && Alternatives(ts) == [b]
  {
    var more := [Word("OR")] + r;
    Keyword("OR");
    PrimaryParses(l, a);
    PrimaryParses(r, b);
    NotExtends(l, more);
    ConcatEmpty(more);
    AfterHead(Word("OR"), r);
    TailsParse(l + more, a, more);
    OrParses(l, r, a, b, Word("OR"));
    assert LaterConjuncts(more) == [] && LaterAlternatives([]) == [];
    ConcatEmpty([a]);
    ConcatEmpty([b]);
  }

  /** A text that closes its parenthesis and goes on with OR is accepted and not conjoined. */
  lemma EscapingParts(l: string, a: SqlExpr, r: string, b: SqlExpr)
    requires ReadsExpression(l, a) && ReadsExpression(r, b)
    ensures var explicit := Some(Escaping(l, r));
            && Given(explicit) && Acceptable(explicit) && !Conjoined(explicit)
            && ExplicitConjuncts(explicit) == [a] && ExplicitAlternatives(explicit) == [b]
  {
    ParenthesesRead(l, a);
    ParenthesesRead(r, b);
    EscapingWrapped(l, r);
    Keyword("OR");
    SpacedReads("OR", Wrapped(r));
    LexExtends(Wrapped(l), Spaced("OR") + Wrapped(r));
    DisjunctionParts(Tokens(Wrapped(l)), a, Tokens(Wrapped(r)), b);
    WholeText(Wrapped(Escaping(l, r)));
    ConjoinedExactly(Some(Escaping(l, r)));
  }

  lemma OneFilter(schema: Schema, e: Expr)
    requires IsExact(schema, e)
    ensures Translatable(schema, [e]) == [e] && Trees(schema, [e]) == [Tree(schema, e)]
    ensures AllReadable(schema, [e]) <==> ServerReadable(e)
  {
    assert [e][1..] == [];
    ConcatEmpty([e]);
    ConcatEmpty([Tree(schema, e)]);
  }

  lemma TwoConjuncts(a: SqlExpr, b: SqlExpr, c: SqlExpr)
    ensures Assembled([a] + [b], [c]) == OrExpr(AndExpr(a, b), c)
  {
    assert ([a] + [b])[0] == a && ([a] + [b])[1..] == [b] && [b][1..] == [] && [c][1..] == [];
    assert Conjoin(AndExpr(a, b), []) == AndExpr(a, b);
    assert Conjoin(a, [b]) == AndExpr(a, b);
    assert Disjoin(OrExpr(AndExpr(a, b), c), []) == OrExpr(AndExpr(a, b), c);
  }

  /** Joined to a filter, `l) OR (r` lets the filter guard `l` alone: `(filter) AND (l) OR (r)`. */
  lemma AlternativeEscapesTheFilter(schema: Schema, e: Expr, l: string, a: SqlExpr, r: string, b: SqlExpr)
    requires IsExact(schema, e) && ServerReadable(e) && ReadsExpression(l, a) && ReadsExpression(r, b)
    ensures var restriction := RowRestriction(schema, [e], Some(Escaping(l, r)));
            && restriction.Some?
            && ReadExpression(restriction.value) == Some(OrExpr(AndExpr(Tree(schema, e), a), b))
  {
    OneFilter(schema, e);
    EscapingParts(l, a, r, b);
    NothingToSend(schema, [e], Some(Escaping(l, r)));
    RestrictionReads(schema, [e], Some(Escaping(l, r)));
    TwoConjuncts(Tree(schema, e), a, b);
  }

  const ONE_COLUMN: Schema := [Field("x", Int64, [])]
  const PRESENT := IsNotNull(Column(NoRelation, "x"))
  const ABSENT := "x" + " IS NULL"

  lemma AbsentReads()
    ensures ReadsExpression(ABSENT, NullExpr(["x"], false))
  {
    NullTestWords();
    TwoWordsRead("IS", "NULL");
    WordReads("x", " IS NULL");
    CommentedParses();
  }

  lemma PresentPrints()
    ensures PrintText(ONE_COLUMN, PRESENT).Some? && PathOr(ONE_COLUMN, Column(NoRelation, "x")) == ["x"]
  {
    assert FieldNamed(ONE_COLUMN, "x") == Some(ONE_COLUMN[0]);
    assert !UnsupportedLogicalType([]);
  }

  lemma NullRow()
    ensures Conforms(ONE_COLUMN, [NullCell]) && CellAt(Named(ONE_COLUMN, [NullCell]), ["x"]) == None
  {
    assert ONE_COLUMN[1..] == [] && [NullCell][1..] == [];
    assert Named(ONE_COLUMN, [NullCell]) == [NamedCell("x", None)] + [];
  }

  lemma NullRowIsRejected(other: Expr -> Truth)
    ensures Meaning(OnRow(ONE_COLUMN, [NullCell]), PRESENT, other) == No
  {
    PresentPrints();
    NullRow();
    TreePreservesMeaning(ONE_COLUMN, [NullCell], PRESENT, other);
  }

  lemma NullRowIsKept(tree: SqlExpr, row: Row)
    requires CellAt(row, ["x"]) == None
    ensures Evaluate(row, OrExpr(tree, NullExpr(["x"], false))) == Yes
  {
  }

  /** A row without `x` is kept although the exactly supported filter `x IS NOT NULL` rejects it. */
  lemma RejectedRowIsKept(other: Expr -> Truth)
    ensures IsExact(ONE_COLUMN, PRESENT) && Conforms(ONE_COLUMN, [NullCell])
    ensures Meaning(OnRow(ONE_COLUMN, [NullCell]), PRESENT, other) == No
    ensures var restriction := RowRestriction(ONE_COLUMN, [PRESENT], Some(Escaping(ABSENT, ABSENT)));
            && restriction.Some?
            && ReadExpression(restriction.value).Some?
            && Evaluate(Named(ONE_COLUMN, [NullCell]), ReadExpression(restriction.value).value) == Yes
  {
    var absent := NullExpr(["x"], false);
    AbsentReads();
    PresentPrints();
    NullRow();
    NullRowIsRejected(other);
    AlternativeEscapesTheFilter(ONE_COLUMN, PRESENT, ABSENT, absent, ABSENT, absent);
    NullRowIsKept(AndExpr(Tree(ONE_COLUMN, PRESENT), absent), Named(ONE_COLUMN, [NullCell]));
  }
}

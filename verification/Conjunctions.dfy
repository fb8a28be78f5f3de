/** Texts joined by AND: what they read as, whatever the last of them is, and what the whole means. */
module Conjunctions {
  import opened Wrappers
  import opened Text
  import opened GoogleSql
  import opened SqlSyntax
  import opened SqlReading

  // ---------------------------------------------------------------------------------------------------
  // The parts of an expression
  // ---------------------------------------------------------------------------------------------------

  /** `((first AND t1) AND t2) AND ...`, as the grammar associates a chain of ANDs. */
  function Conjoin(first: SqlExpr, trees: seq<SqlExpr>): SqlExpr
    decreases |trees|
  {
    if trees == [] then first else Conjoin(AndExpr(first, trees[0]), trees[1..])
  }

  /** The tree of a nonempty chain of ANDs. */
  function Conjunction(trees: seq<SqlExpr>): SqlExpr
    requires trees != []
  {
    Conjoin(trees[0], trees[1..])
  }

  /** `((first OR t1) OR t2) OR ...`. */
  function Disjoin(first: SqlExpr, trees: seq<SqlExpr>): SqlExpr
    decreases |trees|
  {
    if trees == [] then first else Disjoin(OrExpr(first, trees[0]), trees[1..])
  }

  /** The tree of conjuncts and alternatives to them. */
  function Assembled(conjuncts: seq<SqlExpr>, alternatives: seq<SqlExpr>): SqlExpr
    requires conjuncts != []
  {
    Disjoin(Conjunction(conjuncts), alternatives)
  }

  /** The factors an AND at the front goes on with. */
  function LaterConjuncts(ts: seq<Token>): seq<SqlExpr>
    decreases |ts|
  {
    if !Is(ts, "AND") then []
    else
      match ParseNot(ts[1..])
      case None => []
      case Some((tree, rest)) => [tree] + LaterConjuncts(rest)
  }

  /** The conjunctions an OR at the front goes on with. */
  function LaterAlternatives(ts: seq<Token>): seq<SqlExpr>
    decreases |ts|
  {
    if !Is(ts, "OR") then []
    else
      match ParseAnd(ts[1..])
      case None => []
      case Some((tree, rest)) => [tree] + LaterAlternatives(rest)
  }

  /** The factors of the first conjunction of some tokens. */
  function Conjuncts(ts: seq<Token>): seq<SqlExpr> {
    match ParseNot(ts)
    case None => []
    case Some((tree, rest)) => [tree] + LaterConjuncts(rest)
  }

  /** The alternatives to the first conjunction of some tokens. */
  function Alternatives(ts: seq<Token>): seq<SqlExpr> {
    match ParseAnd(ts)
    case None => []
    case Some((_, rest)) => LaterAlternatives(rest)
  }

  /** The tokens are one expression and nothing else. */
  predicate Whole(ts: seq<Token>) { ParseOr(ts).Some? && ParseOr(ts).value.1 == [] }

  lemma {:induction false} AndTailIs(left: SqlExpr, ts: seq<Token>)
    requires AndTail(left, ts).Some?
    ensures AndTail(left, ts).value.0 == Conjoin(left, LaterConjuncts(ts))
    decreases |ts|
  {
    if Is(ts, "AND") {
      var (tree, rest) := ParseNot(ts[1..]).value;
      AndTailIs(AndExpr(left, tree), rest);
      AfterHead(tree, LaterConjuncts(rest));
    }
  }

  lemma {:induction false} OrTailIs(left: SqlExpr, ts: seq<Token>)
    requires OrTail(left, ts).Some?
    ensures OrTail(left, ts).value.0 == Disjoin(left, LaterAlternatives(ts))
    decreases |ts|
  {
    if Is(ts, "OR") {
      var (tree, rest) := ParseAnd(ts[1..]).value;
      OrTailIs(OrExpr(left, tree), rest);
      AfterHead(tree, LaterAlternatives(rest));
    }
  }

  lemma ConjunctsParse(ts: seq<Token>)
    requires ParseAnd(ts).Some?
    ensures Conjuncts(ts) != [] && ParseAnd(ts).value.0 == Conjunction(Conjuncts(ts))
  {
    var (tree, rest) := ParseNot(ts).value;
    AndTailIs(tree, rest);
    AfterHead(tree, LaterConjuncts(rest));
  }

  /** A whole expression is its first conjunction and the alternatives to it. */
  lemma PartsParse(ts: seq<Token>)
    requires Whole(ts)
    ensures Conjuncts(ts) != []
    ensures ParseOr(ts).value.0 == Assembled(Conjuncts(ts), Alternatives(ts))
  {
    var (left, rest) := ParseAnd(ts).value;
    ConjunctsParse(ts);
    OrTailIs(left, rest);
  }

  // ---------------------------------------------------------------------------------------------------
  // Putting a primary and AND in front
  // ---------------------------------------------------------------------------------------------------

  /** Two readings that both fail, or leave the same tokens over. */
  ghost predicate Alike(a: Option<(SqlExpr, seq<Token>)>, b: Option<(SqlExpr, seq<Token>)>) {
    (a.Some? <==> b.Some?) && (a.Some? ==> a.value.1 == b.value.1)
  }

  lemma {:induction false} AndTailsAlike(a: SqlExpr, b: SqlExpr, ts: seq<Token>)
    ensures Alike(AndTail(a, ts), AndTail(b, ts))
    decreases |ts|
  {
    if Is(ts, "AND") && ParseNot(ts[1..]).Some? {
      var (tree, rest) := ParseNot(ts[1..]).value;
      AndTailsAlike(AndExpr(a, tree), AndExpr(b, tree), rest);
    }
  }

  lemma {:induction false} OrTailsAlike(a: SqlExpr, b: SqlExpr, ts: seq<Token>)
    ensures Alike(OrTail(a, ts), OrTail(b, ts))
    decreases |ts|
  {
    if Is(ts, "OR") && ParseAnd(ts[1..]).Some? {
      var (tree, rest) := ParseAnd(ts[1..]).value;
      OrTailsAlike(OrExpr(a, tree), OrExpr(b, tree), rest);
    }
  }

  lemma ParsesAlike(a: seq<Token>, b: seq<Token>)
    requires Alike(ParseAnd(a), ParseAnd(b))
    ensures Alike(ParseOr(a), ParseOr(b)) && Alternatives(a) == Alternatives(b)
  {
    if ParseAnd(a).Some? {
      OrTailsAlike(ParseAnd(a).value.0, ParseAnd(b).value.0, ParseAnd(a).value.1);
    }
  }

  lemma ConjunctInFront(ts: seq<Token>, tree: SqlExpr, more: seq<Token>, conjunction: Token)
    requires ParsePrimary(ts) == Some((tree, [])) && Is([conjunction], "AND")
    ensures var all := ts + ([conjunction] + more);
            Alike(ParseAnd(all), ParseAnd(more)) && Conjuncts(all) == [tree] + Conjuncts(more)
  {
    var tail := [conjunction] + more;
    PrimaryParses(ts, tree);
    NotExtends(ts, tail);
    ConcatEmpty(tail);
    AfterHead(conjunction, more);
    assert Is(tail, "AND");
    TailsParse(ts + tail, tree, tail);
    if ParseNot(more).Some? {
      var (first, rest) := ParseNot(more).value;
      AndTailsAlike(AndExpr(tree, first), first, rest);
    }
  }

  /** A primary and AND in front of some tokens add a conjunct and change nothing else about their reading. */
  lemma PrimaryInFront(ts: seq<Token>, tree: SqlExpr, more: seq<Token>, conjunction: Token)
    requires ParsePrimary(ts) == Some((tree, [])) && Is([conjunction], "AND")
    ensures var all := ts + ([conjunction] + more);
            && (Whole(all) <==> Whole(more))
            && Conjuncts(all) == [tree] + Conjuncts(more)
            && Alternatives(all) == Alternatives(more)
  {
    ConjunctInFront(ts, tree, more, conjunction);
    ParsesAlike(ts + ([conjunction] + more), more);
  }

  // ---------------------------------------------------------------------------------------------------
  // Joined texts
  // ---------------------------------------------------------------------------------------------------

  /** What each text reads as; nothing for one that is not a primary. */
  ghost predicate ReadAsFar(texts: seq<string>, trees: seq<Option<SqlExpr>>) {
    && |texts| == |trees|
    && forall i :: 0 <= i < |texts| ==>
         if trees[i].Some? then ReadsPrimary(texts[i], trees[i].value) else NeverPrimary(texts[i])
  }

  predicate AllSome(trees: seq<Option<SqlExpr>>) {
    forall i :: 0 <= i < |trees| ==> trees[i].Some?
  }

  function TreesOf(trees: seq<Option<SqlExpr>>): seq<SqlExpr>
    requires AllSome(trees)
  {
    seq(|trees|, i requires 0 <= i < |trees| => trees[i].value)
  }

  lemma ConjunctLexes(text: string, rest: string)
    requires Closed(text)
    ensures Lex((text + " AND ") + rest) == Prepend(Tokens(text), Prepend([Word("AND")], Lex(rest)))
  {
    Keyword("AND");
    assert " AND " == Spaced("AND");
    SpacedReads("AND", rest);
    LexExtends(text, Spaced("AND") + rest);
    ConcatAssociates(text, " AND ", rest);
  }

  lemma JoinStep(first: string, texts: seq<string>, last: string)
    ensures Join([first] + texts + [last], " AND ") == (first + " AND ") + Join(texts + [last], " AND ")
  {
    assert ([first] + texts + [last])[1..] == texts + [last];
  }

  lemma {:induction false} JoinedLexes(texts: seq<string>, trees: seq<Option<SqlExpr>>, last: string)
    requires ReadAsFar(texts, trees)
    ensures Lex(Join(texts + [last], " AND ")).Some? <==> Lex(last).Some?
    decreases |texts|
  {
    if texts == [] {
      assert [] + [last] == [last];
    } else {
      HeadAndTail(texts);
      JoinedLexes(texts[1..], trees[1..], last);
      JoinStep(texts[0], texts[1..], last);
      ConjunctLexes(texts[0], Join(texts[1..] + [last], " AND "));
    }
  }

  /** How a text whose tokens are known relates to what it is joined to. */
  ghost predicate Continues(text: string, trees: seq<Option<SqlExpr>>, last: string)
    requires Lex(text).Some? && Lex(last).Some?
  {
    && (Whole(Tokens(text)) <==> AllSome(trees) && Whole(Tokens(last)))
    && (AllSome(trees) ==>
          && Conjuncts(Tokens(text)) == TreesOf(trees) + Conjuncts(Tokens(last))
          && Alternatives(Tokens(text)) == Alternatives(Tokens(last)))
  }

  lemma ContinuesAfter(text: string, first: string, tree: Option<SqlExpr>, rest: string,
                       trees: seq<Option<SqlExpr>>, last: string)
    requires Lex(rest).Some? && Lex(last).Some? && Continues(rest, trees, last)
    requires text == (first + " AND ") + rest
    requires if tree.Some? then ReadsPrimary(first, tree.value) else NeverPrimary(first)
    ensures Lex(text).Some? && Continues(text, [tree] + trees, last)
  {
    var ts, more := Tokens(first), Tokens(rest);
    ConjunctLexes(first, rest);
    Keyword("AND");
    AllSomeStep(tree, trees);
    if tree.None? {
      NoFactor(ts, [Word("AND")] + more);
    } else {
      PrimaryInFront(ts, tree.value, more, Word("AND"));
      if AllSome(trees) {
        TreesOfStep(tree.value, trees);
        ConcatAssociates([tree.value], TreesOf(trees), Conjuncts(Tokens(last)));
      }
    }
  }

  lemma AllSomeStep(tree: Option<SqlExpr>, trees: seq<Option<SqlExpr>>)
    ensures AllSome([tree] + trees) <==> tree.Some? && AllSome(trees)
  {
    var all := [tree] + trees;
    if AllSome(all) {
      assert all[0] == tree;
      forall i | 0 <= i < |trees| ensures trees[i].Some? {
        assert all[i + 1] == trees[i];
      }
    }
  }

  lemma TreesOfStep(tree: SqlExpr, trees: seq<Option<SqlExpr>>)
    requires AllSome(trees)
    ensures AllSome([Some(tree)] + trees) && TreesOf([Some(tree)] + trees) == [tree] + TreesOf(trees)
  {
  }

  /**
   Primaries joined to any text by AND read exactly when each of them and that text does: its first
   conjunction takes them in, and the alternatives to that conjunction stay as they were.
   */
  lemma {:induction false} JoinedReads(texts: seq<string>, trees: seq<Option<SqlExpr>>, last: string)
    requires ReadAsFar(texts, trees) && Lex(last).Some?
    ensures Lex(Join(texts + [last], " AND ")).Some? && Continues(Join(texts + [last], " AND "), trees, last)
    decreases |texts|
  {
    if texts == [] {
      assert [] + [last] == [last];
      ConcatEmpty(Conjuncts(Tokens(last)));
    } else {
      HeadAndTail(texts);
      HeadAndTail(trees);
      JoinedReads(texts[1..], trees[1..], last);
      JoinStep(texts[0], texts[1..], last);
      ContinuesAfter(Join(texts + [last], " AND "), texts[0], trees[0], Join(texts[1..] + [last], " AND "),
                     trees[1..], last);
    }
  }

  lemma PrimaryParts(ts: seq<Token>, tree: SqlExpr)
    requires ParsePrimary(ts) == Some((tree, []))
    ensures Whole(ts) && Conjuncts(ts) == [tree] && Alternatives(ts) == []
  {
    PrimaryParses(ts, tree);
    ConcatEmpty([tree]);
  }

  lemma NeverPrimaryIsNotWhole(ts: seq<Token>)
    requires ts != [] && !Is(ts, "NOT") && forall more: seq<Token> :: ParsePrimary(ts + more) == None
    ensures !Whole(ts)
  {
    NoFactor(ts, []);
    ConcatEmpty(ts);
  }

  // ---------------------------------------------------------------------------------------------------
  // What the whole means
  // ---------------------------------------------------------------------------------------------------

  function EvaluateAll(row: Row, trees: seq<SqlExpr>): Truth {
    if trees == [] then Yes else And3(Evaluate(row, trees[0]), EvaluateAll(row, trees[1..]))
  }

  function EvaluateAny(row: Row, trees: seq<SqlExpr>): Truth {
    if trees == [] then No else Or3(Evaluate(row, trees[0]), EvaluateAny(row, trees[1..]))
  }

  lemma {:induction false} ConjoinMeans(row: Row, first: SqlExpr, trees: seq<SqlExpr>)
    ensures Evaluate(row, Conjoin(first, trees)) == And3(Evaluate(row, first), EvaluateAll(row, trees))
    decreases |trees|
  {
    if trees != [] {
      ConjoinMeans(row, AndExpr(first, trees[0]), trees[1..]);
    }
  }

  lemma {:induction false} DisjoinMeans(row: Row, first: SqlExpr, trees: seq<SqlExpr>)
    ensures Evaluate(row, Disjoin(first, trees)) == Or3(Evaluate(row, first), EvaluateAny(row, trees))
    decreases |trees|
  {
    if trees != [] {
      DisjoinMeans(row, OrExpr(first, trees[0]), trees[1..]);
    }
  }

  lemma ConjunctionMeans(row: Row, trees: seq<SqlExpr>)
    requires trees != []
    ensures Evaluate(row, Conjunction(trees)) == EvaluateAll(row, trees)
  {
    ConjoinMeans(row, trees[0], trees[1..]);
  }

  lemma {:induction false} EvaluateConcat(row: Row, a: seq<SqlExpr>, b: seq<SqlExpr>)
    ensures EvaluateAll(row, a + b) == And3(EvaluateAll(row, a), EvaluateAll(row, b))
    decreases |a|
  {
    if a == [] {
      ConcatEmpty(b);
    } else {
      assert (a + b)[1..] == a[1..] + b;
      EvaluateConcat(row, a[1..], b);
    }
  }

  lemma AssembledMeans(row: Row, conjuncts: seq<SqlExpr>, alternatives: seq<SqlExpr>)
    requires conjuncts != []
    ensures Evaluate(row, Assembled(conjuncts, alternatives)) ==
            Or3(EvaluateAll(row, conjuncts), EvaluateAny(row, alternatives))
  {
    ConjunctionMeans(row, conjuncts);
    DisjoinMeans(row, Conjunction(conjuncts), alternatives);
  }

  /** Alternatives put OR on top; without them a chain of two or more conjuncts has AND on top. */
  lemma {:induction false} AlternativesComeOnTop(first: SqlExpr, trees: seq<SqlExpr>)
    requires trees != []
    ensures Disjoin(first, trees).OrExpr?
    decreases |trees|
  {
    if |trees| > 1 {
      AlternativesComeOnTop(OrExpr(first, trees[0]), trees[1..]);
    }
  }

  lemma {:induction false} ConjunctsComeOnTop(first: SqlExpr, trees: seq<SqlExpr>)
    requires trees != []
    ensures Conjoin(first, trees).AndExpr?
    decreases |trees|
  {
    if |trees| > 1 {
      ConjunctsComeOnTop(AndExpr(first, trees[0]), trees[1..]);
    }
  }
}

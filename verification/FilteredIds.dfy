/** The benchmark's closed-form expectation for the ids a cohort filter keeps: ids from 0 up
  * to the row count whose remainder by `cohorts` is below `selected`.
  */
module FilteredIds {

  import opened Wrappers

  datatype Expectation = Expectation(rows: int, minimum: int, maximum: int, sum: int)

  datatype FixtureError = InvalidFixture

  /** Division by two rounds down, as `//` does in Python. */
  function ExpectedFilteredIds(rows: int, cohorts: int, selected: int): Result<Expectation, FixtureError> {
    if rows <= 0 || cohorts <= 0 || selected <= 0 || selected > cohorts then Failure(InvalidFixture)
    else Success(ClosedForm(rows / cohorts, AtMost(rows % cohorts, selected), cohorts, selected))
  }

  function ClosedForm(full: nat, tail: nat, cohorts: nat, selected: nat): Expectation {
    var blockOffsets := cohorts * selected * full * (full - 1) / 2;
    var withinBlocks := full * selected * (selected - 1) / 2;
    var tailSum := tail * (2 * full * cohorts + tail - 1) / 2;
    var maximum := if tail != 0 then full * cohorts + tail - 1 else (full - 1) * cohorts + selected - 1;
    Expectation(full * selected + tail, 0, maximum, blockOffsets + withinBlocks + tailSum)
  }

  /** The kept ids in ascending order, found by looking at every id. */
  function Kept(rows: nat, cohorts: nat, selected: nat): (ids: seq<nat>)
    requires cohorts > 0
    ensures forall id: nat :: id in ids <==> id < rows && id % cohorts < selected
    ensures forall i :: 0 <= i < |ids| ==> ids[i] < rows
    ensures forall i, j :: 0 <= i < j < |ids| ==> ids[i] < ids[j]
  {
    if rows == 0 then []
    else
      var before := Kept(rows - 1, cohorts, selected);
      if (rows - 1) % cohorts < selected then before + [rows - 1] else before
  }

  function Total(ids: seq<nat>): nat {
    if ids == [] then 0 else Total(ids[..|ids| - 1]) + ids[|ids| - 1]
  }

  lemma QuotientIsUnique(q: nat, r: nat, quotient: nat, rest: nat, divisor: nat)
    requires r < divisor && rest < divisor
    requires q * divisor + r == quotient * divisor + rest
    ensures q == quotient && r == rest
  {
    if q > quotient {
      Distribute(q - quotient, quotient, divisor);
      Grows(q - quotient, divisor);
    } else if q < quotient {
      Distribute(quotient - q, q, divisor);
      Grows(quotient - q, divisor);
    }
  }

  lemma Grows(a: nat, b: nat)
    requires a > 0
    ensures a * b >= b
  {
  }

  lemma DivMod(full: nat, rest: nat, cohorts: nat)
    requires rest < cohorts
    ensures (full * cohorts + rest) / cohorts == full && (full * cohorts + rest) % cohorts == rest
  {
    var value := full * cohorts + rest;
    QuotientIsUnique(value / cohorts, value % cohorts, full, rest, cohorts);
  }

  /** The ids kept among the first `full` whole blocks and `rest` ids of the next. */
  function KeptUpTo(full: nat, rest: nat, cohorts: nat, selected: nat): seq<nat>
    requires cohorts > 0
  {
    Kept(full * cohorts + rest, cohorts, selected)
  }

  lemma NextId(full: nat, rest: nat, cohorts: nat, selected: nat)
    requires rest < cohorts
    ensures KeptUpTo(full, rest + 1, cohorts, selected)
         == KeptUpTo(full, rest, cohorts, selected) + if rest < selected then [full * cohorts + rest] else []
    ensures rest + 1 == cohorts ==>
              KeptUpTo(full + 1, 0, cohorts, selected) == KeptUpTo(full, rest + 1, cohorts, selected)
  {
    DivMod(full, rest, cohorts);
    Distribute(full, 1, cohorts);
  }

  lemma TotalAppend(ids: seq<nat>, id: nat)
    ensures Total(ids + [id]) == Total(ids) + id
  {
    assert (ids + [id])[..|ids|] == ids;
  }

  function AtMost(a: nat, b: nat): nat {
    if a < b then a else b
  }

  /** Count, extremes and doubled sum after `full` blocks and `rest` further ids. */
  predicate Matches(ids: seq<nat>, full: nat, rest: nat, cohorts: nat, selected: nat) {
    var tail := AtMost(rest, selected);
    && |ids| == full * selected + tail
    && 2 * Total(ids) == Doubled(full, tail, cohorts, selected)
    && ((full > 0 || rest > 0) ==>
          |ids| > 0 && ids[0] == 0
          && ids[|ids| - 1] == if tail != 0 then full * cohorts + tail - 1 else (full - 1) * cohorts + selected - 1)
  }

  lemma IdMatches(ids: seq<nat>, full: nat, rest: nat, cohorts: nat, selected: nat)
    requires 0 < selected <= cohorts && rest < cohorts && Matches(ids, full, rest, cohorts, selected)
    ensures Matches(ids + (if rest < selected then [full * cohorts + rest] else []), full, rest + 1, cohorts, selected)
  {
    if rest < selected {
      TotalAppend(ids, full * cohorts + rest);
      TailGrows(full, rest, cohorts, selected);
    } else {
      assert ids + [] == ids;
    }
  }

  lemma BlockMatches(ids: seq<nat>, full: nat, cohorts: nat, selected: nat)
    requires 0 < selected <= cohorts && Matches(ids, full, cohorts, cohorts, selected)
    ensures Matches(ids, full + 1, 0, cohorts, selected)
  {
    BlockCloses(full, cohorts, selected);
    Distribute(full, 1, selected);
  }

  predicate PrefixMatches(full: nat, rest: nat, cohorts: nat, selected: nat)
    requires cohorts > 0
  {
    Matches(KeptUpTo(full, rest, cohorts, selected), full, rest, cohorts, selected)
  }

  lemma Empty(cohorts: nat, selected: nat)
    requires cohorts > 0
    ensures PrefixMatches(0, 0, cohorts, selected)
  {
  }

  lemma NextIdMatches(full: nat, rest: nat, cohorts: nat, selected: nat)
    requires 0 < selected <= cohorts && rest < cohorts && PrefixMatches(full, rest, cohorts, selected)
    ensures PrefixMatches(full, rest + 1, cohorts, selected)
  {
    var ids := KeptUpTo(full, rest, cohorts, selected);
    NextId(full, rest, cohorts, selected);
    IdMatches(ids, full, rest, cohorts, selected);
  }

  lemma NextBlockMatches(full: nat, cohorts: nat, selected: nat)
    requires 0 < selected <= cohorts && PrefixMatches(full, cohorts, cohorts, selected)
    ensures PrefixMatches(full + 1, 0, cohorts, selected)
  {
    NextId(full, cohorts - 1, cohorts, selected);
    BlockMatches(KeptUpTo(full, cohorts, cohorts, selected), full, cohorts, selected);
  }

  lemma {:induction false} RestMatches(full: nat, rest: nat, cohorts: nat, selected: nat)
    requires 0 < selected <= cohorts && rest <= cohorts && PrefixMatches(full, 0, cohorts, selected)
    ensures PrefixMatches(full, rest, cohorts, selected)
    decreases rest
  {
    if rest > 0 {
      RestMatches(full, rest - 1, cohorts, selected);
      NextIdMatches(full, rest - 1, cohorts, selected);
    }
  }

  lemma {:induction false} BlocksMatch(full: nat, cohorts: nat, selected: nat)
    requires 0 < selected <= cohorts
    ensures PrefixMatches(full, 0, cohorts, selected)
    decreases full
  {
    if full == 0 {
      Empty(cohorts, selected);
    } else {
      BlocksMatch(full - 1, cohorts, selected);
      RestMatches(full - 1, cohorts, cohorts, selected);
      NextBlockMatches(full - 1, cohorts, selected);
    }
  }

  /** Twice the sum of the kept ids in `full` whole blocks and `tail` ids of the next one. */
  function Doubled(full: int, tail: int, cohorts: int, selected: int): int {
    cohorts * selected * full * (full - 1) + full * selected * (selected - 1)
    + tail * (2 * full * cohorts + tail - 1)
  }

  lemma TailGrows(full: int, tail: int, cohorts: int, selected: int)
    ensures Doubled(full, tail + 1, cohorts, selected)
         == Doubled(full, tail, cohorts, selected) + 2 * (full * cohorts + tail)
  {
    var base := 2 * full * cohorts;
    assert (tail + 1) * (base + tail) == tail * (base + tail - 1) + base + 2 * tail;
    assert base == 2 * (full * cohorts);
  }

  lemma BlockCloses(full: int, cohorts: int, selected: int)
    ensures Doubled(full, selected, cohorts, selected) == Doubled(full + 1, 0, cohorts, selected)
  {
    var area := cohorts * selected;
    assert area * (full + 1) * full == area * full * (full - 1) + 2 * (area * full);
    assert (full + 1) * selected * (selected - 1) == full * selected * (selected - 1) + selected * (selected - 1) by {
      assert (full + 1) * selected == full * selected + selected;
      Distribute(full * selected, selected, selected - 1);
    }
    assert selected * (2 * full * cohorts + selected - 1) == 2 * (area * full) + selected * (selected - 1) by {
      DistributeRight(selected, 2 * full * cohorts, selected - 1);
      assert selected * (2 * full * cohorts) == 2 * (area * full);
    }
  }

  lemma Distribute(a: int, b: int, c: int)
    ensures (a + b) * c == a * c + b * c
  {
  }

  lemma DistributeRight(a: int, b: int, c: int)
    ensures a * (b + c) == a * b + a * c
  {
  }

  /** A product of neighbouring integers is even, so no halving in the closed form rounds. */
  lemma {:induction false} NeighboursAreEven(n: nat)
    ensures n * (n - 1) % 2 == 0
  {
    if n > 0 {
      NeighboursAreEven(n - 1);
      assert n * (n - 1) == (n - 1) * (n - 2) + 2 * (n - 1);
    }
  }

  lemma HalvesExactly(whole: int, factor: int, pair: int)
    requires whole == factor * pair && pair % 2 == 0
    ensures whole / 2 * 2 == whole
  {
    assert whole == factor * (2 * (pair / 2)) == 2 * (factor * (pair / 2));
  }

  lemma HalvingsAreExact(full: nat, tail: nat, cohorts: nat, selected: nat)
    ensures cohorts * selected * full * (full - 1) / 2 * 2 == cohorts * selected * full * (full - 1)
    ensures full * selected * (selected - 1) / 2 * 2 == full * selected * (selected - 1)
    ensures tail * (2 * full * cohorts + tail - 1) / 2 * 2 == tail * (2 * full * cohorts + tail - 1)
  {
    NeighboursAreEven(full);
    NeighboursAreEven(selected);
    NeighboursAreEven(tail);
    Regroup(cohorts * selected, full, full - 1);
    Regroup(full, selected, selected - 1);
    HalvesExactly(cohorts * selected * full * (full - 1), cohorts * selected, full * (full - 1));
    HalvesExactly(full * selected * (selected - 1), full, selected * (selected - 1));
    TailHalves(full, tail, cohorts);
  }

  lemma Regroup(a: int, b: int, c: int)
    ensures a * b * c == a * (b * c)
  {
  }

  lemma TailHalves(full: nat, tail: nat, cohorts: nat)
    requires tail * (tail - 1) % 2 == 0
    ensures tail * (2 * full * cohorts + tail - 1) / 2 * 2 == tail * (2 * full * cohorts + tail - 1)
  {
    Regroup(2, full, cohorts);
    DistributeRight(tail, 2 * full * cohorts, tail - 1);
    TwiceInside(tail, full * cohorts);
    EvenPlusEven(tail * (full * cohorts), tail * (tail - 1));
  }

  lemma TwiceInside(a: int, b: int)
    ensures a * (2 * b) == 2 * (a * b)
  {
  }

  lemma EvenPlusEven(half: int, even: int)
    requires even % 2 == 0
    ensures (2 * half + even) / 2 * 2 == 2 * half + even
  {
  }

  /** Count, smallest, largest and sum of the ids kept. */
  function Describe(ids: seq<nat>): Expectation
    requires ids != []
  {
    Expectation(|ids|, ids[0], ids[|ids| - 1], Total(ids))
  }

  lemma Assemble(ids: seq<nat>, full: nat, rest: nat, cohorts: nat, selected: nat)
    requires 0 < selected <= cohorts && (full > 0 || rest > 0) && Matches(ids, full, rest, cohorts, selected)
    ensures |ids| > 0 && ClosedForm(full, AtMost(rest, selected), cohorts, selected) == Describe(ids)
  {
    HalvingsAreExact(full, AtMost(rest, selected), cohorts, selected);
  }

  lemma SplitClosedForm(full: nat, rest: nat, cohorts: nat, selected: nat)
    requires 0 < selected <= cohorts && rest < cohorts && (full > 0 || rest > 0)
    ensures KeptUpTo(full, rest, cohorts, selected) != []
    ensures ClosedForm(full, AtMost(rest, selected), cohorts, selected)
         == Describe(KeptUpTo(full, rest, cohorts, selected))
  {
    BlocksMatch(full, cohorts, selected);
    RestMatches(full, rest, cohorts, selected);
    Assemble(KeptUpTo(full, rest, cohorts, selected), full, rest, cohorts, selected);
  }

  lemma Divide(rows: nat, cohorts: nat)
    requires cohorts > 0
    ensures rows / cohorts >= 0 && 0 <= rows % cohorts < cohorts
    ensures rows == (rows / cohorts) * cohorts + rows % cohorts
  {
  }

  lemma KeptIsKeptUpTo(rows: nat, full: nat, rest: nat, cohorts: nat, selected: nat)
    requires cohorts > 0 && rows == full * cohorts + rest
    ensures Kept(rows, cohorts, selected) == KeptUpTo(full, rest, cohorts, selected)
  {
  }

  lemma AcceptedMatchesTheLoop(rows: nat, full: nat, rest: nat, cohorts: nat, selected: nat)
    requires rows > 0 && 0 < selected <= cohorts && rest < cohorts && (full > 0 || rest > 0)
    requires rows == full * cohorts + rest
    ensures Kept(rows, cohorts, selected) != []
    ensures ClosedForm(full, AtMost(rest, selected), cohorts, selected) == Describe(Kept(rows, cohorts, selected))
  {
    SplitClosedForm(full, rest, cohorts, selected);
    KeptIsKeptUpTo(rows, full, rest, cohorts, selected);
  }

  lemma RefusesExactly(rows: int, cohorts: int, selected: int)
    ensures ExpectedFilteredIds(rows, cohorts, selected).Failure? <==>
              rows <= 0 || cohorts <= 0 || selected <= 0 || selected > cohorts
  {
  }

  /** The closed forms agree with the loop for every fixture the function accepts, and it
    * refuses exactly the others. */
  lemma ClosedFormsMatchTheLoop(rows: int, cohorts: int, selected: int)
    ensures ExpectedFilteredIds(rows, cohorts, selected).Failure? <==>
              rows <= 0 || cohorts <= 0 || selected <= 0 || selected > cohorts
    ensures rows > 0 && 0 < selected <= cohorts ==>
      && Kept(rows, cohorts, selected) != []
      && ExpectedFilteredIds(rows, cohorts, selected) == Success(Describe(Kept(rows, cohorts, selected)))
  {
    RefusesExactly(rows, cohorts, selected);
    if rows > 0 && 0 < selected <= cohorts {
      Divide(rows, cohorts);
      AcceptedMatchesTheLoop(rows, rows / cohorts, rows % cohorts, cohorts, selected);
    }
  }

}

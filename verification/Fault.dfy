/**
 Deterministic fault schedules, their minimizer, and the independent accepted-offset oracle (fault.rs).
 */
module Fault {
  import opened Wrappers

  const MAX_EVENTS: nat := 256

  datatype Point = Point(
    phase: nat,
    session: nat,
    stream: nat,
    attempt: nat,
    requestedOffset: int,
    response: nat,
    acceptedRows: int)

  datatype Selector = Selector(
    phase: Option<nat>,
    session: Option<nat>,
    stream: Option<nat>,
    attempt: Option<nat>,
    requestedOffset: Option<int>,
    response: Option<nat>,
    acceptedRows: Option<int>)
  {
    predicate Matches(point: Point) {
      && (phase.None? || phase.value == point.phase)
      && (session.None? || session.value == point.session)
      && (stream.None? || stream.value == point.stream)
      && (attempt.None? || attempt.value == point.attempt)
      && (requestedOffset.None? || requestedOffset.value == point.requestedOffset)
      && (response.None? || response.value == point.response)
      && (acceptedRows.None? || acceptedRows.value == point.acceptedRows)
    }
  }

  /** The selector that fixes every component. */
  function Only(p: Point): Selector {
    Selector(Some(p.phase), Some(p.session), Some(p.stream), Some(p.attempt), Some(p.requestedOffset),
             Some(p.response), Some(p.acceptedRows))
  }

  /** Every component fixed selects one point, and letting one of them go selects the points that differ there at
    * most; nothing fixed selects them all. */
  lemma SelectorsAreExact(p: Point, q: Point)
    ensures Only(p).Matches(q) <==> q == p
    ensures Only(p).(phase := None).Matches(q) <==> q == p.(phase := q.phase)
    ensures Only(p).(session := None).Matches(q) <==> q == p.(session := q.session)
    ensures Only(p).(stream := None).Matches(q) <==> q == p.(stream := q.stream)
    ensures Only(p).(attempt := None).Matches(q) <==> q == p.(attempt := q.attempt)
    ensures Only(p).(requestedOffset := None).Matches(q) <==> q == p.(requestedOffset := q.requestedOffset)
    ensures Only(p).(response := None).Matches(q) <==> q == p.(response := q.response)
    ensures Only(p).(acceptedRows := None).Matches(q) <==> q == p.(acceptedRows := q.acceptedRows)
    ensures Selector(None, None, None, None, None, None, None).Matches(q)
  {
  }

  datatype Step<A> = Step(selector: Selector, action: A)

  // ---------------------------------------------------------------------------------------------------
  // Schedule
  // ---------------------------------------------------------------------------------------------------

  /** The last `limit` elements of `s`. */
  function LastOf<T>(s: seq<T>, limit: nat): seq<T> {
    if |s| <= limit then s else s[|s| - limit..]
  }

  /** The actions a schedule answers when it is asked about each of `points` in turn, and what is left. */
  function Replay<A>(pending: seq<Step<A>>, points: seq<Point>): (r: (seq<Option<A>>, seq<Step<A>>))
    ensures |r.0| == |points|
  {
    if points == [] then ([], pending)
    else
      var before := Replay(pending, points[..|points| - 1]);
      var index := FirstMatch(before.1, points[|points| - 1]);
      if index == |before.1| then (before.0 + [None], before.1)
      else (before.0 + [Some(before.1[index].action)], Without(before.1, index))
  }

  function FirstMatch<A>(pending: seq<Step<A>>, point: Point): (index: nat)
    ensures index <= |pending|
    ensures index < |pending| ==> pending[index].selector.Matches(point)
    ensures forall i :: 0 <= i < index ==> !pending[i].selector.Matches(point)
  {
    if pending == [] || pending[0].selector.Matches(point) then 0 else 1 + FirstMatch(pending[1..], point)
  }

  function Without<T>(s: seq<T>, index: nat): (r: seq<T>)
    requires index < |s|
    ensures |r| == |s| - 1
  {
    s[..index] + s[index + 1..]
  }

  /** A full log of the last points drops its first for one more. */
  lemma OneMorePoint(asked: seq<Point>, point: Point)
    ensures var log := LastOf(asked, MAX_EVENTS);
            LastOf(asked + [point], MAX_EVENTS) == (if |log| == MAX_EVENTS then log[1..] else log) + [point]
  {
  }

  class Schedule<A> {
    var pending: seq<Step<A>>
    var events: seq<Point>
    ghost const steps: seq<Step<A>>
    ghost var asked: seq<Point>

    ghost predicate Valid()
      reads this
    {
      && events == LastOf(asked, MAX_EVENTS)
      && pending == Replay(steps, asked).1
    }

    constructor (steps: seq<Step<A>>)
      ensures Valid() && this.steps == steps && asked == []
    {
      pending, events := steps, [];
      this.steps, asked := steps, [];
    }

    /** Logs the point in a bounded log and spends the first pending step that selects it. */
    method Take(point: Point) returns (action: Option<A>)
      requires Valid()
      modifies this
      ensures Valid() && asked == old(asked) + [point]
      ensures |events| == (if |asked| <= MAX_EVENTS then |asked| else MAX_EVENTS)
      ensures events == asked[|asked| - |events|..]
      ensures action == Replay(steps, asked).0[|old(asked)|]
      ensures var index := FirstMatch(old(pending), point);
              if index == |old(pending)| then action == None && pending == old(pending)
              else action == Some(old(pending)[index].action) && pending == Without(old(pending), index)
    {
      OneMorePoint(asked, point);
      assert (asked + [point])[..|asked|] == asked;
      if |events| == MAX_EVENTS {
        events := events[1..];
      }
      events := events + [point];
      asked := asked + [point];
      var index := FirstMatch(pending, point);
      if index == |pending| {
        return None;
      }
      action := Some(pending[index].action);
      pending := Without(pending, index);
    }
  }

  function Actions<A>(steps: seq<Step<A>>): (r: seq<A>)
    ensures |r| == |steps| && forall i :: 0 <= i < |r| ==> r[i] == steps[i].action
  {
    seq(|steps|, i requires 0 <= i < |steps| => steps[i].action)
  }

  function Given<A>(answers: seq<Option<A>>): seq<A> {
    if answers == [] then []
    else
      var last := answers[|answers| - 1];
      Given(answers[..|answers| - 1]) + (if last.Some? then [last.value] else [])
  }

  lemma SpendingOneStep<A>(left: seq<Step<A>>, index: nat)
    requires index < |left|
    ensures multiset(Actions(Without(left, index))) + multiset{left[index].action} == multiset(Actions(left))
  {
    var all := Actions(left);
    var before, after := all[..index], all[index + 1..];
    assert Actions(Without(left, index)) == before + after;
    assert all == before + [left[index].action] + after;
  }

  /** Every scheduled action is answered at most once: the answers and what is left make up the schedule. */
  lemma {:induction false} ReplaySpendsEachStepOnce<A>(steps: seq<Step<A>>, points: seq<Point>)
    ensures var r := Replay(steps, points);
            multiset(Given(r.0)) + multiset(Actions(r.1)) == multiset(Actions(steps))
    decreases |points|
  {
    if points == [] {
    } else {
      var earlier := points[..|points| - 1];
      ReplaySpendsEachStepOnce(steps, earlier);
      var before, after := Replay(steps, earlier), Replay(steps, points);
      assert after.0[..|after.0| - 1] == before.0;
      var index := FirstMatch(before.1, points[|points| - 1]);
      if index < |before.1| {
        SpendingOneStep(before.1, index);
        assert Given(after.0) == Given(before.0) + [before.1[index].action];
      } else {
        assert Given(after.0) == Given(before.0) + [];
      }
    }
  }

  // ---------------------------------------------------------------------------------------------------
  // Minimization
  // ---------------------------------------------------------------------------------------------------

  /** `s` can be obtained from `t` by deleting elements. */
  predicate IsSubsequence<T(==)>(s: seq<T>, t: seq<T>) {
    if s == [] then true
    else if t == [] then false
    else if s[0] == t[0] && IsSubsequence(s[1..], t[1..]) then true
    else IsSubsequence(s, t[1..])
  }

  lemma {:induction false} SubsequenceReflexive<T>(s: seq<T>)
    ensures IsSubsequence(s, s)
  {
    if s != [] {
      SubsequenceReflexive(s[1..]);
    }
  }

  lemma {:induction false} SubsequenceDropsHead<T>(s: seq<T>, t: seq<T>)
    requires s != [] && IsSubsequence(s, t)
    ensures IsSubsequence(s[1..], t)
    decreases |t|
  {
    if s[1..] != [] {
      if s[0] == t[0] && IsSubsequence(s[1..], t[1..]) {
        if s[1] == t[0] {
          SubsequenceDropsHead(s[1..], t[1..]);
        }
      } else {
        SubsequenceDropsHead(s, t[1..]);
        if s[1] == t[0] {
          SubsequenceDropsHead(s[1..], t[1..]);
        }
      }
    }
  }

  lemma {:induction false} SubsequenceWidens<T>(s: seq<T>, t: seq<T>)
    requires t != [] && IsSubsequence(s, t[1..])
    ensures IsSubsequence(s, t)
  {
    if s != [] && s[0] == t[0] {
      SubsequenceDropsHead(s, t[1..]);
    }
  }

  lemma {:induction false} WithoutIsSubsequence<T>(s: seq<T>, index: nat, t: seq<T>)
    requires index < |s| && IsSubsequence(s, t)
    ensures IsSubsequence(Without(s, index), t)
    decreases |t|
  {
    if index == 0 {
      SubsequenceDropsHead(s, t);
      assert Without(s, 0) == s[1..];
    } else if s[0] == t[0] && IsSubsequence(s[1..], t[1..]) {
      WithoutIsSubsequence(s[1..], index - 1, t[1..]);
      var shorter := Without(s, index);
      assert shorter[1..] == Without(s[1..], index - 1);
      assert shorter[0] == t[0];
    } else {
      WithoutIsSubsequence(s, index, t[1..]);
      SubsequenceWidens(Without(s, index), t);
    }
  }

  /** Among what is left of `steps`, adding a step to a failing schedule leaves it failing. */
  ghost predicate Monotone<T(!new)>(steps: seq<T>, fails: seq<T> -> bool) {
    forall s: seq<T>, index: nat | index < |s| && IsSubsequence(s, steps) && fails(Without(s, index)) :: fails(s)
  }

  /** No single remaining step can be removed. */
  ghost predicate OneMinimal<T>(s: seq<T>, fails: seq<T> -> bool) {
    forall index :: 0 <= index < |s| ==> !fails(Without(s, index))
  }

  lemma WithoutCommutes<T>(s: seq<T>, i: nat, j: nat)
    requires i < j < |s|
    ensures Without(Without(s, j), i) == Without(Without(s, i), j - 1)
  {
  }

  /** Removing a later step cannot make an earlier one removable when failing is monotone. */
  lemma NecessityIsKept<T(!new)>(steps: seq<T>, s: seq<T>, i: nat, j: nat, fails: seq<T> -> bool)
    requires Monotone(steps, fails) && IsSubsequence(s, steps) && i < j < |s| && !fails(Without(s, i))
    ensures !fails(Without(Without(s, j), i))
  {
    WithoutCommutes(s, i, j);
    WithoutIsSubsequence(s, i, steps);
  }

  /** What greedy deletion returns when it has reached `index`. */
  function Minimized<T>(candidate: seq<T>, index: nat, stillFails: seq<T> -> bool): seq<T>
    decreases |candidate| - index
  {
    if index >= |candidate| then candidate
    else
      var smaller := Without(candidate, index);
      if stillFails(smaller) then Minimized(smaller, index, stillFails)
      else Minimized(candidate, index + 1, stillFails)
  }

  method Minimize<T>(steps: seq<T>, stillFails: seq<T> -> bool) returns (candidate: seq<T>)
    ensures candidate == Minimized(steps, 0, stillFails)
  {
    candidate := steps;
    var index := 0;
    while index < |candidate|
      invariant 0 <= index
      invariant Minimized(candidate, index, stillFails) == Minimized(steps, 0, stillFails)
      decreases |candidate| - index
    {
      var smaller := Without(candidate, index);
      if stillFails(smaller) {
        candidate := smaller;
      } else {
        index := index + 1;
      }
    }
  }

  /** Minimization only deletes, and a schedule that fails is never replaced by one that does not. */
  lemma {:induction false} MinimizedFailsAndIsSubsequence<T>(
    candidate: seq<T>, index: nat, stillFails: seq<T> -> bool, steps: seq<T>)
    requires IsSubsequence(candidate, steps)
    ensures IsSubsequence(Minimized(candidate, index, stillFails), steps)
    ensures stillFails(candidate) ==> stillFails(Minimized(candidate, index, stillFails))
    decreases |candidate| - index
  {
    if index < |candidate| {
      var smaller := Without(candidate, index);
      if stillFails(smaller) {
        WithoutIsSubsequence(candidate, index, steps);
        MinimizedFailsAndIsSubsequence(smaller, index, stillFails, steps);
      } else {
        MinimizedFailsAndIsSubsequence(candidate, index + 1, stillFails, steps);
      }
    }
  }

  /** For a predicate that is monotone under adding steps, one greedy pass already is 1-minimal. */
  lemma {:induction false} MinimizedIsOneMinimal<T(!new)>(
    steps: seq<T>, candidate: seq<T>, index: nat, stillFails: seq<T> -> bool)
    requires Monotone(steps, stillFails) && IsSubsequence(candidate, steps)
    requires forall i :: 0 <= i < index && i < |candidate| ==> !stillFails(Without(candidate, i))
    ensures OneMinimal(Minimized(candidate, index, stillFails), stillFails)
    decreases |candidate| - index
  {
    if index < |candidate| {
      var smaller := Without(candidate, index);
      if stillFails(smaller) {
        forall i | 0 <= i < index && i < |smaller| ensures !stillFails(Without(smaller, i)) {
          NecessityIsKept(steps, candidate, i, index, stillFails);
        }
        WithoutIsSubsequence(candidate, index, steps);
        MinimizedIsOneMinimal(steps, smaller, index, stillFails);
      } else {
        MinimizedIsOneMinimal(steps, candidate, index + 1, stillFails);
      }
    }
  }

  /** The whole contract of `Minimize` for a caller whose predicate is monotone. */
  lemma MinimizeIsSound<T(!new)>(steps: seq<T>, stillFails: seq<T> -> bool)
    ensures IsSubsequence(Minimized(steps, 0, stillFails), steps)
    ensures stillFails(steps) ==> stillFails(Minimized(steps, 0, stillFails))
    ensures Monotone(steps, stillFails) ==> OneMinimal(Minimized(steps, 0, stillFails), stillFails)
  {
    SubsequenceReflexive(steps);
    MinimizedFailsAndIsSubsequence(steps, 0, stillFails, steps);
    if Monotone(steps, stillFails) {
      MinimizedIsOneMinimal(steps, steps, 0, stillFails);
    }
  }

  /** Without monotonicity one pass is not enough: here [0] is returned although [] still fails. */
  lemma OnePassNeedsMonotonicity()
    ensures var fails := (s: seq<int>) => s == [0, 1] || s == [0] || s == [];
            && fails([0, 1])
            && Minimized([0, 1], 0, fails) == [0]
            && !OneMinimal([0], fails)
  {
    var fails := (s: seq<int>) => s == [0, 1] || s == [0] || s == [];
    assert Without([0, 1], 0) == [1] && Without([0, 1], 1) == [0] && Without([0], 0) == [];
    assert Minimized([0], 1, fails) == [0];
    assert Minimized([0, 1], 1, fails) == Minimized([0], 1, fails);
    assert fails(Without([0], 0));
  }

  // ---------------------------------------------------------------------------------------------------
  // Accepted-offset oracle
  // ---------------------------------------------------------------------------------------------------

  class AcceptedOffsetOracle {
    var accepted: int

    constructor ()
      ensures accepted == 0
    {
      accepted := 0;
    }

    method ObserveRequest(requestedOffset: int) returns (ok: bool)
      ensures ok <==> requestedOffset == accepted
    {
      ok := requestedOffset == accepted;
    }

    method Accept(rows: nat) returns (ok: bool)
      modifies this
      ensures ok <==> rows <= MAX_INT64 && old(accepted) + rows <= MAX_INT64
      ensures accepted == if ok then old(accepted) + rows else old(accepted)
    {
      if rows > MAX_INT64 || accepted + rows > MAX_INT64 {
        return false;
      }
      accepted := accepted + rows;
      return true;
    }
  }
}

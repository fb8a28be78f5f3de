/**
 Safety of the ReadRows stream over whole runs: accounting and offset discipline against any server,
 exactly-once delivery against a server that may fail anywhere but never invents or reorders rows.
 */
module ReadStreamSafety {
  import opened Wrappers
  import opened Retry
  import opened ReadStream
  import Fault

  // ---------------------------------------------------------------------------------------------------
  // The offset oracle on a log
  // ---------------------------------------------------------------------------------------------------

  /** The oracle's accepted offset after watching a log, or None once it has rejected an observation. */
  function OracleRun(log: seq<Observation>): Option<int>
    decreases |log|
  {
    if log == [] then Some(0)
    else
      var before := OracleRun(log[..|log| - 1]);
      if before.None? then None else OracleStep(before.value, log[|log| - 1])
  }

  function OracleStep(accepted: int, o: Observation): Option<int> {
    match o
    case OpenRequested(offset, _, _, _, _) => if offset == accepted then Some(accepted) else None
    case RowsAccepted(rows) => CheckedAdvance(accepted, rows)
    case _ => Some(accepted)
  }

  lemma OracleAppend(log: seq<Observation>, o: Observation)
    ensures OracleRun(log + [o]) ==
            if OracleRun(log).None? then None else OracleStep(OracleRun(log).value, o)
  {
    assert (log + [o])[..|log|] == log;
  }

  function AcceptedRows(log: seq<Observation>): nat
    decreases |log|
  {
    if log == [] then 0
    else
      var last := log[|log| - 1];
      AcceptedRows(log[..|log| - 1]) + (if last.RowsAccepted? then last.rows else 0)
  }

  method ShowOracle(oracle: Fault.AcceptedOffsetOracle, o: Observation) returns (ok: bool)
    modifies oracle
    ensures OracleStep(old(oracle.accepted), o) == if ok then Some(oracle.accepted) else None
  {
    ok := true;
    match o {
      case OpenRequested(offset, _, _, _, _) => ok := oracle.ObserveRequest(offset);
      case RowsAccepted(rows) => ok := oracle.Accept(rows);
      case _ =>
    }
  }

  /** Feeding a log to the oracle object gives the verdict of `OracleRun`. */
  method ReplayThroughOracle(log: seq<Observation>) returns (verdict: Option<int>)
    ensures verdict == OracleRun(log)
  {
    var oracle := new Fault.AcceptedOffsetOracle();
    for i := 0 to |log|
      invariant OracleRun(log[..i]) == Some(oracle.accepted)
    {
      assert log[..i + 1] == log[..i] + [log[i]];
      OracleAppend(log[..i], log[i]);
      var ok := ShowOracle(oracle, log[i]);
      if !ok {
        OracleRejectionIsFinal(log, i + 1);
        return None;
      }
    }
    assert log[..|log|] == log;
    return Some(oracle.accepted);
  }

  lemma {:induction false} OracleRejectionIsFinal(log: seq<Observation>, k: nat)
    requires k <= |log| && OracleRun(log[..k]).None?
    ensures OracleRun(log).None?
    decreases |log|
  {
    if k == |log| {
      assert log[..k] == log;
    } else {
      var shorter := log[..|log| - 1];
      assert shorter[..k] == log[..k];
      OracleRejectionIsFinal(shorter, k);
    }
  }

  /**
   What the oracle's approval means: every open asked for exactly the rows accepted before it, and the
   total never left the range of an offset.
   */
  lemma {:induction false} OracleMeaning(log: seq<Observation>)
    ensures OracleRun(log).Some? <==>
            && (forall i :: 0 <= i < |log| && log[i].OpenRequested? ==> log[i].offset == AcceptedRows(log[..i]))
            && AcceptedRows(log) <= MAX_INT64
    ensures OracleRun(log).Some? ==> OracleRun(log).value == AcceptedRows(log)
    decreases |log|
  {
    if log != [] {
      var shorter := log[..|log| - 1];
      OracleMeaning(shorter);
      assert forall i :: 0 <= i <= |shorter| ==> shorter[..i] == log[..i];
    }
  }

  // ---------------------------------------------------------------------------------------------------
  // Accounting invariant
  // ---------------------------------------------------------------------------------------------------

  /** Memory is free and the deadline is respected at one observation. */
  predicate QuietAndTimely(cfg: Config, o: Observation) {
    match o
    case OpenRequested(_, _, now, timeout, reserved) =>
      reserved == 0 && now + timeout <= cfg.budget.EffectiveDeadline() && timeout <= cfg.idleTimeout
    case MessageAwaited(now, timeout, reserved) =>
      reserved == 0 && now + timeout <= cfg.budget.EffectiveDeadline() && timeout <= cfg.idleTimeout
    case RetryDelayed(now, delay, reserved) =>
      reserved == 0 && now + delay + cfg.budget.attemptTimeout <= cfg.budget.EffectiveDeadline()
    case RowsAccepted(_) => true
  }

  /** The attempt numbers of the opens in a log. */
  function Attempts(log: seq<Observation>): seq<nat>
    decreases |log|
  {
    if log == [] then []
    else
      var last := log[|log| - 1];
      Attempts(log[..|log| - 1]) + (if last.OpenRequested? then [last.attempt] else [])
  }

  function OneTo(n: nat): (r: seq<nat>)
    ensures |r| == n
  {
    if n == 0 then [] else OneTo(n - 1) + [n]
  }

  predicate LogInvariant(cfg: Config, c: Client) {
    && OracleRun(c.log) == Some(c.acceptedOffset)
    && Attempts(c.log) == OneTo(c.rpcAttempts)
    && forall i :: 0 <= i < |c.log| ==> QuietAndTimely(cfg, c.log[i])
  }

  predicate Counters(cfg: Config, c: Client) {
    && 0 <= c.acceptedOffset <= MAX_INT64
    && (c.retries > 0 ==> c.rpcAttempt <= cfg.budget.maxAttempts)
    && c.outputRows == c.acceptedOffset
    && c.rpcAttempt == c.retries + 1 <= MAX_ATTEMPT
    && c.retries <= c.rpcAttempts <= c.retries + 1
  }

  predicate Inv(cfg: Config, c: Client) {
    LogInvariant(cfg, c) && Counters(cfg, c)
  }

  /** Between passes of the loop: an open stream accounts for the one open that no retry has answered. */
  predicate Balanced(c: Client) {
    c.rpcAttempts == c.retries + (if c.current.Some? then 1 else 0)
  }

  /** A state in which the loop is about to wait for the network. */
  predicate Idle(cfg: Config, c: Client) {
    Inv(cfg, c) && Balanced(c) && c.reserved == 0
  }

  lemma Observed(cfg: Config, c: Client, o: Observation)
    requires LogInvariant(cfg, c) && QuietAndTimely(cfg, o)
    requires !o.RowsAccepted? && (o.OpenRequested? ==> o.offset == c.acceptedOffset && o.attempt == c.rpcAttempts + 1)
    ensures LogInvariant(cfg, c.(
                              log := c.log + [o],
                              rpcAttempts := c.rpcAttempts + (if o.OpenRequested? then 1 else 0)))
  {
    OracleAppend(c.log, o);
    assert (c.log + [o])[..|c.log|] == c.log;
  }

  /** The state `retry_or_fail` starts from: one open unanswered, no memory held. */
  predicate Interrupted(cfg: Config, c: Client) {
    Inv(cfg, c) && c.reserved == 0 && c.rpcAttempts == c.retries + 1
  }

  ghost predicate RetryIsSafe(cfg: Config, c: Client, next: Next) {
    && Inv(cfg, next.client)
    && (next.outcome.Continue? ==> Idle(cfg, next.client) && next.client.current.None?)
    && (next.outcome.Continue? || next.outcome.Failed?)
    && next.client.acceptedOffset == c.acceptedOffset
    && next.client.finished == c.finished
  }

  lemma PlannedRetryKeepsInvariant(cfg: Config, c: Client, now: nat, plan: Plan)
    requires Interrupted(cfg, c)
    requires plan.attempt == c.rpcAttempt + 1 <= MAX_ATTEMPT && plan.attempt <= cfg.budget.maxAttempts
    requires now + plan.delay + cfg.budget.attemptTimeout <= cfg.budget.EffectiveDeadline()
    ensures Idle(cfg, PlannedRetry(c, now, plan))
  {
    if plan.delay != 0 {
      Observed(cfg, c, RetryDelayed(now, plan.delay, c.reserved));
    }
  }

  /** A planned retry is the next attempt and leaves a whole attempt before the deadline. */
  lemma PlanIsTimely(budget: Budget, previous: nat, now: nat, completed: nat, proposed: Delay)
    ensures var plan := PlanRetry(budget, previous, now, completed, proposed);
            plan.Success? ==>
              && plan.value.attempt == completed + 1 <= MAX_ATTEMPT
              && plan.value.attempt <= budget.maxAttempts
              && now + plan.value.delay + budget.attemptTimeout <= budget.EffectiveDeadline()
  {
  }

  lemma FollowPlanKeepsInvariant(cfg: Config, c: Client, now: nat, plan: Result<Plan, BudgetError>)
    requires Interrupted(cfg, c)
    requires plan.Success? ==>
               && plan.value.attempt == c.rpcAttempt + 1 <= MAX_ATTEMPT
               && plan.value.attempt <= cfg.budget.maxAttempts
               && now + plan.value.delay + cfg.budget.attemptTimeout <= cfg.budget.EffectiveDeadline()
    ensures RetryIsSafe(cfg, c, FollowPlan(c, now, plan))
  {
    if plan.Success? {
      PlannedRetryKeepsInvariant(cfg, c, now, plan.value);
    }
  }

  lemma RetryAfterKeepsInvariant(cfg: Config, c: Client, serverDelay: Option<nat>, now: nat, backoff: Option<nat>)
    requires Interrupted(cfg, c)
    ensures RetryIsSafe(cfg, c, RetryAfter(cfg, c, serverDelay, now, backoff))
  {
    if c.failureStreak + 1 <= MAX_ATTEMPT && backoff.Some? {
      var streaked := c.(failureStreak := c.failureStreak + 1);
      var proposed := ProposedDelay(serverDelay, backoff.value);
      PlanIsTimely(cfg.budget, c.previousObservation, now, c.rpcAttempt, proposed);
      FollowPlanKeepsInvariant(cfg, streaked, now,
                               PlanRetry(cfg.budget, c.previousObservation, now, c.rpcAttempt, proposed));
    }
  }

  lemma RetryKeepsInvariant(cfg: Config, c: Client, failure: AttemptFailure, t: Turn)
    requires Interrupted(cfg, c)
    ensures RetryIsSafe(cfg, c, RetryOrFail(cfg, c, failure, t))
  {
    if failure.Classified? && failure.decision.Retried?
       && (c.progressStarted.Some? ==> c.progressStarted.value <= t.retryNow) {
      RetryAfterKeepsInvariant(cfg, AfterProgress(c, t.retryNow), failure.decision.serverDelay, t.retryNow,
                               t.jitteredBackoff);
    }
  }

  lemma DecodeKeepsInvariant(cfg: Config, c: Client, m: Message, now: nat)
    requires Idle(cfg, c) && c.current.Some? && m.Response?
    ensures var next := DecodeResponse(cfg, c, m, now);
            && Inv(cfg, next.client) && Balanced(next.client)
            && (next.outcome.Continue? ==> Idle(cfg, next.client))
            && (next.outcome.Yield? ==>
                  && m.prepared.RowsReady? && next.client.reserved == m.prepared.upperBound
                  && next.client.acceptedOffset == c.acceptedOffset + |next.outcome.batch|
                  && next.outcome.batch == ProjectRows(cfg.projection, m.rows))
            && (!next.outcome.Yield? ==> next.client.acceptedOffset == c.acceptedOffset)
            && next.client.current == c.current
            && next.client.finished == c.finished
            && !next.outcome.Ended?
  {
    if DecodeResponse(cfg, c, m, now).outcome.Yield? {
      var o := RowsAccepted(|m.rows|);
      OracleAppend(c.log, o);
      assert (c.log + [o])[..|c.log|] == c.log;
    }
  }

  /** What one pass of the loop guarantees against any server. */
  ghost predicate PassIsSafe(cfg: Config, c: Client, t: Turn, next: Next) {
    && Inv(cfg, next.client)
    && (next.outcome.Continue? ==> Idle(cfg, next.client))
    && (next.outcome.Ended? ==> next.client.current.Some? && Idle(cfg, next.client))
    && (next.outcome.Yield? ==>
          && Balanced(next.client) && t.message.Response? && t.message.prepared.RowsReady?
          && next.client.reserved == t.message.prepared.upperBound
          && next.outcome.batch == ProjectRows(cfg.projection, t.message.rows)
          && next.client.acceptedOffset == c.acceptedOffset + |next.outcome.batch|)
    && (!next.outcome.Yield? ==> next.client.acceptedOffset == c.acceptedOffset)
    && next.client.finished == c.finished
  }

  lemma ReceiveIsSafe(cfg: Config, c: Client, t: Turn)
    requires Idle(cfg, c) && c.current.Some?
    ensures PassIsSafe(cfg, c, t, Receive(cfg, c, t))
  {
    var wait := WaitTimeout(cfg, t.waitNow);
    if wait.Success? {
      var o := MessageAwaited(t.waitNow, wait.value.0, c.reserved);
      Observed(cfg, c, o);
      var waited := c.(log := c.log + [o]);
      match t.message {
        case Response(rows, _, _, _, _, _, _, _) =>
          DecodeKeepsInvariant(cfg, Counted(waited, |rows|), t.message, t.acceptNow);
        case Status(decision) => RetryKeepsInvariant(cfg, waited.(current := None), Classified(decision), t);
        case Closed =>
        case TimedOut => RetryKeepsInvariant(cfg, waited.(current := None), IDLE_TIMEOUT, t);
      }
    }
  }

  lemma IterateIsSafe(cfg: Config, c: Client, t: Turn)
    requires Idle(cfg, c)
    ensures PassIsSafe(cfg, c, t, Iterate(cfg, c, t))
  {
    if c.current.Some? {
      ReceiveIsSafe(cfg, c, t);
    } else {
      var wait := WaitTimeout(cfg, t.openNow);
      if wait.Success? {
        Observed(cfg, c, OpenRequested(c.acceptedOffset, c.rpcAttempt, t.openNow, wait.value.0, c.reserved));
        var o := OpenStream(cfg, c, t);
        if o.failure.Some? {
          RetryKeepsInvariant(cfg, o.client, o.failure.value, t);
        } else {
          ReceiveIsSafe(cfg, o.client, t);
        }
      }
    }
  }

  /** A stream at rest between two polls: either finished, or holding at most the last batch's memory. */
  predicate AtRest(cfg: Config, c: Client) {
    Inv(cfg, c) && (!c.finished ==> Balanced(c)) && (c.finished ==> c.reserved == 0)
  }

  /** How many turns one call of `next_batch` uses up. */
  function Passes(cfg: Config, c: Client, turns: seq<Turn>): (n: nat)
    ensures n <= |turns|
    decreases |turns|
  {
    if turns == [] then 0
    else
      var first := Iterate(cfg, c, turns[0]);
      if first.outcome.Continue? then 1 + Passes(cfg, first.client, turns[1..]) else 1
  }

  /** The rows and the memory of a yield are those of the message that turn `n`, counted from 1, delivered. */
  ghost predicate YieldsMessage(cfg: Config, turns: seq<Turn>, n: nat, next: Next) {
    && 0 < n <= |turns|
    && next.outcome.Yield?
    && var m := turns[n - 1].message;
       && m.Response? && m.prepared.RowsReady?
       && next.client.reserved == m.prepared.upperBound
       && next.outcome.batch == ProjectRows(cfg.projection, m.rows)
  }

  lemma YieldsLater(cfg: Config, turns: seq<Turn>, n: nat, next: Next)
    requires turns != [] && YieldsMessage(cfg, turns[1..], n, next)
    ensures YieldsMessage(cfg, turns, n + 1, next)
  {
    assert turns[1..][n - 1] == turns[n];
  }

  lemma {:induction false} NextBatchIsSafe(cfg: Config, c: Client, turns: seq<Turn>)
    requires Idle(cfg, c)
    ensures var next := NextBatch(cfg, c, turns);
            && Inv(cfg, next.client)
            && (next.outcome.Continue? || next.outcome.Ended? ==> Idle(cfg, next.client))
            && (next.outcome.Yield? ==>
                  && Balanced(next.client)
                  && next.client.acceptedOffset == c.acceptedOffset + |next.outcome.batch|
                  && YieldsMessage(cfg, turns, Passes(cfg, c, turns), next))
            && (!next.outcome.Yield? ==> next.client.acceptedOffset == c.acceptedOffset)
            && next.client.finished == c.finished
    decreases |turns|
  {
    if turns != [] {
      IterateIsSafe(cfg, c, turns[0]);
      var first := Iterate(cfg, c, turns[0]);
      if first.outcome.Continue? {
        NextBatchIsSafe(cfg, first.client, turns[1..]);
        var next := NextBatch(cfg, first.client, turns[1..]);
        if next.outcome.Yield? {
          YieldsLater(cfg, turns, Passes(cfg, first.client, turns[1..]), next);
        }
      }
    }
  }

  /**
   One poll: rows are emitted exactly when the offset advances over them, a failure or a clean end moves
   nothing, and the only memory ever kept is the bound of the message just yielded, which the last turn
   the poll used delivered.
   */
  lemma PollIsSafe(cfg: Config, c: Client, turns: seq<Turn>)
    requires AtRest(cfg, c)
    ensures var next := Poll(cfg, c, turns);
            && AtRest(cfg, next.client)
            && next.client.acceptedOffset == c.acceptedOffset + |Emission(next.outcome)|
            && (next.client.finished <==> next.outcome.Ended? || next.outcome.Failed?)
            && (!next.outcome.Yield? ==> next.client.reserved == 0)
            && (next.outcome.Yield? ==>
                  YieldsMessage(cfg, turns, Passes(cfg, c.(reserved := 0), turns), next))
  {
    if !c.finished {
      NextBatchIsSafe(cfg, c.(reserved := 0), turns);
    }
  }

  lemma {:induction false} ConsumeIsSafe(cfg: Config, c: Client, polls: seq<seq<Turn>>)
    requires AtRest(cfg, c)
    ensures var run := Consume(cfg, c, polls);
            AtRest(cfg, run.client) && run.client.acceptedOffset == c.acceptedOffset + |run.emitted|
    decreases |polls|
  {
    if polls != [] {
      PollIsSafe(cfg, c, polls[0]);
      var next := Poll(cfg, c, polls[0]);
      if next.outcome.Yield? {
        ConsumeIsSafe(cfg, next.client, polls[1..]);
      }
    }
  }

  /**
   Against any server and any schedule of failures: the oracle approves the run's log, the counters
   agree, opens carry attempts 1, 2, 3, ... and stay within the budget, every open asks for the rows already
   emitted, and memory and deadlines are respected at every wait.
   */
  lemma EveryRunIsAccounted(cfg: Config, started: nat, polls: seq<seq<Turn>>)
    ensures var run := Consume(cfg, Initial(started), polls);
            && OracleRun(run.client.log) == Some(|run.emitted|)
            && run.client.acceptedOffset == run.client.outputRows == |run.emitted|
            && Attempts(run.client.log) == OneTo(run.client.rpcAttempts)
            && (!run.client.finished ==>
                  run.client.rpcAttempts == run.client.retries + (if run.client.current.Some? then 1 else 0))
            && run.client.rpcAttempt == run.client.retries + 1
            && (cfg.budget.maxAttempts > 0 ==> run.client.rpcAttempts <= cfg.budget.maxAttempts)
            && (forall i :: 0 <= i < |run.client.log| ==> QuietAndTimely(cfg, run.client.log[i]))
            && (forall i :: 0 <= i < |run.client.log| && run.client.log[i].OpenRequested? ==>
                  run.client.log[i].offset == AcceptedRows(run.client.log[..i]))
  {
    ConsumeIsSafe(cfg, Initial(started), polls);
    OracleMeaning(Consume(cfg, Initial(started), polls).client.log);
  }

  // ---------------------------------------------------------------------------------------------------
  // Exactly-once delivery
  // ---------------------------------------------------------------------------------------------------

  /** The offset the newest observation of a log requests, if it is an open. */
  function Requested(log: seq<Observation>): Option<int> {
    if log != [] && log[|log| - 1].OpenRequested? then Some(log[|log| - 1].offset) else None
  }

  /** Where the server's cursor stands when it sends a message: where the open stream has got to, or at the
   offset the pass's own open asked for. */
  function Cursor(cfg: Config, c: Client, t: Turn): Option<int> {
    if c.current.Some? then Some(c.current.value.next)
    else if OpenStream(cfg, c, t).failure.Some? then None
    else Requested(OpenStream(cfg, c, t).client.log)
  }

  /**
   The server's side of one pass: what it sends on a stream opened at k is table[k..] cut into
   contiguous messages, it closes only at the end of the table, and a message without a payload carries
   no rows. It may fail, or make the client's decoding fail, at any point.
   */
  predicate ServesHonestly(cfg: Config, table: seq<Row>, c: Client, t: Turn) {
    var cursor := Cursor(cfg, c, t);
    cursor.None?
    || match t.message
       case Response(rows, _, _, _, prepared, _, _, _) =>
         && 0 <= cursor.value && cursor.value + |rows| <= |table|
         && rows == table[cursor.value..cursor.value + |rows|]
         && (prepared.NoRows? ==> rows == [])
       case Closed => cursor.value == |table|
       case _ => true
  }

  predicate ServesTurns(cfg: Config, table: seq<Row>, c: Client, turns: seq<Turn>)
    decreases |turns|
  {
    turns == []
    || (&& ServesHonestly(cfg, table, c, turns[0])
        && var first := Iterate(cfg, c, turns[0]);
           first.outcome.Continue? ==> ServesTurns(cfg, table, first.client, turns[1..]))
  }

  predicate ServesRun(cfg: Config, table: seq<Row>, c: Client, polls: seq<seq<Turn>>)
    decreases |polls|
  {
    polls == []
    || (&& ServesTurns(cfg, table, c.(reserved := 0), polls[0])
        && var next := Poll(cfg, c, polls[0]);
           next.outcome.Yield? ==> ServesRun(cfg, table, next.client, polls[1..]))
  }

  /** The server's cursor is where the client believes it is, and inside the table. */
  predicate Aligned(table: seq<Row>, c: Client) {
    && 0 <= c.acceptedOffset <= |table|
    && (c.current.Some? ==> c.current.value.next == c.acceptedOffset)
  }

  /** The rows the client gained between two states are the table's rows between the two offsets. */
  predicate Delivers(cfg: Config, table: seq<Row>, c: Client, next: Next) {
    && Aligned(table, c)
    && c.acceptedOffset <= next.client.acceptedOffset <= |table|
    && Emission(next.outcome) ==
       ProjectRows(cfg.projection, table[c.acceptedOffset..next.client.acceptedOffset])
    && (next.outcome.Continue? || next.outcome.Yield? ==> Aligned(table, next.client))
    && (next.outcome.Ended? ==> next.client.acceptedOffset == |table|)
  }

  lemma ReceiveDelivers(cfg: Config, table: seq<Row>, c: Client, t: Turn)
    requires Aligned(table, c) && c.current.Some? && ServesHonestly(cfg, table, c, t)
    ensures Delivers(cfg, table, c, Receive(cfg, c, t))
  {
    var next := Receive(cfg, c, t);
    assert table[c.acceptedOffset..c.acceptedOffset] == [];
    if next.outcome.Yield? {
      assert next.outcome.batch == ProjectRows(cfg.projection, t.message.rows);
    }
  }

  lemma IterateDelivers(cfg: Config, table: seq<Row>, c: Client, t: Turn)
    requires Aligned(table, c) && ServesHonestly(cfg, table, c, t)
    ensures Delivers(cfg, table, c, Iterate(cfg, c, t))
  {
    if c.current.Some? {
      ReceiveDelivers(cfg, table, c, t);
    } else {
      var o := OpenStream(cfg, c, t);
      if o.failure.None? {
        ReceiveDelivers(cfg, table, o.client, t);
      } else {
        assert table[c.acceptedOffset..c.acceptedOffset] == [];
      }
    }
  }

  lemma {:induction false} NextBatchDelivers(cfg: Config, table: seq<Row>, c: Client, turns: seq<Turn>)
    requires Aligned(table, c) && ServesTurns(cfg, table, c, turns)
    ensures Delivers(cfg, table, c, NextBatch(cfg, c, turns))
    decreases |turns|
  {
    assert table[c.acceptedOffset..c.acceptedOffset] == [];
    if turns != [] {
      IterateDelivers(cfg, table, c, turns[0]);
      var first := Iterate(cfg, c, turns[0]);
      if first.outcome.Continue? {
        assert first.client.acceptedOffset == c.acceptedOffset by {
          assert |ProjectRows(cfg.projection, table[c.acceptedOffset..first.client.acceptedOffset])| == 0;
        }
        NextBatchDelivers(cfg, table, first.client, turns[1..]);
      }
    }
  }

  lemma ProjectRowsConcat(projection: seq<nat>, a: seq<Row>, b: seq<Row>)
    ensures ProjectRows(projection, a + b) == ProjectRows(projection, a) + ProjectRows(projection, b)
  {
  }

  /** One poll of a stream at rest delivers the rows its offset moves over, or ends with the table. */
  lemma PollDelivers(cfg: Config, table: seq<Row>, c: Client, turns: seq<Turn>)
    requires AtRest(cfg, c) && Aligned(table, c) && !c.finished && ServesTurns(cfg, table, c.(reserved := 0), turns)
    ensures var next := Poll(cfg, c, turns);
            && c.acceptedOffset <= next.client.acceptedOffset <= |table|
            && Emission(next.outcome) ==
               ProjectRows(cfg.projection, table[c.acceptedOffset..next.client.acceptedOffset])
            && (next.outcome.Yield? ==>
                  AtRest(cfg, next.client) && Aligned(table, next.client) && !next.client.finished)
            && (next.outcome.Ended? ==> next.client.acceptedOffset == |table|)
  {
    NextBatchDelivers(cfg, table, c.(reserved := 0), turns);
    PollIsSafe(cfg, c, turns);
  }

  lemma DeliveriesJoin(projection: seq<nat>, table: seq<Row>, a: nat, b: nat, e: nat)
    requires a <= b <= e <= |table|
    ensures ProjectRows(projection, table[a..e]) ==
            ProjectRows(projection, table[a..b]) + ProjectRows(projection, table[b..e])
  {
    assert table[a..e] == table[a..b] + table[b..e];
    ProjectRowsConcat(projection, table[a..b], table[b..e]);
  }

  lemma {:induction false} ConsumeDelivers(cfg: Config, table: seq<Row>, c: Client, polls: seq<seq<Turn>>)
    requires AtRest(cfg, c) && Aligned(table, c) && !c.finished && ServesRun(cfg, table, c, polls)
    ensures var run := Consume(cfg, c, polls);
            && c.acceptedOffset <= run.client.acceptedOffset <= |table|
            && run.emitted == ProjectRows(cfg.projection, table[c.acceptedOffset..run.client.acceptedOffset])
            && (run.outcome.Ended? ==> run.client.acceptedOffset == |table|)
    decreases |polls|
  {
    if polls == [] {
      assert table[c.acceptedOffset..c.acceptedOffset] == [];
    } else {
      PollDelivers(cfg, table, c, polls[0]);
      var next := Poll(cfg, c, polls[0]);
      if next.outcome.Yield? {
        ConsumeDelivers(cfg, table, next.client, polls[1..]);
        DeliveriesJoin(cfg.projection, table, c.acceptedOffset, next.client.acceptedOffset,
                       Consume(cfg, next.client, polls[1..]).client.acceptedOffset);
      }
    }
  }

  /**
   Exactly-once delivery. However opens, messages, timeouts, admissions and decodes fail, the rows emitted
   so far are the first `acceptedOffset` rows of the table, each once and in order; a clean end has
   emitted the whole table.
   */
  lemma ExactlyOnce(cfg: Config, table: seq<Row>, started: nat, polls: seq<seq<Turn>>)
    requires ServesRun(cfg, table, Initial(started), polls)
    ensures var run := Consume(cfg, Initial(started), polls);
            && 0 <= run.client.acceptedOffset <= |table|
            && run.emitted == ProjectRows(cfg.projection, table[..run.client.acceptedOffset])
            && (run.outcome.Ended? ==> run.emitted == ProjectRows(cfg.projection, table))
  {
    ConsumeDelivers(cfg, table, Initial(started), polls);
    var run := Consume(cfg, Initial(started), polls);
    assert table[0..run.client.acceptedOffset] == table[..run.client.acceptedOffset];
    assert table[..|table|] == table;
  }

  /** Two clean runs over one table emit the same rows, whatever failed in either of them. */
  lemma FailuresAreInvisible(
    cfg: Config, table: seq<Row>, started: nat, polls: seq<seq<Turn>>, started': nat, polls': seq<seq<Turn>>)
    requires ServesRun(cfg, table, Initial(started), polls)
    requires ServesRun(cfg, table, Initial(started'), polls')
    requires Consume(cfg, Initial(started), polls).outcome.Ended?
    requires Consume(cfg, Initial(started'), polls').outcome.Ended?
    ensures Consume(cfg, Initial(started), polls).emitted == Consume(cfg, Initial(started'), polls').emitted
  {
    ExactlyOnce(cfg, table, started, polls);
    ExactlyOnce(cfg, table, started', polls');
  }

  /** A projection onto no column still counts the rows. */
  lemma ZeroColumnsKeepTheRowCount(cfg: Config, table: seq<Row>, started: nat, polls: seq<seq<Turn>>)
    requires cfg.projection == [] && ServesRun(cfg, table, Initial(started), polls)
    requires Consume(cfg, Initial(started), polls).outcome.Ended?
    ensures Consume(cfg, Initial(started), polls).emitted == seq(|table|, _ => [])
  {
    ExactlyOnce(cfg, table, started, polls);
  }
}

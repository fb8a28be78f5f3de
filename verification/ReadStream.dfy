/**
 One partition's ReadRows stream (read_stream.rs): open, wait, decode, accept, and resume at the accepted
 offset after a failure. Everything the client does not decide (clock readings, replies, memory
 admission, decoding, jitter) is supplied by a `Turn`, one per pass of the loop in `next_batch`. A statement over
 all turns is therefore a statement over every server, clock and schedule of failures.
 */
module ReadStream {
  import opened Wrappers
  import opened Retry

  const MAX_PROGRESS_ROWS: nat := 0xFFFF_FFFF_FFFF_FFFF
  const MAX_USIZE: nat := 0xFFFF_FFFF_FFFF_FFFF

  type Cell = int
  type Row = seq<Cell>

  datatype Reason =
    | Remote(code: nat)
    | SessionExpired
    | RetryBudgetExhausted
    | Schema
    | Decode
    | OffsetOverflow
    | LocalResource

  datatype Decision = Retried(serverDelay: Option<nat>) | Permanent(reason: Reason)

  /** Why an attempt failed: already terminal, or classified by the retry policy. */
  datatype AttemptFailure = Terminal(reason: Reason) | Classified(decision: Decision)

  const IDLE_TIMEOUT := Classified(Retried(None))
  const SESSION_EXPIRED := Classified(Permanent(SessionExpired))

  datatype Prepared = PrepareFailed | NoRows | RowsReady(upperBound: nat)

  datatype OpenReply = Opened | OpenFailed(decision: Decision) | OpenTimedOut

  datatype Message =
    | Response(
        rows: seq<Row>,
        payloadLength: nat,
        serializedAdmitted: bool,
        permitAcquired: bool,
        prepared: Prepared,
        decodedAdmitted: bool,
        decoded: bool,
        outputValid: bool)
    | Status(decision: Decision)
    | Closed
    | TimedOut

  /** Everything the environment answers during one pass of the loop. */
  datatype Turn = Turn(
    openNow: nat,
    open: OpenReply,
    waitNow: nat,
    message: Message,
    acceptNow: nat,
    retryNow: nat,
    jitteredBackoff: Option<nat>)

  datatype Config = Config(budget: Budget, idleTimeout: nat, projection: seq<nat>, width: nat)

  /** The far end of an open call. The client never reads `next`; the server advances it. */
  datatype RemoteStream = RemoteStream(next: int)

  datatype Client = Client(
    current: Option<RemoteStream>,
    acceptedOffset: int,
    rpcAttempt: nat,
    failureStreak: nat,
    progressStarted: Option<nat>,
    progressRows: nat,
    previousObservation: nat,
    responseOrdinal: nat,
    reserved: nat,
    rpcAttempts: nat,
    responses: nat,
    retries: nat,
    outputRows: nat,
    finished: bool,
    log: seq<Observation>)

  /** What an observer of the network, the clock, the memory pool and the offset sees. */
  datatype Observation =
    | OpenRequested(offset: int, attempt: nat, now: nat, timeout: nat, reserved: nat)
    | MessageAwaited(now: nat, timeout: nat, reserved: nat)
    | RetryDelayed(now: nat, delay: nat, reserved: nat)
    | RowsAccepted(rows: nat)

  datatype Outcome = Continue | Yield(batch: seq<Row>) | Ended | Failed(reason: Reason)

  datatype Next = Next(client: Client, outcome: Outcome)

  function Initial(started: nat): Client {
    Client(None, 0, 1, 0, None, 0, started, 0, 0, 0, 0, 0, 0, false, [])
  }

  // ---------------------------------------------------------------------------------------------------
  // What each operation computes
  // ---------------------------------------------------------------------------------------------------

  function DeadlineReason(cfg: Config): Reason {
    if cfg.budget.IsSessionLimited() then SessionExpired else RetryBudgetExhausted
  }

  /** The timeout of a network wait that starts at `now`, and whether the session bounds it. */
  function WaitTimeout(cfg: Config, now: nat): (r: Result<(nat, bool), Reason>)
    ensures r.Success? <==> now <= cfg.budget.EffectiveDeadline()
    ensures r.Success? ==> now + r.value.0 <= cfg.budget.EffectiveDeadline() && r.value.0 <= cfg.idleTimeout
    ensures r.Success? ==> r.value.0 == cfg.idleTimeout || now + r.value.0 == cfg.budget.EffectiveDeadline()
    ensures r.Success? ==>
              (r.value.1 <==>
                 cfg.budget.IsSessionLimited() && cfg.budget.EffectiveDeadline() <= now + cfg.idleTimeout)
    ensures r.Failure? ==>
              r.error == if cfg.budget.IsSessionLimited() then SessionExpired else RetryBudgetExhausted
  {
    var deadline := cfg.budget.EffectiveDeadline();
    if deadline < now then Failure(DeadlineReason(cfg))
    else
      var remaining := deadline - now;
      Success((
                if remaining < cfg.idleTimeout then remaining else cfg.idleTimeout,
                remaining <= cfg.idleTimeout && cfg.budget.IsSessionLimited()))
  }

  function CheckedAdvance(offset: int, rows: nat): Option<int> {
    if rows <= MAX_INT64 && offset + rows <= MAX_INT64 then Some(offset + rows) else None
  }

  predicate CanProject(cfg: Config) {
    forall k :: 0 <= k < |cfg.projection| ==> cfg.projection[k] < cfg.width
  }

  /** One output row. The session schema fixes the width of every decoded row. */
  function ProjectRow(projection: seq<nat>, row: Row): Row {
    seq(|projection|, k requires 0 <= k < |projection| =>
      if projection[k] < |row| then row[projection[k]] else 0)
  }

  function ProjectRows(projection: seq<nat>, rows: seq<Row>): seq<Row> {
    seq(|rows|, i requires 0 <= i < |rows| => ProjectRow(projection, rows[i]))
  }

  function Min(a: nat, b: nat): nat { if a < b then a else b }

  function AcceptRows(cfg: Config, c: Client, rows: seq<Row>, outputValid: bool, now: nat): Next {
    var next := CheckedAdvance(c.acceptedOffset, |rows|);
    if next.None? then Next(c, Failed(OffsetOverflow))
    else if !CanProject(cfg) || !outputValid then Next(c, Failed(Schema))
    else
      var accepted := c.(
          acceptedOffset := next.value,
          outputRows := c.outputRows + |rows|,
          log := c.log + [RowsAccepted(|rows|)]);
      var progressed :=
        if |rows| > 0 then
          accepted.(
            progressStarted := if c.progressStarted.None? then Some(now) else c.progressStarted,
            progressRows := Min(c.progressRows + |rows|, MAX_PROGRESS_ROWS))
        else accepted;
      Next(progressed, Yield(ProjectRows(cfg.projection, rows)))
  }

  function DecodeResponse(cfg: Config, c: Client, m: Message, now: nat): Next
    requires m.Response?
  {
    if !m.serializedAdmitted then Next(c, Failed(LocalResource))
    else
      var serialized := c.(reserved := m.payloadLength);
      if !m.permitAcquired then Next(serialized, Failed(LocalResource))
      else match m.prepared
        case PrepareFailed => Next(serialized, Failed(Decode))
        case NoRows => Next(serialized.(reserved := 0), Continue)
        case RowsReady(upperBound) =>
          if !m.decodedAdmitted then Next(serialized, Failed(LocalResource))
          else
            var admitted := serialized.(reserved := upperBound);
            if !m.decoded then Next(admitted, Failed(Decode))
            else AcceptRows(cfg, admitted, m.rows, m.outputValid, now)
  }

  /** The failure streak and progress window after accounting for sustained accepted progress. */
  function AfterProgress(c: Client, now: nat): Client {
    if c.progressStarted.None? then c
    else if c.progressRows > 0
         && now - c.progressStarted.value >= SUSTAINED_ACCEPTED_PROGRESS then
      c.(failureStreak := 0, progressStarted := None, progressRows := 0)
    else if c.failureStreak == 0 then c.(progressStarted := None, progressRows := 0)
    else c
  }

  function ProposedDelay(serverDelay: Option<nat>, backoff: nat): Delay {
    match serverDelay
    case Some(delay) => ServerMinimum(if delay < backoff then backoff else delay)
    case None => Backoff(backoff)
  }

  /** Commits a planned retry; the sleep itself is observed only when it is not empty. */
  function PlannedRetry(c: Client, now: nat, plan: Plan): Client {
    c.(
    retries := c.retries + 1,
    previousObservation := now,
    rpcAttempt := plan.attempt,
    current := None,
    log := if plan.delay == 0 then c.log else c.log + [RetryDelayed(now, plan.delay, c.reserved)])
  }

  /** The part of `retry_or_fail` that follows a decision to retry. */
  function RetryAfter(cfg: Config, c: Client, serverDelay: Option<nat>, now: nat, backoff: Option<nat>): Next {
    if c.failureStreak + 1 > MAX_ATTEMPT then Next(c, Failed(RetryBudgetExhausted))
    else
      var streaked := c.(failureStreak := c.failureStreak + 1);
      if backoff.None? then Next(streaked, Failed(RetryBudgetExhausted))
      else
        FollowPlan(streaked, now, PlanRetry(cfg.budget, c.previousObservation, now, c.rpcAttempt,
                                            ProposedDelay(serverDelay, backoff.value)))
  }

  function FollowPlan(c: Client, now: nat, plan: Result<Plan, BudgetError>): Next {
    if plan.Failure? then Next(c, Failed(RetryBudgetExhausted))
    else Next(PlannedRetry(c, now, plan.value), Continue)
  }

  function RetryOrFail(cfg: Config, c: Client, failure: AttemptFailure, t: Turn): Next {
    if t.retryNow >= cfg.budget.EffectiveDeadline() then Next(c, Failed(DeadlineReason(cfg)))
    else match failure
      case Terminal(reason) => Next(c, Failed(reason))
      case Classified(Permanent(reason)) => Next(c, Failed(reason))
      case Classified(Retried(serverDelay)) =>
        if c.progressStarted.Some? && t.retryNow < c.progressStarted.value then
          Next(c, Failed(RetryBudgetExhausted))
        else RetryAfter(cfg, AfterProgress(c, t.retryNow), serverDelay, t.retryNow, t.jitteredBackoff)
  }

  datatype OpenResult = OpenResult(client: Client, failure: Option<AttemptFailure>)

  function OpenStream(cfg: Config, c: Client, t: Turn): OpenResult {
    match WaitTimeout(cfg, t.openNow)
    case Failure(reason) => OpenResult(c, Some(Terminal(reason)))
    case Success((timeout, sessionLimited)) =>
      var request := OpenRequested(c.acceptedOffset, c.rpcAttempt, t.openNow, timeout, c.reserved);
      var counted := c.(rpcAttempts := c.rpcAttempts + 1, log := c.log + [request]);
      match t.open
      case Opened => OpenResult(counted.(current := Some(RemoteStream(request.offset))), None)
      case OpenFailed(decision) => OpenResult(counted, Some(Classified(decision)))
      case OpenTimedOut =>
        OpenResult(counted, Some(if sessionLimited then SESSION_EXPIRED else IDLE_TIMEOUT))
  }

  function Counted(c: Client, rows: nat): Client
    requires c.current.Some?
  {
    c.(
    current := Some(RemoteStream(c.current.value.next + rows)),
    responseOrdinal := Min(c.responseOrdinal + 1, MAX_USIZE),
    responses := c.responses + 1)
  }

  function Receive(cfg: Config, c: Client, t: Turn): Next
    requires c.current.Some?
  {
    match WaitTimeout(cfg, t.waitNow)
    case Failure(reason) => Next(c, Failed(reason))
    case Success((timeout, sessionLimited)) =>
      var waited := c.(log := c.log + [MessageAwaited(t.waitNow, timeout, c.reserved)]);
      match t.message
      case Response(rows, _, _, _, _, _, _, _) =>
        DecodeResponse(cfg, Counted(waited, |rows|), t.message, t.acceptNow)
      case Status(decision) => RetryOrFail(cfg, waited.(current := None), Classified(decision), t)
      case Closed => Next(waited, Ended)
      case TimedOut =>
        if sessionLimited then Next(waited, Failed(SessionExpired))
        else RetryOrFail(cfg, waited.(current := None), IDLE_TIMEOUT, t)
  }

  /** One pass of the loop in `next_batch`. */
  function Iterate(cfg: Config, c: Client, t: Turn): Next {
    if c.current.Some? then Receive(cfg, c, t)
    else
      var o := OpenStream(cfg, c, t);
      if o.failure.Some? then RetryOrFail(cfg, o.client, o.failure.value, t) else Receive(cfg, o.client, t)
  }

  /** The whole of `next_batch`; `Continue` means the turns ran out while the call was still waiting. */
  function NextBatch(cfg: Config, c: Client, turns: seq<Turn>): Next
    decreases |turns|
  {
    if turns == [] then Next(c, Continue)
    else
      var first := Iterate(cfg, c, turns[0]);
      if !first.outcome.Continue? then first else NextBatch(cfg, first.client, turns[1..])
  }

  /** One poll of the record batch stream: free the last batch's memory, then run `next_batch`. */
  function Poll(cfg: Config, c: Client, turns: seq<Turn>): Next {
    if c.finished then Next(c, Ended)
    else
      var next := NextBatch(cfg, c.(reserved := 0), turns);
      if next.outcome.Ended? || next.outcome.Failed? then
        next.(client := next.client.(finished := true, reserved := 0))
      else next
  }

  function Emission(outcome: Outcome): seq<Row> {
    if outcome.Yield? then outcome.batch else []
  }

  datatype Run = Run(client: Client, emitted: seq<Row>, outcome: Outcome)

  /** A consumer that polls until the stream stops yielding; each poll sees its own turns. */
  function Consume(cfg: Config, c: Client, polls: seq<seq<Turn>>): Run
    decreases |polls|
  {
    if polls == [] then Run(c, [], Continue)
    else
      var next := Poll(cfg, c, polls[0]);
      if !next.outcome.Yield? then Run(next.client, [], next.outcome)
      else
        var rest := Consume(cfg, next.client, polls[1..]);
        rest.(emitted := next.outcome.batch + rest.emitted)
  }

  // ---------------------------------------------------------------------------------------------------
  // The stateful stream
  // ---------------------------------------------------------------------------------------------------

  class ReadRowsStreamState {
    const cfg: Config
    var current: Option<RemoteStream>
    var acceptedOffset: int
    var rpcAttempt: nat
    var failureStreak: nat
    var progressStarted: Option<nat>
    var progressRows: nat
    var previousObservation: nat
    var responseOrdinal: nat
    var reserved: nat
    var rpcAttempts: nat
    var responses: nat
    var retries: nat
    var outputRows: nat
    var finished: bool
    ghost var log: seq<Observation>

    ghost function View(): Client
      reads this
    {
      Client(current, acceptedOffset, rpcAttempt, failureStreak, progressStarted, progressRows,
             previousObservation, responseOrdinal, reserved, rpcAttempts, responses, retries, outputRows,
             finished, log)
    }

    constructor (config: Config, started: nat)
      ensures cfg == config
      ensures View() == Initial(started)
      ensures current == None && acceptedOffset == 0 && rpcAttempt == 1 && failureStreak == 0 && !finished
      ensures progressStarted == None && progressRows == 0 && previousObservation == started
      ensures responseOrdinal == reserved == rpcAttempts == responses == retries == outputRows == 0 && log == []
    {
      cfg := config;
      current, acceptedOffset, rpcAttempt, failureStreak := None, 0, 1, 0;
      progressStarted, progressRows, previousObservation := None, 0, started;
      responseOrdinal, reserved, rpcAttempts, responses, retries, outputRows := 0, 0, 0, 0, 0, 0;
      finished := false;
      log := [];
    }

    method Accept(rows: seq<Row>, outputValid: bool, now: nat) returns (outcome: Outcome)
      modifies this
      ensures Next(View(), outcome) == AcceptRows(cfg, old(View()), rows, outputValid, now)
    {
      var next := CheckedAdvance(acceptedOffset, |rows|);
      if next.None? {
        return Failed(OffsetOverflow);
      }
      if !CanProject(cfg) || !outputValid {
        return Failed(Schema);
      }
      acceptedOffset := next.value;
      log := log + [RowsAccepted(|rows|)];
      outputRows := outputRows + |rows|;
      if |rows| > 0 {
        if progressStarted.None? {
          progressStarted := Some(now);
        }
        progressRows := Min(progressRows + |rows|, MAX_PROGRESS_ROWS);
      }
      return Yield(ProjectRows(cfg.projection, rows));
    }

    method DecodeMessage(m: Message, now: nat) returns (outcome: Outcome)
      requires m.Response?
      modifies this
      ensures Next(View(), outcome) == DecodeResponse(cfg, old(View()), m, now)
    {
      if !m.serializedAdmitted {
        return Failed(LocalResource);
      }
      reserved := m.payloadLength;
      if !m.permitAcquired {
        return Failed(LocalResource);
      }
      match m.prepared {
        case PrepareFailed =>
          return Failed(Decode);
        case NoRows =>
          reserved := 0;
          return Continue;
        case RowsReady(upperBound) =>
          if !m.decodedAdmitted {
            return Failed(LocalResource);
          }
          reserved := upperBound;
          if !m.decoded {
            return Failed(Decode);
          }
          outcome := Accept(m.rows, m.outputValid, now);
      }
    }

    method Retry(failure: AttemptFailure, t: Turn) returns (outcome: Outcome)
      modifies this
      ensures Next(View(), outcome) == RetryOrFail(cfg, old(View()), failure, t)
    {
      var now := t.retryNow;
      if now >= cfg.budget.EffectiveDeadline() {
        return Failed(DeadlineReason(cfg));
      }
      if failure.Terminal? {
        return Failed(failure.reason);
      }
      if failure.decision.Permanent? {
        return Failed(failure.decision.reason);
      }
      if progressStarted.Some? && now < progressStarted.value {
        return Failed(RetryBudgetExhausted);
      }
      SettleProgress(now);
      outcome := DelayRetry(failure.decision.serverDelay, now, t.jitteredBackoff);
    }

    method SettleProgress(now: nat)
      modifies this
      ensures View() == AfterProgress(old(View()), now)
    {
      if progressStarted.Some? {
        if progressRows > 0 && now - progressStarted.value >= SUSTAINED_ACCEPTED_PROGRESS {
          failureStreak := 0;
        }
        if failureStreak == 0 {
          progressStarted := None;
          progressRows := 0;
        }
      }
    }

    method DelayRetry(serverDelay: Option<nat>, now: nat, backoff: Option<nat>) returns (outcome: Outcome)
      modifies this
      ensures Next(View(), outcome) == RetryAfter(cfg, old(View()), serverDelay, now, backoff)
    {
      if failureStreak + 1 > MAX_ATTEMPT {
        return Failed(RetryBudgetExhausted);
      }
      failureStreak := failureStreak + 1;
      if backoff.None? {
        return Failed(RetryBudgetExhausted);
      }
      var plan := PlanRetry(cfg.budget, previousObservation, now, rpcAttempt,
                            ProposedDelay(serverDelay, backoff.value));
      outcome := Follow(now, plan);
    }

    method Follow(now: nat, plan: Result<Plan, BudgetError>) returns (outcome: Outcome)
      modifies this
      ensures Next(View(), outcome) == FollowPlan(old(View()), now, plan)
    {
      if plan.Failure? {
        return Failed(RetryBudgetExhausted);
      }
      retries := retries + 1;
      if plan.value.delay != 0 {
        log := log + [RetryDelayed(now, plan.value.delay, reserved)];
      }
      previousObservation := now;
      rpcAttempt := plan.value.attempt;
      current := None;
      return Continue;
    }

    method Open(t: Turn) returns (failure: Option<AttemptFailure>)
      modifies this
      ensures OpenResult(View(), failure) == OpenStream(cfg, old(View()), t)
    {
      var wait := WaitTimeout(cfg, t.openNow);
      if wait.Failure? {
        return Some(Terminal(wait.error));
      }
      rpcAttempts := rpcAttempts + 1;
      log := log + [OpenRequested(acceptedOffset, rpcAttempt, t.openNow, wait.value.0, reserved)];
      match t.open {
        case Opened =>
          current := Some(RemoteStream(acceptedOffset));
          return None;
        case OpenFailed(decision) =>
          return Some(Classified(decision));
        case OpenTimedOut =>
          return Some(if wait.value.1 then SESSION_EXPIRED else IDLE_TIMEOUT);
      }
    }

    method ReceiveMessage(t: Turn) returns (outcome: Outcome)
      requires current.Some?
      modifies this
      ensures Next(View(), outcome) == Receive(cfg, old(View()), t)
    {
      var wait := WaitTimeout(cfg, t.waitNow);
      if wait.Failure? {
        return Failed(wait.error);
      }
      log := log + [MessageAwaited(t.waitNow, wait.value.0, reserved)];
      match t.message {
        case Response(rows, _, _, _, _, _, _, _) =>
          current := Some(RemoteStream(current.value.next + |rows|));
          responseOrdinal := Min(responseOrdinal + 1, MAX_USIZE);
          responses := responses + 1;
          outcome := DecodeMessage(t.message, t.acceptNow);
        case Status(decision) =>
          current := None;
          outcome := Retry(Classified(decision), t);
        case Closed =>
          outcome := Ended;
        case TimedOut =>
          if wait.value.1 {
            return Failed(SessionExpired);
          }
          current := None;
          outcome := Retry(IDLE_TIMEOUT, t);
      }
    }

    method Pass(t: Turn) returns (outcome: Outcome)
      modifies this
      ensures Next(View(), outcome) == Iterate(cfg, old(View()), t)
    {
      if current.None? {
        var failure := Open(t);
        if failure.Some? {
          outcome := Retry(failure.value, t);
          return;
        }
      }
      outcome := ReceiveMessage(t);
    }

    method NextBatchFrom(turns: seq<Turn>) returns (outcome: Outcome)
      modifies this
      ensures Next(View(), outcome) == NextBatch(cfg, old(View()), turns)
    {
      var i := 0;
      while i < |turns|
        invariant 0 <= i <= |turns|
        invariant NextBatch(cfg, old(View()), turns) == NextBatch(cfg, View(), turns[i..])
      {
        outcome := Pass(turns[i]);
        assert turns[i..][0] == turns[i] && turns[i..][1..] == turns[i + 1..];
        if !outcome.Continue? {
          return;
        }
        i := i + 1;
      }
      return Continue;
    }

    method PollNext(turns: seq<Turn>) returns (outcome: Outcome)
      modifies this
      ensures Next(View(), outcome) == Poll(cfg, old(View()), turns)
    {
      if finished {
        return Ended;
      }
      reserved := 0;
      outcome := NextBatchFrom(turns);
      if outcome.Ended? || outcome.Failed? {
        finished := true;
        reserved := 0;
      }
    }
  }
}

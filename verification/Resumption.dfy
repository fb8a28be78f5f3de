/** Which failures resume a ReadRows stream, after how long, and how the failure streak counts them. */
module Resumption {
  import opened Wrappers
  import opened Retry
  import opened ReadStream

  // ---------------------------------------------------------------------------------------------------
  // The failure streak
  // ---------------------------------------------------------------------------------------------------

  /** Rows were accepted since the window opened, and it has been open long enough. */
  predicate SustainedProgress(c: Client, now: nat) {
    && c.progressStarted.Some? && c.progressRows > 0
    && now >= c.progressStarted.value + SUSTAINED_ACCEPTED_PROGRESS
  }

  /** The streak a failure at `now` is counted as. */
  function StreakAfter(c: Client, now: nat): nat {
    if SustainedProgress(c, now) then 1 else c.failureStreak + 1
  }

  /** The progress window starts over at the first failure of a streak and lasts through the others. */
  lemma WindowFollowsTheStreak(c: Client, now: nat)
    ensures AfterProgress(c, now).failureStreak + 1 == StreakAfter(c, now)
    ensures c.progressStarted.Some? ==>
              && (StreakAfter(c, now) == 1 ==>
                    AfterProgress(c, now) == c.(failureStreak := 0, progressStarted := None, progressRows := 0))
              && (StreakAfter(c, now) > 1 ==> AfterProgress(c, now) == c)
    ensures c.progressStarted.None? ==> AfterProgress(c, now) == c
  {
  }

  // ---------------------------------------------------------------------------------------------------
  // Resuming
  // ---------------------------------------------------------------------------------------------------

  predicate Retryable(failure: AttemptFailure) { failure.Classified? && failure.decision.Retried? }

  /** The wait the server insists on, which is never shorter than the client's own backoff. */
  function Demanded(failure: AttemptFailure, backoff: nat): nat
    requires Retryable(failure)
  {
    var asked := failure.decision.serverDelay;
    if asked.None? then 0 else if asked.value < backoff then backoff else asked.value
  }

  /**
   Everything a resumption needs: a failure worth retrying, time before the deadline, clocks that have not
   gone back, a streak and an attempt left to count, and room for the demanded wait and a whole attempt.
   */
  predicate MayResume(cfg: Config, c: Client, failure: AttemptFailure, t: Turn) {
    && Retryable(failure)
    && t.retryNow < cfg.budget.EffectiveDeadline()
    && (c.progressStarted.Some? ==> c.progressStarted.value <= t.retryNow)
    && cfg.budget.started <= c.previousObservation <= t.retryNow
    && StreakAfter(c, t.retryNow) <= MAX_ATTEMPT
    && c.rpcAttempt < MAX_ATTEMPT && c.rpcAttempt < cfg.budget.maxAttempts
    && t.jitteredBackoff.Some?
    && t.retryNow + Demanded(failure, t.jitteredBackoff.value) + cfg.budget.attemptTimeout
       <= cfg.budget.EffectiveDeadline()
  }

  /** The wait before the next attempt: what the server demands, or the backoff cut to what still fits. */
  function Wait(cfg: Config, failure: AttemptFailure, t: Turn): int
    requires Retryable(failure) && t.jitteredBackoff.Some?
  {
    var room := cfg.budget.EffectiveDeadline() - cfg.budget.attemptTimeout - t.retryNow;
    if failure.decision.serverDelay.Some? then Demanded(failure, t.jitteredBackoff.value)
    else if t.jitteredBackoff.value < room then t.jitteredBackoff.value else room
  }

  lemma PlanAfterProgress(cfg: Config, c: Client, failure: AttemptFailure, t: Turn)
    requires WellFormed(cfg.budget)
    requires Retryable(failure) && t.retryNow < cfg.budget.EffectiveDeadline()
    requires c.progressStarted.Some? ==> c.progressStarted.value <= t.retryNow
    requires StreakAfter(c, t.retryNow) <= MAX_ATTEMPT && t.jitteredBackoff.Some?
    ensures var plan := PlanRetry(cfg.budget, c.previousObservation, t.retryNow, c.rpcAttempt,
                                  ProposedDelay(failure.decision.serverDelay, t.jitteredBackoff.value));
            var settled := AfterProgress(c, t.retryNow).(failureStreak := StreakAfter(c, t.retryNow));
            && RetryOrFail(cfg, c, failure, t) == FollowPlan(settled, t.retryNow, plan)
            && (plan.Success? <==> MayResume(cfg, c, failure, t))
            && (plan.Success? ==> plan.value.attempt == c.rpcAttempt + 1 && plan.value.delay == Wait(cfg, failure, t))
  {
    WindowFollowsTheStreak(c, t.retryNow);
    PlanRetryExactly(cfg.budget, c.previousObservation, t.retryNow, c.rpcAttempt,
                     ProposedDelay(failure.decision.serverDelay, t.jitteredBackoff.value));
  }

  /** The client that resumes: one attempt further, without a stream, the streak and the wait recorded. */
  function Resumed(cfg: Config, c: Client, failure: AttemptFailure, t: Turn): Client
    requires MayResume(cfg, c, failure, t)
  {
    var first := StreakAfter(c, t.retryNow) == 1 && c.progressStarted.Some?;
    var wait := Wait(cfg, failure, t);
    c.(
    current := None,
    rpcAttempt := c.rpcAttempt + 1,
    retries := c.retries + 1,
    previousObservation := t.retryNow,
    failureStreak := StreakAfter(c, t.retryNow),
    progressStarted := if first then None else c.progressStarted,
    progressRows := if first then 0 else c.progressRows,
    log := if wait <= 0 then c.log else c.log + [RetryDelayed(t.retryNow, wait, c.reserved)])
  }

  /** Why a failure that does not resume ends the stream; a reached deadline comes before its own reason. */
  function EndReason(cfg: Config, failure: AttemptFailure, t: Turn): Reason {
    if t.retryNow >= cfg.budget.EffectiveDeadline() then DeadlineReason(cfg)
    else match failure
      case Terminal(reason) => reason
      case Classified(Permanent(reason)) => reason
      case Classified(Retried(_)) => RetryBudgetExhausted
  }

  /**
   A failed attempt resumes the stream exactly when it may, into exactly this state: the same offset, the
   next attempt, and a wait that is the server's or a backoff that leaves a whole attempt before the
   deadline. Every other failure ends the stream for the reason given.
   */
  lemma ResumesExactly(cfg: Config, c: Client, failure: AttemptFailure, t: Turn)
    requires WellFormed(cfg.budget)
    ensures RetryOrFail(cfg, c, failure, t).outcome ==
            if MayResume(cfg, c, failure, t) then Continue else Failed(EndReason(cfg, failure, t))
    ensures MayResume(cfg, c, failure, t) ==> RetryOrFail(cfg, c, failure, t).client == Resumed(cfg, c, failure, t)
  {
    if Retryable(failure) && t.retryNow < cfg.budget.EffectiveDeadline()
       && (c.progressStarted.Some? ==> c.progressStarted.value <= t.retryNow)
    {
      WindowFollowsTheStreak(c, t.retryNow);
      if StreakAfter(c, t.retryNow) <= MAX_ATTEMPT && t.jitteredBackoff.Some? {
        PlanAfterProgress(cfg, c, failure, t);
      }
    }
  }

  /** The streak after a resumption is 1 after sustained progress or a zero streak, and otherwise one more. */
  lemma StreakRule(cfg: Config, c: Client, failure: AttemptFailure, t: Turn)
    requires WellFormed(cfg.budget) && RetryOrFail(cfg, c, failure, t).outcome.Continue?
    ensures var next := RetryOrFail(cfg, c, failure, t).client;
            && (next.failureStreak == 1 <==> SustainedProgress(c, t.retryNow) || c.failureStreak == 0)
            && (next.failureStreak != 1 ==> next.failureStreak == c.failureStreak + 1)
            && (c.progressStarted.Some? ==> (next.progressStarted.None? <==> next.failureStreak == 1))
  {
    ResumesExactly(cfg, c, failure, t);
  }

  // ---------------------------------------------------------------------------------------------------
  // Whole calls
  // ---------------------------------------------------------------------------------------------------

  /** Passes that all fail and all resume. */
  predicate AllResume(cfg: Config, c: Client, turns: seq<Turn>)
    decreases |turns|
  {
    turns == []
    || (&& c.current.None?
        && OpenStream(cfg, c, turns[0]).failure.Some?
        && Iterate(cfg, c, turns[0]).outcome.Continue?
        && AllResume(cfg, Iterate(cfg, c, turns[0]).client, turns[1..]))
  }

  /**
   Opens that keep failing cost one attempt each, move no offset, and so cannot outnumber the attempts the
   budget has left. The streak grows by one each time unless an open progress window ends it.
   */
  lemma {:induction false} FailedOpensAreBounded(cfg: Config, c: Client, turns: seq<Turn>)
    requires WellFormed(cfg.budget) && AllResume(cfg, c, turns)
    ensures var next := NextBatch(cfg, c, turns);
            && next.outcome.Continue?
            && next.client.rpcAttempt == c.rpcAttempt + |turns|
            && next.client.failureStreak <= c.failureStreak + |turns|
            && (c.progressStarted.None? ==> next.client.failureStreak == c.failureStreak + |turns|)
            && next.client.acceptedOffset == c.acceptedOffset
            && (turns != [] ==> next.client.rpcAttempt <= cfg.budget.maxAttempts)
    decreases |turns|
  {
    if turns != [] {
      var o := OpenStream(cfg, c, turns[0]);
      ResumesExactly(cfg, o.client, o.failure.value, turns[0]);
      FailedOpensAreBounded(cfg, Iterate(cfg, c, turns[0]).client, turns[1..]);
    }
  }
}

/**
 Deadline arithmetic of one retried operation (retry/budget.rs). Instants and durations are
 nanoseconds; `MAX_DURATION` is the largest value a `Duration` holds.
 */
module Retry {
  import opened Wrappers

  const MAX_DURATION: nat := 0xFFFF_FFFF_FFFF_FFFF * 1_000_000_000 + 999_999_999
  const MAX_ATTEMPT: nat := 0xFFFF_FFFF
  const SUSTAINED_ACCEPTED_PROGRESS: nat := 60_000_000_000
  const SESSION_EXPIRY_SAFETY_MARGIN: nat := 60_000_000_000

  datatype Budget = Budget(
    started: nat,
    retryDeadline: nat,
    maxAttempts: nat,
    attemptTimeout: nat,
    sessionDeadline: Option<nat>)
  {
    function EffectiveDeadline(): nat {
      match sessionDeadline
      case None => retryDeadline
      case Some(session) => if session < retryDeadline then session else retryDeadline
    }

    predicate IsSessionLimited() {
      sessionDeadline.Some? && sessionDeadline.value <= retryDeadline
    }
  }

  datatype BudgetError =
    | InvalidDeadline
    | ArithmeticOverflow
    | NonMonotonicClock
    | AttemptCounterOverflow
    | AttemptsExhausted
    | DeadlineExhausted
    | ServerDelayExceedsDeadline

  datatype Delay = Backoff(duration: nat) | ServerMinimum(duration: nat)

  datatype Plan = Plan(attempt: nat, delay: nat, attemptDeadline: nat)

  /**
   The budget of one ReadRows stream. It exists exactly when nothing it is built from is zero, the window
   ends within a `Duration` and the session, if it expires, still holds at `started` with the safety margin
   taken off. Its deadline is the end of the window or the session's expiration less the margin, whichever
   comes first.
   */
  function ReadRowsBudget(
    started: nat, retryWindow: nat, maxAttempts: nat, attemptTimeout: nat, sessionExpiration: Option<nat>)
    : (r: Result<Budget, BudgetError>)
    ensures r.Success? <==>
              && retryWindow > 0 && maxAttempts > 0 && attemptTimeout > 0
              && started + retryWindow <= MAX_DURATION
              && (sessionExpiration.Some? ==> started + SESSION_EXPIRY_SAFETY_MARGIN <= sessionExpiration.value)
    ensures r.Failure? ==>
              r.error == if retryWindow > 0 && maxAttempts > 0 && attemptTimeout > 0
                            && started + retryWindow > MAX_DURATION
                         then ArithmeticOverflow else InvalidDeadline
    ensures r.Success? ==>
              && WellFormed(r.value)
              && r.value.started == started && r.value.maxAttempts == maxAttempts
              && r.value.attemptTimeout == attemptTimeout
              && r.value.EffectiveDeadline() <= started + retryWindow
              && (sessionExpiration.None? ==> r.value.EffectiveDeadline() == started + retryWindow)
              && (sessionExpiration.Some? ==>
                    var usable := sessionExpiration.value - SESSION_EXPIRY_SAFETY_MARGIN;
                    && r.value.EffectiveDeadline() <= usable
                    && (r.value.EffectiveDeadline() == started + retryWindow || r.value.EffectiveDeadline() == usable)
                    && (r.value.IsSessionLimited() <==> usable <= started + retryWindow))
  {
    if retryWindow == 0 || maxAttempts == 0 || attemptTimeout == 0 then Failure(InvalidDeadline)
    else if started + retryWindow > MAX_DURATION then Failure(ArithmeticOverflow)
    else if sessionExpiration.Some? && sessionExpiration.value < SESSION_EXPIRY_SAFETY_MARGIN then
      Failure(InvalidDeadline)
    else
      var session :=
        if sessionExpiration.Some? then Some(sessionExpiration.value - SESSION_EXPIRY_SAFETY_MARGIN) else None;
      var budget := Budget(started, started + retryWindow, maxAttempts, attemptTimeout, session);
      if budget.EffectiveDeadline() < started then Failure(InvalidDeadline) else Success(budget)
  }

  /** What every budget built by `ReadRowsBudget` satisfies. */
  predicate WellFormed(budget: Budget) {
    && 0 < budget.maxAttempts
    && 0 < budget.attemptTimeout
    && budget.started <= budget.EffectiveDeadline() <= MAX_DURATION
  }

  function PlanRetry(budget: Budget, previous: nat, now: nat, completed: nat, proposed: Delay)
    : Result<Plan, BudgetError>
  {
    if previous < budget.started || now < previous then Failure(NonMonotonicClock)
    else if completed + 1 > MAX_ATTEMPT then Failure(AttemptCounterOverflow)
    else if completed + 1 > budget.maxAttempts then Failure(AttemptsExhausted)
    else if budget.EffectiveDeadline() < budget.attemptTimeout then Failure(DeadlineExhausted)
    else if budget.EffectiveDeadline() - budget.attemptTimeout < now then Failure(DeadlineExhausted)
    else
      var available := budget.EffectiveDeadline() - budget.attemptTimeout - now;
      if proposed.ServerMinimum? && available < proposed.duration then Failure(ServerDelayExceedsDeadline)
      else
        var delay := if proposed.duration < available then proposed.duration else available;
        if now + delay > MAX_DURATION then Failure(ArithmeticOverflow)
        else if now + delay + budget.attemptTimeout > MAX_DURATION then Failure(ArithmeticOverflow)
        else if now + delay + budget.attemptTimeout > budget.EffectiveDeadline() then Failure(DeadlineExhausted)
        else Success(Plan(completed + 1, delay, now + delay + budget.attemptTimeout))
  }

  /**
   A retry is planned exactly when the clock is monotone, an attempt is left, a whole attempt still fits
   before the effective deadline and a delay demanded by the server fits too. Hence the three checks that
   follow the delay in `PlanRetry` never fire.
   */
  lemma PlanRetryExactly(budget: Budget, previous: nat, now: nat, completed: nat, proposed: Delay)
    requires WellFormed(budget)
    ensures PlanRetry(budget, previous, now, completed, proposed).Success? <==>
            && budget.started <= previous <= now
            && completed < MAX_ATTEMPT
            && completed < budget.maxAttempts
            && now + budget.attemptTimeout <= budget.EffectiveDeadline()
            && (proposed.ServerMinimum? ==>
                  now + proposed.duration + budget.attemptTimeout <= budget.EffectiveDeadline())
    ensures PlanRetry(budget, previous, now, completed, proposed).Success? ==>
              var plan := PlanRetry(budget, previous, now, completed, proposed).value;
              && plan.attempt == completed + 1
              && plan.delay <= proposed.duration
              && (proposed.ServerMinimum? ==> plan.delay == proposed.duration)
              && (plan.delay < proposed.duration ==> plan.attemptDeadline == budget.EffectiveDeadline())
              && plan.attemptDeadline == now + plan.delay + budget.attemptTimeout <= budget.EffectiveDeadline()
  {
  }
}

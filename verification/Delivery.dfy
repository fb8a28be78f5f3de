/**
 What one pass of the ReadRows loop makes of each reply, exactly, and that a server which answers, on time and
 in pages the client can take, is read to the end of its table.
 */
module Delivery {
  import opened Wrappers
  import opened Retry
  import opened ReadStream
  import opened ReadStreamSafety
  import opened Resumption

  // ---------------------------------------------------------------------------------------------------
  // Pages
  // ---------------------------------------------------------------------------------------------------

  /** The page got its memory and its permit to be decoded. */
  predicate Permitted(m: Message) { m.Response? && m.serializedAdmitted && m.permitAcquired }

  /** The page has rows and the memory to hold them. */
  predicate Held(m: Message) { Permitted(m) && m.prepared.RowsReady? && m.decodedAdmitted }

  /** The page's rows were decoded. */
  predicate Decoded(m: Message) { Held(m) && m.decoded }

  predicate Fits(offset: int, m: Message)
    requires m.Response?
  {
    offset + |m.rows| <= MAX_INT64
  }

  predicate InRange(cfg: Config) { forall k :: 0 <= k < |cfg.projection| ==> cfg.projection[k] < cfg.width }

  /** The page can be handed on: decoded, within the range of an offset, and of the schema asked for. */
  predicate Deliverable(cfg: Config, offset: int, m: Message) {
    Decoded(m) && Fits(offset, m) && InRange(cfg) && m.outputValid
  }

  /** Why a page that cannot be handed on, and that is not empty, ends the stream. */
  predicate RefusedFor(cfg: Config, offset: int, m: Message, reason: Reason) {
    && m.Response?
    && match reason
       case LocalResource =>
         || !m.serializedAdmitted || !m.permitAcquired
         || (m.prepared.RowsReady? && !m.decodedAdmitted)
       case Decode => Permitted(m) && (m.prepared.PrepareFailed? || (Held(m) && !m.decoded))
       case OffsetOverflow => Decoded(m) && !Fits(offset, m)
       case Schema => Decoded(m) && Fits(offset, m) && !(InRange(cfg) && m.outputValid)
       case _ => false
  }

  /** The columns asked for, of each row of a page, in the order of the rows. */
  ghost predicate ColumnsOf(cfg: Config, rows: seq<Row>, batch: seq<Row>) {
    && |batch| == |rows|
    && forall i :: 0 <= i < |rows| ==>
         && |batch[i]| == |cfg.projection|
         && forall k :: 0 <= k < |cfg.projection| && cfg.projection[k] < |rows[i]| ==>
              batch[i][k] == rows[i][cfg.projection[k]]
  }

  // ---------------------------------------------------------------------------------------------------
  // One pass over an open stream
  // ---------------------------------------------------------------------------------------------------

  /** The session ends no later than the idle timeout would. */
  predicate SessionEndsFirst(cfg: Config, now: nat) {
    cfg.budget.IsSessionLimited() && cfg.budget.EffectiveDeadline() <= now + cfg.idleTimeout
  }

  /**
   A page: it is yielded exactly when it can be delivered, skipped exactly when it is empty, and otherwise
   refused for the first thing that failed.
   */
  lemma PageExactly(cfg: Config, c: Client, t: Turn)
    requires c.current.Some? && 0 <= c.acceptedOffset
    requires t.waitNow <= cfg.budget.EffectiveDeadline() && t.message.Response?
    ensures var next, m := Iterate(cfg, c, t), t.message;
            && (next.outcome.Yield? <==> Deliverable(cfg, c.acceptedOffset, m))
            && (next.outcome.Continue? <==> Permitted(m) && m.prepared.NoRows?)
            && (next.outcome.Failed? <==> exists reason :: RefusedFor(cfg, c.acceptedOffset, m, reason))
            && (next.outcome.Failed? ==> RefusedFor(cfg, c.acceptedOffset, m, next.outcome.reason))
            && !next.outcome.Ended?
  {
    var next, m := Iterate(cfg, c, t), t.message;
    if next.outcome.Failed? {
      assert RefusedFor(cfg, c.acceptedOffset, m, next.outcome.reason);
    } else {
      forall reason ensures !RefusedFor(cfg, c.acceptedOffset, m, reason) {
      }
    }
  }

  /** No page is refused for two reasons. */
  lemma OneReason(cfg: Config, offset: int, m: Message, a: Reason, b: Reason)
    requires RefusedFor(cfg, offset, m, a) && RefusedFor(cfg, offset, m, b)
    ensures a == b
  {
  }

  /** What a delivered page leaves: its columns handed on, the offset behind its rows, its memory held. */
  lemma DeliveredPage(cfg: Config, c: Client, t: Turn)
    requires c.current.Some? && 0 <= c.acceptedOffset
    requires t.waitNow <= cfg.budget.EffectiveDeadline() && Deliverable(cfg, c.acceptedOffset, t.message)
    ensures var next, m := Iterate(cfg, c, t), t.message;
            && next.outcome.Yield? && ColumnsOf(cfg, m.rows, next.outcome.batch)
            && next.client.acceptedOffset == c.acceptedOffset + |m.rows|
            && next.client.outputRows == c.outputRows + |m.rows|
            && next.client.reserved == m.prepared.upperBound
            && next.client.responses == c.responses + 1
            && (c.responseOrdinal < MAX_USIZE ==> next.client.responseOrdinal == c.responseOrdinal + 1)
            && (m.rows == [] ==>
                  next.client.progressStarted == c.progressStarted && next.client.progressRows == c.progressRows)
            && (m.rows != [] ==>
                  next.client.progressStarted ==
                  if c.progressStarted.Some? then c.progressStarted else Some(t.acceptNow))
            && (m.rows != [] && c.progressRows + |m.rows| <= MAX_PROGRESS_ROWS ==>
                  next.client.progressRows == c.progressRows + |m.rows|)
  {
    PageExactly(cfg, c, t);
  }

  /** An empty page is skipped with its memory given back. */
  lemma EmptyPage(cfg: Config, c: Client, t: Turn)
    requires c.current.Some? && 0 <= c.acceptedOffset && t.waitNow <= cfg.budget.EffectiveDeadline()
    requires Permitted(t.message) && t.message.prepared.NoRows?
    ensures var next := Iterate(cfg, c, t);
            && next.outcome.Continue? && next.client.current.Some?
            && next.client.acceptedOffset == c.acceptedOffset && next.client.outputRows == c.outputRows
            && next.client.reserved == 0 && next.client.responses == c.responses + 1
            && (c.responseOrdinal < MAX_USIZE ==> next.client.responseOrdinal == c.responseOrdinal + 1)
  {
  }

  /**
   The other replies: a closed stream is a clean end, a status is retried exactly when the failure may be,
   and silence is retried likewise unless it is the session that ran out.
   */
  lemma OtherRepliesExactly(cfg: Config, c: Client, t: Turn)
    requires WellFormed(cfg.budget) && c.current.Some? && t.waitNow <= cfg.budget.EffectiveDeadline()
    ensures var next := Iterate(cfg, c, t);
            && (t.message.Closed? ==> next.outcome.Ended?)
            && (t.message.Status? ==>
                  var failure := Classified(t.message.decision);
                  next.outcome ==
                  if MayResume(cfg, c, failure, t) then Continue else Failed(EndReason(cfg, failure, t)))
            && (t.message.TimedOut? ==>
                  next.outcome ==
                  if SessionEndsFirst(cfg, t.waitNow) then Failed(SessionExpired)
                  else if MayResume(cfg, c, Classified(Retried(None)), t) then Continue
                  else Failed(EndReason(cfg, Classified(Retried(None)), t)))
  {
    var wait := WaitTimeout(cfg, t.waitNow).value;
    var waited := c.(log := c.log + [MessageAwaited(t.waitNow, wait.0, c.reserved)], current := None);
    if t.message.Status? {
      ResumesExactly(cfg, waited, Classified(t.message.decision), t);
    } else if t.message.TimedOut? {
      ResumesExactly(cfg, waited, IDLE_TIMEOUT, t);
    }
  }

  /** After the deadline no message is waited for. */
  lemma PastTheDeadline(cfg: Config, c: Client, t: Turn)
    requires c.current.Some? && cfg.budget.EffectiveDeadline() < t.waitNow
    ensures Iterate(cfg, c, t) ==
            Next(c, Failed(if cfg.budget.IsSessionLimited() then SessionExpired else RetryBudgetExhausted))
  {
  }

  // ---------------------------------------------------------------------------------------------------
  // One pass that has to open the stream
  // ---------------------------------------------------------------------------------------------------

  /** The client that holds a stream just opened at its accepted offset. */
  function Opening(cfg: Config, c: Client, t: Turn): Client {
    var left := cfg.budget.EffectiveDeadline() - t.openNow;
    var timeout := if 0 <= left < cfg.idleTimeout then left else cfg.idleTimeout;
    c.(
    current := Some(RemoteStream(c.acceptedOffset)),
    rpcAttempts := c.rpcAttempts + 1,
    log := c.log + [OpenRequested(c.acceptedOffset, c.rpcAttempt, t.openNow, timeout, c.reserved)])
  }

  /**
   An open that succeeds is followed by the message of the same pass; one that fails, or times out before the
   session does, is retried exactly when the failure may be; one that could only start after the deadline
   ends the stream.
   */
  lemma OpeningExactly(cfg: Config, c: Client, t: Turn)
    requires WellFormed(cfg.budget) && c.current.None?
    ensures var next := Iterate(cfg, c, t);
            if cfg.budget.EffectiveDeadline() < t.openNow then
              next.outcome ==
              Failed(if cfg.budget.IsSessionLimited() then SessionExpired else RetryBudgetExhausted)
            else if t.open.Opened? then next == Iterate(cfg, Opening(cfg, c, t), t)
            else
              var failure := if t.open.OpenFailed? then Classified(t.open.decision)
                             else if SessionEndsFirst(cfg, t.openNow) then Classified(Permanent(SessionExpired))
                             else Classified(Retried(None));
              next.outcome ==
              if MayResume(cfg, c, failure, t) then Continue else Failed(EndReason(cfg, failure, t))
  {
    var o := OpenStream(cfg, c, t);
    if o.failure.Some? {
      ResumesExactly(cfg, o.client, o.failure.value, t);
    }
  }

  // ---------------------------------------------------------------------------------------------------
  // Reading to the end
  // ---------------------------------------------------------------------------------------------------

  /** Everything is on time and every open succeeds. */
  predicate OnTime(cfg: Config, t: Turn) {
    && t.openNow <= cfg.budget.EffectiveDeadline() && t.waitNow <= cfg.budget.EffectiveDeadline()
    && t.open.Opened?
  }

  /** A reply that is no rows yet. */
  predicate Skips(m: Message) { Permitted(m) && m.prepared.NoRows? }

  /** A reply that moves the stream on: rows the client can take, or the end. */
  predicate Answers(m: Message) { m.Closed? || (Decoded(m) && m.outputValid && m.rows != []) }

  /** Turns without a failure, of which at least one moves the stream on. */
  predicate Smooth(cfg: Config, turns: seq<Turn>) {
    && (forall i :: 0 <= i < |turns| ==>
          OnTime(cfg, turns[i]) && (Skips(turns[i].message) || Answers(turns[i].message)))
    && (exists i :: 0 <= i < |turns| && Answers(turns[i].message))
  }

  predicate AllSmooth(cfg: Config, polls: seq<seq<Turn>>) {
    forall i :: 0 <= i < |polls| ==> Smooth(cfg, polls[i])
  }

  /** An honest page within a table of offsets fits. */
  lemma HonestPagesFit(cfg: Config, table: seq<Row>, c: Client, t: Turn)
    requires Aligned(table, c) && ServesHonestly(cfg, table, c, t) && OnTime(cfg, t)
    requires t.message.Response? && |table| <= MAX_INT64
    ensures c.acceptedOffset + |t.message.rows| <= |table| && Fits(c.acceptedOffset, t.message)
  {
  }

  lemma SkippedPass(cfg: Config, table: seq<Row>, c: Client, t: Turn)
    requires WellFormed(cfg.budget) && Aligned(table, c) && OnTime(cfg, t) && Skips(t.message)
    requires Idle(cfg, c) && ServesHonestly(cfg, table, c, t)
    ensures var next := Iterate(cfg, c, t);
            && next.outcome.Continue? && Idle(cfg, next.client) && Aligned(table, next.client)
            && next.client.acceptedOffset == c.acceptedOffset
  {
    IterateIsSafe(cfg, c, t);
    IterateDelivers(cfg, table, c, t);
    if c.current.None? {
      OpeningExactly(cfg, c, t);
      EmptyPage(cfg, Opening(cfg, c, t), t);
    } else {
      EmptyPage(cfg, c, t);
    }
  }

  lemma AnsweredPass(cfg: Config, table: seq<Row>, c: Client, t: Turn)
    requires WellFormed(cfg.budget) && Aligned(table, c) && OnTime(cfg, t) && Answers(t.message)
    requires InRange(cfg) && |table| <= MAX_INT64
    requires Idle(cfg, c) && ServesHonestly(cfg, table, c, t)
    ensures var next := Iterate(cfg, c, t);
            || next.outcome.Ended?
            || (next.outcome.Yield? && next.client.acceptedOffset > c.acceptedOffset)
  {
    var held := if c.current.None? then Opening(cfg, c, t) else c;
    if c.current.None? {
      OpeningExactly(cfg, c, t);
    }
    if t.message.Closed? {
      OtherRepliesExactly(cfg, held, t);
    } else {
      HonestPagesFit(cfg, table, c, t);
      DeliveredPage(cfg, held, t);
    }
  }

  lemma LaterTurnsAreSmooth(cfg: Config, turns: seq<Turn>)
    requires Smooth(cfg, turns) && Skips(turns[0].message)
    ensures Smooth(cfg, turns[1..])
  {
    var k :| 0 <= k < |turns| && Answers(turns[k].message);
    assert turns[1..][k - 1] == turns[k];
  }

  /** A call over smooth turns ends, or yields rows. */
  lemma {:induction false} SmoothCallMovesOn(cfg: Config, table: seq<Row>, c: Client, turns: seq<Turn>)
    requires WellFormed(cfg.budget) && InRange(cfg) && |table| <= MAX_INT64
    requires Idle(cfg, c) && Aligned(table, c) && Smooth(cfg, turns) && ServesTurns(cfg, table, c, turns)
    ensures var next := NextBatch(cfg, c, turns);
            || next.outcome.Ended?
            || (next.outcome.Yield? && next.client.acceptedOffset > c.acceptedOffset)
    decreases |turns|
  {
    assert OnTime(cfg, turns[0]);
    if Skips(turns[0].message) {
      SkippedPass(cfg, table, c, turns[0]);
      LaterTurnsAreSmooth(cfg, turns);
      SmoothCallMovesOn(cfg, table, Iterate(cfg, c, turns[0]).client, turns[1..]);
    } else {
      AnsweredPass(cfg, table, c, turns[0]);
    }
  }

  /** More smooth polls than rows left read a stream at rest to its end. */
  lemma {:induction false} SmoothPollsFinish(cfg: Config, table: seq<Row>, c: Client, polls: seq<seq<Turn>>)
    requires WellFormed(cfg.budget) && InRange(cfg) && |table| <= MAX_INT64
    requires AtRest(cfg, c) && Aligned(table, c) && !c.finished
    requires AllSmooth(cfg, polls) && ServesRun(cfg, table, c, polls) && |polls| > |table| - c.acceptedOffset
    ensures Consume(cfg, c, polls).outcome.Ended?
    decreases |polls|
  {
    assert Smooth(cfg, polls[0]);
    var next := Poll(cfg, c, polls[0]);
    SmoothCallMovesOn(cfg, table, c.(reserved := 0), polls[0]);
    PollDelivers(cfg, table, c, polls[0]);
    if next.outcome.Yield? {
      assert AllSmooth(cfg, polls[1..]) by {
        assert forall i :: 0 <= i < |polls| - 1 ==> polls[1..][i] == polls[i + 1];
      }
      SmoothPollsFinish(cfg, table, next.client, polls[1..]);
    }
  }

  /**
   An honest server that fails nowhere is read completely: once there are more polls than rows, the run has
   ended cleanly and emitted the columns asked for of every row of the table, in order.
   */
  lemma SmoothRunsFinish(cfg: Config, table: seq<Row>, started: nat, polls: seq<seq<Turn>>)
    requires WellFormed(cfg.budget) && InRange(cfg) && |table| <= MAX_INT64
    requires AllSmooth(cfg, polls) && ServesRun(cfg, table, Initial(started), polls) && |polls| > |table|
    ensures Consume(cfg, Initial(started), polls).outcome.Ended?
    ensures ColumnsOf(cfg, table, Consume(cfg, Initial(started), polls).emitted)
  {
    SmoothPollsFinish(cfg, table, Initial(started), polls);
    ExactlyOnce(cfg, table, started, polls);
  }
}

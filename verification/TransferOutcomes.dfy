/** How failures decide a transfer's report, and what still happens once the stop flag is up, over every
  * interleaving of its threads.
  */
module TransferOutcomes {

  import opened Transfer
  import opened TransferProgress
  import opened TransferSafety

  // ---------- failures ----------

  /** A remote call or a file operation that is made and fails: opening a stream or reading a page, creating the
    * file, writing a batch or closing the file. */
  predicate FailingCall(st: State, action: Action) {
    match action
    case ReaderMoves(r, outcome) =>
      outcome.Fails? && r < |st.readers| && (st.readers[r].Opening? || st.readers[r].Paging?)
    case WriterMoves(outcome) =>
      outcome.Fails? && (st.writer.Creating? || st.writer.Writing? || st.writer.Closing?)
    case MainMoves => false
  }

  /** No failing call is made anywhere in the run. */
  ghost predicate Clean(session: Session, st: State, run: seq<Action>)
    requires Possible(session, st, run)
    decreases |run|
  {
    run == [] || (!FailingCall(st, run[0]) && Clean(session, Step(session, st, run[0]), run[1..]))
  }

  /** No thread is about to report a failure or has reported one. */
  predicate Untroubled(st: State) {
    && st.errors == 0 && !st.stop
    && !st.writer.WriterRaising? && !st.writer.WriterStopping? && !st.writer.WriterCancelling?
    && forall r :: 0 <= r < |st.readers| ==>
         !st.readers[r].Raising? && !st.readers[r].Stopping? && !st.readers[r].Cancelling?
  }

  lemma CleanStep(session: Session, st: State, action: Action)
    requires Enabled(st, action) && Untroubled(st) && !FailingCall(st, action)
    ensures Untroubled(Step(session, st, action))
  {
  }

  lemma FailingStep(session: Session, st: State, action: Action)
    requires Enabled(st, action) && FailingCall(st, action)
    ensures !Quiet(Step(session, st, action))
  {
    if action.ReaderMoves? {
      assert Step(session, st, action).readers[action.reader].Raising?;
    }
  }

  lemma TroubleStays(session: Session, st: State, action: Action)
    requires Enabled(st, action) && !Quiet(st)
    ensures !Quiet(Step(session, st, action))
  {
    var next := Step(session, st, action);
    if st.errors == 0 && !st.writer.WriterRaising? {
      var r :| 0 <= r < |st.readers| && st.readers[r].Raising?;
      if action.ReaderMoves? && action.reader == r {
        assert next.errors > 0;
      } else {
        assert next.readers[r].Raising?;
      }
    }
  }

  lemma {:induction false} CleanRuns(session: Session, st: State, run: seq<Action>)
    requires Possible(session, st, run) && Untroubled(st) && Clean(session, st, run)
    ensures Untroubled(After(session, st, run))
    decreases |run|
  {
    if run != [] {
      CleanStep(session, st, run[0]);
      CleanRuns(session, Step(session, st, run[0]), run[1..]);
    }
  }

  lemma {:induction false} TroubledRuns(session: Session, st: State, run: seq<Action>)
    requires Possible(session, st, run) && (!Quiet(st) || !Clean(session, st, run))
    ensures !Quiet(After(session, st, run))
    decreases |run|
  {
    if run != [] {
      if !Quiet(st) {
        TroubleStays(session, st, run[0]);
      } else if FailingCall(st, run[0]) {
        FailingStep(session, st, run[0]);
      }
      TroubledRuns(session, Step(session, st, run[0]), run[1..]);
    }
  }

  /**
   When a transfer reports, it returns exactly if no call failed on the way and the streams hold the rows the
   contract expects. A run without failing calls never queues an error or raises the stop flag.
   */
  lemma ReportsExactly(session: Session, run: seq<Action>)
    requires Acceptable(session) && Possible(session, Initial(session), run)
    ensures var st := After(session, Initial(session), run);
      && ((st.main.Returned? || st.main.Raised?) ==>
            (st.main.Returned? <==>
               Clean(session, Initial(session), run)
               && SourceRows(session, |session.streams|) == session.expectedRows))
      && (Clean(session, Initial(session), run) ==> st.errors == 0 && !st.stop)
  {
    var st := After(session, Initial(session), run);
    VerdictIsExact(session, run);
    InitialKeepsAll(session);
    RunKeepsAll(session, Initial(session), run);
    if Clean(session, Initial(session), run) {
      CleanRuns(session, Initial(session), run);
    } else {
      TroubledRuns(session, Initial(session), run);
    }
  }

  lemma {:induction false} RunsJoin(session: Session, st: State, run: seq<Action>, rest: seq<Action>)
    requires Possible(session, st, run) && Possible(session, After(session, st, run), rest)
    requires Clean(session, st, run) && forall i :: 0 <= i < |rest| ==> Succeeding(rest[i])
    ensures Possible(session, st, run + rest)
    ensures After(session, st, run + rest) == After(session, After(session, st, run), rest)
    ensures Clean(session, st, run + rest)
    decreases |run|
  {
    if run == [] {
      assert run + rest == rest;
      SucceedingIsClean(session, st, rest);
    } else {
      assert (run + rest)[0] == run[0] && (run + rest)[1..] == run[1..] + rest;
      RunsJoin(session, Step(session, st, run[0]), run[1..], rest);
    }
  }

  lemma {:induction false} SucceedingIsClean(session: Session, st: State, run: seq<Action>)
    requires Possible(session, st, run) && forall i :: 0 <= i < |run| ==> Succeeding(run[i])
    ensures Clean(session, st, run)
    decreases |run|
  {
    if run != [] {
      assert Succeeding(run[0]);
      SucceedingIsClean(session, Step(session, st, run[0]), run[1..]);
    }
  }

  /** As long as no call has failed, the transfer can still return, if the streams hold the rows expected. */
  lemma CleanTransfersCanReturn(session: Session, run: seq<Action>) returns (rest: seq<Action>)
    requires Acceptable(session) && Possible(session, Initial(session), run)
    requires Clean(session, Initial(session), run)
    requires SourceRows(session, |session.streams|) == session.expectedRows
    ensures Possible(session, Initial(session), run + rest)
    ensures After(session, Initial(session), run + rest).main.Returned?
  {
    rest := EveryReachableStateCanFinish(session, run);
    RunsJoin(session, Initial(session), run, rest);
    ReportsExactly(session, run + rest);
  }

  // ---------- after the stop flag ----------

  function Count(readers: seq<Reader>, kind: Reader -> bool): nat {
    if readers == [] then 0 else (if kind(readers[0]) then 1 else 0) + Count(readers[1..], kind)
  }

  predicate IsClaiming(reader: Reader) { reader.Claiming? }

  predicate IsPutting(reader: Reader) { reader.Putting? }

  lemma {:induction false} CountUpdate(readers: seq<Reader>, r: nat, reader: Reader, kind: Reader -> bool)
    requires r < |readers|
    ensures Count(readers[r := reader], kind) ==
            Count(readers, kind) - (if kind(readers[r]) then 1 else 0) + (if kind(reader) then 1 else 0)
  {
    var updated := readers[r := reader];
    if r == 0 {
      assert updated[1..] == readers[1..];
    } else {
      assert updated[1..] == readers[1..][r - 1 := reader];
      CountUpdate(readers[1..], r - 1, reader, kind);
    }
  }

  /** Streams claimed, and those about to be. */
  function Claims(st: State): nat { |st.claims| + Count(st.readers, IsClaiming) }

  function InQueue(queue: seq<Item>): nat {
    if queue == [] then 0 else (if queue[0].Data? then 1 else 0) + InQueue(queue[1..])
  }

  /** Batches written, in the writer's hands or queued, and those about to be put. */
  function Batches(st: State): nat {
    |st.written| + (if st.writer.Writing? then 1 else 0) + InQueue(st.queue) + Count(st.readers, IsPutting)
  }

  lemma {:induction false} InQueueAppend(queue: seq<Item>, item: Item)
    ensures InQueue(queue + [item]) == InQueue(queue) + (if item.Data? then 1 else 0)
  {
    if queue == [] {
      assert [] + [item] == [item] && [item][1..] == [];
    } else {
      assert (queue + [item])[1..] == queue[1..] + [item];
      InQueueAppend(queue[1..], item);
    }
  }

  lemma StoppedReader(session: Session, st: State, r: nat, outcome: Outcome)
    requires st.stop && r < |st.readers| && ReaderCanMove(st.readers[r])
    ensures var next := MoveReader(session, st, r, outcome);
      next.stop && Claims(next) <= Claims(st) && Batches(next) <= Batches(st)
  {
    var next := MoveReader(session, st, r, outcome);
    assert next.readers == st.readers[r := next.readers[r]];
    CountUpdate(st.readers, r, next.readers[r], IsClaiming);
    CountUpdate(st.readers, r, next.readers[r], IsPutting);
    if st.readers[r].Putting? {
      InQueueAppend(st.queue, Data(Batch(st.readers[r].stream, st.readers[r].index)));
    }
  }

  lemma StoppedStep(session: Session, st: State, action: Action)
    requires st.stop && Enabled(st, action)
    ensures var next := Step(session, st, action);
      next.stop && Claims(next) <= Claims(st) && Batches(next) <= Batches(st)
  {
    match action
    case ReaderMoves(r, outcome) => StoppedReader(session, st, r, outcome);
    case WriterMoves(outcome) =>
    case MainMoves => InQueueAppend(st.queue, Sentinel);
  }

  /** Once the stop flag is up it stays up: no stream is claimed but by a reader already claiming one, and no batch is
    * written but one already queued, being written or being put. */
  lemma {:induction false} StopIsObeyed(session: Session, st: State, run: seq<Action>)
    requires st.stop && Possible(session, st, run)
    ensures var end := After(session, st, run);
      && end.stop
      && |end.claims| <= |st.claims| + Count(st.readers, IsClaiming)
      && |end.written| <= Batches(st)
      && Claims(end) <= Claims(st) && Batches(end) <= Batches(st)
    decreases |run|
  {
    if run != [] {
      StoppedStep(session, st, run[0]);
      StopIsObeyed(session, Step(session, st, run[0]), run[1..]);
    }
  }

}

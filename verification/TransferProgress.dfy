/** The transfer cannot hang: from every state it can reach, some thread can take a step
  * that is not a retry at a full queue, and every such step uses up part of a finite budget.
  */
module TransferProgress {

  import opened Transfer
  import opened TransferSafety

  function BatchesLeft(session: Session, stream: nat, index: nat): nat {
    if stream < |session.streams| && index <= |session.streams[stream]| then |session.streams[stream]| - index else 0
  }

  /** How many steps the reader's present stream can still cost, bounces aside. */
  function ReaderWeight(session: Session, stop: bool, reader: Reader): nat {
    match reader
    case Looking => 5
    case Claiming => 4
    case Opening(s) => 7 + 12 * BatchesLeft(session, s, 0)
    case Paging(s, k) => 6 + 12 * BatchesLeft(session, s, k)
    case Offering(s, k) => 6 + 12 * BatchesLeft(session, s, k) - if stop then 2 else 1
    case Putting(s, k) => 6 + 12 * BatchesLeft(session, s, k) - if stop then 1 else 2
    case Raising => 3
    case Stopping => 2
    case Cancelling => 1
    case Finished => 0
  }

  function ReadersWeight(session: Session, stop: bool, readers: seq<Reader>): nat {
    if readers == [] then 0
    else ReaderWeight(session, stop, readers[0]) + ReadersWeight(session, stop, readers[1..])
  }

  function PendingWeight(session: Session, pending: seq<nat>): nat {
    if pending == [] then 0
    else 4 + 12 * BatchesLeft(session, pending[0], 0) + PendingWeight(session, pending[1..])
  }

  function WriterWeight(writer: Writer): nat {
    match writer
    case Creating => 6
    case Getting => 5
    case Writing(_) => 7
    case Closing => 4
    case WriterRaising => 3
    case WriterStopping => 2
    case WriterCancelling => 1
    case WriterFinished => 0
  }

  function MainWeight(readers: nat, main: Main, queueIsEmpty: bool): nat {
    match main
    case Joining(i) => if i <= readers then 20 + (readers - i) else 20
    case Checking => 13
    case PuttingSentinel => 12
    case SawFull => if queueIsEmpty then 15 else 11
    case Draining => if queueIsEmpty then 14 else 10
    case JoiningWriter => 1
    case _ => 0
  }

  function Budget(session: Session, st: State): nat {
    ReadersWeight(session, st.stop, st.readers) + PendingWeight(session, st.pending) + 9 * |st.queue|
    + WriterWeight(st.writer) + MainWeight(|st.readers|, st.main, st.queue == [])
    + if st.stop then 0 else |st.readers| + 1
  }

  /** A retry at a full queue: a reader whose `put` timed out before any stop, or the main
    * thread coming back to check the writer after its own `put` timed out. */
  predicate Bounce(st: State, action: Action) {
    match action
    case ReaderMoves(r, _) => r < |st.readers| && st.readers[r].Putting? && |st.queue| >= CAPACITY && !st.stop
    case WriterMoves(_) => false
    case MainMoves => st.main.SawFull? && !st.stop && st.queue != []
  }

  function Bounces(session: Session, st: State, run: seq<Action>): nat
    requires Possible(session, st, run)
    decreases |run|
  {
    if run == [] then 0
    else (if Bounce(st, run[0]) then 1 else 0) + Bounces(session, Step(session, st, run[0]), run[1..])
  }

  lemma {:induction false} OneReaderWeighs(session: Session, stop: bool, readers: seq<Reader>, r: nat, reader: Reader)
    requires r < |readers|
    ensures ReadersWeight(session, stop, readers[r := reader]) + ReaderWeight(session, stop, readers[r])
         == ReadersWeight(session, stop, readers) + ReaderWeight(session, stop, reader)
  {
    if r == 0 {
      assert readers[0 := reader][1..] == readers[1..];
    } else {
      assert readers[r := reader][1..] == readers[1..][r - 1 := reader];
      OneReaderWeighs(session, stop, readers[1..], r - 1, reader);
    }
  }

  lemma {:induction false} StopWeighs(session: Session, readers: seq<Reader>)
    ensures ReadersWeight(session, true, readers) <= ReadersWeight(session, false, readers) + |readers|
  {
    if readers != [] {
      StopWeighs(session, readers[1..]);
    }
  }

  /** The budget a reader's own step leaves, before other terms are counted. */
  lemma ReaderSpends(session: Session, st: State, r: nat, outcome: Outcome)
    requires Inv(session, st) && r < |st.readers| && ReaderCanMove(st.readers[r])
    requires !st.readers[r].Stopping?
    ensures var st' := MoveReader(session, st, r, outcome);
      && ReaderWeight(session, st.stop, st'.readers[r]) + PendingWeight(session, st'.pending) + 9 * |st'.queue| + 1
           <= ReaderWeight(session, st.stop, st.readers[r]) + PendingWeight(session, st.pending) + 9 * |st.queue|
              + (if Bounce(st, ReaderMoves(r, outcome)) then 2 else 0)
  {
    assert Placed(session, st, r);
  }

  /** Raising the stop flag pays for the readers that must leave `Putting`. */
  lemma ReaderStops(session: Session, st: State, r: nat, outcome: Outcome)
    requires Inv(session, st) && r < |st.readers| && st.readers[r].Stopping?
    ensures Budget(session, MoveReader(session, st, r, outcome)) + 1 <= Budget(session, st)
  {
    OneReaderWeighs(session, st.stop, st.readers, r, Cancelling);
    StopWeighs(session, st.readers[r := Cancelling]);
  }

  lemma ReaderTouches(session: Session, st: State, r: nat, outcome: Outcome)
    requires r < |st.readers| && ReaderCanMove(st.readers[r]) && !st.readers[r].Stopping?
    ensures var st' := MoveReader(session, st, r, outcome);
      && st'.readers == st.readers[r := st'.readers[r]] && st'.writer == st.writer && st'.main == st.main
      && st'.stop == st.stop && (st'.queue == [] ==> st.queue == [])
  {
  }

  lemma ReaderUsesBudget(session: Session, st: State, r: nat, outcome: Outcome)
    requires Inv(session, st) && r < |st.readers| && ReaderCanMove(st.readers[r])
    ensures Budget(session, MoveReader(session, st, r, outcome)) + 1
         <= Budget(session, st) + (if Bounce(st, ReaderMoves(r, outcome)) then 2 else 0)
  {
    if st.readers[r].Stopping? {
      ReaderStops(session, st, r, outcome);
    } else {
      ReaderTouches(session, st, r, outcome);
      ReaderSpends(session, st, r, outcome);
      OneReaderWeighs(session, st.stop, st.readers, r, MoveReader(session, st, r, outcome).readers[r]);
    }
  }

  lemma WriterUsesBudget(session: Session, st: State, outcome: Outcome)
    requires Inv(session, st) && WriterCanMove(st)
    ensures Budget(session, MoveWriter(session, st, outcome)) + 1 <= Budget(session, st)
  {
    if st.writer.WriterStopping? {
      StopWeighs(session, st.readers);
    }
  }

  lemma MainUsesBudget(session: Session, st: State)
    requires Inv(session, st) && MainCanMove(st)
    ensures Budget(session, MoveMain(session, st)) + 1
         <= Budget(session, st) + (if Bounce(st, MainMoves) then 3 else 0)
  {
  }

  lemma StepUsesBudget(session: Session, st: State, action: Action)
    requires Inv(session, st) && Enabled(st, action)
    ensures Budget(session, Step(session, st, action)) + 1
         <= Budget(session, st) + (if Bounce(st, action) then 3 else 0)
  {
    match action
    case ReaderMoves(r, outcome) => ReaderUsesBudget(session, st, r, outcome);
    case WriterMoves(outcome) => WriterUsesBudget(session, st, outcome);
    case MainMoves => MainUsesBudget(session, st);
  }

  /** No run outlasts its budget except by retrying at a full queue: apart from those retries
    * every interleaving ends. */
  lemma {:induction false} RunsAreBounded(session: Session, st: State, run: seq<Action>)
    requires Inv(session, st) && Possible(session, st, run)
    ensures |run| + Budget(session, After(session, st, run))
         <= Budget(session, st) + 3 * Bounces(session, st, run)
    decreases |run|
  {
    if run != [] {
      StepUsesBudget(session, st, run[0]);
      StepKeepsAll(session, st, run[0]);
      RunsAreBounded(session, Step(session, st, run[0]), run[1..]);
    }
  }

  // ---------- some thread can always move ----------

  predicate Over(st: State) {
    st.main.Returned? || st.main.Raised?
  }

  predicate Succeeding(action: Action) {
    action.MainMoves? || action.outcome.Succeeds?
  }

  /** An enabled step that is no retry and meets no failure, while the main thread has not reported. */
  function Helpful(session: Session, st: State): (action: Action)
    requires Inv(session, st) && !Over(st)
    ensures Enabled(st, action) && !Bounce(st, action) && Succeeding(action)
  {
    if WriterCanMove(st) then WriterMoves(Succeeds)
    else if MainCanMove(st) && !Bounce(st, MainMoves) then MainMoves
    else
      StuckMainAwaitsReader(session, st);
      ReaderMoves(st.main.next, Succeeds)
  }

  /** With the writer waiting or gone, the main thread is held up only by a reader that can
    * itself move: the queue then has room, or the stop flag is up. */
  lemma StuckMainAwaitsReader(session: Session, st: State)
    requires Inv(session, st) && !Over(st) && !WriterCanMove(st)
    requires !MainCanMove(st) || Bounce(st, MainMoves)
    ensures st.main.Joining? && Enabled(st, ReaderMoves(st.main.next, Succeeds))
    ensures !Bounce(st, ReaderMoves(st.main.next, Succeeds))
  {
  }

  /** From every reachable state the transfer can still run to its report, without a single
    * retry and within the budget: there is no deadlock and no trap. */
  lemma {:induction false} CanFinish(session: Session, st: State) returns (run: seq<Action>)
    requires Inv(session, st)
    ensures Possible(session, st, run) && Over(After(session, st, run))
    ensures Bounces(session, st, run) == 0 && |run| <= Budget(session, st)
    ensures forall i :: 0 <= i < |run| ==> Succeeding(run[i])
    decreases Budget(session, st)
  {
    if Over(st) {
      run := [];
    } else {
      var action := Helpful(session, st);
      StepUsesBudget(session, st, action);
      StepKeepsAll(session, st, action);
      var rest := CanFinish(session, Step(session, st, action));
      run := [action] + rest;
      assert run[1..] == rest;
    }
  }

  /** Both halves, for every state reached by any interleaving from the start. */
  lemma EveryReachableStateCanFinish(session: Session, run: seq<Action>) returns (rest: seq<Action>)
    requires Acceptable(session) && Possible(session, Initial(session), run)
    ensures |run| <= Budget(session, Initial(session)) + 3 * Bounces(session, Initial(session), run)
    ensures Possible(session, After(session, Initial(session), run), rest)
    ensures Over(After(session, After(session, Initial(session), run), rest))
    ensures forall i :: 0 <= i < |rest| ==> Succeeding(rest[i])
  {
    InitialKeepsAll(session);
    RunKeepsAll(session, Initial(session), run);
    RunsAreBounded(session, Initial(session), run);
    rest := CanFinish(session, After(session, Initial(session), run));
  }

}

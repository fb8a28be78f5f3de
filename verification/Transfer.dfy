/** The reference Python transfer: reader threads claim read streams and feed one
  * bounded queue, a writer thread drains it into a file, and the main thread joins the
  * readers, sends a sentinel and reports.
  *
  * The model is a state machine over single thread steps: every interleaving of the
  * threads is a sequence of `Action`s.  A remote call or a file operation may fail
  * whenever it is made.
  */
module Transfer {

  const CAPACITY: nat := 100

  /** One batch of a stream: the stream and the batch's position in it. */
  datatype Batch = Batch(stream: nat, index: nat)

  datatype Item = Data(batch: Batch) | Sentinel

  datatype Claim = Claim(stream: nat, reader: nat)

  /** Where a reader thread is.  `Offering` tests the stop flag, `Putting` waits for room. */
  datatype Reader =
    | Looking
    | Claiming
    | Opening(stream: nat)
    | Paging(stream: nat, index: nat)
    | Offering(stream: nat, index: nat)
    | Putting(stream: nat, index: nat)
    | Raising
    | Stopping
    | Cancelling
    | Finished

  datatype Writer =
    | Creating
    | Getting
    | Writing(batch: Batch)
    | Closing
    | WriterRaising
    | WriterStopping
    | WriterCancelling
    | WriterFinished

  datatype Main =
    | Joining(next: nat)
    | Checking
    | PuttingSentinel
    | SawFull
    | Draining
    | JoiningWriter
    | Returned
    | Raised

  /** What is fixed for a run: the row counts of every stream's batches and the contract. */
  datatype Session = Session(streams: seq<seq<nat>>, requestedStreams: nat, expectedRows: nat)

  datatype State = State(
    readers: seq<Reader>,
    writer: Writer,
    main: Main,
    pending: seq<nat>,
    claims: seq<Claim>,
    queue: seq<Item>,
    stop: bool,
    errors: nat,
    written: seq<Batch>,
    rowsWritten: nat)

  datatype Outcome = Succeeds | Fails

  datatype Action = ReaderMoves(reader: nat, outcome: Outcome) | WriterMoves(outcome: Outcome) | MainMoves

  /** The contract refuses zero requested streams and the session must return at least one. */
  predicate Acceptable(session: Session) {
    session.requestedStreams > 0 && |session.streams| > 0
  }

  function Readers(session: Session): nat {
    if session.requestedStreams <= |session.streams| then session.requestedStreams else |session.streams|
  }

  function Initial(session: Session): State {
    State(seq(Readers(session), _ => Looking), Creating, Joining(0), seq(|session.streams|, i => i),
          [], [], false, 0, [], 0)
  }

  // ---------- steps ----------

  predicate ReaderCanMove(reader: Reader) {
    !reader.Finished?
  }

  function MoveReader(session: Session, st: State, r: nat, outcome: Outcome): State
    requires r < |st.readers| && ReaderCanMove(st.readers[r])
  {
    match st.readers[r]
    case Looking => st.(readers := st.readers[r := if st.stop then Finished else Claiming])
    case Claiming =>
      if st.pending == [] then st.(readers := st.readers[r := Finished])
      else
        st.(readers := st.readers[r := Opening(st.pending[0])], pending := st.pending[1..],
            claims := st.claims + [Claim(st.pending[0], r)])
    case Opening(s) => st.(readers := st.readers[r := if outcome.Fails? then Raising else Paging(s, 0)])
    case Paging(s, k) => st.(readers := st.readers[r := Paged(session, s, k, outcome)])
    case Offering(s, k) =>
      st.(readers := st.readers[r := if st.stop then Paging(s, k + 1) else Putting(s, k)])
    case Putting(s, k) =>
      if |st.queue| < CAPACITY then
        st.(readers := st.readers[r := Paging(s, k + 1)], queue := st.queue + [Data(Batch(s, k))])
      else
        st.(readers := st.readers[r := Offering(s, k)])
    case Raising => st.(readers := st.readers[r := Stopping], errors := st.errors + 1)
    case Stopping => st.(readers := st.readers[r := Cancelling], stop := true)
    case _ => st.(readers := st.readers[r := Finished])
  }

  function Paged(session: Session, stream: nat, index: nat, outcome: Outcome): Reader {
    if outcome.Fails? then Raising
    else if stream < |session.streams| && index < |session.streams[stream]| then Offering(stream, index)
    else Looking
  }

  predicate WriterCanMove(st: State) {
    match st.writer
    case Getting => st.queue != []
    case WriterFinished => false
    case _ => true
  }

  function MoveWriter(session: Session, st: State, outcome: Outcome): State
    requires WriterCanMove(st)
  {
    match st.writer
    case Creating => st.(writer := if outcome.Fails? then WriterRaising else Getting)
    case Getting =>
      st.(writer := if st.queue[0].Sentinel? then Closing else Writing(st.queue[0].batch), queue := st.queue[1..])
    case Writing(batch) =>
      if outcome.Fails? then st.(writer := WriterRaising)
      else st.(writer := Getting, written := st.written + [batch], rowsWritten := st.rowsWritten + Rows(session, batch))
    case Closing => st.(writer := if outcome.Fails? then WriterRaising else WriterFinished)
    case WriterRaising => st.(writer := WriterStopping, errors := st.errors + 1)
    case WriterStopping => st.(writer := WriterCancelling, stop := true)
    case _ => st.(writer := WriterFinished)
  }

  function Rows(session: Session, batch: Batch): nat {
    if batch.stream < |session.streams| && batch.index < |session.streams[batch.stream]|
    then session.streams[batch.stream][batch.index] else 0
  }

  predicate MainCanMove(st: State) {
    match st.main
    case Joining(i) => i < |st.readers| ==> st.readers[i].Finished?
    case JoiningWriter => st.writer.WriterFinished?
    case Returned => false
    case Raised => false
    case _ => true
  }

  function MoveMain(session: Session, st: State): State
    requires MainCanMove(st)
  {
    match st.main
    case Joining(i) => st.(main := if i < |st.readers| then Joining(i + 1) else Checking)
    case Checking => st.(main := if st.writer.WriterFinished? then JoiningWriter else PuttingSentinel)
    case PuttingSentinel =>
      if |st.queue| < CAPACITY then st.(main := JoiningWriter, queue := st.queue + [Sentinel])
      else st.(main := SawFull)
    case SawFull => st.(main := if st.stop then Draining else Checking)
    case Draining => st.(main := Checking, queue := if st.queue == [] then [] else st.queue[1..])
    case _ =>
      st.(main := if st.errors > 0 || st.rowsWritten != session.expectedRows then Raised else Returned)
  }

  predicate Enabled(st: State, action: Action) {
    match action
    case ReaderMoves(r, _) => r < |st.readers| && ReaderCanMove(st.readers[r])
    case WriterMoves(_) => WriterCanMove(st)
    case MainMoves => MainCanMove(st)
  }

  function Step(session: Session, st: State, action: Action): State
    requires Enabled(st, action)
  {
    match action
    case ReaderMoves(r, outcome) => MoveReader(session, st, r, outcome)
    case WriterMoves(outcome) => MoveWriter(session, st, outcome)
    case MainMoves => MoveMain(session, st)
  }

  /** Every action is enabled in the state it meets. */
  predicate Possible(session: Session, st: State, run: seq<Action>)
    decreases |run|
  {
    run == [] || (Enabled(st, run[0]) && Possible(session, Step(session, st, run[0]), run[1..]))
  }

  function After(session: Session, st: State, run: seq<Action>): State
    requires Possible(session, st, run)
    decreases |run|
  {
    if run == [] then st else After(session, Step(session, st, run[0]), run[1..])
  }

}

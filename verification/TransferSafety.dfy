/** What every state of the transfer keeps, and what a finished transfer guarantees, over every
  * interleaving of its threads.
  */
module TransferSafety {

  import opened Text
  import opened Transfer

  // ---------- what every state keeps ----------

  predicate Late(main: Main) {
    main.JoiningWriter? || main.Returned? || main.Raised?
  }

  predicate Active(writer: Writer) {
    writer.Creating? || writer.Getting? || writer.Writing?
  }

  predicate Busy(reader: Reader) {
    reader.Opening? || reader.Paging? || reader.Offering? || reader.Putting?
  }

  predicate Holds(reader: Reader, stream: nat) {
    Busy(reader) && reader.stream == stream
  }

  predicate AllFinished(readers: seq<Reader>) {
    forall r :: 0 <= r < |readers| ==> readers[r].Finished?
  }

  predicate Shaped(session: Session, st: State) {
    && |st.readers| == Readers(session)
    && |st.queue| <= CAPACITY
    && |st.claims| + |st.pending| == |session.streams|
    && (forall j :: 0 <= j < |st.pending| ==> st.pending[j] == |st.claims| + j)
    && (forall s :: 0 <= s < |st.claims| ==> st.claims[s].stream == s && st.claims[s].reader < |st.readers|)
  }

  predicate Placed(session: Session, st: State, r: nat)
    requires r < |st.readers| && |st.claims| <= |session.streams|
  {
    var reader := st.readers[r];
    && (Busy(reader) ==> reader.stream < |st.claims| && st.claims[reader.stream].reader == r)
    && (reader.Paging? ==> reader.stream < |session.streams| && reader.index <= |session.streams[reader.stream]|)
    && ((reader.Offering? || reader.Putting?) ==>
          reader.stream < |session.streams| && reader.index < |session.streams[reader.stream]|)
    && ((reader.Stopping? || reader.Cancelling?) ==> st.errors > 0)
    && (reader.Cancelling? ==> st.stop)
  }

  predicate Stops(st: State) {
    && (st.stop ==> st.errors > 0)
    && ((st.writer.WriterStopping? || st.writer.WriterCancelling?) ==> st.errors > 0)
    && (st.writer.WriterCancelling? ==> st.stop)
    && (st.main.Draining? ==> st.stop)
  }

  predicate Ends(session: Session, st: State) {
    && (st.main.Joining? ==>
          st.main.next <= |st.readers| && forall r :: 0 <= r < st.main.next ==> st.readers[r].Finished?)
    && (!st.main.Joining? ==> AllFinished(st.readers))
    && (forall j :: 0 <= j < |st.queue| && st.queue[j].Sentinel? ==> j == |st.queue| - 1 && Late(st.main))
    && (st.main.JoiningWriter? && Active(st.writer) ==> st.queue != [] && st.queue[|st.queue| - 1].Sentinel?)
    && (st.writer.Closing? ==> Late(st.main) && st.queue == [])
    && (st.writer.WriterFinished? ==> st.stop || (Late(st.main) && st.queue == []))
    && (st.main.Returned? ==>
          st.writer.WriterFinished? && st.errors == 0 && st.rowsWritten == session.expectedRows)
    && (st.main.Raised? ==>
          st.writer.WriterFinished? && (st.errors > 0 || st.rowsWritten != session.expectedRows))
  }

  /** No thread has met a failure yet. */
  predicate Quiet(st: State) {
    st.errors == 0 && !st.writer.WriterRaising? && forall r :: 0 <= r < |st.readers| ==> !st.readers[r].Raising?
  }

  function Hand(writer: Writer): seq<Batch> {
    if writer.Writing? then [writer.batch] else []
  }

  function Batches(queue: seq<Item>): seq<Batch> {
    if queue == [] then []
    else (if queue[0].Data? then [queue[0].batch] else []) + Batches(queue[1..])
  }

  /** Everything the queue has taken, in order: written, in the writer's hand, still queued. */
  function Taken(st: State): seq<Batch> {
    st.written + (Hand(st.writer) + Batches(st.queue))
  }

  /** The positions at which `stream` occurs in `batches`, in order. */
  function Positions(batches: seq<Batch>, stream: nat): seq<nat> {
    if batches == [] then []
    else
      var front := Positions(batches[..|batches| - 1], stream);
      var last := batches[|batches| - 1];
      if last.stream == stream then front + [last.index] else front
  }

  function UpTo(n: nat): seq<nat> {
    seq(n, i => i)
  }

  /** How many batches of `stream` its reader has put on the queue, in a quiet state. */
  function Progress(session: Session, st: State, stream: nat): nat
    requires Shaped(session, st) && stream < |session.streams|
  {
    if stream >= |st.claims| then 0
    else
      var reader := st.readers[st.claims[stream].reader];
      if !Holds(reader, stream) then |session.streams[stream]|
      else if reader.Opening? then 0
      else reader.index
  }

  function TotalRows(session: Session, batches: seq<Batch>): nat {
    if batches == [] then 0
    else TotalRows(session, batches[..|batches| - 1]) + Rows(session, batches[|batches| - 1])
  }

  predicate Known(session: Session, batches: seq<Batch>) {
    forall i :: 0 <= i < |batches| ==> batches[i].stream < |session.streams|
  }

  predicate Complete(session: Session, st: State)
    requires Shaped(session, st)
  {
    && Known(session, Taken(st))
    && (forall s :: 0 <= s < |session.streams| ==> Positions(Taken(st), s) == UpTo(Progress(session, st, s)))
    && (forall r :: 0 <= r < |st.readers| && st.readers[r].Finished? ==> st.pending == [])
  }

  predicate Inv(session: Session, st: State) {
    && Acceptable(session)
    && Shaped(session, st)
    && (forall r :: 0 <= r < |st.readers| ==> Placed(session, st, r))
    && Stops(st)
    && Ends(session, st)
    && st.rowsWritten == TotalRows(session, st.written)
    && (Quiet(st) ==> Complete(session, st))
  }

  lemma InitialKeepsAll(session: Session)
    requires Acceptable(session)
    ensures Inv(session, Initial(session))
  {
    var st := Initial(session);
    assert Taken(st) == [];
    forall s | 0 <= s < |session.streams| ensures Positions(Taken(st), s) == UpTo(Progress(session, st, s)) {
      assert UpTo(0) == [];
    }
  }

  // ---------- readers keep it ----------

  lemma ReaderKeepsShape(session: Session, st: State, r: nat, outcome: Outcome)
    requires Inv(session, st) && r < |st.readers| && ReaderCanMove(st.readers[r])
    ensures Shaped(session, MoveReader(session, st, r, outcome))
  {
  }

  lemma ReaderKeepsOthers(session: Session, st: State, r: nat, outcome: Outcome, q: nat)
    requires r < |st.readers| && ReaderCanMove(st.readers[r])
    requires q < |st.readers| && q != r
    requires |st.claims| <= |session.streams| && |MoveReader(session, st, r, outcome).claims| <= |session.streams|
    requires Placed(session, st, q)
    ensures Placed(session, MoveReader(session, st, r, outcome), q)
  {
  }

  lemma ReaderKeepsItself(session: Session, st: State, r: nat, outcome: Outcome)
    requires Shaped(session, st) && r < |st.readers| && ReaderCanMove(st.readers[r])
    requires Placed(session, st, r) && Stops(st)
    requires |MoveReader(session, st, r, outcome).claims| <= |session.streams|
    ensures Placed(session, MoveReader(session, st, r, outcome), r)
  {
  }

  lemma ReaderKeepsPlaces(session: Session, st: State, r: nat, outcome: Outcome)
    requires Inv(session, st) && r < |st.readers| && ReaderCanMove(st.readers[r])
    ensures var st' := MoveReader(session, st, r, outcome);
      |st'.claims| <= |session.streams| && forall q :: 0 <= q < |st'.readers| ==> Placed(session, st', q)
  {
    ReaderKeepsShape(session, st, r, outcome);
    var st' := MoveReader(session, st, r, outcome);
    forall q | 0 <= q < |st'.readers| ensures Placed(session, st', q) {
      if q == r {
        ReaderKeepsItself(session, st, r, outcome);
      } else {
        ReaderKeepsOthers(session, st, r, outcome, q);
      }
    }
  }

  lemma ReaderKeepsEnds(session: Session, st: State, r: nat, outcome: Outcome)
    requires Inv(session, st) && r < |st.readers| && ReaderCanMove(st.readers[r])
    ensures Stops(MoveReader(session, st, r, outcome)) && Ends(session, MoveReader(session, st, r, outcome))
  {
    assert Placed(session, st, r);
    assert !AllFinished(st.readers);
  }

  /** A reader's step can only add the batch it puts to what the queue has taken. */
  lemma ReaderTakes(session: Session, st: State, r: nat, outcome: Outcome)
    requires r < |st.readers| && ReaderCanMove(st.readers[r])
    ensures var st' := MoveReader(session, st, r, outcome);
      Taken(st') == if st.readers[r].Putting? && |st.queue| < CAPACITY
                    then Taken(st) + [Batch(st.readers[r].stream, st.readers[r].index)] else Taken(st)
  {
    if st.readers[r].Putting? && |st.queue| < CAPACITY {
      BatchesAppend(st.queue, Data(Batch(st.readers[r].stream, st.readers[r].index)));
    }
  }

  lemma {:induction false} BatchesAppend(queue: seq<Item>, item: Item)
    ensures Batches(queue + [item]) == Batches(queue) + (if item.Data? then [item.batch] else [])
  {
    if queue == [] {
      assert queue + [item] == [item];
    } else {
      assert (queue + [item])[1..] == queue[1..] + [item];
      BatchesAppend(queue[1..], item);
      ConcatAssociates(if queue[0].Data? then [queue[0].batch] else [], Batches(queue[1..]),
                       if item.Data? then [item.batch] else []);
    }
  }

  lemma ReaderProgress(session: Session, st: State, r: nat, outcome: Outcome, stream: nat)
    requires Inv(session, st) && r < |st.readers| && ReaderCanMove(st.readers[r])
    requires Quiet(MoveReader(session, st, r, outcome)) && stream < |session.streams|
    ensures var st' := MoveReader(session, st, r, outcome);
      && Quiet(st) && Shaped(session, st')
      && Progress(session, st', stream) == Progress(session, st, stream) +
           if st.readers[r].Putting? && |st.queue| < CAPACITY && st.readers[r].stream == stream then 1 else 0
  {
    ReaderKeepsShape(session, st, r, outcome);
    QuietBefore(session, st, r, outcome);
    assert Placed(session, st, r);
  }

  lemma QuietBefore(session: Session, st: State, r: nat, outcome: Outcome)
    requires r < |st.readers| && ReaderCanMove(st.readers[r])
    requires Quiet(MoveReader(session, st, r, outcome))
    ensures Quiet(st)
  {
    var st' := MoveReader(session, st, r, outcome);
    forall q | 0 <= q < |st.readers| ensures !st.readers[q].Raising? {
      assert !st'.readers[q].Raising?;
    }
  }

  lemma OneMoreBatch(batches: seq<Batch>, batch: Batch, stream: nat)
    ensures Positions(batches + [batch], stream)
         == Positions(batches, stream) + if batch.stream == stream then [batch.index] else []
  {
    assert (batches + [batch])[..|batches|] == batches;
  }

  lemma UpToGrows(n: nat)
    ensures UpTo(n) + [n] == UpTo(n + 1)
  {
  }

  lemma ReaderKeepsStream(session: Session, st: State, r: nat, outcome: Outcome, stream: nat)
    requires Inv(session, st) && r < |st.readers| && ReaderCanMove(st.readers[r])
    requires Quiet(MoveReader(session, st, r, outcome)) && stream < |session.streams|
    ensures var st' := MoveReader(session, st, r, outcome);
      Shaped(session, st') && Positions(Taken(st'), stream) == UpTo(Progress(session, st', stream))
  {
    ReaderProgress(session, st, r, outcome, stream);
    ReaderTakes(session, st, r, outcome);
    if st.readers[r].Putting? && |st.queue| < CAPACITY {
      PutterIsNext(session, st, r);
      OneMoreBatch(Taken(st), Batch(st.readers[r].stream, st.readers[r].index), stream);
      UpToGrows(st.readers[r].index);
    }
  }

  /** The batch a reader is putting is the next of its stream. */
  lemma PutterIsNext(session: Session, st: State, r: nat)
    requires Inv(session, st) && r < |st.readers| && st.readers[r].Putting?
    ensures st.readers[r].stream < |session.streams|
    ensures Progress(session, st, st.readers[r].stream) == st.readers[r].index
  {
    assert Placed(session, st, r);
  }

  lemma ReaderKeepsKnown(session: Session, st: State, r: nat, outcome: Outcome)
    requires Inv(session, st) && r < |st.readers| && ReaderCanMove(st.readers[r]) && Known(session, Taken(st))
    ensures Known(session, Taken(MoveReader(session, st, r, outcome)))
  {
    ReaderTakes(session, st, r, outcome);
    assert Placed(session, st, r);
  }

  lemma ReaderKeepsComplete(session: Session, st: State, r: nat, outcome: Outcome)
    requires Inv(session, st) && r < |st.readers| && ReaderCanMove(st.readers[r])
    requires Quiet(MoveReader(session, st, r, outcome))
    ensures var st' := MoveReader(session, st, r, outcome); Shaped(session, st') && Complete(session, st')
  {
    var st' := MoveReader(session, st, r, outcome);
    ReaderKeepsShape(session, st, r, outcome);
    QuietBefore(session, st, r, outcome);
    ReaderKeepsKnown(session, st, r, outcome);
    assert Placed(session, st, r);
    forall s | 0 <= s < |session.streams| ensures Positions(Taken(st'), s) == UpTo(Progress(session, st', s)) {
      ReaderKeepsStream(session, st, r, outcome, s);
    }
  }

  lemma ReaderKeepsAll(session: Session, st: State, r: nat, outcome: Outcome)
    requires Inv(session, st) && r < |st.readers| && ReaderCanMove(st.readers[r])
    ensures Inv(session, MoveReader(session, st, r, outcome))
  {
    ReaderKeepsShape(session, st, r, outcome);
    ReaderKeepsPlaces(session, st, r, outcome);
    ReaderKeepsEnds(session, st, r, outcome);
    if Quiet(MoveReader(session, st, r, outcome)) {
      ReaderKeepsComplete(session, st, r, outcome);
    }
  }

  // ---------- the writer and the main thread keep it ----------

  lemma SameReadersKeepPlaces(session: Session, st: State, st': State)
    requires Inv(session, st)
    requires st'.readers == st.readers && st'.claims == st.claims
    requires st'.errors >= st.errors && (st.stop ==> st'.stop)
    ensures forall q :: 0 <= q < |st'.readers| ==> Placed(session, st', q)
  {
    forall q | 0 <= q < |st'.readers| ensures Placed(session, st', q) {
      assert Placed(session, st, q);
    }
  }

  lemma WriterKeepsEnds(session: Session, st: State, outcome: Outcome)
    requires Inv(session, st) && WriterCanMove(st)
    ensures Stops(MoveWriter(session, st, outcome)) && Ends(session, MoveWriter(session, st, outcome))
  {
  }

  lemma WriterTakes(session: Session, st: State, outcome: Outcome)
    requires WriterCanMove(st) && Quiet(MoveWriter(session, st, outcome))
    ensures Quiet(st) && Taken(MoveWriter(session, st, outcome)) == Taken(st)
  {
  }

  lemma WriterKeepsAll(session: Session, st: State, outcome: Outcome)
    requires Inv(session, st) && WriterCanMove(st)
    ensures Inv(session, MoveWriter(session, st, outcome))
  {
    var st' := MoveWriter(session, st, outcome);
    SameReadersKeepPlaces(session, st, st');
    WriterKeepsEnds(session, st, outcome);
    WriterCounts(session, st, outcome);
    if Quiet(st') {
      WriterTakes(session, st, outcome);
      SameTakenKeepsComplete(session, st, st');
    }
  }

  lemma WriterCounts(session: Session, st: State, outcome: Outcome)
    requires WriterCanMove(st) && st.rowsWritten == TotalRows(session, st.written)
    ensures var st' := MoveWriter(session, st, outcome); st'.rowsWritten == TotalRows(session, st'.written)
  {
    if st.writer.Writing? {
      assert (st.written + [st.writer.batch])[..|st.written|] == st.written;
    }
  }

  lemma SameTakenKeepsComplete(session: Session, st: State, st': State)
    requires Shaped(session, st) && Shaped(session, st') && Complete(session, st)
    requires st'.readers == st.readers && st'.claims == st.claims && st'.pending == st.pending
    requires Taken(st') == Taken(st)
    ensures Complete(session, st')
  {
    assert forall s :: 0 <= s < |session.streams| ==> Progress(session, st', s) == Progress(session, st, s);
  }

  lemma MainKeepsEnds(session: Session, st: State)
    requires Inv(session, st) && MainCanMove(st)
    ensures Ends(session, MoveMain(session, st))
  {
  }

  lemma MainTakes(session: Session, st: State)
    requires Inv(session, st) && MainCanMove(st) && Quiet(st)
    ensures Taken(MoveMain(session, st)) == Taken(st)
  {
    if st.main.PuttingSentinel? && |st.queue| < CAPACITY {
      BatchesAppend(st.queue, Sentinel);
    }
  }

  lemma MainKeepsAll(session: Session, st: State)
    requires Inv(session, st) && MainCanMove(st)
    ensures Inv(session, MoveMain(session, st))
  {
    var st' := MoveMain(session, st);
    SameReadersKeepPlaces(session, st, st');
    MainKeepsEnds(session, st);
    if Quiet(st') {
      MainTakes(session, st);
      SameTakenKeepsComplete(session, st, st');
    }
  }

  lemma StepKeepsAll(session: Session, st: State, action: Action)
    requires Inv(session, st) && Enabled(st, action)
    ensures Inv(session, Step(session, st, action))
  {
    match action
    case ReaderMoves(r, outcome) => ReaderKeepsAll(session, st, r, outcome);
    case WriterMoves(outcome) => WriterKeepsAll(session, st, outcome);
    case MainMoves => MainKeepsAll(session, st);
  }

  lemma {:induction false} RunKeepsAll(session: Session, st: State, run: seq<Action>)
    requires Inv(session, st) && Possible(session, st, run)
    ensures Inv(session, After(session, st, run))
    decreases |run|
  {
    if run != [] {
      StepKeepsAll(session, st, run[0]);
      RunKeepsAll(session, Step(session, st, run[0]), run[1..]);
    }
  }

  // ---------- what a run guarantees ----------

  /** Over every interleaving: one reader runs per stream, up to the number requested, the queue never exceeds
    * its bound, the stop flag is only ever
    * up once an error is queued, and every stream is either still queued or claimed, once, by
    * one reader. */
  lemma EveryStateIsSafe(session: Session, run: seq<Action>)
    requires Acceptable(session) && Possible(session, Initial(session), run)
    ensures var st := After(session, Initial(session), run);
      && |st.queue| <= CAPACITY
      && |st.readers| <= session.requestedStreams && |st.readers| <= |session.streams|
      && (|st.readers| == session.requestedStreams || |st.readers| == |session.streams|)
      && (st.stop ==> st.errors > 0)
      && (forall i, j :: 0 <= i < j < |st.claims| ==> st.claims[i].stream != st.claims[j].stream)
      && (forall s :: 0 <= s < |session.streams| ==>
            (exists i :: 0 <= i < |st.claims| && st.claims[i].stream == s) != (s in st.pending))
  {
    InitialKeepsAll(session);
    RunKeepsAll(session, Initial(session), run);
    var st := After(session, Initial(session), run);
    forall s | 0 <= s < |session.streams|
      ensures (exists i :: 0 <= i < |st.claims| && st.claims[i].stream == s) != (s in st.pending)
    {
      if s < |st.claims| {
        assert st.claims[s].stream == s;
      } else {
        assert st.pending[s - |st.claims|] == s;
      }
    }
  }

  /** A run that returns has written every batch of every stream exactly once, each stream's
    * batches in their order, and nothing else; every stream was claimed. */
  lemma ReturnMeansComplete(session: Session, run: seq<Action>)
    requires Acceptable(session) && Possible(session, Initial(session), run)
    requires After(session, Initial(session), run).main.Returned?
    ensures var st := After(session, Initial(session), run);
      && Known(session, st.written)
      && (forall s :: 0 <= s < |session.streams| ==> Positions(st.written, s) == UpTo(|session.streams[s]|))
      && |st.claims| == |session.streams|
      && st.rowsWritten == session.expectedRows == SourceRows(session, |session.streams|)
  {
    InitialKeepsAll(session);
    RunKeepsAll(session, Initial(session), run);
    QuietEndIsComplete(session, After(session, Initial(session), run));
  }

  /** When the transfer reports, it returns exactly if no thread queued an error and the
    * streams hold the number of rows the contract expects. */
  lemma VerdictIsExact(session: Session, run: seq<Action>)
    requires Acceptable(session) && Possible(session, Initial(session), run)
    ensures var st := After(session, Initial(session), run);
      (st.main.Returned? || st.main.Raised?) ==>
        (st.main.Returned? <==> st.errors == 0 && SourceRows(session, |session.streams|) == session.expectedRows)
  {
    InitialKeepsAll(session);
    RunKeepsAll(session, Initial(session), run);
    var st := After(session, Initial(session), run);
    if (st.main.Returned? || st.main.Raised?) && st.errors == 0 {
      QuietEndIsComplete(session, st);
    }
  }

  lemma QuietEndIsComplete(session: Session, st: State)
    requires Inv(session, st) && (st.main.Returned? || st.main.Raised?) && st.errors == 0
    ensures Known(session, st.written) && |st.claims| == |session.streams|
    ensures forall s :: 0 <= s < |session.streams| ==> Positions(st.written, s) == UpTo(|session.streams[s]|)
    ensures st.rowsWritten == SourceRows(session, |session.streams|)
  {
    assert Quiet(st);
    assert st.readers[0].Finished?;
    assert Taken(st) == st.written;
    forall s | 0 <= s < |session.streams| ensures Positions(st.written, s) == UpTo(|session.streams[s]|) {
      assert Progress(session, st, s) == |session.streams[s]|;
    }
    RowsByStream(session, st.written, |session.streams|);
    WholeStreams(session, st.written, |session.streams|);
  }

  /** The rows at the given positions of one stream. */
  function RowsAt(session: Session, stream: nat, positions: seq<nat>): nat {
    if positions == [] then 0
    else RowsAt(session, stream, positions[..|positions| - 1])
         + Rows(session, Batch(stream, positions[|positions| - 1]))
  }

  /** The rows of the first `count` batches of one stream. */
  function StreamRows(session: Session, stream: nat, count: nat): nat
    requires stream < |session.streams| && count <= |session.streams[stream]|
  {
    if count == 0 then 0 else StreamRows(session, stream, count - 1) + session.streams[stream][count - 1]
  }

  /** The rows of the first `count` streams. */
  function SourceRows(session: Session, count: nat): nat
    requires count <= |session.streams|
  {
    if count == 0 then 0
    else SourceRows(session, count - 1) + StreamRows(session, count - 1, |session.streams[count - 1]|)
  }

  function ByStream(session: Session, batches: seq<Batch>, count: nat): nat {
    if count == 0 then 0
    else ByStream(session, batches, count - 1) + RowsAt(session, count - 1, Positions(batches, count - 1))
  }

  lemma {:induction false} RowsByStream(session: Session, batches: seq<Batch>, count: nat)
    requires forall i :: 0 <= i < |batches| ==> batches[i].stream < count
    ensures TotalRows(session, batches) == ByStream(session, batches, count)
  {
    if batches == [] {
      NothingByStream(session, count);
    } else {
      var front, last := batches[..|batches| - 1], batches[|batches| - 1];
      RowsByStream(session, front, count);
      OneMoreByStream(session, front, last, count);
      assert front + [last] == batches;
    }
  }

  lemma {:induction false} NothingByStream(session: Session, count: nat)
    ensures ByStream(session, [], count) == 0
  {
    if count > 0 {
      NothingByStream(session, count - 1);
    }
  }

  lemma {:induction false} OneMoreByStream(session: Session, front: seq<Batch>, last: Batch, count: nat)
    ensures ByStream(session, front + [last], count)
         == ByStream(session, front, count) + if last.stream < count then Rows(session, last) else 0
  {
    if count > 0 {
      OneMoreByStream(session, front, last, count - 1);
      OneMorePosition(session, front, last, count - 1);
    }
  }

  lemma OneMorePosition(session: Session, front: seq<Batch>, last: Batch, stream: nat)
    ensures RowsAt(session, stream, Positions(front + [last], stream))
         == RowsAt(session, stream, Positions(front, stream)) + if last.stream == stream then Rows(session, last) else 0
  {
    assert (front + [last])[..|front|] == front;
    var before := Positions(front, stream);
    assert (before + [last.index])[..|before|] == before;
  }

  lemma {:induction false} WholeStreams(session: Session, batches: seq<Batch>, count: nat)
    requires count <= |session.streams|
    requires forall s :: 0 <= s < count ==> Positions(batches, s) == UpTo(|session.streams[s]|)
    ensures ByStream(session, batches, count) == SourceRows(session, count)
  {
    if count > 0 {
      WholeStreams(session, batches, count - 1);
      WholeStream(session, count - 1, |session.streams[count - 1]|);
    }
  }

  lemma {:induction false} WholeStream(session: Session, stream: nat, count: nat)
    requires stream < |session.streams| && count <= |session.streams[stream]|
    ensures RowsAt(session, stream, UpTo(count)) == StreamRows(session, stream, count)
  {
    if count > 0 {
      assert UpTo(count)[..count - 1] == UpTo(count - 1);
      WholeStream(session, stream, count - 1);
    }
  }

}

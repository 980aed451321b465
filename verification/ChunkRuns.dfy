/** Whole runs of messages and chunk size changes, from a fresh writer to a fresh reader. */
module ChunkRuns {
  import opened Wrappers
  import opened Bytes
  import opened Chunk
  import opened ChunkArrival
  import opened ChunkRoundTrip
  import opened ChunkStutter

  /** What a sender does with its writer. */
  datatype Op = Send(csid: ChunkStreamId, message: Message) | Resize(size: nat)

  /** A connection seen from the sending side: its writer, the size last announced, and what has gone out. */
  datatype Line = Line(writer: WriterState, announced: nat, bytes: seq<byte>, sent: seq<Message>)

  const Opened := Line(FreshWriter, DEFAULT_CHUNK_SIZE, [], [])

  function Do(l: Line, op: Op): (l': Line)
    requires l.writer.Valid()
    ensures l'.writer.Valid()
  {
    match op
    case Send(csid, message) =>
      Line(Written(l.writer, csid, message), Announced(l.announced, message),
           l.bytes + Wire(l.writer, csid, message), l.sent + [message])
    case Resize(size) =>
      if 1 <= size <= MAX_CHUNK_SIZE then l.(writer := l.writer.(chunkSize := size)) else l
  }

  function Run(ops: seq<Op>): (l: Line)
    ensures l.writer.Valid()
  {
    if ops == [] then Opened else Do(Run(ops[..|ops| - 1]), ops[|ops| - 1])
  }

  /**
    * Nothing is written between a message announcing a chunk size and the writer changing to it, and it
    * changes to no other; and every message is one a reader can act on.
    */
  predicate Timely(l: Line, op: Op) {
    match op
    case Send(_, message) => l.writer.chunkSize == l.announced && WellFormed(message)
    case Resize(size) => size == l.announced
  }

  predicate Orderly(ops: seq<Op>) {
    ops == [] || (Orderly(ops[..|ops| - 1]) && Timely(Run(ops[..|ops| - 1]), ops[|ops| - 1]))
  }

  predicate StuttersAt(l: Line, op: Op) {
    op.Send? && Stutters(l.writer.Previous(op.csid), op.message)
  }

  predicate NeverStutters(ops: seq<Op>) {
    ops == [] || (NeverStutters(ops[..|ops| - 1]) && !StuttersAt(Run(ops[..|ops| - 1]), ops[|ops| - 1]))
  }

  function Csids(ops: seq<Op>): set<nat> {
    set op <- ops | op.Send? :: op.csid
  }

  /** The reader a writer keeps company with. */
  function Mirror(w: WriterState, announced: nat): ReaderState {
    ReaderState(map c | c in w.streams :: ChunkStream(w.streams[c], []), announced)
  }

  /** A fresh reader given the bytes has the messages, all of them and in order, and nothing left over. */
  predicate Faithful(l: Line) {
    ReadAll(FreshReader, l.bytes) == Reading(Mirror(l.writer, l.announced), [], l.sent, None)
  }

  lemma InStepIsMirror(w: WriterState, r: ReaderState, announced: nat)
    requires InStep(w, r, announced)
    ensures r == Mirror(w, announced)
  {
    assert r.streams == Mirror(w, announced).streams;
  }

  lemma RunUsesItsCsids(ops: seq<Op>)
    ensures Run(ops).writer.streams.Keys <= Csids(ops)
  {
    if ops != [] {
      RunUsesItsCsids(ops[..|ops| - 1]);
      assert forall op <- ops[..|ops| - 1] :: op in ops;
    }
  }

  /** There is always room for a chunk stream of a run that uses no more than a reader holds. */
  lemma RunHasRoom(ops: seq<Op>, op: Op)
    requires op.Send? && |Csids(ops + [op])| <= MAX_CHUNK_STREAMS
    ensures |Csids(ops)| <= MAX_CHUNK_STREAMS && HasRoom(Run(ops).writer, op.csid)
  {
    var used := Run(ops).writer.streams;
    RunUsesItsCsids(ops);
    assert Csids(ops) <= Csids(ops + [op]) by { assert forall o <- ops :: o in ops + [op]; }
    SmallerSet(Csids(ops), Csids(ops + [op]));
    if op.csid !in used {
      assert op in ops + [op];
      SmallerSet(used.Keys + {op.csid}, Csids(ops + [op]));
      assert |used.Keys + {op.csid}| == |used.Keys| + 1;
      assert |used| == |used.Keys|;
    }
  }

  lemma FewerCsids(ops: seq<Op>)
    requires ops != []
    ensures |Csids(ops[..|ops| - 1])| <= |Csids(ops)|
  {
    assert forall o <- ops[..|ops| - 1] :: o in ops;
    SmallerSet(Csids(ops[..|ops| - 1]), Csids(ops));
  }

  /**
    * The chunk round trip over whole runs, with anything behind: a run that announces its chunk sizes, uses
    * at most 64 chunk streams and never stutters is read back as exactly what was sent.
    */
  lemma {:induction false} RunReads(ops: seq<Op>, more: seq<byte>)
    requires Orderly(ops) && |Csids(ops)| <= MAX_CHUNK_STREAMS && NeverStutters(ops)
    ensures var l := Run(ops);
            var mirror := Mirror(l.writer, l.announced);
            && InStep(l.writer, mirror, l.announced)
            && ReadAll(FreshReader, l.bytes + more) == ReadAll(mirror, more).Prepend(l.sent)
    decreases |ops|
  {
    hide ReadAll, Wire, Written, Stutters, WellFormed, HasRoom, Announced;
    if ops == [] {
      assert [] + more == more;
    } else {
      var before, op := ops[..|ops| - 1], ops[|ops| - 1];
      assert ops == before + [op];
      var l := Run(before);
      FewerCsids(ops);
      if op.Send? {
        RunHasRoom(before, op);
        var wire := Wire(l.writer, op.csid, op.message);
        RunReads(before, wire + more);
        Associative(l.bytes, wire, more);
        var r := Mirror(l.writer, l.announced);
        WriteReads(l.writer, r, op.csid, op.message, more);
        var r' := Apply(Settled(r, op.csid, Carried(l.writer.Previous(op.csid), op.message)), op.message).value;
        InStepIsMirror(Written(l.writer, op.csid, op.message), r', Announced(l.announced, op.message));
        Associative(l.sent, [op.message], ReadAll(r', more).messages);
      } else {
        RunReads(before, more);
      }
    }
  }

  lemma RunIsFaithful(ops: seq<Op>)
    requires Orderly(ops) && |Csids(ops)| <= MAX_CHUNK_STREAMS && NeverStutters(ops)
    ensures Faithful(Run(ops))
  {
    hide Orderly, NeverStutters, Run, Mirror, InStep;
    var l := Run(ops);
    RunReads(ops, []);
    assert l.bytes + [] == l.bytes;
    NothingToRead(Mirror(l.writer, l.announced));
  }

  /** And in whatever pieces those bytes arrive. */
  lemma RunArrives(ops: seq<Op>, pieces: seq<seq<byte>>)
    requires Orderly(ops) && |Csids(ops)| <= MAX_CHUNK_STREAMS && NeverStutters(ops)
    requires Flatten(pieces) == Run(ops).bytes
    ensures var l := Run(ops);
            Arrive(FreshReader, [], pieces) == Reading(Mirror(l.writer, l.announced), [], l.sent, None)
  {
    hide Orderly, NeverStutters, Run, Mirror;
    RunIsFaithful(ops);
    ArrivalOfAnyCutting(pieces);
  }

  /**
    * Exactly when: every prefix of an orderly run is read back faithfully if and only if no message of it
    * stutters.
    */
  lemma {:induction false} FaithfulExactlyWithoutStutters(ops: seq<Op>)
    requires Orderly(ops) && |Csids(ops)| <= MAX_CHUNK_STREAMS
    ensures NeverStutters(ops) <==> forall i | 0 <= i <= |ops| :: Faithful(Run(ops[..i]))
    decreases |ops|
  {
    hide Faithful, Mirror, StuttersAt, Run, Timely;
    if ops == [] {
      RunIsFaithful(ops);
      assert ops[..0] == ops;
    } else {
      var before, op := ops[..|ops| - 1], ops[|ops| - 1];
      assert forall i | 0 <= i <= |before| :: before[..i] == ops[..i];
      assert ops[..|ops|] == ops && ops[..|before|] == before;
      FewerCsids(ops);
      FaithfulExactlyWithoutStutters(before);
      if NeverStutters(before) {
        if StuttersAt(Run(before), op) {
          LastStutterIsNotFaithful(before, op);
          assert ops == before + [op];
        } else {
          RunIsFaithful(ops);
        }
      }
      if forall i | 0 <= i <= |ops| :: Faithful(Run(ops[..i])) {
        forall i | 0 <= i <= |before| ensures Faithful(Run(before[..i])) {
          assert Faithful(Run(ops[..i]));
        }
      }
      if NeverStutters(ops) {
        forall i | 0 <= i <= |ops| ensures Faithful(Run(ops[..i])) {
          if i < |ops| {
            assert Faithful(Run(before[..i]));
          }
        }
      }
    }
  }

  lemma LastStutterIsNotFaithful(before: seq<Op>, op: Op)
    requires Orderly(before) && Timely(Run(before), op) && |Csids(before)| <= MAX_CHUNK_STREAMS
    requires NeverStutters(before) && StuttersAt(Run(before), op)
    ensures !Faithful(Run(before + [op]))
  {
    hide ReadAll, Wire, Stutters, Carried, WellFormed, Announced;
    var l := Run(before);
    assert (before + [op])[..|before|] == before;
    var wire := Wire(l.writer, op.csid, op.message);
    RunReads(before, wire);
    StutterIsNotRead(l.writer, Mirror(l.writer, l.announced), op.csid, op.message);
    var g := ReadAll(Mirror(l.writer, l.announced), wire);
    assert (l.sent + g.messages)[|l.sent|..] == g.messages;
    assert (l.sent + [op.message])[|l.sent|..] == [op.message];
  }

  const BIG_TIME_PICTURE := Message(0xff_ffff, Video, 1, [0x17])

  lemma OnePictureRun()
    ensures var ops := [Send(6, BIG_TIME_PICTURE)];
            && Orderly(ops) && NeverStutters(ops) && Csids(ops) == {6}
            && Run(ops) == Do(Opened, ops[0])
  {
    var ops := [Send(6, BIG_TIME_PICTURE)];
    assert ops[..0] == [];
    assert Orderly([]) && NeverStutters([]) && Run([]) == Opened;
    assert Csids(ops) == {6} by { assert ops[0] in ops; }
  }

  /** The smallest case: one picture at time 0xffffff sent twice arrives once, and the reader waits for ever. */
  lemma SecondPictureNeverArrives()
    ensures var ops := [Send(6, BIG_TIME_PICTURE), Send(6, BIG_TIME_PICTURE)];
            && Orderly(ops) && Csids(ops) == {6}
            && !NeverStutters(ops)
            && ReadAll(FreshReader, Run(ops).bytes).messages == [BIG_TIME_PICTURE]
            && ReadAll(FreshReader, Run(ops).bytes).rest == [0xc6, 0x17]
  {
    hide ReadAll, Mirror, Wire;
    OnePictureRun();
    var first, ops := [Send(6, BIG_TIME_PICTURE)], [Send(6, BIG_TIME_PICTURE), Send(6, BIG_TIME_PICTURE)];
    assert ops[..1] == first;
    assert Csids(ops) == {6} by { assert ops[0] in ops; }
    var l := Run(first);
    var wire := Wire(l.writer, 6, BIG_TIME_PICTURE);
    RunReads(first, wire);
    StutterWire(l.writer, 6, BIG_TIME_PICTURE);
    assert wire == [0xc6, 0x17];
    StutterStalls(l.writer, Mirror(l.writer, l.announced), 6, BIG_TIME_PICTURE);
  }
}

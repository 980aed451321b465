/**
  * What a writer writes, a reader reads: over whole runs of messages and chunk
  * size changes, and exactly when the one header the two disagree on is not used.
  */
module ChunkRoundTrip {
  import opened Wrappers
  import opened Bytes
  import opened Chunk

  /** An extended timestamp is carried by a large step, or by a large absolute time that leaves no step. */
  predicate Coherent(s: State) {
    && (s.delta >= EXTENDED_TIMESTAMP ==> s.extended)
    && (s.extended ==> s.delta >= EXTENDED_TIMESTAMP || s.delta == 0)
  }

  /**
    * The reader stands where the writer does: every chunk stream carries the same fields and has nothing
    * pending, and the reader's chunk size is the one last announced.
    */
  ghost predicate InStep(w: WriterState, r: ReaderState, announced: nat) {
    && w.Valid() && r.Valid()
    && r.chunkSize == announced
    && r.streams.Keys == w.streams.Keys
    && (forall c <- w.streams :: r.streams[c] == ChunkStream(w.streams[c], []))
    && (forall c <- w.streams :: Coherent(w.streams[c]))
  }

  /** A protocol control message is one the reader will act on rather than refuse. */
  predicate WellFormed(message: Message) {
    && message.kind.Canonical()
    && |message.payload| <= MAX_ASSEMBLED_LENGTH
    && (message.kind.SetChunkSize? ==> StatedChunkSize(message).Ok?)
    && (message.kind.Abort? ==> ControlNumber(message).Ok?)
  }

  predicate HasRoom(w: WriterState, csid: ChunkStreamId) {
    csid in w.streams || |w.streams| < MAX_CHUNK_STREAMS
  }

  /**
    * The header the writer and the reader disagree on. The last message on the chunk stream stated an
    * absolute time too large for its field, and this one repeats its time, length, type and stream: it goes
    * out as format 3 with no extended timestamp, and the reader looks for one.
    */
  predicate Stutters(previous: Option<State>, message: Message) {
    && previous.Some?
    && previous.value.extended && previous.value.delta == 0
    && previous.value.timestamp == message.timestamp
    && previous.value.length == |message.payload|
    && previous.value.kind == message.kind
    && previous.value.streamId == message.streamId
  }

  /** The chunk size the reader is at once a message has reached it. */
  function Announced(size: nat, message: Message): nat {
    if message.kind.SetChunkSize? && StatedChunkSize(message).Ok? then StatedChunkSize(message).value else size
  }

  // ---------------------------------------------------------------- headers

  lemma TimeReads(written: u32, rest: seq<byte>)
    ensures ReadTime(Field(written), Extension(written) + rest) == Some((written, rest))
  {
    Widths();
    if written >= EXTENDED_TIMESTAMP {
      TakeWritten(written, 4, rest);
    } else {
      assert [] + rest == rest;
    }
  }

  lemma KindReads(kind: MessageType, rest: seq<byte>)
    ensures TakeNumber([kind.Id()] + rest, 1) == Some((kind.Id(), rest))
  {
    TakeWhole([kind.Id()], rest);
    assert FromBigEndian([kind.Id()]) == kind.Id() by {
      assert [kind.Id()][..0] == [];
    }
  }

  lemma FullReads(written: u32, message: Message, rest: seq<byte>)
    requires message.kind.Canonical() && |message.payload| <= MAX_MESSAGE_LENGTH
    ensures ReadFull(BigEndian(Field(written), 3)
                     + (BigEndian(|message.payload|, 3)
                        + ([message.kind.Id()]
                           + (LittleEndian(message.streamId, 4) + (Extension(written) + rest)))))
         == Some((State(written, 0, |message.payload|, message.kind, message.streamId,
                        written >= EXTENDED_TIMESTAMP), rest))
  {
    Widths();
    var data4 := Extension(written) + rest;
    var data3 := LittleEndian(message.streamId, 4) + data4;
    var data2 := [message.kind.Id()] + data3;
    var data1 := BigEndian(|message.payload|, 3) + data2;
    TakeWritten(Field(written), 3, data1);
    TakeWritten(|message.payload|, 3, data2);
    KindReads(message.kind, data3);
    TakeWhole(LittleEndian(message.streamId, 4), data4);
    ValueOfLittleEndian(message.streamId, 4);
    TimeReads(written, rest);
  }

  lemma DeltaReads(fmt: nat, previous: State, written: u32, message: Message, rest: seq<byte>)
    requires 1 <= fmt <= 2
    requires message.kind.Canonical() && |message.payload| <= MAX_MESSAGE_LENGTH
    requires previous.streamId == message.streamId
    requires previous.timestamp + written == message.timestamp
    requires fmt == 2 ==> previous.length == |message.payload| && previous.kind == message.kind
    ensures ReadDelta(fmt, previous,
                      BigEndian(Field(written), 3)
                      + (if fmt == 1 then BigEndian(|message.payload|, 3)
                                          + ([message.kind.Id()] + (Extension(written) + rest))
                         else Extension(written) + rest))
         == Some((State(message.timestamp, written, |message.payload|, message.kind, message.streamId,
                        written >= EXTENDED_TIMESTAMP), rest))
  {
    Widths();
    var data3 := Extension(written) + rest;
    TimeReads(written, rest);
    if fmt == 1 {
      var data2 := [message.kind.Id()] + data3;
      var data1 := BigEndian(|message.payload|, 3) + data2;
      TakeWritten(Field(written), 3, data1);
      TakeWritten(|message.payload|, 3, data2);
      KindReads(message.kind, data3);
    } else {
      TakeWritten(Field(written), 3, data3);
    }
  }

  lemma NothingReads(state: State, written: u32, pending: bool, rest: seq<byte>)
    requires state.extended <==> written >= EXTENDED_TIMESTAMP
    ensures ReadNothing(state, pending, Extension(written) + rest)
         == Some((if pending then state
                  else state.(timestamp := WrappingAdd(state.timestamp, state.delta)), rest))
  {
    Widths();
    TakeWhole(Extension(written), rest);
    assert [] + rest == rest;
  }

  /** The fields after the basic header, each followed by everything behind it. */
  lemma FieldsThen(fmt: nat, written: u32, message: Message, rest: seq<byte>)
    requires fmt <= 3
    ensures Fields(fmt, written, message) + rest ==
      var length, kind := BigEndian(|message.payload|, 3), [message.kind.Id()];
      var time, stream, ext := BigEndian(Field(written), 3), LittleEndian(message.streamId, 4), Extension(written);
      if fmt == 0 then time + (length + (kind + (stream + (ext + rest))))
      else if fmt == 1 then time + (length + (kind + (ext + rest)))
      else if fmt == 2 then time + (ext + rest)
      else ext + rest
  {
    hide BigEndian, LittleEndian, Extension, Field;
  }

  lemma FieldsRead(previous: Option<State>, message: Message, rest: seq<byte>)
    requires message.kind.Canonical() && |message.payload| <= MAX_MESSAGE_LENGTH
    requires previous.Some? ==> Coherent(previous.value)
    requires !Stutters(previous, message)
    ensures var (fmt, written) := Plan(previous, message);
            && (fmt != 0 ==> previous.Some?)
            && ReadState(fmt, previous, false, Fields(fmt, written, message) + rest)
               == Some((Carried(previous, message), rest))
  {
    hide ReadFull, ReadDelta, ReadNothing, Fields, BigEndian, LittleEndian, Extension, Field;
    var (fmt, written) := Plan(previous, message);
    FieldsThen(fmt, written, message, rest);
    if fmt == 0 {
      FullReads(written, message, rest);
    } else if fmt <= 2 {
      DeltaReads(fmt, previous.value, written, message, rest);
    } else {
      NothingReads(previous.value, written, false, rest);
    }
  }

  /** A message's first header reads back as exactly the fields the writer carries forward. */
  lemma FirstHeaderReads(previous: Option<State>, csid: ChunkStreamId, message: Message, rest: seq<byte>)
    requires message.kind.Canonical() && |message.payload| <= MAX_MESSAGE_LENGTH
    requires previous.Some? ==> Coherent(previous.value)
    requires !Stutters(previous, message)
    ensures var (fmt, written) := Plan(previous, message);
            var read := ReadBasicHeader(FirstHeader(fmt, written, csid, message) + rest);
            && (fmt != 0 ==> previous.Some?)
            && read.Some? && read.value.0 == BasicHeader(fmt, csid)
            && ReadState(fmt, previous, false, read.value.1) == Some((Carried(previous, message), rest))
  {
    hide ReadBasicHeader, PutBasicHeader, Fields, ReadState, Carried;
    var (fmt, written) := Plan(previous, message);
    var fields := Fields(fmt, written, message);
    Associative(PutBasicHeader(fmt, csid), fields, rest);
    BasicHeaderReads(fmt, csid, fields + rest);
    FieldsRead(previous, message, rest);
  }

  lemma MarkReads(state: State, csid: ChunkStreamId, written: u32, rest: seq<byte>)
    requires state.extended <==> written >= EXTENDED_TIMESTAMP
    ensures var read := ReadBasicHeader(Mark(csid, written) + rest);
            && read.Some? && read.value.0 == BasicHeader(3, csid)
            && ReadState(3, Some(state), true, read.value.1) == Some((state, rest))
  {
    Associative(PutBasicHeader(3, csid), Extension(written), rest);
    BasicHeaderReads(3, csid, Extension(written) + rest);
    NothingReads(state, written, true, rest);
  }

  // ---------------------------------------------------------------- one message

  function Delivered(state: State, payload: seq<byte>): Message {
    Message(state.timestamp, state.kind, state.streamId, payload)
  }

  function Settled(r: ReaderState, csid: nat, state: State): ReaderState {
    r.(streams := r.streams[csid := ChunkStream(state, [])])
  }

  /** A continuation on a chunk stream that is part-way through a message is more of that message. */
  lemma ContinuationReads(r: ReaderState, csid: ChunkStreamId, written: u32, state: State, body: seq<byte>)
    requires r.Valid() && csid in r.streams
    requires r.streams[csid].state == state && r.streams[csid].payload != []
    requires state.extended <==> written >= EXTENDED_TIMESTAMP
    ensures var buf := Mark(csid, written) + body;
            ReadChunk(r, buf) == ReadBody(r, buf, csid, state, body)
  {
    hide ReadBasicHeader, ReadState, ReadBody, Mark;
    MarkReads(state, csid, written, body);
  }

  /** What is left of a cut payload, and what comes behind it. */
  lemma CutThen(payload: seq<byte>, offset: nat, size: nat, mark: seq<byte>, more: seq<byte>)
    requires size > 0 && offset <= |payload|
    ensures var left := Cut(payload[offset..], size, mark);
            if |payload| - offset <= size then left + more == payload[offset..] + more
            else left + more == payload[offset..offset + size]
                                + (mark + (Cut(payload[offset + size..], size, mark) + more))
  {
    if |payload| - offset > size {
      var piece, next := payload[offset..offset + size], Cut(payload[offset + size..], size, mark);
      CutOnce(payload, offset, size, size, mark);
      Associative(piece, mark + next, more);
      Associative(mark, next, more);
    }
  }

  /** A chunk that completes a message, with anything behind it. */
  lemma ChunkTaken(r: ReaderState, buf: seq<byte>, csid: nat, state: State, chunk: seq<byte>, rest: seq<byte>)
    requires r.Valid()
    requires csid in r.streams || |r.streams| < MAX_CHUNK_STREAMS
    requires r.Payload(csid) == [] || |r.Payload(csid)| < state.length
    requires |r.Payload(csid)| + |chunk| == state.length <= MAX_ASSEMBLED_LENGTH && |chunk| <= r.chunkSize
    requires Apply(Settled(r, csid, state), Delivered(state, r.Payload(csid) + chunk)).Ok?
    ensures var message := Delivered(state, r.Payload(csid) + chunk);
            ReadBody(r, buf, csid, state, chunk + rest)
              == Outcome(Apply(Settled(r, csid, state), message).value, rest, Complete(message))
  {
    hide Apply;
    TakeWhole(chunk, rest);
  }

  /** A chunk that does not. */
  lemma PartTaken(r: ReaderState, buf: seq<byte>, csid: nat, state: State, chunk: seq<byte>, rest: seq<byte>)
    requires r.Valid()
    requires csid in r.streams || |r.streams| < MAX_CHUNK_STREAMS
    requires r.Payload(csid) == [] || |r.Payload(csid)| < state.length
    requires |r.Payload(csid)| + |chunk| < state.length <= MAX_ASSEMBLED_LENGTH && |chunk| == r.chunkSize
    ensures ReadBody(r, buf, csid, state, chunk + rest)
         == Outcome(r.(streams := r.streams[csid := ChunkStream(state, r.Payload(csid) + chunk)]), rest, Absorbed)
  {
    hide Apply;
    TakeWhole(chunk, rest);
  }

  /** Settling a chunk stream keeps the reader's bounds, and forgets what it was part-way through. */
  lemma SettledIsValid(r: ReaderState, csid: nat, state: State, partial: seq<byte>)
    requires r.Valid() && state.length <= MAX_ASSEMBLED_LENGTH
    requires csid in r.streams || |r.streams| < MAX_CHUNK_STREAMS
    ensures Settled(r, csid, state).Valid()
    ensures var r' := r.(streams := r.streams[csid := ChunkStream(state, partial)]);
            && Settled(r', csid, state) == Settled(r, csid, state)
            && (|partial| < state.length ==> r'.Valid())
  {
  }

  /** A message's payload, read off from `offset` on, completes it. */
  lemma {:induction false} BodyReads(r: ReaderState, buf: seq<byte>, csid: ChunkStreamId, written: u32, state: State,
                                     payload: seq<byte>, offset: nat, more: seq<byte>)
    requires r.Valid()
    requires csid in r.streams || |r.streams| < MAX_CHUNK_STREAMS
    requires offset <= |payload| == state.length <= MAX_ASSEMBLED_LENGTH
    requires offset == |payload| ==> payload == []
    requires r.Payload(csid) == payload[..offset]
    requires state.extended <==> written >= EXTENDED_TIMESTAMP
    requires Apply(Settled(r, csid, state), Delivered(state, payload)).Ok?
    ensures var o := ReadBody(r, buf, csid, state, Cut(payload[offset..], r.chunkSize, Mark(csid, written)) + more);
            var finished := Apply(Settled(r, csid, state), Delivered(state, payload)).value;
            && finished.Valid()
            && if o.verdict.Absorbed?
               then ReadAll(o.reader, o.rest) == ReadAll(finished, more).Prepend([Delivered(state, payload)])
               else o == Outcome(finished, more, Complete(Delivered(state, payload)))
    decreases |payload| - offset
  {
    hide ReadChunk, ReadBody, Apply, Mark, Cut, Settled;
    var size, mark := r.chunkSize, Mark(csid, written);
    CutThen(payload, offset, size, mark, more);
    SettledIsValid(r, csid, state, payload[..Min(offset + size, |payload|)]);
    if |payload| - offset <= size {
      assert payload[..offset] + payload[offset..] == payload;
      ChunkTaken(r, buf, csid, state, payload[offset..], more);
    } else {
      var next := offset + size;
      var body := Cut(payload[next..], size, mark) + more;
      assert payload[..offset] + payload[offset..next] == payload[..next];
      PartTaken(r, buf, csid, state, payload[offset..next], mark + body);
      var r' := r.(streams := r.streams[csid := ChunkStream(state, payload[..next])]);
      ContinuationReads(r', csid, written, state, body);
      BodyReads(r', mark + body, csid, written, state, payload, next, more);
    }
  }

  /** A message's first chunk, up to its payload. */
  lemma FirstChunkReads(w: WriterState, r: ReaderState, csid: ChunkStreamId, message: Message, body: seq<byte>)
    requires InStep(w, r, w.chunkSize)
    requires WellFormed(message) && HasRoom(w, csid)
    requires !Stutters(w.Previous(csid), message)
    ensures var (fmt, written) := Plan(w.Previous(csid), message);
            var buf := FirstHeader(fmt, written, csid, message) + body;
            ReadChunk(r, buf) == ReadBody(r, buf, csid, Carried(w.Previous(csid), message), body)
  {
    hide ReadBasicHeader, ReadState, ReadBody, FirstHeader, Carried, Plan;
    var previous := w.Previous(csid);
    RoomAgrees(w, r, csid);
    FirstHeaderReads(previous, csid, message, body);
  }

  lemma RoomAgrees(w: WriterState, r: ReaderState, csid: ChunkStreamId)
    requires r.streams.Keys == w.streams.Keys && HasRoom(w, csid)
    ensures csid in r.streams || |r.streams| < MAX_CHUNK_STREAMS
  {
    assert |r.streams| == |r.streams.Keys| && |w.streams| == |w.streams.Keys|;
  }

  /** One message, written and read: it comes back, what is behind it is untouched, and the two stay in step. */
  lemma WriteReads(w: WriterState, r: ReaderState, csid: ChunkStreamId, message: Message, more: seq<byte>)
    requires InStep(w, r, w.chunkSize)
    requires WellFormed(message) && HasRoom(w, csid)
    requires !Stutters(w.Previous(csid), message)
    ensures var r' := Apply(Settled(r, csid, Carried(w.Previous(csid), message)), message);
            && r'.Ok? && InStep(Written(w, csid, message), r'.value, Announced(w.chunkSize, message))
            && ReadAll(r, Wire(w, csid, message) + more) == ReadAll(r'.value, more).Prepend([message])
  {
    hide ReadChunk, ReadBody, FirstHeader, Cut, Apply, Mark, Stutters, WellFormed, InStep;
    SettledKeepsStep(w, r, csid, message);
    StartsClean(w, r, csid, message);
    var (fmt, written) := Plan(w.Previous(csid), message);
    var header := FirstHeader(fmt, written, csid, message);
    var cut := Cut(message.payload, r.chunkSize, Mark(csid, written));
    Associative(header, cut, more);
    FirstChunkReads(w, r, csid, message, cut + more);
    assert message.payload[0..] == message.payload;
    BodyReads(r, header + (cut + more), csid, written, Carried(w.Previous(csid), message), message.payload, 0, more);
  }

  lemma StartsClean(w: WriterState, r: ReaderState, csid: ChunkStreamId, message: Message)
    requires InStep(w, r, w.chunkSize)
    requires WellFormed(message) && HasRoom(w, csid)
    ensures r.Valid() && r.chunkSize == w.chunkSize && r.Payload(csid) == []
    ensures csid in r.streams || |r.streams| < MAX_CHUNK_STREAMS
    ensures |message.payload| <= MAX_ASSEMBLED_LENGTH
  {
    RoomAgrees(w, r, csid);
  }

  lemma SettledInStep(w: WriterState, r: ReaderState, csid: ChunkStreamId, message: Message)
    requires InStep(w, r, w.chunkSize)
    requires WellFormed(message) && HasRoom(w, csid)
    ensures InStep(Written(w, csid, message), Settled(r, csid, Carried(w.Previous(csid), message)), w.chunkSize)
  {
    RoomAgrees(w, r, csid);
    var state := Carried(w.Previous(csid), message);
    assert Settled(r, csid, state).Valid() && Coherent(state);
  }

  /** Nothing is pending, so an abort aborts nothing; and a chunk size is the one announced. */
  lemma ApplyKeepsStep(w: WriterState, r: ReaderState, announced: nat, message: Message)
    requires InStep(w, r, announced) && WellFormed(message)
    ensures Apply(r, message).Ok? && InStep(w, Apply(r, message).value, Announced(announced, message))
  {
    hide ControlNumber;
    if message.kind.Abort? {
      assert forall c <- r.streams :: r.streams[c].(payload := []) == r.streams[c];
    }
  }

  lemma SettledKeepsStep(w: WriterState, r: ReaderState, csid: ChunkStreamId, message: Message)
    requires InStep(w, r, w.chunkSize)
    requires WellFormed(message) && HasRoom(w, csid)
    ensures var r' := Apply(Settled(r, csid, Carried(w.Previous(csid), message)), message);
            r'.Ok? && InStep(Written(w, csid, message), r'.value, Announced(w.chunkSize, message))
  {
    hide InStep, WellFormed, HasRoom, Apply, Settled, Carried, Written;
    var settled := Settled(r, csid, Carried(w.Previous(csid), message));
    SettledInStep(w, r, csid, message);
    ApplyKeepsStep(Written(w, csid, message), settled, w.chunkSize, message);
  }
}

/**
  * Every way a message's header may be written, and that a reader makes the same of
  * each: an encoder is free to say more than it has to, and its clock to wrap.
  */
module ChunkForms {
  import opened Wrappers
  import opened Bytes
  import opened Chunk
  import opened ChunkRoundTrip

  /** The step from the last message on a chunk stream to this one, on a clock that wraps. */
  function StepTo(previous: State, message: Message): u32 { (message.timestamp - previous.timestamp) % 0x1_0000_0000 }

  /** Whether a format leaves out nothing that the chunk stream does not already say. */
  predicate Says(fmt: nat, previous: Option<State>, message: Message) {
    && fmt <= 3
    && (fmt >= 1 ==> previous.Some? && previous.value.streamId == message.streamId)
    && (fmt >= 2 ==> previous.value.length == |message.payload| && previous.value.kind == message.kind)
    && (fmt >= 3 ==> previous.value.delta == StepTo(previous.value, message))
  }

  /** The time a format states. */
  function Stated(fmt: nat, previous: Option<State>, message: Message): u32
    requires Says(fmt, previous, message)
  {
    if fmt == 0 then message.timestamp else StepTo(previous.value, message)
  }

  /** What the chunk stream carries after a message written so. A bare header leaves all but the time as it was. */
  function Leaves(fmt: nat, previous: Option<State>, message: Message): State
    requires Says(fmt, previous, message)
  {
    if fmt == 3 then previous.value.(timestamp := message.timestamp)
    else
      var stated := Stated(fmt, previous, message);
      State(message.timestamp, if fmt == 0 then 0 else stated, |message.payload|, message.kind, message.streamId,
            stated >= EXTENDED_TIMESTAMP)
  }

  /** The header written so. A bare one has four bytes more where the last header had, and they are not read. */
  predicate Heads(header: seq<byte>, fmt: nat, previous: Option<State>, csid: ChunkStreamId, message: Message)
    requires Says(fmt, previous, message)
  {
    if fmt == 3 then
      && |header| == |PutBasicHeader(3, csid)| + (if previous.value.extended then 4 else 0)
      && header[..|PutBasicHeader(3, csid)|] == PutBasicHeader(3, csid)
    else header == FirstHeader(fmt, Stated(fmt, previous, message), csid, message)
  }

  lemma StepReads(fmt: nat, previous: State, message: Message, rest: seq<byte>)
    requires 1 <= fmt <= 2 && Says(fmt, Some(previous), message)
    requires message.kind.Canonical() && |message.payload| <= MAX_MESSAGE_LENGTH
    ensures ReadDelta(fmt, previous, Fields(fmt, StepTo(previous, message), message) + rest)
         == Some((Leaves(fmt, Some(previous), message), rest))
  {
    hide BigEndian, LittleEndian, Extension, Field, Fields;
    Widths();
    var written := StepTo(previous, message);
    FieldsThen(fmt, written, message, rest);
    var data3 := Extension(written) + rest;
    TimeReads(written, rest);
    TimeFits(written);
    WrapsBack(previous.timestamp, message.timestamp);
    if fmt == 1 {
      var data2 := [message.kind.Id()] + data3;
      TakeWritten(Field(written), 3, BigEndian(|message.payload|, 3) + data2);
      TakeWritten(|message.payload|, 3, data2);
      KindReads(message.kind, data3);
    } else {
      TakeWritten(Field(written), 3, data3);
    }
    FieldIsFull(written);
  }

  lemma TimeFits(written: u32)
    ensures Field(written) < 0x100_0000
  {
  }

  lemma FieldIsFull(written: u32)
    ensures Field(written) == EXTENDED_TIMESTAMP <==> written >= EXTENDED_TIMESTAMP
  {
  }

  lemma WrapsBack(from: u32, to: u32)
    ensures WrappingAdd(from, (to - from) % 0x1_0000_0000) == to
  {
  }

  lemma BareReads(previous: State, message: Message, ext: seq<byte>, rest: seq<byte>)
    requires Says(3, Some(previous), message) && |ext| == if previous.extended then 4 else 0
    ensures ReadNothing(previous, false, ext + rest) == Some((Leaves(3, Some(previous), message), rest))
  {
    TakeWhole(ext, rest);
    WrapsBack(previous.timestamp, message.timestamp);
    assert !previous.extended ==> ext + rest == rest;
  }

  lemma HeaderReads(header: seq<byte>, fmt: nat, previous: Option<State>, csid: ChunkStreamId, message: Message,
                    rest: seq<byte>)
    requires Says(fmt, previous, message) && Heads(header, fmt, previous, csid, message)
    requires message.kind.Canonical() && |message.payload| <= MAX_MESSAGE_LENGTH
    ensures var read := ReadBasicHeader(header + rest);
            && read.Some? && read.value.0 == BasicHeader(fmt, csid)
            && ReadState(fmt, previous, false, read.value.1) == Some((Leaves(fmt, previous, message), rest))
  {
    hide ReadBasicHeader, PutBasicHeader, Fields, ReadFull, ReadDelta, ReadNothing, BigEndian, LittleEndian, Extension,
         Field, Leaves;
    var basic := PutBasicHeader(fmt, csid);
    var fields := header[|basic|..];
    assert header == basic + fields;
    Associative(basic, fields, rest);
    BasicHeaderReads(fmt, csid, fields + rest);
    if fmt == 0 {
      assert fields == Fields(0, message.timestamp, message);
      FieldsThen(0, message.timestamp, message, rest);
      FullReads(message.timestamp, message, rest);
      FullLeaves(previous, message);
    } else if fmt <= 2 {
      assert fields == Fields(fmt, StepTo(previous.value, message), message);
      StepReads(fmt, previous.value, message, rest);
    } else {
      BareReads(previous.value, message, fields, rest);
    }
  }

  lemma FullLeaves(previous: Option<State>, message: Message)
    ensures Leaves(0, previous, message)
         == State(message.timestamp, 0, |message.payload|, message.kind, message.streamId,
                  message.timestamp >= EXTENDED_TIMESTAMP)
  {
  }

  /**
    * However a message is headed, and whatever time is repeated between its pieces, a reader with nothing
    * half-read on its chunk stream reads that message, leaves what is behind it, and changes nothing else but
    * what the message tells it to.
    */
  lemma AnyFormReads(r: ReaderState, csid: ChunkStreamId, fmt: nat, header: seq<byte>, message: Message, again: u32,
                     more: seq<byte>)
    requires r.Valid() && r.Payload(csid) == [] && (csid in r.streams || |r.streams| < MAX_CHUNK_STREAMS)
    requires Says(fmt, r.Previous(csid), message) && Heads(header, fmt, r.Previous(csid), csid, message)
    requires WellFormed(message)
    requires again >= EXTENDED_TIMESTAMP <==> Leaves(fmt, r.Previous(csid), message).extended
    ensures var state := Leaves(fmt, r.Previous(csid), message);
            var r' := Apply(Settled(r, csid, state), message);
            && r'.Ok? && r'.value.Valid()
            && ReadAll(r, header + Cut(message.payload, r.chunkSize, Mark(csid, again)) + more)
               == ReadAll(r'.value, more).Prepend([message])
  {
    hide ReadBasicHeader, ReadState, ReadBody, Cut, Mark, Apply, Settled, Heads, Leaves;
    var previous := r.Previous(csid);
    var state := Leaves(fmt, previous, message);
    LeavesIsTheMessage(fmt, previous, message);
    WellFormedApplies(Settled(r, csid, state), message);
    var body := Cut(message.payload, r.chunkSize, Mark(csid, again));
    Associative(header, body, more);
    HeaderReads(header, fmt, previous, csid, message, body + more);
    var buf := header + (body + more);
    assert ReadChunk(r, buf) == ReadBody(r, buf, csid, state, body + more);
    assert message.payload[0..] == message.payload && message.payload[..0] == [];
    BodyReads(r, buf, csid, again, state, message.payload, 0, more);
  }

  lemma LeavesIsTheMessage(fmt: nat, previous: Option<State>, message: Message)
    requires Says(fmt, previous, message)
    ensures var state := Leaves(fmt, previous, message);
            Delivered(state, message.payload) == message && state.length == |message.payload|
  {
  }

  lemma WellFormedApplies(r: ReaderState, message: Message)
    requires WellFormed(message)
    ensures Apply(r, message).Ok?
  {
  }

  // ---------------------------------------------------------------- the shortest

  /** The formats a writer chooses from: those that say enough, of which only the first can go back in time. */
  predicate Open(fmt: nat, previous: Option<State>, message: Message) {
    Says(fmt, previous, message) && (fmt >= 1 ==> message.timestamp >= previous.value.timestamp)
  }

  /** It takes the one that leaves most out. */
  lemma WriterLeavesOutTheMost(previous: Option<State>, message: Message, fmt: nat)
    ensures Open(fmt, previous, message) <==> fmt <= Plan(previous, message).0
    ensures Plan(previous, message).1 == Stated(Plan(previous, message).0, previous, message)
  {
  }

  /** And each is shorter than the one before: 11 bytes, 7, 3 and none, with four for a time over three bytes. */
  lemma FieldsSize(fmt: nat, written: u32, message: Message)
    requires fmt <= 3
    ensures |Fields(fmt, written, message)|
         == (if fmt == 0 then 11 else if fmt == 1 then 7 else if fmt == 2 then 3 else 0)
            + if written >= 0xff_ffff then 4 else 0
  {
  }

  // ---------------------------------------------------------------- byte by byte

  lemma BasicHeaderBytes(fmt: nat, csid: ChunkStreamId)
    requires fmt <= 3
    ensures PutBasicHeader(fmt, csid) ==
      if csid < 64 then [0x40 * fmt + csid]
      else if csid < 320 then [0x40 * fmt, csid - 64]
      else [0x40 * fmt + 1, (csid - 64) % 0x100, (csid - 64) / 0x100]
  {
  }

  /** A full header with a time that fits: three bytes of it, three of the length, the type, the stream backwards. */
  lemma FullHeaderBytes(message: Message)
    requires message.timestamp < 0xff_ffff && |message.payload| <= MAX_MESSAGE_LENGTH
    ensures var (t, n, s) := (message.timestamp, |message.payload|, message.streamId);
            Fields(0, t, message) == [
              t / 0x1_0000, t / 0x100 % 0x100, t % 0x100,
              n / 0x1_0000, n / 0x100 % 0x100, n % 0x100,
              message.kind.Id(),
              s % 0x100, s / 0x100 % 0x100, s / 0x1_0000 % 0x100, s / 0x100_0000]
  {
    hide BigEndian, LittleEndian;
    ThreeBytes(message.timestamp);
    ThreeBytes(|message.payload|);
    FourBackwards(message.streamId);
  }

  /** One that does not: three bytes of ones, and the time in four after everything else. */
  lemma ExtendedHeaderBytes(message: Message)
    requires message.timestamp >= 0xff_ffff && |message.payload| <= MAX_MESSAGE_LENGTH
    ensures var (t, n, s) := (message.timestamp, |message.payload|, message.streamId);
            Fields(0, t, message) == [
              0xff, 0xff, 0xff,
              n / 0x1_0000, n / 0x100 % 0x100, n % 0x100,
              message.kind.Id(),
              s % 0x100, s / 0x100 % 0x100, s / 0x1_0000 % 0x100, s / 0x100_0000,
              t / 0x100_0000, t / 0x1_0000 % 0x100, t / 0x100 % 0x100, t % 0x100]
  {
    hide BigEndian, LittleEndian;
    ThreeBytes(0xff_ffff);
    ThreeBytes(|message.payload|);
    FourBackwards(message.streamId);
    FourBytes(message.timestamp);
  }

  /** The type ids, as the protocol numbers them. */
  lemma KindNumbers(id: byte)
    ensures FromId(id).Id() == id
    ensures FromId(id).SetChunkSize? <==> id == 1
    ensures FromId(id).Abort? <==> id == 2
    ensures FromId(id).Acknowledgement? <==> id == 3
    ensures FromId(id).UserControl? <==> id == 4
    ensures FromId(id).WindowAckSize? <==> id == 5
    ensures FromId(id).SetPeerBandwidth? <==> id == 6
    ensures FromId(id).Audio? <==> id == 8
    ensures FromId(id).Video? <==> id == 9
    ensures FromId(id).Amf3Data? <==> id == 15
    ensures FromId(id).Amf3Command? <==> id == 17
    ensures FromId(id).Amf0Data? <==> id == 18
    ensures FromId(id).Amf0Command? <==> id == 20
    ensures FromId(id).Aggregate? <==> id == 22
  {
  }
}

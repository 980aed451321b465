/**
  * The messages that describe the chunk stream itself, by what becomes of the bytes
  * around them; and what a reader refuses, and when.
  */
module ChunkControl {
  import opened Wrappers
  import opened Bytes
  import opened Chunk
  import opened ChunkRoundTrip
  import opened ChunkForms

  /** A message with everything about it stated, as it goes to a reader at some chunk size. */
  function Whole(csid: ChunkStreamId, message: Message, size: nat): seq<byte>
    requires size > 0
  {
    FirstHeader(0, message.timestamp, csid, message) + Cut(message.payload, size, Mark(csid, message.timestamp))
  }

  /** What such a message leaves its chunk stream at. */
  function Full(message: Message): ChunkStream {
    ChunkStream(State(message.timestamp, 0, |message.payload|, message.kind, message.streamId,
                      message.timestamp >= 0xff_ffff), [])
  }

  /** A reader that has a place for a chunk stream and nothing half-read on it. */
  predicate Takes(r: ReaderState, csid: nat) {
    r.Valid() && r.Payload(csid) == [] && (csid in r.streams || |r.streams| < MAX_CHUNK_STREAMS)
  }

  /** It is read, and nothing but its chunk stream and what it tells the reader to change is changed. */
  lemma WholeReads(r: ReaderState, csid: ChunkStreamId, message: Message, more: seq<byte>)
    requires Takes(r, csid) && WellFormed(message)
    ensures var r' := Apply(r.(streams := r.streams[csid := Full(message)]), message);
            && r'.Ok? && r'.value.Valid()
            && ReadAll(r, Whole(csid, message, r.chunkSize) + more) == ReadAll(r'.value, more).Prepend([message])
  {
    hide Heads, FirstHeader, Cut, Mark, Apply, ReadAll;
    var header := FirstHeader(0, message.timestamp, csid, message);
    FullHeads(r.Previous(csid), csid, message);
    FullLeaves(r.Previous(csid), message);
    AnyFormReads(r, csid, 0, header, message, message.timestamp, more);
  }

  lemma FullHeads(previous: Option<State>, csid: ChunkStreamId, message: Message)
    ensures Says(0, previous, message)
    ensures Heads(FirstHeader(0, message.timestamp, csid, message), 0, previous, csid, message)
  {
    hide FirstHeader;
  }

  // ---------------------------------------------------------------- abort

  function AbortOf(csid: u32, timestamp: u32): Message { Message(timestamp, Abort, 0, BigEndian(csid, 4)) }

  /** An abort leaves nothing half-read on the chunk stream it names, and every other as it was. */
  lemma AbortReads(r: ReaderState, on: ChunkStreamId, csid: u32, timestamp: u32, more: seq<byte>)
    requires Takes(r, on)
    ensures var abort := AbortOf(csid, timestamp);
            var r1 := r.(streams := r.streams[on := Full(abort)]);
            var r' := if csid in r1.streams
                      then r1.(streams := r1.streams[csid := r1.streams[csid].(payload := [])]) else r1;
            && r'.Valid()
            && ReadAll(r, Whole(on, abort, r.chunkSize) + more) == ReadAll(r', more).Prepend([abort])
  {
    hide ReadAll, Whole;
    Widths();
    ValueOfBigEndian(csid, 4);
    WholeReads(r, on, AbortOf(csid, timestamp), more);
  }

  /** What a message that only travels leaves a reader at. */
  lemma TravellerReads(r: ReaderState, csid: ChunkStreamId, message: Message, more: seq<byte>)
    requires Takes(r, csid) && WellFormed(message) && !message.kind.SetChunkSize? && !message.kind.Abort?
    ensures var r' := r.(streams := r.streams[csid := Full(message)]);
            && r'.Valid()
            && ReadAll(r, Whole(csid, message, r.chunkSize) + more) == ReadAll(r', more).Prepend([message])
  {
    hide ReadAll, Whole;
    WholeReads(r, csid, message, more);
  }

  /**
    * A message abandoned part-way is abandoned: after an abort naming its chunk stream, a new message there is
    * read as itself, and nothing half-read on any other chunk stream is lost, and the chunk size is kept.
    */
  lemma AbortDiscards(r: ReaderState, on: ChunkStreamId, csid: ChunkStreamId, timestamp: u32, message: Message,
                      more: seq<byte>)
    requires Takes(r, on) && on != csid && csid in r.streams && r.streams[csid].payload != []
    requires WellFormed(message) && !message.kind.SetChunkSize? && !message.kind.Abort?
    ensures var abort := AbortOf(csid, timestamp);
            var bytes := Whole(on, abort, r.chunkSize) + (Whole(csid, message, r.chunkSize) + more);
            var r' := ReaderState(r.streams[on := Full(abort)][csid := Full(message)], r.chunkSize);
            && r'.Valid()
            && ReadAll(r, bytes) == ReadAll(r', more).Prepend([abort, message])
            && forall c <- r.streams :: c != on && c != csid ==> r'.streams[c] == r.streams[c]
  {
    hide ReadAll, Whole, Full, WellFormed;
    var abort := AbortOf(csid, timestamp);
    AbortReads(r, on, csid, timestamp, Whole(csid, message, r.chunkSize) + more);
    var r1 := r.(streams := r.streams[on := Full(abort)]);
    var r2 := r1.(streams := r1.streams[csid := r1.streams[csid].(payload := [])]);
    TravellerReads(r2, csid, message, more);
    assert r2.streams[csid := Full(message)] == r.streams[on := Full(abort)][csid := Full(message)];
    assert [abort] + ([message] + ReadAll(r2.(streams := r2.streams[csid := Full(message)]), more).messages)
        == [abort, message] + ReadAll(r2.(streams := r2.streams[csid := Full(message)]), more).messages;
  }

  /** Without it, the new message is refused for what it would leave unfinished. */
  lemma UnabortedIsRefused(r: ReaderState, csid: ChunkStreamId, message: Message, more: seq<byte>)
    requires r.Valid() && csid in r.streams && r.streams[csid].payload != []
    ensures ReadAll(r, Whole(csid, message, r.chunkSize) + more)
         == Reading(r, Whole(csid, message, r.chunkSize) + more, [],
                    Some(Interleaved(csid, |r.streams[csid].payload|)))
  {
    hide ReadBasicHeader, ReadState, PutBasicHeader, Fields, Cut;
    var basic, fields := PutBasicHeader(0, csid), Fields(0, message.timestamp, message);
    var body := Cut(message.payload, r.chunkSize, Mark(csid, message.timestamp));
    Associative(basic + fields, body, more);
    Associative(basic, fields, body + more);
    BasicHeaderReads(0, csid, fields + (body + more));
  }

  // ---------------------------------------------------------------- chunk size

  function SizeOf(stated: u32, timestamp: u32): Message { Message(timestamp, SetChunkSize, 0, BigEndian(stated, 4)) }

  /** A chunk size is what its 31 low bits say. The top bit is not read. */
  lemma ChunkSizeReads(r: ReaderState, on: ChunkStreamId, stated: u32, timestamp: u32, more: seq<byte>)
    requires Takes(r, on) && 1 <= stated % 0x8000_0000 <= 0xff_ffff
    ensures var message := SizeOf(stated, timestamp);
            var r' := ReaderState(r.streams[on := Full(message)], stated % 0x8000_0000);
            && r'.Valid()
            && ReadAll(r, Whole(on, message, r.chunkSize) + more) == ReadAll(r', more).Prepend([message])
  {
    hide ReadAll, Whole;
    Widths();
    ValueOfBigEndian(stated, 4);
    WholeReads(r, on, SizeOf(stated, timestamp), more);
  }

  /** A message acted on is refused, whatever it was cut at, exactly for what it says. */
  lemma {:induction false} BodyRefused(r: ReaderState, buf: seq<byte>, csid: ChunkStreamId, written: u32, state: State,
                                       payload: seq<byte>, offset: nat, more: seq<byte>)
    requires r.Valid()
    requires csid in r.streams || |r.streams| < MAX_CHUNK_STREAMS
    requires offset <= |payload| == state.length <= MAX_ASSEMBLED_LENGTH
    requires offset == |payload| ==> payload == []
    requires r.Payload(csid) == payload[..offset]
    requires state.extended <==> written >= EXTENDED_TIMESTAMP
    requires Apply(Settled(r, csid, state), Delivered(state, payload)).Err?
    ensures var o := ReadBody(r, buf, csid, state, Cut(payload[offset..], r.chunkSize, Mark(csid, written)) + more);
            var error := Apply(Settled(r, csid, state), Delivered(state, payload)).error;
            && Settled(r, csid, state).Valid()
            && if o.verdict.Absorbed?
               then ReadAll(o.reader, o.rest) == Reading(Settled(r, csid, state), more, [], Some(error))
               else o == Outcome(Settled(r, csid, state), more, Failed(error))
    decreases |payload| - offset
  {
    hide ReadChunk, ReadBody, Mark, Cut, Settled, Apply;
    var size, mark := r.chunkSize, Mark(csid, written);
    CutThen(payload, offset, size, mark, more);
    SettledIsValid(r, csid, state, payload[..Min(offset + size, |payload|)]);
    if |payload| - offset <= size {
      assert payload[..offset] + payload[offset..] == payload;
      LastRefused(r, buf, csid, state, payload[offset..], more);
    } else {
      var next := offset + size;
      var body := Cut(payload[next..], size, mark) + more;
      assert payload[..offset] + payload[offset..next] == payload[..next];
      PartTaken(r, buf, csid, state, payload[offset..next], mark + body);
      var r' := r.(streams := r.streams[csid := ChunkStream(state, payload[..next])]);
      ContinuationReads(r', csid, written, state, body);
      BodyRefused(r', mark + body, csid, written, state, payload, next, more);
    }
  }

  lemma LastRefused(r: ReaderState, buf: seq<byte>, csid: nat, state: State, chunk: seq<byte>, rest: seq<byte>)
    requires r.Valid()
    requires csid in r.streams || |r.streams| < MAX_CHUNK_STREAMS
    requires r.Payload(csid) == [] || |r.Payload(csid)| < state.length
    requires |r.Payload(csid)| + |chunk| == state.length <= MAX_ASSEMBLED_LENGTH && |chunk| <= r.chunkSize
    requires Apply(Settled(r, csid, state), Delivered(state, r.Payload(csid) + chunk)).Err?
    ensures var message := Delivered(state, r.Payload(csid) + chunk);
            ReadBody(r, buf, csid, state, chunk + rest)
              == Outcome(Settled(r, csid, state), rest, Failed(Apply(Settled(r, csid, state), message).error))
  {
    hide Apply;
    TakeWhole(chunk, rest);
  }

  /** What is wrong with a message that describes the chunk stream, if anything is. */
  function Fault(message: Message): Option<ChunkError> {
    if !message.kind.SetChunkSize? && !message.kind.Abort? then None
    else if |message.payload| != 4 then Some(MalformedControl(message.kind, |message.payload|))
    else if message.kind.Abort? then None
    else
      var size := FromBigEndian(message.payload) % 0x8000_0000;
      if 1 <= size <= 0xff_ffff then None else Some(InvalidChunkSize(size))
  }

  /** A message stated in full is read or refused exactly as it is at fault, at its end and for that fault. */
  lemma RefusedForItsFault(r: ReaderState, csid: ChunkStreamId, message: Message, more: seq<byte>)
    requires Takes(r, csid) && message.kind.Canonical() && |message.payload| <= MAX_ASSEMBLED_LENGTH
    ensures Fault(message).Some? ==>
      ReadAll(r, Whole(csid, message, r.chunkSize) + more)
        == Reading(r.(streams := r.streams[csid := Full(message)]), more, [], Fault(message))
    ensures Fault(message).None? <==> WellFormed(message)
  {
    hide ReadBasicHeader, ReadState, ReadBody, FirstHeader, Cut, Mark, Full;
    if Fault(message).Some? {
      var previous := r.Previous(csid);
      var header := FirstHeader(0, message.timestamp, csid, message);
      var body := Cut(message.payload, r.chunkSize, Mark(csid, message.timestamp));
      var state := Leaves(0, previous, message);
      FullHeads(previous, csid, message);
      FullLeaves(previous, message);
      FullIs(message);
      LeavesIsTheMessage(0, previous, message);
      Associative(header, body, more);
      HeaderReads(header, 0, previous, csid, message, body + more);
      var buf := header + (body + more);
      assert ReadChunk(r, buf) == ReadBody(r, buf, csid, state, body + more);
      assert message.payload[0..] == message.payload && message.payload[..0] == [];
      BodyRefused(r, buf, csid, message.timestamp, state, message.payload, 0, more);
    }
  }

  lemma FullIs(message: Message)
    ensures Full(message) == ChunkStream(Leaves(0, None, message), [])
    ensures forall previous: Option<State> :: Leaves(0, previous, message) == Leaves(0, None, message)
  {
  }

  // ---------------------------------------------------------------- headers refused

  /** What a header alone is refused for, and that nothing is consumed or changed by it. */
  lemma HeaderRefusedExactly(r: ReaderState, buf: seq<byte>)
    requires r.Valid() && ReadBasicHeader(buf).Some?
    ensures var (h, o) := (ReadBasicHeader(buf).value.0, ReadChunk(r, buf));
            var known, half := h.csid in r.streams, |r.Payload(h.csid)|;
            && (!known && h.fmt != 0 ==> o == Outcome(r, buf, Failed(NothingToInherit(h.csid, h.fmt))))
            && (!known && h.fmt == 0 && |r.streams| >= 64 ==> o == Outcome(r, buf, Failed(TooManyChunkStreams)))
            && (known && h.fmt != 3 && half > 0 ==> o == Outcome(r, buf, Failed(Interleaved(h.csid, half))))
            && (o.verdict.Failed? && o.verdict.error.NothingToInherit? ==> !known && h.fmt != 0)
            && (o.verdict.Failed? && o.verdict.error.TooManyChunkStreams? ==> !known && h.fmt == 0 && |r.streams| >= 64)
            && (o.verdict.Failed? && o.verdict.error.Interleaved? ==> known && h.fmt != 3 && half > 0)
  {
    hide ReadBasicHeader, ReadState;
  }

  /** And the length a full header states is refused when it is over 8 MiB, whatever is behind it. */
  lemma LengthRefused(r: ReaderState, csid: ChunkStreamId, message: Message, more: seq<byte>)
    requires Takes(r, csid) && message.kind.Canonical() && 8 * 1024 * 1024 < |message.payload| <= MAX_MESSAGE_LENGTH
    ensures var buf := FirstHeader(0, message.timestamp, csid, message) + more;
            ReadChunk(r, buf) == Outcome(r, buf, Failed(MessageTooLong(|message.payload|, 8 * 1024 * 1024)))
  {
    hide ReadBasicHeader, ReadState, FirstHeader;
    FullHeads(r.Previous(csid), csid, message);
    FullLeaves(r.Previous(csid), message);
    HeaderReads(FirstHeader(0, message.timestamp, csid, message), 0, r.Previous(csid), csid, message, more);
  }
}

/**
  * The one header a writer writes that its reader does not read: format 3 after
  * an absolute extended timestamp. A message that goes out under it never
  * arrives as it was sent.
  */
module ChunkStutter {
  import opened Wrappers
  import opened Bytes
  import opened Chunk
  import opened ChunkRoundTrip

  /** The bytes it takes to read `left` more bytes of payload when every chunk costs `each` on top. */
  function Need(left: nat, size: nat, each: nat): nat
    requires size > 0
  {
    if left <= size then each + left else each + size + Need(left - size, size, each)
  }

  lemma {:induction false} CutLength(payload: seq<byte>, size: nat, mark: seq<byte>)
    requires size > 0
    ensures |mark| + |Cut(payload, size, mark)| == Need(|payload|, size, |mark|)
    decreases |payload|
  {
    if |payload| > size {
      CutLength(payload[size..], size, mark);
    }
  }

  lemma {:induction false} NeedGrows(left: nat, size: nat, each: nat, more: nat)
    requires size > 0
    ensures Need(left, size, each) + more <= Need(left, size, each + more)
    decreases left
  {
    if left > size {
      NeedGrows(left - size, size, each, more);
    }
  }

  /** The state a writer leaves a reader in when they agree, on a chunk stream without extended timestamps. */
  predicate Clean(r: ReaderState, csid: nat) {
    csid in r.streams && r.streams[csid].payload == [] && !r.streams[csid].state.extended
  }

  /** A chunk stream part-way through a message, and too few bytes to finish it with the timestamps it expects. */
  predicate Starved(r: ReaderState, csid: ChunkStreamId, bytes: nat)
    requires r.chunkSize > 0
  {
    && csid in r.streams
    && r.streams[csid].state.extended
    && 0 < |r.streams[csid].payload| < r.streams[csid].state.length
    && bytes < Need(r.streams[csid].state.length - |r.streams[csid].payload|, r.chunkSize,
                    |PutBasicHeader(3, csid)| + 4)
  }

  /** Which chunk stream a chunk is on. */
  function ChunkOn(buf: seq<byte>): nat
    requires ReadBasicHeader(buf).Some?
  {
    ReadBasicHeader(buf).value.0.csid
  }

  /** A chunk leaves every other chunk stream's fields alone, and touches its payload only to discard it. */
  lemma OthersKeepTheirFields(r: ReaderState, buf: seq<byte>, csid: nat)
    requires r.Valid() && csid in r.streams
    requires ReadChunk(r, buf).verdict.Absorbed? || ReadChunk(r, buf).verdict.Complete?
    requires ChunkOn(buf) != csid
    ensures var r' := ReadChunk(r, buf).reader;
            && csid in r'.streams && r'.streams[csid].state == r.streams[csid].state
            && (ReadChunk(r, buf).verdict.Absorbed? ==>
                  r'.streams[csid] == r.streams[csid] && r'.chunkSize == r.chunkSize)
  {
    hide ReadState, ReadBasicHeader;
  }

  lemma AbsorbedIsPending(r: ReaderState, buf: seq<byte>)
    requires r.Valid() && ReadChunk(r, buf).verdict.Absorbed?
    ensures ReadBasicHeader(buf).Some?
    ensures var r' := ReadChunk(r, buf).reader;
            && ChunkOn(buf) in r'.streams && r'.streams[ChunkOn(buf)].payload != []
            && r'.chunkSize == r.chunkSize
  {
    hide ReadState, ReadBasicHeader;
  }

  /** A chunk on a stream that is part-way through an extended message: what it costs and what it leaves. */
  lemma MidMessageChunk(r: ReaderState, buf: seq<byte>, csid: ChunkStreamId)
    requires r.Valid() && csid in r.streams
    requires r.streams[csid].state.extended && r.streams[csid].payload != []
    requires ReadChunk(r, buf).verdict.Absorbed? || ReadChunk(r, buf).verdict.Complete?
    requires ChunkOn(buf) == csid
    ensures var stream := r.streams[csid];
            var left := stream.state.length - |stream.payload|;
            var o := ReadChunk(r, buf);
            && |o.rest| + |PutBasicHeader(3, csid)| + 4 + Min(left, r.chunkSize) <= |buf|
            && (o.verdict.Complete? ==> left <= r.chunkSize)
            && (o.verdict.Absorbed? ==>
                  && left > r.chunkSize
                  && csid in o.reader.streams && o.reader.chunkSize == r.chunkSize
                  && o.reader.streams[csid].state == stream.state
                  && |o.reader.streams[csid].payload| == |stream.payload| + r.chunkSize)
  {
    hide Apply, PutBasicHeader, ReadBasicHeader;
    var (h, data) := ReadBasicHeader(buf).value;
    BasicHeaderIsShortest(buf, csid);
    assert h.fmt == 3;
    assert ReadState(3, Some(r.streams[csid].state), true, data).Some?;
  }

  /** With no message delivered, a chunk stream that is not clean does not become so. */
  lemma {:induction false} StaysStuck(r: ReaderState, buf: seq<byte>, csid: nat)
    requires r.Valid() && csid in r.streams && !Clean(r, csid)
    requires ReadAll(r, buf).messages == [] && ReadAll(r, buf).error.None?
    ensures !Clean(ReadAll(r, buf).reader, csid)
    decreases |buf|
  {
    hide ReadChunk;
    var o := ReadChunk(r, buf);
    if o.verdict.Absorbed? {
      AbsorbedIsPending(r, buf);
      if ChunkOn(buf) != csid {
        OthersKeepTheirFields(r, buf, csid);
      }
      StaysStuck(o.reader, o.rest, csid);
    }
  }

  /** A starved chunk stream cannot be brought clean by bytes that deliver at most one message. */
  lemma {:induction false} StarvedStaysStuck(r: ReaderState, buf: seq<byte>, csid: ChunkStreamId)
    requires r.Valid() && Starved(r, csid, |buf|)
    ensures |ReadAll(r, buf).messages| <= 1 && ReadAll(r, buf).error.None? ==> !Clean(ReadAll(r, buf).reader, csid)
    decreases |buf|
  {
    hide ReadChunk, PutBasicHeader;
    var o := ReadChunk(r, buf);
    if |ReadAll(r, buf).messages| > 1 || ReadAll(r, buf).error.Some? {
    } else if o.verdict.Absorbed? {
      AbsorbedIsPending(r, buf);
      if ChunkOn(buf) == csid {
        MidMessageChunk(r, buf, csid);
      } else {
        OthersKeepTheirFields(r, buf, csid);
      }
      StarvedStaysStuck(o.reader, o.rest, csid);
    } else if o.verdict.Complete? {
      CompleteHasHeader(r, buf);
      if ChunkOn(buf) == csid {
        MidMessageChunk(r, buf, csid);
        assert false;
      }
      OthersKeepTheirFields(r, buf, csid);
      StaysStuck(o.reader, o.rest, csid);
    }
  }

  lemma CompleteHasHeader(r: ReaderState, buf: seq<byte>)
    requires r.Valid() && ReadChunk(r, buf).verdict.Complete?
    ensures ReadBasicHeader(buf).Some?
  {
    hide ReadBasicHeader;
  }

  // ---------------------------------------------------------------- the stuttering message

  /** What a stuttering message goes out as: a bare format 3 header and the payload. */
  lemma StutterWire(w: WriterState, csid: ChunkStreamId, message: Message)
    requires w.Valid() && Stutters(w.Previous(csid), message)
    ensures Plan(w.Previous(csid), message) == (3, 0)
    ensures Wire(w, csid, message)
         == PutBasicHeader(3, csid) + Cut(message.payload, w.chunkSize, PutBasicHeader(3, csid))
  {
    hide PutBasicHeader;
    assert Fields(3, 0, message) == [];
    assert PutBasicHeader(3, csid) + [] == PutBasicHeader(3, csid);
  }

  /** Its first chunk: four bytes of payload go for the timestamp that is not there. */
  lemma StutterFirstChunk(w: WriterState, r: ReaderState, csid: ChunkStreamId, message: Message)
    requires InStep(w, r, w.chunkSize) && Stutters(w.Previous(csid), message)
    ensures var cut := Cut(message.payload, w.chunkSize, PutBasicHeader(3, csid));
            var buf := Wire(w, csid, message);
            ReadChunk(r, buf) ==
              if |cut| < 4 then Outcome(r, buf, NeedMore)
              else ReadBody(r, buf, csid, r.streams[csid].state, cut[4..])
  {
    hide ReadBody, PutBasicHeader, ReadBasicHeader, Cut, Plan;
    StutterWire(w, csid, message);
    var cut := Cut(message.payload, w.chunkSize, PutBasicHeader(3, csid));
    BasicHeaderReads(3, csid, cut);
  }

  /** In one chunk it does not arrive at all: the reader waits for four bytes that were never written. */
  lemma StutterStalls(w: WriterState, r: ReaderState, csid: ChunkStreamId, message: Message)
    requires InStep(w, r, w.chunkSize) && Stutters(w.Previous(csid), message)
    requires |message.payload| <= w.chunkSize
    ensures ReadAll(r, Wire(w, csid, message)) == Reading(r, Wire(w, csid, message), [], None)
  {
    hide PutBasicHeader, ReadChunk, Wire;
    StutterFirstChunk(w, r, csid, message);
  }

  /** In several, it takes more bytes to read than were written. */
  lemma StutterStarves(w: WriterState, r: ReaderState, csid: ChunkStreamId, message: Message)
    requires InStep(w, r, w.chunkSize) && Stutters(w.Previous(csid), message)
    requires |message.payload| > w.chunkSize
    ensures var o := ReadChunk(r, Wire(w, csid, message));
            || o.verdict.NeedMore?
            || (o.verdict.Absorbed? && Starved(o.reader, csid, |o.rest|))
  {
    hide PutBasicHeader, ReadChunk, Wire;
    StutterFirstChunk(w, r, csid, message);
    var payload, size, mark := message.payload, w.chunkSize, PutBasicHeader(3, csid);
    var cut := Cut(payload, size, mark);
    if |cut| >= 4 {
      CutLength(payload[size..], size, mark);
      NeedGrows(|payload| - size, size, |mark|, 4);
    }
  }

  /**
    * A message that stutters is never read as it was written: the reader does not end up with that one
    * message, nothing unread, and its chunk stream where the writer's is.
    */
  lemma StutterIsNotRead(w: WriterState, r: ReaderState, csid: ChunkStreamId, message: Message)
    requires InStep(w, r, w.chunkSize) && Stutters(w.Previous(csid), message)
    ensures var g := ReadAll(r, Wire(w, csid, message));
            !(g.messages == [message] && g.error.None?
              && csid in g.reader.streams
              && g.reader.streams[csid] == ChunkStream(Carried(w.Previous(csid), message), []))
  {
    hide ReadChunk, Wire, PutBasicHeader;
    StutterWire(w, csid, message);
    assert !Carried(w.Previous(csid), message).extended;
    var buf := Wire(w, csid, message);
    if |message.payload| <= w.chunkSize {
      StutterStalls(w, r, csid, message);
    } else {
      StutterStarves(w, r, csid, message);
      var o := ReadChunk(r, buf);
      var g := ReadAll(r, buf);
      if o.verdict.Absorbed? && |g.messages| <= 1 && g.error.None? {
        StarvedStaysStuck(o.reader, o.rest, csid);
      }
    }
  }
}

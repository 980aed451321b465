/**
  * The reader under any arrival of its bytes: it reads the same whatever pieces
  * they come in, and holds a bounded amount whatever they say.
  */
module ChunkArrival {
  import opened Wrappers
  import opened Bytes
  import opened Chunk

  // ---------------------------------------------------------------- more bytes behind

  lemma BasicHeaderStable(data: seq<byte>, more: seq<byte>)
    requires ReadBasicHeader(data).Some?
    ensures var (h, rest) := ReadBasicHeader(data).value;
            ReadBasicHeader(data + more) == Some((h, rest + more))
  {
    var size := |data| - |ReadBasicHeader(data).value.1|;
    assert (data + more)[size..] == data[size..] + more;
  }

  lemma NumberStable(data: seq<byte>, width: nat, more: seq<byte>)
    requires TakeNumber(data, width).Some?
    ensures var (n, rest) := TakeNumber(data, width).value;
            TakeNumber(data + more, width) == Some((n, rest + more))
  {
    TakeMore(data, width, more);
  }

  lemma TimeStable(written: u32, data: seq<byte>, more: seq<byte>)
    requires ReadTime(written, data).Some?
    ensures var (t, rest) := ReadTime(written, data).value;
            ReadTime(written, data + more) == Some((t, rest + more))
  {
    if written == EXTENDED_TIMESTAMP {
      NumberStable(data, 4, more);
    }
  }

  lemma FullStable(data: seq<byte>, more: seq<byte>)
    requires ReadFull(data).Some?
    ensures var (s, rest) := ReadFull(data).value; ReadFull(data + more) == Some((s, rest + more))
  {
    Widths();
    NumberStable(data, 3, more);
    var (written, data1) := TakeNumber(data, 3).value;
    NumberStable(data1, 3, more);
    var (_, data2) := TakeNumber(data1, 3).value;
    NumberStable(data2, 1, more);
    var (_, data3) := TakeNumber(data2, 1).value;
    TakeMore(data3, 4, more);
    TimeStable(written, Take(data3, 4).value.1, more);
  }

  lemma DeltaStable(fmt: nat, previous: State, data: seq<byte>, more: seq<byte>)
    requires ReadDelta(fmt, previous, data).Some?
    ensures var (s, rest) := ReadDelta(fmt, previous, data).value;
            ReadDelta(fmt, previous, data + more) == Some((s, rest + more))
  {
    Widths();
    NumberStable(data, 3, more);
    var (written, data1) := TakeNumber(data, 3).value;
    if fmt == 1 {
      NumberStable(data1, 3, more);
      var (_, data2) := TakeNumber(data1, 3).value;
      NumberStable(data2, 1, more);
      TimeStable(written, TakeNumber(data2, 1).value.1, more);
    } else {
      TimeStable(written, data1, more);
    }
  }

  lemma StateStable(fmt: nat, previous: Option<State>, pending: bool, data: seq<byte>, more: seq<byte>)
    requires fmt != 0 ==> previous.Some?
    requires ReadState(fmt, previous, pending, data).Some?
    ensures var (s, rest) := ReadState(fmt, previous, pending, data).value;
            ReadState(fmt, previous, pending, data + more) == Some((s, rest + more))
  {
    if fmt == 0 {
      FullStable(data, more);
    } else if fmt <= 2 {
      DeltaStable(fmt, previous.value, data, more);
    } else if previous.value.extended {
      TakeMore(data, 4, more);
    }
  }

  /** A verdict other than "not all here yet" stands whatever comes behind the chunk it is about. */
  lemma VerdictStands(r: ReaderState, buf: seq<byte>, more: seq<byte>)
    requires r.Valid()
    requires !ReadChunk(r, buf).verdict.NeedMore?
    ensures ReadChunk(r, buf + more) == ReadChunk(r, buf).(rest := ReadChunk(r, buf).rest + more)
  {
    BasicHeaderStable(buf, more);
    var (h, data) := ReadBasicHeader(buf).value;
    if Refusal(r, h).None? {
      StateStable(h.fmt, r.Previous(h.csid), r.Payload(h.csid) != [], data, more);
      var (state, body) := ReadState(h.fmt, r.Previous(h.csid), r.Payload(h.csid) != [], data).value;
      if state.length <= MAX_ASSEMBLED_LENGTH {
        TakeMore(body, Wanted(r, h.csid, state), more);
      }
    }
  }

  // ---------------------------------------------------------------- arrival

  /** Reading what is here and then the rest is reading it all at once, unless the first part was refused. */
  lemma {:induction false} ReadAllSplits(r: ReaderState, buf: seq<byte>, more: seq<byte>)
    requires r.Valid()
    ensures var first := ReadAll(r, buf);
            ReadAll(r, buf + more) ==
              if first.error.Some? then first.(rest := first.rest + more)
              else ReadAll(first.reader, first.rest + more).Prepend(first.messages)
    decreases |buf|
  {
    hide ReadChunk;
    var o := ReadChunk(r, buf);
    if !o.verdict.NeedMore? {
      VerdictStands(r, buf, more);
      if o.verdict.Absorbed? || o.verdict.Complete? {
        ReadAllSplits(o.reader, o.rest, more);
      }
      if o.verdict.Complete? {
        var first := ReadAll(o.reader, o.rest);
        if first.error.None? {
          Associative([o.verdict.message], first.messages, ReadAll(first.reader, first.rest + more).messages);
        }
      }
    }
  }

  lemma NothingToRead(r: ReaderState)
    requires r.Valid()
    ensures ReadAll(r, []) == Reading(r, [], [], None)
  {
  }

  /** A connection: pieces arrive behind what is left over, and everything that can be read is, until one is refused. */
  function Arrive(r: ReaderState, left: seq<byte>, pieces: seq<seq<byte>>): (reading: Reading)
    requires r.Valid()
    ensures reading.reader.Valid()
    decreases |pieces|
  {
    if pieces == [] then Reading(r, left, [], None)
    else
      var first := ReadAll(r, left + pieces[0]);
      if first.error.Some? then first.(rest := first.rest + Flatten(pieces[1..]))
      else Arrive(first.reader, first.rest, pieces[1..]).Prepend(first.messages)
  }

  /** What is left over is never anything that could have been read. */
  predicate Exhausted(r: ReaderState, left: seq<byte>)
    requires r.Valid()
  {
    ReadChunk(r, left).verdict.NeedMore?
  }

  lemma {:induction false} ReadAllExhausts(r: ReaderState, buf: seq<byte>)
    requires r.Valid()
    ensures ReadAll(r, buf).error.None? ==> Exhausted(ReadAll(r, buf).reader, ReadAll(r, buf).rest)
    decreases |buf|
  {
    var o := ReadChunk(r, buf);
    if o.verdict.Absorbed? || o.verdict.Complete? {
      ReadAllExhausts(o.reader, o.rest);
    }
  }

  /**
    * Arrival does not matter: however a run of bytes is cut into pieces, reading after each piece gives
    * the messages, the first error, the final state and the unread bytes that one buffer would.
    */
  lemma {:induction false} ArrivalDoesNotMatter(r: ReaderState, left: seq<byte>, pieces: seq<seq<byte>>)
    requires r.Valid() && Exhausted(r, left)
    ensures Arrive(r, left, pieces) == ReadAll(r, left + Flatten(pieces))
    decreases |pieces|
  {
    if pieces == [] {
      assert left + Flatten(pieces) == left;
    } else {
      var first := ReadAll(r, left + pieces[0]);
      Associative(left, pieces[0], Flatten(pieces[1..]));
      ReadAllSplits(r, left + pieces[0], Flatten(pieces[1..]));
      if first.error.None? {
        ReadAllExhausts(r, left + pieces[0]);
        ArrivalDoesNotMatter(first.reader, first.rest, pieces[1..]);
      }
    }
  }

  lemma ArrivalOfAnyCutting(pieces: seq<seq<byte>>)
    ensures Arrive(FreshReader, [], pieces) == ReadAll(FreshReader, Flatten(pieces))
  {
    ArrivalDoesNotMatter(FreshReader, [], pieces);
    assert [] + Flatten(pieces) == Flatten(pieces);
  }

  // ---------------------------------------------------------------- what is held

  /** The bytes held for messages that are not finished. */
  ghost function Held(r: ReaderState, csids: set<nat>): nat
    requires csids <= r.streams.Keys
  {
    if csids == {} then 0
    else var c :| c in csids; |r.streams[c].payload| + Held(r, csids - {c})
  }

  lemma {:induction false} HeldIsBounded(r: ReaderState, csids: set<nat>)
    requires r.Valid() && csids <= r.streams.Keys
    ensures Held(r, csids) <= |csids| * (MAX_ASSEMBLED_LENGTH - 1)
  {
    if csids != {} {
      var c :| c in csids && Held(r, csids) == |r.streams[c].payload| + Held(r, csids - {c});
      HeldIsBounded(r, csids - {c});
      assert r.streams[c].Valid();
    }
  }

  /**
    * Whatever a peer sends, refused or not: at most 64 chunk streams, a chunk size in range, every half-read
    * message shorter than its length, and so at most 64 times 8 MiB held.
    */
  lemma ReachableReaderIsBounded(pieces: seq<seq<byte>>)
    ensures var r := Arrive(FreshReader, [], pieces).reader;
            && r.Valid()
            && Held(r, r.streams.Keys) <= MAX_CHUNK_STREAMS * (MAX_ASSEMBLED_LENGTH - 1)
  {
    ValidReaderIsBounded(Arrive(FreshReader, [], pieces).reader);
  }

  lemma ValidReaderIsBounded(r: ReaderState)
    requires r.Valid()
    ensures Held(r, r.streams.Keys) <= MAX_CHUNK_STREAMS * (MAX_ASSEMBLED_LENGTH - 1)
  {
    HeldIsBounded(r, r.streams.Keys);
    assert |r.streams.Keys| == |r.streams|;
  }
}

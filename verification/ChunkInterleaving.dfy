/** Chunk streams do not interfere: interleaved, each carries the messages it would carry alone. */
module ChunkInterleaving {
  import opened Wrappers
  import opened Bytes
  import opened Chunk
  import opened ChunkArrival
  import opened ChunkStutter

  datatype Delivery = Delivery(csid: nat, message: Message)

  /** What a reader makes of chunks: where it ends up, and the messages in the order they were completed. */
  datatype Feeding = Feeding(reader: ReaderState, deliveries: seq<Delivery>)

  /** The messages that reconfigure the chunk stream rather than travel on it. */
  predicate Control(kind: MessageType) { kind.SetChunkSize? || kind.Abort? }

  /** A reader takes exactly these bytes as one chunk, and is not reconfigured by it. */
  predicate Takes(r: ReaderState, chunk: seq<byte>)
    requires r.Valid()
  {
    ReadChunk(r, chunk).rest == [] && Ordinary(ReadChunk(r, chunk).verdict)
  }

  predicate Ordinary(verdict: Verdict) {
    verdict.Absorbed? || (verdict.Complete? && !Control(verdict.message.kind))
  }

  lemma TakenHasHeader(r: ReaderState, chunk: seq<byte>)
    requires r.Valid() && Takes(r, chunk)
    ensures ReadBasicHeader(chunk).Some?
  {
    hide ReadBasicHeader, ReadState;
  }

  function Gives(r: ReaderState, chunk: seq<byte>): seq<Delivery>
    requires r.Valid()
  {
    var o := ReadChunk(r, chunk);
    if o.verdict.Complete? && ReadBasicHeader(chunk).Some?
    then [Delivery(ChunkOn(chunk), o.verdict.message)] else []
  }

  function Feed(r: ReaderState, chunks: seq<seq<byte>>): (f: Option<Feeding>)
    requires r.Valid()
    ensures f.Some? ==> f.value.reader.Valid()
    decreases |chunks|
  {
    if chunks == [] then Some(Feeding(r, []))
    else if !Takes(r, chunks[0]) then None
    else
      var f :- Feed(ReadChunk(r, chunks[0]).reader, chunks[1..]);
      Some(f.(deliveries := Gives(r, chunks[0]) + f.deliveries))
  }

  /** A reader that knows only one chunk stream. */
  function Only(r: ReaderState, csid: nat): (o: ReaderState)
    requires r.Valid()
    ensures o.Valid()
  {
    if csid in r.streams then ReaderState(map[csid := r.streams[csid]], r.chunkSize)
    else ReaderState(map[], r.chunkSize)
  }

  predicate On(chunk: seq<byte>, csid: nat) {
    ReadBasicHeader(chunk).Some? && ChunkOn(chunk) == csid
  }

  function OnStream(chunks: seq<seq<byte>>, csid: nat): seq<seq<byte>> {
    if chunks == [] then []
    else (if On(chunks[0], csid) then [chunks[0]] else []) + OnStream(chunks[1..], csid)
  }

  function DeliveredOn(deliveries: seq<Delivery>, csid: nat): seq<Delivery> {
    if deliveries == [] then []
    else (if deliveries[0].csid == csid then [deliveries[0]] else []) + DeliveredOn(deliveries[1..], csid)
  }

  function Messages(deliveries: seq<Delivery>): seq<Message> {
    seq(|deliveries|, i requires 0 <= i < |deliveries| => deliveries[i].message)
  }

  lemma {:induction false} DeliveredOnAppend(a: seq<Delivery>, b: seq<Delivery>, csid: nat)
    ensures DeliveredOn(a + b, csid) == DeliveredOn(a, csid) + DeliveredOn(b, csid)
  {
    if a == [] {
      assert a + b == b;
    } else {
      DeliveredOnAppend(a[1..], b, csid);
      assert (a + b)[1..] == a[1..] + b && (a + b)[0] == a[0];
      Associative(if a[0].csid == csid then [a[0]] else [], DeliveredOn(a[1..], csid), DeliveredOn(b, csid));
    }
  }

  // ---------------------------------------------------------------- one chunk

  lemma OnlyControlReconfigures(r: ReaderState, message: Message)
    requires !Control(message.kind)
    ensures Apply(r, message) == Ok(r)
  {
  }

  lemma OnlySettles(r: ReaderState, csid: nat, stream: ChunkStream)
    requires r.Valid() && stream.Valid()
    requires csid in r.streams || |r.streams| < MAX_CHUNK_STREAMS
    ensures var r' := r.(streams := r.streams[csid := stream]);
            && r'.Valid()
            && Only(r, csid).(streams := Only(r, csid).streams[csid := stream]) == Only(r', csid)
            && forall c :: c != csid ==> Only(r', c) == Only(r, c)
  {
  }

  /** The body of a chunk depends on nothing but its own chunk stream. */
  lemma BodyIsLocal(r: ReaderState, buf: seq<byte>, csid: nat, state: State, body: seq<byte>)
    requires r.Valid()
    requires csid in r.streams || |r.streams| < MAX_CHUNK_STREAMS
    requires r.Payload(csid) == [] || |r.Payload(csid)| < state.length
    ensures var o, alone := ReadBody(r, buf, csid, state, body), ReadBody(Only(r, csid), buf, csid, state, body);
            && (Ordinary(o.verdict) <==> Ordinary(alone.verdict))
            && (Ordinary(o.verdict) ==>
                  && alone.verdict == o.verdict && alone.rest == o.rest
                  && alone.reader == Only(o.reader, csid)
                  && forall c :: c != csid ==> Only(o.reader, c) == Only(r, c))
  {
    hide Apply, Only;
    OnlyKeeps(r, csid);
    if state.length <= MAX_ASSEMBLED_LENGTH && Take(body, Wanted(r, csid, state)).Some? {
      var payload := r.Payload(csid) + Take(body, Wanted(r, csid, state)).value.0;
      if |payload| < state.length {
        OnlySettles(r, csid, ChunkStream(state, payload));
      } else if !Control(state.kind) {
        OnlySettles(r, csid, ChunkStream(state, []));
        var message := Message(state.timestamp, state.kind, state.streamId, payload);
        OnlyControlReconfigures(r.(streams := r.streams[csid := ChunkStream(state, [])]), message);
        OnlyControlReconfigures(Only(r, csid).(streams := Only(r, csid).streams[csid := ChunkStream(state, [])]),
                                message);
      }
    }
  }

  lemma TakenAlone(r: ReaderState, chunk: seq<byte>)
    requires r.Valid() && Takes(r, chunk)
    ensures ReadBasicHeader(chunk).Some?
    ensures var csid, o := ChunkOn(chunk), ReadChunk(r, chunk);
            var alone := ReadChunk(Only(r, csid), chunk);
            && Takes(Only(r, csid), chunk)
            && alone.verdict == o.verdict
            && alone.reader == Only(o.reader, csid)
            && forall c :: c != csid ==> Only(o.reader, c) == Only(r, c)
  {
    hide ReadBasicHeader, ReadState, ReadBody, Only;
    TakenHasHeader(r, chunk);
    var (h, data) := ReadBasicHeader(chunk).value;
    OnlyKeeps(r, h.csid);
    assert Refusal(Only(r, h.csid), h) == None;
    var (state, body) := ReadState(h.fmt, r.Previous(h.csid), r.Payload(h.csid) != [], data).value;
    BodyIsLocal(r, chunk, h.csid, state, body);
  }

  lemma OnlyKeeps(r: ReaderState, csid: nat)
    requires r.Valid()
    ensures var o := Only(r, csid);
            && o.chunkSize == r.chunkSize
            && o.Previous(csid) == r.Previous(csid) && o.Payload(csid) == r.Payload(csid)
            && (csid in o.streams <==> csid in r.streams) && |o.streams| <= 1
            && (csid in r.streams ==> o.streams[csid] == r.streams[csid])
            && (csid !in r.streams ==> |o.streams| == 0)
  {
  }

  /** A chunk taken by a reader of its chunk stream alone is taken by one with room for that chunk stream. */
  lemma TakenTogether(r: ReaderState, chunk: seq<byte>)
    requires r.Valid() && ReadBasicHeader(chunk).Some?
    requires ChunkOn(chunk) in r.streams || |r.streams| < MAX_CHUNK_STREAMS
    requires Takes(Only(r, ChunkOn(chunk)), chunk)
    ensures Takes(r, chunk)
  {
    hide ReadBasicHeader, ReadState, ReadBody, Only;
    var (h, data) := ReadBasicHeader(chunk).value;
    OnlyKeeps(r, h.csid);
    var (state, body) := ReadState(h.fmt, r.Previous(h.csid), r.Payload(h.csid) != [], data).value;
    BodyIsLocal(r, chunk, h.csid, state, body);
  }

  // ---------------------------------------------------------------- interleavings

  /** Each chunk stream of an interleaving carries what it would carry alone, and ends where it would end. */
  lemma {:induction false} StreamsDoNotInterfere(r: ReaderState, chunks: seq<seq<byte>>, csid: nat)
    requires r.Valid() && Feed(r, chunks).Some?
    ensures var f := Feed(r, chunks).value;
            Feed(Only(r, csid), OnStream(chunks, csid))
              == Some(Feeding(Only(f.reader, csid), DeliveredOn(f.deliveries, csid)))
    decreases |chunks|
  {
    hide ReadChunk, ReadBasicHeader, Only, Takes;
    if chunks != [] {
      var chunk, rest := chunks[0], chunks[1..];
      var o := ReadChunk(r, chunk).reader;
      TakenAlone(r, chunk);
      StreamsDoNotInterfere(o, rest, csid);
      var later := DeliveredOn(Feed(o, rest).value.deliveries, csid);
      DeliveredOnAppend(Gives(r, chunk), Feed(o, rest).value.deliveries, csid);
      GivesOn(r, chunk, csid);
      if On(chunk, csid) {
        assert OnStream(chunks, csid)[1..] == OnStream(rest, csid);
      } else {
        assert OnStream(chunks, csid) == OnStream(rest, csid);
        assert [] + later == later;
      }
    }
  }

  lemma GivesOn(r: ReaderState, chunk: seq<byte>, csid: nat)
    requires r.Valid() && ReadBasicHeader(chunk).Some?
    ensures DeliveredOn(Gives(r, chunk), csid) == if On(chunk, csid) then Gives(r, chunk) else []
  {
    hide ReadChunk, ReadBasicHeader;
  }

  /** The chunk streams that chunks are on. */
  function StreamsOf(chunks: seq<seq<byte>>): set<nat> {
    set chunk <- chunks | ReadBasicHeader(chunk).Some? :: ChunkOn(chunk)
  }

  /** A chunk adds at most its own chunk stream. */
  lemma TakenAddsItsStream(r: ReaderState, chunk: seq<byte>)
    requires r.Valid() && Takes(r, chunk)
    ensures ReadBasicHeader(chunk).Some?
    ensures ReadChunk(r, chunk).reader.streams.Keys <= r.streams.Keys + {ChunkOn(chunk)}
  {
    hide ReadBasicHeader, ReadState;
  }

  /**
    * And conversely: any interleaving of chunks that each chunk stream could take alone is taken whole, so
    * long as there is room for the chunk streams. With `StreamsDoNotInterfere`, this says exactly when an
    * interleaving is free of errors and exactly what it delivers.
    */
  lemma {:induction false} AnyInterleavingIsTaken(r: ReaderState, chunks: seq<seq<byte>>)
    requires r.Valid() && forall chunk <- chunks :: ReadBasicHeader(chunk).Some?
    requires |r.streams.Keys + StreamsOf(chunks)| <= MAX_CHUNK_STREAMS
    requires forall c :: Feed(Only(r, c), OnStream(chunks, c)).Some?
    ensures Feed(r, chunks).Some?
    decreases |chunks|
  {
    hide ReadChunk, ReadBasicHeader, Only, Takes;
    if chunks != [] {
      var chunk, rest := chunks[0], chunks[1..];
      var csid := ChunkOn(chunk);
      assert Feed(Only(r, csid), OnStream(chunks, csid)).Some?;
      assert OnStream(chunks, csid)[0] == chunk && OnStream(chunks, csid)[1..] == OnStream(rest, csid);
      RoomFor(r, chunks);
      TakenTogether(r, chunk);
      TakenAlone(r, chunk);
      TakenAddsItsStream(r, chunk);
      var o := ReadChunk(r, chunk).reader;
      forall c ensures Feed(Only(o, c), OnStream(rest, c)).Some? {
        assert Feed(Only(r, c), OnStream(chunks, c)).Some?;
        if c != csid {
          assert OnStream(chunks, c) == OnStream(rest, c);
        }
      }
      SmallerSet(o.streams.Keys + StreamsOf(rest), r.streams.Keys + StreamsOf(chunks));
      AnyInterleavingIsTaken(o, rest);
    }
  }

  lemma FirstAndRest(chunks: seq<seq<byte>>)
    requires chunks != [] && ReadBasicHeader(chunks[0]).Some?
    ensures StreamsOf(chunks) == StreamsOf(chunks[1..]) + {ChunkOn(chunks[0])}
  {
    hide ReadBasicHeader;
    assert forall c :: c in chunks <==> c == chunks[0] || c in chunks[1..];
    assert chunks[0] in chunks;
  }

  lemma RoomFor(r: ReaderState, chunks: seq<seq<byte>>)
    requires chunks != [] && ReadBasicHeader(chunks[0]).Some?
    requires |r.streams.Keys + StreamsOf(chunks)| <= MAX_CHUNK_STREAMS
    ensures ChunkOn(chunks[0]) in r.streams || |r.streams| < MAX_CHUNK_STREAMS
    ensures StreamsOf(chunks) == StreamsOf(chunks[1..]) + {ChunkOn(chunks[0])}
  {
    hide ReadBasicHeader;
    var csid := ChunkOn(chunks[0]);
    FirstAndRest(chunks);
    if csid !in r.streams {
      SmallerSet(r.streams.Keys + {csid}, r.streams.Keys + StreamsOf(chunks));
      assert |r.streams.Keys + {csid}| == |r.streams.Keys| + 1 && |r.streams| == |r.streams.Keys|;
    }
  }

  // ---------------------------------------------------------------- on one wire

  /** Chunks laid end to end on one connection are read as those chunks, delivered in order of completion. */
  lemma {:induction false} OnOneWire(r: ReaderState, chunks: seq<seq<byte>>)
    requires r.Valid() && Feed(r, chunks).Some?
    ensures var f := Feed(r, chunks).value;
            ReadAll(r, Flatten(chunks)) == Reading(f.reader, [], Messages(f.deliveries), None)
    decreases |chunks|
  {
    hide ReadChunk, ReadBasicHeader, Messages;
    if chunks == [] {
      NothingToRead(r);
      NoMessages();
    } else {
      var o, rest := ReadChunk(r, chunks[0]), Flatten(chunks[1..]);
      TakenHasHeader(r, chunks[0]);
      VerdictStands(r, chunks[0], rest);
      assert [] + rest == rest;
      OnOneWire(o.reader, chunks[1..]);
      MessagesThen(Gives(r, chunks[0]), Feed(o.reader, chunks[1..]).value.deliveries);
    }
  }

  lemma NoMessages()
    ensures Messages([]) == []
  {
  }

  lemma MessagesThen(first: seq<Delivery>, later: seq<Delivery>)
    ensures Messages(first + later) == Messages(first) + Messages(later)
    ensures |first| == 1 ==> Messages(first) == [first[0].message]
    ensures first == [] ==> Messages(first + later) == Messages(later)
  {
    assert first == [] ==> first + later == later;
  }
}

/**
  * RTMP's chunk stream: how messages are cut up to go on the wire, and how the
  * pieces are put back together (sections 5.3.1 and 5.4 of Adobe's RTMP
  * specification 1.0).
  *
  * `ReadChunk` and `Write` say what one step does to the state of a connection;
  * the classes `Reader` and `Writer` do it in place and are proved to agree.
  */
module Chunk {
  import opened Wrappers
  import opened Bytes

  const DEFAULT_CHUNK_SIZE := 128
  const MAX_CHUNK_SIZE := 0xff_ffff
  const MAX_MESSAGE_LENGTH := 0xff_ffff
  const MAX_ASSEMBLED_LENGTH := 8 * 1024 * 1024
  const MAX_CHUNK_STREAMS := 64
  const EXTENDED_TIMESTAMP := 0xff_ffff

  datatype MessageType =
    | SetChunkSize | Abort | Acknowledgement | UserControl | WindowAckSize | SetPeerBandwidth
    | Audio | Video | Amf3Data | Amf3Command | Amf0Data | Amf0Command | Aggregate
    | Other(id: byte)
  {
    function Id(): byte {
      match this
      case SetChunkSize => 1
      case Abort => 2
      case Acknowledgement => 3
      case UserControl => 4
      case WindowAckSize => 5
      case SetPeerBandwidth => 6
      case Audio => 8
      case Video => 9
      case Amf3Data => 15
      case Amf3Command => 17
      case Amf0Data => 18
      case Amf0Command => 20
      case Aggregate => 22
      case Other(id) => id
    }

    /** Whether this is the name reading its own type id gives. `Other(9)`, say, is not. */
    predicate Canonical() { FromId(Id()) == this }
  }

  function FromId(id: byte): (kind: MessageType)
    ensures kind.Id() == id
  {
    if id == 1 then SetChunkSize
    else if id == 2 then Abort
    else if id == 3 then Acknowledgement
    else if id == 4 then UserControl
    else if id == 5 then WindowAckSize
    else if id == 6 then SetPeerBandwidth
    else if id == 8 then Audio
    else if id == 9 then Video
    else if id == 15 then Amf3Data
    else if id == 17 then Amf3Command
    else if id == 18 then Amf0Data
    else if id == 20 then Amf0Command
    else if id == 22 then Aggregate
    else Other(id)
  }

  datatype Message = Message(timestamp: u32, kind: MessageType, streamId: u32, payload: seq<byte>)

  type ChunkStreamId = id: nat | 2 <= id <= 65_599 witness 2

  datatype ChunkError =
    | NothingToInherit(csid: nat, fmt: nat)
    | Interleaved(csid: nat, pending: nat)
    | MessageTooLong(length: nat, limit: nat)
    | TooManyChunkStreams
    | InvalidChunkSize(size: nat)
    | MalformedControl(kind: MessageType, length: nat)

  /** The fields a chunk stream carries forward from one chunk to the next. */
  datatype State = State(timestamp: u32, delta: u32, length: nat, kind: MessageType, streamId: u32, extended: bool)

  datatype ChunkStream = ChunkStream(state: State, payload: seq<byte>) {
    /** A message is either not begun or not finished, and never one too long to assemble. */
    predicate Valid() {
      && (payload == [] || |payload| < state.length)
      && state.length <= MAX_ASSEMBLED_LENGTH
    }
  }

  // ---------------------------------------------------------------- basic header

  datatype BasicHeader = BasicHeader(fmt: nat, csid: nat)

  function ReadBasicHeader(data: seq<byte>): (r: Option<(BasicHeader, seq<byte>)>)
    ensures r.Some? ==> r.value.0.fmt <= 3 && |r.value.1| < |data|
  {
    if data == [] then None
    else
      var fmt, low := data[0] / 64, data[0] % 64;
      if low == 0 then
        if |data| < 2 then None else Some((BasicHeader(fmt, data[1] as int + 64), data[2..]))
      else if low == 1 then
        if |data| < 3 then None else Some((BasicHeader(fmt, data[1] as int + 256 * data[2] as int + 64), data[3..]))
      else Some((BasicHeader(fmt, low), data[1..]))
  }

  function PutBasicHeader(fmt: nat, csid: ChunkStreamId): (r: seq<byte>)
    requires fmt <= 3
    ensures 1 <= |r| <= 3
  {
    if csid <= 63 then [fmt * 64 + csid]
    else if csid <= 319 then [fmt * 64, csid - 64]
    else [fmt * 64 + 1, (csid - 64) % 256, (csid - 64) / 256]
  }

  /** A basic header reads back as what it was written from, leaving exactly what follows it. */
  lemma BasicHeaderReads(fmt: nat, csid: ChunkStreamId, rest: seq<byte>)
    requires fmt <= 3
    ensures ReadBasicHeader(PutBasicHeader(fmt, csid) + rest) == Some((BasicHeader(fmt, csid), rest))
  {
    var h := PutBasicHeader(fmt, csid);
    assert (h + rest)[|h|..] == rest;
  }

  /** No header naming a chunk stream is shorter than the one the writer puts. */
  lemma BasicHeaderIsShortest(data: seq<byte>, csid: ChunkStreamId)
    requires ReadBasicHeader(data).Some? && ReadBasicHeader(data).value.0.csid == csid
    ensures |data| - |ReadBasicHeader(data).value.1| >= |PutBasicHeader(3, csid)|
  {
  }

  // ---------------------------------------------------------------- reading

  datatype ReaderState = ReaderState(streams: map<nat, ChunkStream>, chunkSize: nat) {
    predicate Valid() {
      && |streams| <= MAX_CHUNK_STREAMS
      && 1 <= chunkSize <= MAX_CHUNK_SIZE
      && forall c <- streams :: streams[c].Valid()
    }

    function Previous(csid: nat): Option<State> {
      if csid in streams then Some(streams[csid].state) else None
    }

    function Payload(csid: nat): seq<byte> {
      if csid in streams then streams[csid].payload else []
    }
  }

  datatype Verdict = Complete(message: Message) | Absorbed | NeedMore | Failed(error: ChunkError)

  datatype Outcome = Outcome(reader: ReaderState, rest: seq<byte>, verdict: Verdict)

  /** What the format and the chunk stream alone are enough to refuse. */
  function Refusal(r: ReaderState, h: BasicHeader): Option<ChunkError> {
    if h.csid !in r.streams then
      if h.fmt != 0 then Some(NothingToInherit(h.csid, h.fmt))
      else if |r.streams| >= MAX_CHUNK_STREAMS then Some(TooManyChunkStreams)
      else None
    else if h.fmt != 3 && r.streams[h.csid].payload != [] then
      Some(Interleaved(h.csid, |r.streams[h.csid].payload|))
    else None
  }

  /** The timestamp field's value, which is in the four bytes after the header when the field is full. */
  function ReadTime(written: u32, data: seq<byte>): (r: Option<(u32, seq<byte>)>)
    ensures r.Some? ==> |r.value.1| <= |data|
  {
    if written == EXTENDED_TIMESTAMP then
      Widths();
      var (value, rest) :- TakeNumber(data, 4);
      Some((value, rest))
    else Some((written, data))
  }

  function WrappingAdd(a: u32, b: u32): u32 { (a + b) % 0x1_0000_0000 }

  /** Format 0: everything is stated, and the timestamp is absolute. */
  function ReadFull(data: seq<byte>): (r: Option<(State, seq<byte>)>)
    ensures r.Some? ==> |r.value.1| <= |data|
  {
    Widths();
    var (written, data1) :- TakeNumber(data, 3);
    var (length, data2) :- TakeNumber(data1, 3);
    var (kind, data3) :- TakeNumber(data2, 1);
    var (stream, data4) :- Take(data3, 4);
    var (timestamp, data5) :- ReadTime(written, data4);
    Some((State(timestamp, 0, length, FromId(kind), FromLittleEndian(stream), written == EXTENDED_TIMESTAMP), data5))
  }

  /** Formats 1 and 2: the timestamp is a step from the last one, and what is missing is inherited. */
  function ReadDelta(fmt: nat, previous: State, data: seq<byte>): (r: Option<(State, seq<byte>)>)
    ensures r.Some? ==> |r.value.1| <= |data|
  {
    Widths();
    var (written, data1) :- TakeNumber(data, 3);
    var (length, data2) :- if fmt == 1 then TakeNumber(data1, 3) else Some((previous.length, data1));
    var (kind, data3) :- if fmt == 1 then TakeNumber(data2, 1) else Some((previous.kind.Id(), data2));
    var (delta, data4) :- ReadTime(written, data3);
    Some((State(WrappingAdd(previous.timestamp, delta), delta, length,
                if fmt == 1 then FromId(kind) else previous.kind, previous.streamId,
                written == EXTENDED_TIMESTAMP), data4))
  }

  /** Format 3: everything is inherited, and a repeated extended timestamp is read past. */
  function ReadNothing(previous: State, pending: bool, data: seq<byte>): (r: Option<(State, seq<byte>)>)
    ensures r.Some? ==> |r.value.1| <= |data|
    ensures r.Some? ==> r.value.0.length == previous.length
  {
    var (_, rest) :- if previous.extended then Take(data, 4) else Some(([], data));
    Some((if pending then previous
          else previous.(timestamp := WrappingAdd(previous.timestamp, previous.delta)), rest))
  }

  function ReadState(fmt: nat, previous: Option<State>, pending: bool, data: seq<byte>): (r: Option<(State, seq<byte>)>)
    requires fmt != 0 ==> previous.Some?
    ensures r.Some? ==> |r.value.1| <= |data|
    ensures r.Some? && fmt > 2 ==> r.value.0.length == previous.value.length
  {
    if fmt == 0 then ReadFull(data)
    else if fmt <= 2 then ReadDelta(fmt, previous.value, data)
    else ReadNothing(previous.value, pending, data)
  }

  /** One chunk off the front of `buf`, or nothing at all when it is not all there. */
  function ReadChunk(r: ReaderState, buf: seq<byte>): (o: Outcome)
    requires r.Valid()
    ensures o.reader.Valid()
    ensures o.verdict.NeedMore? ==> o.reader == r && o.rest == buf
    ensures o.verdict.Complete? || o.verdict.Absorbed? ==> |o.rest| < |buf|
  {
    match ReadBasicHeader(buf)
    case None => Outcome(r, buf, NeedMore)
    case Some((header, data)) =>
      match Refusal(r, header)
      case Some(error) => Outcome(r, buf, Failed(error))
      case None =>
        match ReadState(header.fmt, r.Previous(header.csid), r.Payload(header.csid) != [], data)
        case None => Outcome(r, buf, NeedMore)
        case Some((state, body)) => ReadBody(r, buf, header.csid, state, body)
  }

  /** The chunk's payload, once its header has been read. */
  function ReadBody(r: ReaderState, buf: seq<byte>, csid: nat, state: State, body: seq<byte>): (o: Outcome)
    requires r.Valid()
    requires csid in r.streams || |r.streams| < MAX_CHUNK_STREAMS
    ensures o.reader.Valid()
    ensures o.verdict.NeedMore? ==> o.reader == r && o.rest == buf
    ensures o.verdict.Complete? || o.verdict.Absorbed? ==> |o.rest| <= |body|
    requires r.Payload(csid) == [] || |r.Payload(csid)| < state.length
  {
    if state.length > MAX_ASSEMBLED_LENGTH then
      Outcome(r, buf, Failed(MessageTooLong(state.length, MAX_ASSEMBLED_LENGTH)))
    else
      match Take(body, Wanted(r, csid, state))
      case None => Outcome(r, buf, NeedMore)
      case Some((chunk, rest)) =>
        var payload := r.Payload(csid) + chunk;
        if |payload| < state.length then
          Outcome(r.(streams := r.streams[csid := ChunkStream(state, payload)]), rest, Absorbed)
        else
          var message := Message(state.timestamp, state.kind, state.streamId, payload);
          var r' := r.(streams := r.streams[csid := ChunkStream(state, [])]);
          match Apply(r', message)
          case Ok(applied) => Outcome(applied, rest, Complete(message))
          case Err(error) => Outcome(r', rest, Failed(error))
  }

  function Wanted(r: ReaderState, csid: nat, state: State): nat
    requires r.Payload(csid) == [] || |r.Payload(csid)| < state.length
  {
    Min(state.length - |r.Payload(csid)|, r.chunkSize)
  }

  /** The single big-endian number that a protocol control message's payload is. */
  function ControlNumber(message: Message): (n: Result<u32, ChunkError>)
    ensures n.Ok? <==> |message.payload| == 4
  {
    Widths();
    if |message.payload| == 4 then Ok(FromBigEndian(message.payload))
    else Err(MalformedControl(message.kind, |message.payload|))
  }

  /** The chunk size a `SetChunkSize` message states, its reserved top bit masked off. */
  function StatedChunkSize(message: Message): Result<nat, ChunkError> {
    var value :- ControlNumber(message);
    var size := value % 0x8000_0000;
    if size == 0 || size > MAX_CHUNK_SIZE then Err(InvalidChunkSize(size)) else Ok(size)
  }

  /** What the messages that describe the chunk stream itself do to it. */
  function Apply(r: ReaderState, message: Message): (a: Result<ReaderState, ChunkError>)
    ensures r.Valid() && a.Ok? ==> a.value.Valid()
  {
    match message.kind
    case SetChunkSize =>
      var size :- StatedChunkSize(message);
      Ok(r.(chunkSize := size))
    case Abort =>
      var csid :- ControlNumber(message);
      Ok(if csid in r.streams then r.(streams := r.streams[csid := r.streams[csid].(payload := [])]) else r)
    case _ => Ok(r)
  }

  const FreshReader := ReaderState(map[], DEFAULT_CHUNK_SIZE)

  /** Everything `read` gives when it is called until it has no more to give. */
  datatype Reading = Reading(reader: ReaderState, rest: seq<byte>, messages: seq<Message>, error: Option<ChunkError>) {
    function Prepend(before: seq<Message>): Reading { this.(messages := before + messages) }
  }

  function ReadAll(r: ReaderState, buf: seq<byte>): (reading: Reading)
    requires r.Valid()
    ensures reading.reader.Valid()
    decreases |buf|
  {
    var o := ReadChunk(r, buf);
    match o.verdict
    case NeedMore => Reading(o.reader, o.rest, [], None)
    case Failed(error) => Reading(o.reader, o.rest, [], Some(error))
    case Absorbed => ReadAll(o.reader, o.rest)
    case Complete(message) => ReadAll(o.reader, o.rest).Prepend([message])
  }

  // ---------------------------------------------------------------- writing

  datatype WriterState = WriterState(streams: map<nat, State>, chunkSize: nat) {
    predicate Valid() { 1 <= chunkSize <= MAX_CHUNK_SIZE }

    function Previous(csid: nat): Option<State> {
      if csid in streams then Some(streams[csid]) else None
    }
  }

  const FreshWriter := WriterState(map[], DEFAULT_CHUNK_SIZE)

  /** The header format that says enough, and the time that goes in it: absolute in format 0, a step otherwise. */
  function Plan(previous: Option<State>, message: Message): (plan: (nat, u32))
    ensures plan.0 <= 3
  {
    if previous.Some? && previous.value.streamId == message.streamId
       && message.timestamp >= previous.value.timestamp then
      var delta := message.timestamp - previous.value.timestamp;
      if previous.value.length != |message.payload| || previous.value.kind != message.kind then (1, delta)
      else if previous.value.delta != delta then (2, delta)
      else (3, delta)
    else (0, message.timestamp)
  }

  function Field(written: u32): u32 {
    if written >= EXTENDED_TIMESTAMP then EXTENDED_TIMESTAMP else written
  }

  function Extension(written: u32): seq<byte> {
    if written >= EXTENDED_TIMESTAMP then BigEndian(written, 4) else []
  }

  /** What follows the basic header: less and less as the format goes up. */
  function Fields(fmt: nat, written: u32, message: Message): seq<byte> {
    (if fmt <= 2 then BigEndian(Field(written), 3) else [])
    + (if fmt <= 1 then BigEndian(|message.payload|, 3) + [message.kind.Id()] else [])
    + (if fmt == 0 then LittleEndian(message.streamId, 4) else [])
    + Extension(written)
  }

  function FirstHeader(fmt: nat, written: u32, csid: ChunkStreamId, message: Message): seq<byte>
    requires fmt <= 3
  {
    PutBasicHeader(fmt, csid) + Fields(fmt, written, message)
  }

  /** A payload in pieces of at most `size` bytes with `mark` between them. */
  function Cut(payload: seq<byte>, size: nat, mark: seq<byte>): seq<byte>
    requires size > 0
  {
    if |payload| <= size then payload
    else payload[..size] + mark + Cut(payload[size..], size, mark)
  }

  /** What a continuation says: which chunk stream it is on, and the extended timestamp again. */
  function Mark(csid: ChunkStreamId, written: u32): seq<byte> {
    PutBasicHeader(3, csid) + Extension(written)
  }

  /** The bytes a message goes out as. */
  function Wire(w: WriterState, csid: ChunkStreamId, message: Message): seq<byte>
    requires w.Valid()
  {
    var (fmt, written) := Plan(w.Previous(csid), message);
    FirstHeader(fmt, written, csid, message) + Cut(message.payload, w.chunkSize, Mark(csid, written))
  }

  /** What the chunk stream carries forward after a message. */
  function Carried(previous: Option<State>, message: Message): State {
    var (fmt, written) := Plan(previous, message);
    State(message.timestamp, if fmt == 0 then 0 else written, |message.payload|, message.kind, message.streamId,
          written >= EXTENDED_TIMESTAMP)
  }

  function Written(w: WriterState, csid: ChunkStreamId, message: Message): WriterState {
    w.(streams := w.streams[csid := Carried(w.Previous(csid), message)])
  }

  // ---------------------------------------------------------------- in place

  class Reader {
    var streams: map<nat, ChunkStream>
    var chunkSize: nat

    ghost function State(): ReaderState
      reads this
    {
      ReaderState(streams, chunkSize)
    }

    constructor ()
      ensures State() == FreshReader == ReaderState(map[], 128) && State().Valid()
    {
      streams := map[];
      chunkSize := DEFAULT_CHUNK_SIZE;
    }

    /** Takes one chunk in, consuming it from `buf` only if it is all there. */
    method ReadOne(buf: Buffer) returns (verdict: Verdict)
      requires State().Valid()
      modifies this, buf
      ensures Outcome(State(), buf.data, verdict) == ReadChunk(old(State()), old(buf.data))
    {
      hide ReadState, ReadBasicHeader, Apply, ReadBody, EndOf;
      var data := buf.data;
      var basic := ReadBasicHeader(data);
      if basic.None? {
        return NeedMore;
      }
      var (header, fields) := basic.value;
      var csid := header.csid;
      ghost var before := State();
      if csid !in streams {
        if header.fmt != 0 {
          return Failed(NothingToInherit(csid, header.fmt));
        }
        if |streams| >= MAX_CHUNK_STREAMS {
          return Failed(TooManyChunkStreams);
        }
      } else if header.fmt != 3 && streams[csid].payload != [] {
        return Failed(Interleaved(csid, |streams[csid].payload|));
      }
      var previous := if csid in streams then Some(streams[csid].state) else None;
      var have := if csid in streams then |streams[csid].payload| else 0;
      var read := ReadState(header.fmt, previous, have > 0, fields);
      assert (have > 0) == (before.Payload(csid) != []);
      if read.None? {
        return NeedMore;
      }
      var (state, body) := read.value;
      BodyNotTaken(before, data, csid, state, body);
      if state.length > MAX_ASSEMBLED_LENGTH {
        return Failed(MessageTooLong(state.length, MAX_ASSEMBLED_LENGTH));
      }
      var pos := |data| - |body|;
      var wanted := Min(state.length - have, chunkSize);
      if |data| < pos + wanted {
        return NeedMore;
      }
      ReadStateDrops(header.fmt, previous, have > 0, fields);
      ReadBasicHeaderDrops(data);
      EndOfEnd(body, fields, data);
      assert data[pos..] == body by { EndIsWhatIsLeft(body, data); }
      buf.Advance(pos);
      var chunk := buf.SplitTo(wanted);
      verdict := Absorb(csid, state, chunk);
    }

    /** Adds a chunk's bytes to the message they belong to, and hands the message up when that completes it. */
    method Absorb(csid: nat, state: State, chunk: seq<byte>) returns (verdict: Verdict)
      requires State().Valid()
      requires state.length <= MAX_ASSEMBLED_LENGTH
      requires csid in streams || |streams| < MAX_CHUNK_STREAMS
      requires State().Payload(csid) == [] || |State().Payload(csid)| < state.length
      requires |chunk| == Wanted(State(), csid, state)
      modifies this
      ensures forall buf, rest ::
        Take(rest, |chunk|).Some? && Take(rest, |chunk|).value.0 == chunk ==>
          Outcome(State(), Take(rest, |chunk|).value.1, verdict) == ReadBody(old(State()), buf, csid, state, rest)
    {
      ghost var before := State();
      var payload := (if csid in streams then streams[csid].payload else []) + chunk;
      assert payload == before.Payload(csid) + chunk;
      if |payload| < state.length {
        streams := streams[csid := ChunkStream(state, payload)];
        return Absorbed;
      }
      streams := streams[csid := ChunkStream(state, [])];
      var message := Message(state.timestamp, state.kind, state.streamId, payload);
      var error := Act(message);
      verdict := if error.Some? then Failed(error.value) else Complete(message);
    }

    /** Takes the next whole message out of `buf`, if there is one there. */
    method Read(buf: Buffer) returns (r: Result<Option<Message>, ChunkError>)
      requires State().Valid()
      modifies this, buf
      ensures State().Valid()
      ensures r.Err? ==> ReadAll(old(State()), old(buf.data)) == Reading(State(), buf.data, [], Some(r.error))
      ensures r.Ok? && r.value.None? ==> ReadAll(old(State()), old(buf.data)) == Reading(State(), buf.data, [], None)
      ensures r.Ok? && r.value.Some? ==>
        && |buf.data| < |old(buf.data)|
        && ReadAll(old(State()), old(buf.data)) == ReadAll(State(), buf.data).Prepend([r.value.value])
    {
      ghost var whole := ReadAll(State(), buf.data);
      while true
        invariant State().Valid() && |buf.data| <= |old(buf.data)|
        invariant ReadAll(State(), buf.data) == whole
        decreases |buf.data|
      {
        var verdict := ReadOne(buf);
        match verdict
        case Complete(message) => return Ok(Some(message));
        case NeedMore => return Ok(None);
        case Failed(error) => return Err(error);
        case Absorbed =>
      }
    }

    /** Calls `Read` until it has nothing more to give, as a connection does after every read of its socket. */
    method Drain(buf: Buffer) returns (messages: seq<Message>, error: Option<ChunkError>)
      requires State().Valid()
      modifies this, buf
      ensures Reading(State(), buf.data, messages, error) == ReadAll(old(State()), old(buf.data))
    {
      hide ReadAll;
      ghost var whole := ReadAll(State(), buf.data);
      messages := [];
      while true
        invariant State().Valid()
        invariant ReadAll(State(), buf.data).Prepend(messages) == whole
        decreases |buf.data|
      {
        var next := Read(buf);
        if next.Err? {
          return messages, Some(next.error);
        }
        if next.value.None? {
          return messages, None;
        }
        messages := messages + [next.value.value];
      }
    }

    /** Acts on the messages that describe the chunk stream itself. */
    method Act(message: Message) returns (error: Option<ChunkError>)
      modifies this
      ensures error.Some? ==> Apply(old(State()), message) == Err(error.value) && State() == old(State())
      ensures error.None? ==> Apply(old(State()), message) == Ok(State())
    {
      match message.kind
      case SetChunkSize =>
        var size := StatedChunkSize(message);
        if size.Err? {
          return Some(size.error);
        }
        chunkSize := size.value;
        return None;
      case Abort =>
        var csid := ControlNumber(message);
        if csid.Err? {
          return Some(csid.error);
        }
        if csid.value in streams {
          streams := streams[csid.value := streams[csid.value].(payload := [])];
        }
        return None;
      case _ =>
        return None;
    }
  }

  /** When a chunk's payload is refused, and when there is not enough of it. */
  lemma BodyNotTaken(r: ReaderState, buf: seq<byte>, csid: nat, state: State, body: seq<byte>)
    requires r.Valid()
    requires csid in r.streams || |r.streams| < MAX_CHUNK_STREAMS
    requires r.Payload(csid) == [] || |r.Payload(csid)| < state.length
    ensures state.length > MAX_ASSEMBLED_LENGTH ==>
      ReadBody(r, buf, csid, state, body)
      == Outcome(r, buf, Failed(MessageTooLong(state.length, MAX_ASSEMBLED_LENGTH)))
    ensures state.length <= MAX_ASSEMBLED_LENGTH && |body| < Wanted(r, csid, state) ==>
      ReadBody(r, buf, csid, state, body) == Outcome(r, buf, NeedMore)
  {
    hide Apply;
  }

  /** What is left is an end of what there was. */
  predicate EndOf(rest: seq<byte>, data: seq<byte>) { |rest| <= |data| && data[|data| - |rest|..] == rest }

  lemma EndIsWhatIsLeft(rest: seq<byte>, data: seq<byte>)
    requires EndOf(rest, data)
    ensures |rest| <= |data| && data[|data| - |rest|..] == rest
  {
  }

  lemma EndOfEnd(rest: seq<byte>, middle: seq<byte>, data: seq<byte>)
    requires EndOf(rest, middle) && EndOf(middle, data)
    ensures EndOf(rest, data)
  {
    DropDrop(data, |data| - |middle|, |middle| - |rest|);
  }

  lemma TakeLeavesEnd(data: seq<byte>, count: nat)
    requires count <= |data|
    ensures EndOf(Take(data, count).value.1, data)
  {
  }

  lemma TimeLeavesEnd(written: u32, data: seq<byte>)
    requires ReadTime(written, data).Some?
    ensures EndOf(ReadTime(written, data).value.1, data)
  {
    if written == EXTENDED_TIMESTAMP {
      TakeLeavesEnd(data, 4);
    }
  }

  /** The fields of a header, `size` bytes of them before the timestamp's extension. */
  lemma FieldsLeaveEnd(data: seq<byte>, size: nat, written: u32)
    requires size <= |data| && ReadTime(written, data[size..]).Some?
    ensures EndOf(ReadTime(written, data[size..]).value.1, data)
  {
    TimeLeavesEnd(written, data[size..]);
    EndOfEnd(ReadTime(written, data[size..]).value.1, data[size..], data);
  }

  lemma ReadStateDrops(fmt: nat, previous: Option<State>, pending: bool, data: seq<byte>)
    requires fmt != 0 ==> previous.Some?
    requires ReadState(fmt, previous, pending, data).Some?
    ensures EndOf(ReadState(fmt, previous, pending, data).value.1, data)
  {
    hide EndOf, FromBigEndian, FromLittleEndian, ReadTime;
    Widths();
    if fmt == 0 {
      DropDrop(data, 3, 3);
      DropDrop(data, 6, 1);
      DropDrop(data, 7, 4);
      FieldsLeaveEnd(data, 11, TakeNumber(data, 3).value.0);
    } else if fmt == 1 {
      DropDrop(data, 3, 3);
      DropDrop(data, 6, 1);
      FieldsLeaveEnd(data, 7, TakeNumber(data, 3).value.0);
    } else if fmt == 2 {
      FieldsLeaveEnd(data, 3, TakeNumber(data, 3).value.0);
    } else if previous.value.extended {
      TakeLeavesEnd(data, 4);
    } else {
      assert EndOf(data, data) by { WholeIsEnd(data); }
    }
  }

  lemma WholeIsEnd(data: seq<byte>)
    ensures EndOf(data, data)
  {
  }

  lemma ReadBasicHeaderDrops(data: seq<byte>)
    requires ReadBasicHeader(data).Some?
    ensures EndOf(ReadBasicHeader(data).value.1, data)
  {
  }

  class Writer {
    var streams: map<nat, State>
    var chunkSize: nat

    ghost function State(): WriterState
      reads this
    {
      WriterState(streams, chunkSize)
    }

    constructor ()
      ensures State() == FreshWriter == WriterState(map[], 128) && State().Valid()
    {
      streams := map[];
      chunkSize := DEFAULT_CHUNK_SIZE;
    }

    method SetChunkSize(size: nat) returns (r: Result<(), ChunkError>)
      modifies this
      ensures r.Ok? <==> 1 <= size <= 0xff_ffff
      ensures r.Ok? ==> State() == old(State()).(chunkSize := size)
      ensures r.Err? ==> State() == old(State()) && r.error == InvalidChunkSize(Min(size, 0xffff_ffff))
    {
      if size == 0 || size > MAX_CHUNK_SIZE {
        return Err(InvalidChunkSize(Min(size, 0xffff_ffff)));
      }
      chunkSize := size;
      return Ok(());
    }

    /** Appends a message to `out`, leaving out whatever its chunk stream already said. */
    method Write(out: Buffer, csid: ChunkStreamId, message: Message) returns (r: Result<(), ChunkError>)
      requires State().Valid()
      modifies this, out
      ensures r.Ok? <==> |message.payload| <= 0xff_ffff
      ensures r.Ok? ==> out.data == old(out.data) + Wire(old(State()), csid, message)
      ensures r.Ok? ==> State() == Written(old(State()), csid, message)
      ensures r.Err? ==> State() == old(State()) && out.data == old(out.data)
      ensures r.Err? ==> r.error == MessageTooLong(|message.payload|, 0xff_ffff)
    {
      var length := |message.payload|;
      if length > MAX_MESSAGE_LENGTH {
        return Err(MessageTooLong(length, MAX_MESSAGE_LENGTH));
      }
      var previous := if csid in streams then Some(streams[csid]) else None;
      var (fmt, written) := Plan(previous, message);
      var header := FirstHeader(fmt, written, csid, message);
      out.Put(header);
      PutPieces(out, message.payload, Mark(csid, written));
      Associative(old(out.data), header, Cut(message.payload, chunkSize, Mark(csid, written)));
      streams := streams[csid := Carried(previous, message)];
      return Ok(());
    }

    method PutPieces(out: Buffer, payload: seq<byte>, mark: seq<byte>)
      requires State().Valid()
      modifies out
      ensures out.data == old(out.data) + Cut(payload, chunkSize, mark)
    {
      var offset := 0;
      ghost var start, whole := out.data, Cut(payload, chunkSize, mark);
      ghost var done, left := [], whole;
      assert payload[0..] == payload;
      while true
        invariant 0 <= offset <= |payload|
        invariant left == Cut(payload[offset..], chunkSize, mark)
        invariant out.data == start + done && done + left == whole
        decreases |payload| - offset
      {
        var take := Min(|payload| - offset, chunkSize);
        CutOnce(payload, offset, take, chunkSize, mark);
        ghost var piece := payload[offset..offset + take];
        out.Put(payload[offset..offset + take]);
        offset := offset + take;
        Associative(start, done, piece);
        if offset >= |payload| {
          assert left == piece + [] == piece;
          break;
        }
        out.Put(mark);
        ghost var after := Cut(payload[offset..], chunkSize, mark);
        Associative(start, done + piece, mark);
        Associative(done, piece, mark + after);
        Associative(done + piece, mark, after);
        done, left := done + piece + mark, after;
      }
    }
  }

  lemma CutOnce(payload: seq<byte>, offset: nat, take: nat, size: nat, mark: seq<byte>)
    requires size > 0 && offset <= |payload| && take == Min(|payload| - offset, size)
    ensures Cut(payload[offset..], size, mark)
         == payload[offset..offset + take]
            + (if offset + take >= |payload| then [] else mark + Cut(payload[offset + take..], size, mark))
  {
    var left := payload[offset..];
    assert left[..take] == payload[offset..offset + take];
    assert left[take..] == payload[offset + take..];
  }
}

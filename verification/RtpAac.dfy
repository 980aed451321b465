/** AAC in RTP, in RFC 3640's `AAC-hbr` mode: one access unit to a packet, or several packets to one too large. */
module RtpAac {
  import opened Wrappers
  import opened Bytes
  import opened Rtp
  import opened RtpHeader

  const PREFIX := 4

  /** Two to the thirteenth, less one: as much as an AU header's size can say. */
  const MAX_ACCESS_UNIT := 8191

  /** One 16-bit AU header, whose thirteen high bits are the size of the whole access unit. */
  function AuHeader(length: nat): seq<byte>
    requires length <= MAX_ACCESS_UNIT
  {
    [0x00, 0x10, length / 32, length % 32 * 8]
  }

  /** An access unit in pieces, every one behind the same header and only the last marked. */
  function Pieces(header: seq<byte>, frame: seq<byte>, room: nat): (r: seq<Part>)
    requires room > 0
    ensures r != []
    decreases |frame|
  {
    if |frame| <= room then [Part(true, header + frame)]
    else [Part(false, header + frame[..room])] + Pieces(header, frame[room..], room)
  }

  function FrameParts(frame: seq<byte>, budget: nat): seq<Part>
    requires budget > PREFIX && |frame| <= MAX_ACCESS_UNIT
  {
    Pieces(AuHeader(|frame|), frame, budget - PREFIX)
  }

  /**
    * A frame's packets or its refusal, by the arithmetic that finds them, or nothing where that stops. A frame
    * too long for its size field is refused before there is any.
    */
  function FramePacketized(s: Stream, frame: seq<byte>, nanos: nat): Option<Result<seq<seq<byte>>, RtpError>>
    requires s.Valid()
  {
    if |frame| > MAX_ACCESS_UNIT then Some(Err(AccessUnitTooLong(|frame|, MAX_ACCESS_UNIT)))
    else
      var room :- Less(s.Budget(), PREFIX);
      var pieces :- PiecesOf(|frame|, room);
      Some(Ok(Numbered(s, s.Timestamp(nanos), Pieces(AuHeader(|frame|), frame, room))))
  }

  /** Packetizing a frame comes to an end exactly when it is too long, or packets are of at least 17 bytes. */
  lemma FramePacketizesExactly(s: Stream, frame: seq<byte>, nanos: nat)
    requires s.Valid()
    ensures FramePacketized(s, frame, nanos).Some? <==> |frame| > MAX_ACCESS_UNIT || s.mtu >= 17
    ensures |frame| <= MAX_ACCESS_UNIT && s.mtu >= 17 ==>
      FramePacketized(s, frame, nanos) == Some(Ok(Numbered(s, s.Timestamp(nanos), FrameParts(frame, s.Budget()))))
  {
    hide Numbered, Pieces;
  }

  lemma TooLongIsRefused(s: Stream, frame: seq<byte>, nanos: nat)
    requires s.Valid()
    ensures |frame| > MAX_ACCESS_UNIT <==>
      FramePacketized(s, frame, nanos) == Some(Err(AccessUnitTooLong(|frame|, MAX_ACCESS_UNIT)))
  {
    hide Numbered, Pieces;
  }

  /** Sixteen bytes are enough for a stream to be made, and not enough for a frame with nothing in it. */
  lemma SixteenIsTooSmall(s: Stream)
    ensures s.WithMtu(16) == Ok(s.(mtu := 16)) && FramePacketized(s.(mtu := 16), [], 0) == None
  {
  }

  class AacPacketizer {
    var stream: Stream

    constructor (stream: Stream)
      ensures this.stream == stream
    {
      this.stream := stream;
    }

    /** Cuts one access unit into packets, or refuses one too long for its size field. */
    method Packetize(frame: seq<byte>, nanos: nat) returns (r: Option<Result<seq<seq<byte>>, RtpError>>)
      requires stream.Valid()
      modifies this
      ensures r == FramePacketized(old(stream), frame, nanos)
      ensures r.Some? ==> stream == After(old(stream), if r.value.Ok? then |r.value.value| else 0)
    {
      hide Numbered, After, Pieces, WriteHeader, DivideUp;
      AfterNone(stream);
      if |frame| > MAX_ACCESS_UNIT {
        return Some(Err(AccessUnitTooLong(|frame|, MAX_ACCESS_UNIT)));
      }
      var timestamp := stream.Timestamp(nanos);
      var header := AuHeader(|frame|);
      var room :- Less(stream.Budget(), PREFIX);
      var counted :- PiecesOf(|frame|, room);
      var packets := Cut(header, frame, timestamp, room, if counted > 1 then counted else 1);
      return Some(Ok(packets));
    }

    method Cut(header: seq<byte>, frame: seq<byte>, timestamp: u32, room: nat, pieces: nat)
      returns (packets: seq<seq<byte>>)
      requires room > 0 && pieces == (if DivideUp(|frame|, room) > 1 then DivideUp(|frame|, room) else 1)
      modifies this
      ensures packets == Numbered(old(stream), timestamp, Pieces(header, frame, room))
      ensures stream == After(old(stream), |packets|)
    {
      hide Numbered, After, Pieces, WriteHeader, DivideUp;
      ghost var s, whole, done := stream, Pieces(header, frame, room), [];
      packets := [];
      AfterNone(s);
      NumberedNone(s, timestamp);
      assert frame[0..] == frame && [] + whole == whole;
      for index := 0 to pieces
        invariant packets == Numbered(s, timestamp, done) && stream == After(s, |done|)
        invariant index < pieces ==> index * room <= |frame|
        invariant if index < pieces then done + Pieces(header, frame[index * room..], room) == whole else done == whole
      {
        var start := index * room;
        var end := Min(start + room, |frame|);
        var last := index + 1 == pieces;
        PieceAt(header, frame, room, index, pieces);
        ghost var part := Part(last, header + frame[start..end]);
        var packet := WriteHeader(stream.Stamp(last, timestamp)) + (header + frame[start..end]);
        stream := stream.Next();
        NumberedOne(After(s, |done|), timestamp, part);
        NumberedAppend(s, timestamp, done, [part]);
        AfterAfter(s, |done|, 1);
        packets := packets + [packet];
        if !last {
          Associative(done, [part], Pieces(header, frame[start + room..], room));
        }
        done := done + [part];
      }
    }
  }

  /** The piece at a place: what it carries, whether it is the last, and what is left after it. */
  lemma PieceAt(header: seq<byte>, frame: seq<byte>, room: nat, index: nat, pieces: nat)
    requires room > 0 && index < pieces && index * room <= |frame|
    requires pieces == (if DivideUp(|frame|, room) > 1 then DivideUp(|frame|, room) else 1)
    ensures var start, last := index * room, index + 1 == pieces;
            var part := Part(last, header + frame[start..Min(start + room, |frame|)]);
            && (index + 1) * room == start + room
            && (!last ==> start + room <= |frame|)
            && Pieces(header, frame[start..], room)
               == if last then [part] else [part] + Pieces(header, frame[start + room..], room)
  {
    hide Pieces, DivideUp;
    var start := index * room;
    EmptyIsOnePiece(|frame|, room);
    if start < |frame| {
      LastPiece(|frame|, room, index);
    } else {
      MultiplyOrder(1, index, room);
      PastTheEnd(|frame|, room, index);
    }
    FirstPiece(header, frame, start, room);
    assert (index + 1) * room == start + room;
  }

  /** Only a frame with nothing in it has a piece that begins where it ends. */
  lemma PastTheEnd(length: nat, room: nat, index: nat)
    requires room > 0 && index * room == length
    ensures DivideUp(length, room) == index
  {
    QuotientBetween(length + room - 1, room, index);
  }

  lemma EmptyIsOnePiece(length: nat, room: nat)
    requires room > 0
    ensures length <= room ==> DivideUp(length, room) <= 1
    ensures length > room ==> DivideUp(length, room) > 1
  {
    var n := length + room - 1;
    var q := n / room;
    assert q * room <= n < q * room + room;
    MultiplyOrder(2, q, room);
    MultiplyOrder(q, 1, room);
  }

  lemma FirstPiece(header: seq<byte>, frame: seq<byte>, start: nat, room: nat)
    requires room > 0 && start <= |frame|
    ensures var last := start + room >= |frame|;
            var part := Part(last, header + frame[start..Min(start + room, |frame|)]);
            Pieces(header, frame[start..], room)
              == if last then [part] else [part] + Pieces(header, frame[start + room..], room)
  {
    var left := frame[start..];
    if start + room < |frame| {
      DropDrop(frame, start, room);
      DropTake(frame, start, room);
    } else {
      assert left == frame[start..Min(start + room, |frame|)];
    }
  }

  // ---------------------------------------------------------------- the receiver

  datatype Frame = Frame(timestamp: u32, data: seq<byte>)

  /** A receiver of access units: the number it expects next, what has come of the current one, and those complete. */
  datatype Receiver = Receiver(
    source: Source,
    sequence: u16,
    timestamp: Option<u32>,
    size: nat,
    partial: seq<byte>,
    frames: seq<Frame>)

  /** A receiver that has had nothing yet of a stream. */
  function Tuned(s: Stream): Receiver { Receiver(SourceOf(s), s.sequence, None, 0, [], []) }

  /**
    * One packet. It must be the next, carry one AU header, state the size the access unit's first packet did,
    * and complete the access unit exactly when it is marked.
    */
  function Take(r: Receiver, h: Header, payload: seq<byte>): Option<Receiver> {
    if h.sequence != r.sequence || |payload| < 4 || payload[0] != 0x00 || payload[1] != 0x10 then None
    else
      var size := payload[2] as nat * 32 + payload[3] as nat / 8;
      var data := r.partial + payload[4..];
      if payload[3] % 8 != 0 then None
      else if r.timestamp.Some? && (r.timestamp.value != h.timestamp || r.size != size) then None
      else if h.marker != (|data| == size) || |data| > size then None
      else
        var next := (r.sequence + 1) % 0x1_0000;
        if h.marker then Some(Receiver(r.source, next, None, 0, [], r.frames + [Frame(h.timestamp, data)]))
        else Some(Receiver(r.source, next, Some(h.timestamp), size, data, r.frames))
  }

  function ReceiveAll(r: Receiver, packets: seq<seq<byte>>): Option<Receiver>
    decreases |packets|
  {
    if packets == [] then Some(r)
    else
      var (h, payload) :- Open(r.source, packets[0]);
      var r1 :- Take(r, h, payload);
      ReceiveAll(r1, packets[1..])
  }

  lemma {:induction false} ReceiveAppend(r: Receiver, a: seq<seq<byte>>, b: seq<seq<byte>>)
    requires ReceiveAll(r, a).Some?
    ensures ReceiveAll(r, a + b) == ReceiveAll(ReceiveAll(r, a).value, b)
    decreases |a|
  {
    hide Open, Take;
    if a == [] {
      assert a + b == b;
    } else {
      assert (a + b)[0] == a[0] && (a + b)[1..] == a[1..] + b;
      var (h, payload) := Open(r.source, a[0]).value;
      ReceiveAppend(Take(r, h, payload).value, a[1..], b);
    }
  }

  lemma OnePacket(s: Stream, timestamp: u32, r: Receiver, part: Part)
    requires r.source == SourceOf(s)
    ensures ReceiveAll(r, Numbered(s, timestamp, [part])) == Take(r, s.Stamp(part.marker, timestamp), part.payload)
  {
    hide WriteHeader, Open, Take;
    NumberedOne(s, timestamp, part);
    OpensAsMade(s, part.marker, timestamp, part.payload);
    assert Numbered(s, timestamp, [part])[1..] == [];
  }

  /** Part-way through an access unit of some size, or before one. */
  predicate Ready(r: Receiver, s: Stream, timestamp: u32, size: nat) {
    && r.source == SourceOf(s) && r.sequence == s.sequence
    && (r.timestamp.Some? ==> r.timestamp.value == timestamp && r.size == size)
  }

  lemma PieceTaken(s: Stream, timestamp: u32, r: Receiver, size: nat, piece: seq<byte>, last: bool)
    requires size <= MAX_ACCESS_UNIT && Ready(r, s, timestamp, size)
    requires |r.partial| + |piece| <= size && (last <==> |r.partial| + |piece| == size)
    ensures Take(r, s.Stamp(last, timestamp), AuHeader(size) + piece)
         == Some(if last then
                   Receiver(r.source, s.Next().sequence, None, 0, [], r.frames + [Frame(timestamp, r.partial + piece)])
                 else Receiver(r.source, s.Next().sequence, Some(timestamp), size, r.partial + piece, r.frames))
  {
    var payload := AuHeader(size) + piece;
    assert payload[4..] == piece;
  }

  lemma {:induction false} PiecesReceived(s: Stream, timestamp: u32, r: Receiver, size: nat, frame: seq<byte>,
                                          room: nat)
    requires room > 0 && size <= MAX_ACCESS_UNIT && Ready(r, s, timestamp, size)
    requires |r.partial| + |frame| == size
    ensures var parts := Pieces(AuHeader(size), frame, room);
            ReceiveAll(r, Numbered(s, timestamp, parts))
              == Some(Receiver(r.source, After(s, |parts|).sequence, None, 0, [],
                               r.frames + [Frame(timestamp, r.partial + frame)]))
    decreases |frame|
  {
    hide Take, Numbered, ReceiveAll;
    var parts := Pieces(AuHeader(size), frame, room);
    AfterAfter(s, 0, 1);
    OnePacket(s, timestamp, r, parts[0]);
    if |frame| <= room {
      PieceTaken(s, timestamp, r, size, frame, true);
    } else {
      var rest := Pieces(AuHeader(size), frame[room..], room);
      PieceTaken(s, timestamp, r, size, frame[..room], false);
      var r1 := Receiver(r.source, s.Next().sequence, Some(timestamp), size, r.partial + frame[..room], r.frames);
      PiecesReceived(s.Next(), timestamp, r1, size, frame[room..], room);
      NumberedAppend(s, timestamp, [parts[0]], rest);
      ReceiveAppend(r, Numbered(s, timestamp, [parts[0]]), Numbered(s.Next(), timestamp, rest));
      AfterAfter(s, 1, |rest|);
      assert r1.partial + frame[room..] == r.partial + frame;
    }
  }

  // ---------------------------------------------------------------- runs

  datatype Sound = Sound(frame: seq<byte>, nanos: nat)

  /** What a run goes out as. A frame too long for its size field is dropped, and takes no sequence number. */
  function RunPackets(s: Stream, run: seq<Sound>): seq<seq<byte>>
    requires s.Valid() && s.Budget() > PREFIX
    decreases |run|
  {
    if run == [] then []
    else if |run[0].frame| > MAX_ACCESS_UNIT then RunPackets(s, run[1..])
    else
      var packets := Numbered(s, s.Timestamp(run[0].nanos), FrameParts(run[0].frame, s.Budget()));
      packets + RunPackets(After(s, |packets|), run[1..])
  }

  function FramesOfRun(s: Stream, run: seq<Sound>): seq<Frame> {
    if run == [] then []
    else (if |run[0].frame| > MAX_ACCESS_UNIT then [] else [Frame(s.Timestamp(run[0].nanos), run[0].frame)])
         + FramesOfRun(s, run[1..])
  }

  /** Every frame of a run that can be expressed arrives whole, in order and at its time, empty ones too. */
  lemma {:induction false} RunReceived(s: Stream, r: Receiver, run: seq<Sound>)
    requires s.Valid() && s.Budget() > PREFIX
    requires r.timestamp.None? && r.partial == [] && r.size == 0 && r.sequence == s.sequence && r.source == SourceOf(s)
    ensures var packets := RunPackets(s, run);
            ReceiveAll(r, packets)
              == Some(r.(sequence := After(s, |packets|).sequence, frames := r.frames + FramesOfRun(s, run)))
    decreases |run|
  {
    hide Numbered, ReceiveAll, Pieces, After, WriteHeader;
    if run == [] {
      AfterNone(s);
      NothingReceived(r);
      assert r.frames + [] == r.frames;
    } else if |run[0].frame| > MAX_ACCESS_UNIT {
      RunReceived(s, r, run[1..]);
      assert [] + FramesOfRun(s, run[1..]) == FramesOfRun(s, run[1..]);
    } else {
      var a := run[0];
      var timestamp := s.Timestamp(a.nanos);
      var packets := Numbered(s, timestamp, FrameParts(a.frame, s.Budget()));
      PiecesReceived(s, timestamp, r, |a.frame|, a.frame, s.Budget() - PREFIX);
      assert r.partial + a.frame == a.frame;
      var s1 := After(s, |packets|);
      var r1 := r.(sequence := s1.sequence, frames := r.frames + [Frame(timestamp, a.frame)]);
      RunReceived(s1, r1, run[1..]);
      TimesDoNotDrift(s, s1, run[1..]);
      ReceiveAppend(r, packets, RunPackets(s1, run[1..]));
      AfterAfter(s, |packets|, |RunPackets(s1, run[1..])|);
      Associative(r.frames, [Frame(timestamp, a.frame)], FramesOfRun(s, run[1..]));
    }
  }

  lemma NothingReceived(r: Receiver)
    ensures ReceiveAll(r, []) == Some(r)
  {
  }

  lemma {:induction false} TimesDoNotDrift(s: Stream, s1: Stream, run: seq<Sound>)
    requires s1 == s.(sequence := s1.sequence)
    ensures FramesOfRun(s1, run) == FramesOfRun(s, run)
    decreases |run|
  {
    if run != [] {
      TimesDoNotDrift(s, s1, run[1..]);
    }
  }

  /** Every packet is within the MTU and numbered one after the last, whatever the frames. */
  lemma {:induction false} RunIsNumbered(s: Stream, run: seq<Sound>, i: nat)
    requires s.Valid() && s.Budget() > PREFIX && i < |RunPackets(s, run)|
    ensures var packet := RunPackets(s, run)[i];
            && |packet| <= s.mtu
            && ParseHeader(packet).Some?
            && ParseHeader(packet).value.0.sequence == (s.sequence + i) % 0x1_0000
    decreases |run|
  {
    hide Numbered, ParseHeader, WriteHeader, Pieces;
    if |run[0].frame| > MAX_ACCESS_UNIT {
      RunIsNumbered(s, run[1..], i);
    } else {
      var timestamp, parts := s.Timestamp(run[0].nanos), FrameParts(run[0].frame, s.Budget());
      if i < |parts| {
        NumberedAt(s, timestamp, parts, i);
        HeaderReads(After(s, i).Stamp(parts[i].marker, timestamp), parts[i].payload);
        PiecesFit(AuHeader(|run[0].frame|), run[0].frame, s.Budget() - PREFIX, i);
      } else {
        RunIsNumbered(After(s, |parts|), run[1..], i - |parts|);
        AfterAfter(s, |parts|, i - |parts|);
      }
    }
  }

  lemma {:induction false} PiecesFit(header: seq<byte>, frame: seq<byte>, room: nat, i: nat)
    requires room > 0 && i < |Pieces(header, frame, room)|
    ensures |Pieces(header, frame, room)[i].payload| <= |header| + room
    ensures Pieces(header, frame, room)[i].marker <==> i + 1 == |Pieces(header, frame, room)|
    decreases |frame|
  {
    if i > 0 {
      PiecesFit(header, frame[room..], room, i - 1);
    }
  }

  /** A frame goes in one packet if it fits one, and otherwise in no more than it has to. */
  lemma {:induction false} CutNoMoreThanNeeded(header: seq<byte>, frame: seq<byte>, room: nat)
    requires room > 0
    ensures var parts := Pieces(header, frame, room);
            && (if frame == [] then |parts| == 1 else (|parts| - 1) * room < |frame| <= |parts| * room)
            && forall i :: 0 <= i < |parts| - 1 ==> |parts[i].payload| == |header| + room
    decreases |frame|
  {
    if |frame| > room {
      CutNoMoreThanNeeded(header, frame[room..], room);
    }
  }
}

/**
  * RTP packets and one stream's numbering (section 5.1 of RFC 3550), and how
  * H.264 and AAC are cut up to go in them (sections 5.6 and 5.8 of RFC 6184,
  * sections 3.2.1 and 3.3.6 of RFC 3640).
  */
module Rtp {
  import opened Wrappers
  import opened Bytes
  import opened H264

  const HEADER_SIZE := 12
  const MTU := 1400

  datatype RtpError = AccessUnitTooLong(length: nat, limit: nat) | MtuTooSmall(mtu: nat)

  type PayloadType = x: int | 0 <= x < 128

  datatype Header = Header(marker: bool, payloadType: PayloadType, sequence: u16, timestamp: u32, ssrc: u32)

  function WriteHeader(h: Header): (r: seq<byte>)
    ensures |r| == HEADER_SIZE
  {
    [0x80, (if h.marker then 128 else 0) + h.payloadType]
    + BigEndian(h.sequence, 2) + BigEndian(h.timestamp, 4) + BigEndian(h.ssrc, 4)
  }

  function ParseHeader(packet: seq<byte>): Option<(Header, seq<byte>)> {
    if |packet| < HEADER_SIZE then None
    else
      Widths();
      Some((Header(packet[1] >= 128, packet[1] % 128, FromBigEndian(packet[2..4]), FromBigEndian(packet[4..8]),
                   FromBigEndian(packet[8..12])),
            packet[HEADER_SIZE..]))
  }

  /** A header reads back as what was written, with the payload behind it. */
  lemma HeaderReads(h: Header, payload: seq<byte>)
    ensures ParseHeader(WriteHeader(h) + payload) == Some((h, payload))
  {
    hide BigEndian, FromBigEndian;
    Widths();
    ValueOfBigEndian(h.sequence, 2);
    ValueOfBigEndian(h.timestamp, 4);
    ValueOfBigEndian(h.ssrc, 4);
    var packet := WriteHeader(h) + payload;
    assert packet[2..4] == BigEndian(h.sequence, 2);
    assert packet[4..8] == BigEndian(h.timestamp, 4);
    assert packet[8..12] == BigEndian(h.ssrc, 4);
    assert packet[HEADER_SIZE..] == payload;
  }

  /** One track's outgoing stream. */
  datatype Stream = Stream(ssrc: u32, payloadType: PayloadType, clockRate: u32, sequence: u16, origin: u32, mtu: nat) {
    predicate Valid() { mtu > HEADER_SIZE }

    function WithMtu(mtu: nat): Result<Stream, RtpError> {
      if mtu <= HEADER_SIZE then Err(MtuTooSmall(mtu)) else Ok(this.(mtu := mtu))
    }

    function Budget(): nat
      requires Valid()
    {
      mtu - HEADER_SIZE
    }

    /** The timestamp a moment is written as, from nanoseconds. */
    function Timestamp(nanos: nat): u32 { (origin + nanos * clockRate / 1_000_000_000) % 0x1_0000_0000 }

    function Next(): Stream { this.(sequence := (sequence + 1) % 0x1_0000) }

    function Stamp(marker: bool, timestamp: u32): Header {
      Header(marker, payloadType, sequence, timestamp, ssrc)
    }
  }

  /** One packet's worth of an access unit: whether it completes the unit, and what it carries. */
  datatype Part = Part(marker: bool, payload: seq<byte>)

  /** Parts as packets, numbered one after another. */
  function Numbered(s: Stream, timestamp: u32, parts: seq<Part>): (r: seq<seq<byte>>)
    ensures |r| == |parts|
    decreases |parts|
  {
    if parts == [] then []
    else
      [WriteHeader(s.Stamp(parts[0].marker, timestamp)) + parts[0].payload]
      + Numbered(s.Next(), timestamp, parts[1..])
  }

  /** The stream after so many packets. */
  function After(s: Stream, packets: nat): (r: Stream)
    ensures r == s.(sequence := r.sequence)
  {
    s.(sequence := (s.sequence + packets) % 0x1_0000)
  }

  // ---------------------------------------------------------------- H.264

  const FU_A := 28

  /** What is left of a unit that will not fit, in pieces behind an indicator and a header byte each. */
  function Fragments(indicator: byte, kind: byte, body: seq<byte>, room: nat, start: bool, last: bool): (r: seq<Part>)
    requires room > 0 && kind < 32
    ensures r != []
    decreases |body|
  {
    var s := if start then 0x80 else 0;
    if |body| <= room then [Part(last, [indicator, s + 0x40 + kind] + body)]
    else [Part(false, [indicator, s + kind] + body[..room])]
         + Fragments(indicator, kind, body[room..], room, false, last)
  }

  /** A unit goes whole if it fits a packet, and otherwise in pieces without its header byte. */
  function NalParts(nal: Nal, budget: nat, last: bool): (r: seq<Part>)
    requires |nal| <= budget || budget > 2
    ensures r != []
  {
    if |nal| <= budget then [Part(last, nal)]
    else Fragments(nal[0] / 32 * 32 + FU_A, nal[0] % 32, nal[1..], budget - 2, true, last)
  }

  /** The packet size an access unit needs: room to fragment, or nothing to fragment. */
  predicate Carries(budget: nat, nalus: seq<Nal>) {
    budget > 2 || forall nal <- nalus :: |nal| <= budget
  }

  function UnitParts(nalus: seq<Nal>, budget: nat): seq<Part>
    requires Carries(budget, nalus)
  {
    if nalus == [] then []
    else NalParts(nalus[0], budget, |nalus| == 1) + UnitParts(nalus[1..], budget)
  }

  /** Unsigned subtraction. There is nothing below zero to come to. */
  function Less(a: nat, b: nat): Option<nat> { if a >= b then Some(a - b) else None }

  /** How many pieces of a size there are. There is no dividing by zero. */
  function PiecesOf(length: nat, size: nat): Option<nat> { if size > 0 then Some(DivideUp(length, size)) else None }

  /** A unit's parts by the arithmetic that finds them, or nothing where that stops. */
  function CutNal(nal: Nal, budget: nat, last: bool): Option<seq<Part>> {
    if |nal| <= budget then Some([Part(last, nal)])
    else
      var room :- Less(budget, 2);
      var pieces :- PiecesOf(|nal[1..]|, room);
      Some(Fragments(nal[0] / 32 * 32 + FU_A, nal[0] % 32, nal[1..], room, true, last))
  }

  function CutUnit(nalus: seq<Nal>, budget: nat): Option<seq<Part>> {
    if nalus == [] then Some([])
    else
      var first :- CutNal(nalus[0], budget, |nalus| == 1);
      var rest :- CutUnit(nalus[1..], budget);
      Some(first + rest)
  }

  /** An access unit's packets, if packetizing comes to an end at all. */
  function Packetized(s: Stream, nalus: seq<Nal>, nanos: nat): Option<seq<seq<byte>>>
    requires s.Valid()
  {
    var parts :- CutUnit(nalus, s.Budget());
    Some(Numbered(s, s.Timestamp(nanos), parts))
  }

  lemma {:induction false} CutsExactly(nalus: seq<Nal>, budget: nat)
    ensures CutUnit(nalus, budget) == if Carries(budget, nalus) then Some(UnitParts(nalus, budget)) else None
    decreases |nalus|
  {
    hide Fragments;
    if nalus != [] {
      CutsExactly(nalus[1..], budget);
    }
  }

  /** Packetizing an access unit comes to an end exactly when there is room to fragment or nothing to fragment. */
  lemma PacketizesExactly(s: Stream, nalus: seq<Nal>, nanos: nat)
    requires s.Valid()
    ensures Packetized(s, nalus, nanos).Some? <==> Carries(s.Budget(), nalus)
    ensures Carries(s.Budget(), nalus) ==>
      Packetized(s, nalus, nanos) == Some(Numbered(s, s.Timestamp(nanos), UnitParts(nalus, s.Budget())))
  {
    hide Numbered, CutUnit, UnitParts, Carries;
    CutsExactly(nalus, s.Budget());
  }

  const THREE_BYTES: Nal := [0x65, 0x88, 0x84]

  /** And whatever it is given exactly when packets are of at least 15 bytes. */
  lemma PacketizesAnythingExactly(s: Stream)
    requires s.Valid()
    ensures s.mtu >= 15 <==> forall nalus, nanos :: Packetized(s, nalus, nanos).Some?
  {
    hide Packetized;
    if s.mtu >= 15 {
      forall nalus, nanos ensures Packetized(s, nalus, nanos).Some? {
        PacketizesExactly(s, nalus, nanos);
      }
    } else {
      PacketizesExactly(s, [THREE_BYTES], 0);
      assert THREE_BYTES in [THREE_BYTES];
    }
  }

  /** Fourteen bytes are enough for a stream to be made, and not enough for a picture of three. */
  lemma FourteenIsTooSmall(s: Stream)
    ensures s.WithMtu(14) == Ok(s.(mtu := 14)) && Packetized(s.(mtu := 14), [THREE_BYTES], 0) == None
  {
    hide Packetized;
    PacketizesExactly(s.(mtu := 14), [THREE_BYTES], 0);
    assert THREE_BYTES in [THREE_BYTES];
  }

  class H264Packetizer {
    var stream: Stream

    constructor (stream: Stream)
      ensures this.stream == stream
    {
      this.stream := stream;
    }

    method Emit(marker: bool, timestamp: u32, payload: seq<byte>) returns (packet: seq<byte>)
      modifies this
      ensures packet == WriteHeader(old(stream).Stamp(marker, timestamp)) + payload
      ensures stream == old(stream).Next()
    {
      packet := WriteHeader(stream.Stamp(marker, timestamp)) + payload;
      stream := stream.Next();
    }

    /** Cuts one access unit into packets: one timestamp throughout, the marker on the last, numbered on from before. */
    method Packetize(nalus: seq<Nal>, nanos: nat) returns (r: Option<seq<seq<byte>>>)
      requires stream.Valid()
      modifies this
      ensures r == Packetized(old(stream), nalus, nanos)
      ensures r.Some? ==> stream == After(old(stream), |r.value|)
    {
      hide Numbered, After, Fragments, WriteHeader;
      var timestamp := stream.Timestamp(nanos);
      ghost var s, budget, done := stream, stream.Budget(), [];
      var packets := [];
      AfterNone(s);
      NumberedNone(s, timestamp);
      assert nalus[0..] == nalus;
      ThenNothing(CutUnit(nalus, budget));
      for index := 0 to |nalus|
        invariant packets == Numbered(s, timestamp, done) && stream == After(s, |done|)
        invariant Then(done, CutUnit(nalus[index..], budget)) == CutUnit(nalus, budget)
      {
        var last := index + 1 == |nalus|;
        var nal := nalus[index];
        NextNal(nalus, index, budget);
        var more;
        if |nal| <= stream.Budget() {
          var packet := Emit(last, timestamp, nal);
          more := [packet];
          NumberedOne(After(s, |done|), timestamp, Part(last, nal));
        } else {
          var fragments := Fragment(last, timestamp, nal);
          if fragments.None? {
            return None;
          }
          more := fragments.value;
        }
        ghost var parts := CutNal(nal, budget, last).value;
        NumberedAppend(s, timestamp, done, parts);
        AfterAfter(s, |done|, |parts|);
        ThenThen(done, parts, CutUnit(nalus[index + 1..], budget));
        done := done + parts;
        packets := packets + more;
      }
      assert done + [] == done;
      return Some(packets);
    }

    method Fragment(last: bool, timestamp: u32, nal: Nal) returns (r: Option<seq<seq<byte>>>)
      requires stream.Valid() && |nal| > stream.Budget()
      modifies this
      ensures match CutNal(nal, old(stream).Budget(), last)
              case Some(parts) =>
                r == Some(Numbered(old(stream), timestamp, parts)) && stream == After(old(stream), |parts|)
              case None => r == None
    {
      hide Numbered, After, Fragments, WriteHeader, DivideUp;
      var indicator: byte := nal[0] / 32 * 32 + FU_A;
      var kind: byte := nal[0] % 32;
      var room :- Less(stream.Budget(), 2);
      var body := nal[1..];
      var pieces :- PiecesOf(|body|, room);
      ghost var s, done := stream, [];
      ghost var whole := Fragments(indicator, kind, body, room, true, last);
      var packets := [];
      AfterNone(s);
      NumberedNone(s, timestamp);
      var index, offset := 0, 0;
      assert body[0..] == body && [] + whole == whole;
      while offset < |body|
        invariant offset == index * room
        invariant packets == Numbered(s, timestamp, done) && stream == After(s, |done|)
        invariant if offset < |body|
                  then done + Fragments(indicator, kind, body[offset..], room, index == 0, last) == whole
                  else done == whole
        decreases |body| - offset
      {
        LastPiece(|body|, room, index);
        var start := index == 0;
        var end := index + 1 == pieces;
        var piece := body[offset..Min(offset + room, |body|)];
        var header: byte := (if start then 0x80 else 0) + (if end then 0x40 else 0) + kind;
        ghost var part := Part(last && end, [indicator, header] + piece);
        FirstFragment(indicator, kind, body, offset, room, start, last);
        var packet := Emit(last && end, timestamp, [indicator, header] + piece);
        NumberedOne(After(s, |done|), timestamp, part);
        NumberedAppend(s, timestamp, done, [part]);
        AfterAfter(s, |done|, 1);
        packets := packets + [packet];
        if !end {
          Associative(done, [part], Fragments(indicator, kind, body[offset + room..], room, false, last));
        }
        done := done + [part];
        index, offset := index + 1, offset + room;
      }
      return Some(packets);
    }
  }

  /** Parts, and the rest of them if there is to be any. */
  function Then(done: seq<Part>, rest: Option<seq<Part>>): Option<seq<Part>> {
    var parts :- rest;
    Some(done + parts)
  }

  lemma ThenNothing(rest: Option<seq<Part>>)
    ensures Then([], rest) == rest
  {
    assert rest.Some? ==> [] + rest.value == rest.value;
  }

  lemma ThenThen(a: seq<Part>, b: seq<Part>, rest: Option<seq<Part>>)
    ensures Then(a, Then(b, rest)) == Then(a + b, rest)
  {
    if rest.Some? {
      Associative(a, b, rest.value);
    }
  }

  lemma NextNal(nalus: seq<Nal>, index: nat, budget: nat)
    requires index < |nalus|
    ensures CutUnit(nalus[index..], budget) ==
      match CutNal(nalus[index], budget, index + 1 == |nalus|)
      case Some(parts) => Then(parts, CutUnit(nalus[index + 1..], budget))
      case None => None
  {
    hide CutNal;
    DropDrop(nalus, index, 1);
  }

  lemma FirstFragment(indicator: byte, kind: byte, body: seq<byte>, offset: nat, room: nat, start: bool, last: bool)
    requires room > 0 && kind < 32 && offset < |body|
    ensures var end := offset + room >= |body|;
            var header := (if start then 0x80 else 0) + (if end then 0x40 else 0) + kind;
            var part := Part(last && end, [indicator, header] + body[offset..Min(offset + room, |body|)]);
            Fragments(indicator, kind, body[offset..], room, start, last)
              == if end then [part] else [part] + Fragments(indicator, kind, body[offset + room..], room, false, last)
  {
    var left := body[offset..];
    if offset + room < |body| {
      DropDrop(body, offset, room);
      DropTake(body, offset, room);
    } else {
      assert left == body[offset..Min(offset + room, |body|)];
    }
  }

  function DivideUp(n: nat, d: nat): nat
    requires d > 0
  {
    (n + d - 1) / d
  }

  lemma MultiplyOrder(a: int, b: int, d: nat)
    ensures a <= b ==> a * d <= b * d
  {
  }

  lemma QuotientBetween(n: nat, d: nat, q: nat)
    requires d > 0 && q * d <= n < q * d + d
    ensures n / d == q
  {
    var r := n / d;
    assert r * d <= n < r * d + d;
    MultiplyOrder(r + 1, q, d);
    MultiplyOrder(q + 1, r, d);
  }

  /** The piece counted as the last is the one that reaches the end. */
  lemma LastPiece(length: nat, room: nat, index: nat)
    requires room > 0 && index * room < length
    ensures index + 1 == DivideUp(length, room) <==> index * room + room >= length
  {
    var n := length + room - 1;
    var q := n / room;
    assert q * room <= n < q * room + room;
    assert (index + 1) * room == index * room + room;
    if index * room + room >= length {
      QuotientBetween(n, room, index + 1);
    }
  }

  // ---------------------------------------------------------------- numbering

  lemma AfterNone(s: Stream)
    ensures After(s, 0) == s
  {
  }

  lemma AfterAfter(s: Stream, a: nat, b: nat)
    ensures After(After(s, a), b) == After(s, a + b)
    ensures s.Next() == After(s, 1)
    ensures After(s, a).Next() == After(s, a + 1)
  {
  }

  lemma NumberedNone(s: Stream, timestamp: u32)
    ensures Numbered(s, timestamp, []) == []
  {
  }

  lemma NumberedOne(s: Stream, timestamp: u32, part: Part)
    ensures Numbered(s, timestamp, [part]) == [WriteHeader(s.Stamp(part.marker, timestamp)) + part.payload]
  {
    hide WriteHeader;
    assert Numbered(s.Next(), timestamp, []) == [];
  }

  lemma {:induction false} NumberedAppend(s: Stream, timestamp: u32, a: seq<Part>, b: seq<Part>)
    ensures Numbered(s, timestamp, a + b) == Numbered(s, timestamp, a) + Numbered(After(s, |a|), timestamp, b)
    decreases |a|
  {
    hide WriteHeader;
    if a == [] {
      assert a + b == b;
      AfterNone(s);
    } else {
      assert (a + b)[1..] == a[1..] + b && (a + b)[0] == a[0];
      NumberedAppend(s.Next(), timestamp, a[1..], b);
      AfterAfter(s, 1, |a| - 1);
    }
  }

  /** Packet `i` states the number `i` on from the first, modulo 2^16, the one timestamp, and its own marker. */
  lemma {:induction false} NumberedAt(s: Stream, timestamp: u32, parts: seq<Part>, i: nat)
    requires i < |parts|
    ensures Numbered(s, timestamp, parts)[i]
         == WriteHeader(After(s, i).Stamp(parts[i].marker, timestamp)) + parts[i].payload
    decreases i
  {
    hide WriteHeader;
    if i > 0 {
      NumberedAt(s.Next(), timestamp, parts[1..], i - 1);
      AfterAfter(s, 1, i - 1);
    } else {
      AfterNone(s);
    }
  }
}

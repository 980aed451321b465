/**
  * A strict receiver for H.264 over RTP, as RFC 6184 describes one, and the proof
  * that it gets back every access unit a packetizer was given, in order.
  *
  * It refuses a gap in the numbering, a timestamp that changes within an access
  * unit, a piece with no start, a start inside a unit, a unit in one piece, a
  * piece of another unit, and a marker part-way through a unit.
  */
module RtpReceiver {
  import opened Wrappers
  import opened Bytes
  import opened H264
  import opened Rtp
  import opened RtpHeader

  datatype AccessUnit = AccessUnit(timestamp: u32, nalus: seq<Nal>)

  datatype Receiver = Receiver(
    source: Source,
    sequence: u16,
    timestamp: Option<u32>,
    nalus: seq<Nal>,
    partial: seq<byte>,
    units: seq<AccessUnit>)
  {
    /** Between access units. */
    predicate Idle() { timestamp.None? && nalus == [] && partial == [] }
  }

  /** A receiver that has had nothing yet of a stream. */
  function Tuned(s: Stream): Receiver { Receiver(SourceOf(s), s.sequence, None, [], [], []) }

  /** The type of a unit in fragments, by the first of the two ways there are. */
  const FRAGMENT := 28

  predicate Plain(kind: nat) { 1 <= kind <= 23 }

  function Whole(r: Receiver, payload: seq<byte>): Option<Receiver>
    requires payload != []
  {
    if r.partial != [] then None else Some(r.(nalus := r.nalus + [payload]))
  }

  function Piece(r: Receiver, payload: seq<byte>): Option<Receiver> {
    if |payload| < 3 then None
    else
      var start, end := payload[1] >= 0x80, payload[1] / 0x40 % 2 == 1;
      var rebuilt := payload[0] / 32 * 32 + payload[1] % 32;
      if (start && end) || payload[1] / 0x20 % 2 == 1 || !Plain(payload[1] % 32) then None
      else if start != (r.partial == []) then None
      else if !start && r.partial[0] != rebuilt then None
      else
        var unit := (if start then [rebuilt] else r.partial) + payload[2..];
        Some(if end then r.(nalus := r.nalus + [unit], partial := []) else r.(partial := unit))
  }

  function Finish(r: Receiver, timestamp: u32): Option<Receiver> {
    if r.partial != [] then None
    else Some(r.(units := r.units + [AccessUnit(timestamp, r.nalus)], nalus := [], timestamp := None))
  }

  /** What a packet does to a receiver that has read its header. */
  function Take(r: Receiver, h: Header, payload: seq<byte>): Option<Receiver> {
    if payload == [] || h.sequence != r.sequence then None
    else if r.timestamp.Some? && r.timestamp.value != h.timestamp then None
    else
      var r1 := r.(sequence := (r.sequence + 1) % 0x1_0000, timestamp := Some(h.timestamp));
      var r2 :-
        if Plain(payload[0] % 32) then Whole(r1, payload)
        else if payload[0] % 32 == FRAGMENT then Piece(r1, payload)
        else None;
      if h.marker then Finish(r2, h.timestamp) else Some(r2)
  }

  function Receive(r: Receiver, packet: seq<byte>): Option<Receiver> {
    var (h, payload) :- Open(r.source, packet);
    Take(r, h, payload)
  }

  function ReceiveAll(r: Receiver, packets: seq<seq<byte>>): Option<Receiver>
    decreases |packets|
  {
    if packets == [] then Some(r)
    else
      var r1 :- Receive(r, packets[0]);
      ReceiveAll(r1, packets[1..])
  }

  lemma {:induction false} ReceiveAppend(r: Receiver, a: seq<seq<byte>>, b: seq<seq<byte>>)
    requires ReceiveAll(r, a).Some?
    ensures ReceiveAll(r, a + b) == ReceiveAll(ReceiveAll(r, a).value, b)
    decreases |a|
  {
    hide Receive;
    if a == [] {
      assert a + b == b;
    } else {
      assert (a + b)[0] == a[0] && (a + b)[1..] == a[1..] + b;
      ReceiveAppend(Receive(r, a[0]).value, a[1..], b);
    }
  }

  /** A receiver that has just got a whole unit, with or without the marker. */
  function Got(r: Receiver, sequence: u16, timestamp: u32, nal: Nal, last: bool): Receiver {
    var nalus := r.nalus + [nal];
    if last then Receiver(r.source, sequence, None, [], [], r.units + [AccessUnit(timestamp, nalus)])
    else Receiver(r.source, sequence, Some(timestamp), nalus, [], r.units)
  }

  /** Ready for more of the access unit at a time. */
  predicate Ready(r: Receiver, s: Stream, timestamp: u32) {
    r.source == SourceOf(s) && r.sequence == s.sequence && (r.timestamp.Some? ==> r.timestamp.value == timestamp)
  }

  lemma OnePacket(s: Stream, timestamp: u32, r: Receiver, part: Part)
    requires r.source == SourceOf(s)
    ensures ReceiveAll(r, Numbered(s, timestamp, [part])) == Take(r, s.Stamp(part.marker, timestamp), part.payload)
  {
    hide WriteHeader, Open, Take;
    NumberedOne(s, timestamp, part);
    OpensAsMade(s, part.marker, timestamp, part.payload);
    var packets := Numbered(s, timestamp, [part]);
    assert packets[1..] == [];
  }

  /** One piece of a unit, whose header byte is `first` and whose earlier pieces have come. */
  lemma PieceTaken(s: Stream, timestamp: u32, r: Receiver, first: byte, header: byte, piece: seq<byte>, part: Part,
                   start: bool, end: bool)
    requires Ready(r, s, timestamp) && Plain(first % 32) && piece != [] && !(start && end)
    requires header == (if start then 0x80 else 0) + (if end then 0x40 else 0) + first % 32
    requires part.payload == [first / 32 * 32 + FU_A, header] + piece
    requires if start then r.partial == [] else r.partial != [] && r.partial[0] == first
    requires part.marker ==> end
    ensures var unit := (if start then [first] else r.partial) + piece;
            Take(r, s.Stamp(part.marker, timestamp), part.payload)
              == Some(if end then Got(r, s.Next().sequence, timestamp, unit, part.marker)
                      else r.(sequence := s.Next().sequence, timestamp := Some(timestamp), partial := unit))
  {
    var payload := part.payload;
    assert payload[2..] == piece;
    assert payload[0] % 32 == FU_A && payload[0] / 32 * 32 + payload[1] % 32 == first;
  }

  /** The rest of a unit's pieces, after some of it has come. */
  lemma {:induction false} PiecesReceived(s: Stream, timestamp: u32, r: Receiver, first: byte, body: seq<byte>,
                                          room: nat, last: bool)
    requires Ready(r, s, timestamp) && Plain(first % 32)
    requires room > 0 && body != [] && r.partial != [] && r.partial[0] == first
    ensures var parts := Fragments(first / 32 * 32 + FU_A, first % 32, body, room, false, last);
            ReceiveAll(r, Numbered(s, timestamp, parts))
              == Some(Got(r, After(s, |parts|).sequence, timestamp, r.partial + body, last))
    decreases |body|
  {
    hide Take, Numbered, ReceiveAll;
    var indicator, kind := first / 32 * 32 + FU_A, first % 32;
    var parts := Fragments(indicator, kind, body, room, false, last);
    AfterAfter(s, 0, 1);
    if |body| <= room {
      PieceTaken(s, timestamp, r, first, 0x40 + kind, body, parts[0], false, true);
      OnePacket(s, timestamp, r, parts[0]);
    } else {
      var part, rest := parts[0], Fragments(indicator, kind, body[room..], room, false, last);
      assert parts == [part] + rest;
      PieceTaken(s, timestamp, r, first, kind, body[..room], part, false, false);
      OnePacket(s, timestamp, r, part);
      var r1 := r.(sequence := s.Next().sequence, timestamp := Some(timestamp), partial := r.partial + body[..room]);
      PiecesReceived(s.Next(), timestamp, r1, first, body[room..], room, last);
      NumberedAppend(s, timestamp, [part], rest);
      ReceiveAppend(r, Numbered(s, timestamp, [part]), Numbered(s.Next(), timestamp, rest));
      AfterAfter(s, 1, |rest|);
      assert r1.partial + body[room..] == r.partial + body;
    }
  }

  lemma WholeTaken(s: Stream, timestamp: u32, r: Receiver, nal: Nal, last: bool)
    requires Ready(r, s, timestamp) && r.partial == [] && Plain(NalType(nal))
    ensures Take(r, s.Stamp(last, timestamp), nal) == Some(Got(r, s.Next().sequence, timestamp, nal, last))
  {
  }

  /** A unit in pieces, from the first of them. */
  lemma CutReceived(s: Stream, timestamp: u32, r: Receiver, nal: Nal, room: nat, last: bool)
    requires Ready(r, s, timestamp) && r.partial == [] && Plain(NalType(nal))
    requires 0 < room < |nal| - 1
    ensures var parts := Fragments(nal[0] / 32 * 32 + FU_A, nal[0] % 32, nal[1..], room, true, last);
            ReceiveAll(r, Numbered(s, timestamp, parts))
              == Some(Got(r, After(s, |parts|).sequence, timestamp, nal, last))
  {
    hide Numbered, ReceiveAll, Take, Fragments;
    var first, body := nal[0], nal[1..];
    var indicator, kind := first / 32 * 32 + FU_A, first % 32;
    var part := Part(false, [indicator, 0x80 + kind] + body[..room]);
    var rest := Fragments(indicator, kind, body[room..], room, false, last);
    FirstOfSeveral(indicator, kind, body, room, last);
    PieceTaken(s, timestamp, r, first, 0x80 + kind, body[..room], part, true, false);
    OnePacket(s, timestamp, r, part);
    var r1 := r.(sequence := s.Next().sequence, timestamp := Some(timestamp), partial := [first] + body[..room]);
    PiecesReceived(s.Next(), timestamp, r1, first, body[room..], room, last);
    NumberedAppend(s, timestamp, [part], rest);
    ReceiveAppend(r, Numbered(s, timestamp, [part]), Numbered(s.Next(), timestamp, rest));
    AfterAfter(s, 0, 1);
    AfterAfter(s, 1, |rest|);
    assert r1.partial + body[room..] == nal;
  }

  lemma FirstOfSeveral(indicator: byte, kind: byte, body: seq<byte>, room: nat, last: bool)
    requires 0 < room < |body| && kind < 32
    ensures Fragments(indicator, kind, body, room, true, last)
         == [Part(false, [indicator, 0x80 + kind] + body[..room])]
            + Fragments(indicator, kind, body[room..], room, false, last)
  {
  }

  /** One unit, whole or in pieces. */
  lemma NalReceived(s: Stream, timestamp: u32, r: Receiver, nal: Nal, budget: nat, last: bool)
    requires Ready(r, s, timestamp) && r.partial == [] && Plain(NalType(nal))
    requires |nal| <= budget || budget > 2
    ensures var parts := NalParts(nal, budget, last);
            ReceiveAll(r, Numbered(s, timestamp, parts))
              == Some(Got(r, After(s, |parts|).sequence, timestamp, nal, last))
  {
    hide Numbered, ReceiveAll, Take, Fragments, Got;
    if |nal| <= budget {
      AfterAfter(s, 0, 1);
      WholeTaken(s, timestamp, r, nal, last);
      OnePacket(s, timestamp, r, Part(last, nal));
    } else {
      CutReceived(s, timestamp, r, nal, budget - 2, last);
    }
  }

  /** The rest of an access unit. */
  lemma {:induction false} UnitReceived(s: Stream, timestamp: u32, r: Receiver, nalus: seq<Nal>, budget: nat)
    requires Ready(r, s, timestamp) && r.partial == [] && nalus != []
    requires Carries(budget, nalus) && forall nal <- nalus :: Plain(NalType(nal))
    ensures var parts := UnitParts(nalus, budget);
            ReceiveAll(r, Numbered(s, timestamp, parts))
              == Some(Receiver(r.source, After(s, |parts|).sequence, None, [], [],
                               r.units + [AccessUnit(timestamp, r.nalus + nalus)]))
    decreases |nalus|
  {
    hide Numbered, ReceiveAll, NalParts, After;
    var nal, left := nalus[0], nalus[1..];
    var head := NalParts(nal, budget, |nalus| == 1);
    NalReceived(s, timestamp, r, nal, budget, |nalus| == 1);
    if left == [] {
      assert head + UnitParts(left, budget) == head;
      assert nalus == [nal];
    } else {
      var rest := UnitParts(left, budget);
      var s1 := After(s, |head|);
      var r1 := Got(r, s1.sequence, timestamp, nal, false);
      UnitReceived(s1, timestamp, r1, left, budget);
      NumberedAppend(s, timestamp, head, rest);
      ReceiveAppend(r, Numbered(s, timestamp, head), Numbered(s1, timestamp, rest));
      AfterAfter(s, |head|, |rest|);
      assert r1.nalus + left == r.nalus + nalus;
    }
  }

  // ---------------------------------------------------------------- runs

  /** One access unit to be sent, and when it belongs. */
  datatype Access = Access(nalus: seq<Nal>, nanos: nat)

  predicate Sendable(budget: nat, run: seq<Access>) {
    forall a <- run :: Carries(budget, a.nalus) && forall nal <- a.nalus :: Plain(NalType(nal))
  }

  function RunPackets(s: Stream, run: seq<Access>): seq<seq<byte>>
    requires s.Valid() && Sendable(s.Budget(), run)
    decreases |run|
  {
    if run == [] then []
    else
      var packets := Numbered(s, s.Timestamp(run[0].nanos), UnitParts(run[0].nalus, s.Budget()));
      packets + RunPackets(After(s, |packets|), run[1..])
  }

  /** The access units of a run, each at its time. One with nothing in it is nothing on the wire. */
  function UnitsOfRun(s: Stream, run: seq<Access>): seq<AccessUnit> {
    if run == [] then []
    else (if run[0].nalus == [] then [] else [AccessUnit(s.Timestamp(run[0].nanos), run[0].nalus)])
         + UnitsOfRun(s, run[1..])
  }

  /**
    * Whatever a whole run of access units is cut into, a strict receiver gets back exactly the access units:
    * their NAL units, their order, their boundaries and their times.
    */
  lemma {:induction false} RunReceived(s: Stream, r: Receiver, run: seq<Access>)
    requires s.Valid() && Sendable(s.Budget(), run)
    requires r.Idle() && r.sequence == s.sequence && r.source == SourceOf(s)
    ensures var packets := RunPackets(s, run);
            ReceiveAll(r, packets)
              == Some(r.(sequence := After(s, |packets|).sequence, units := r.units + UnitsOfRun(s, run)))
    decreases |run|
  {
    hide Numbered, ReceiveAll, UnitParts, After, WriteHeader;
    if run == [] {
      AfterNone(s);
      NothingReceived(r);
      assert r.units + [] == r.units;
    } else {
      var a := run[0];
      var parts := UnitParts(a.nalus, s.Budget());
      var timestamp := s.Timestamp(a.nanos);
      var packets := Numbered(s, timestamp, parts);
      var s1 := After(s, |packets|);
      var r1;
      if a.nalus == [] {
        NothingSent(s, timestamp, s.Budget());
        NothingReceived(r);
        AfterNone(s);
        r1 := r;
      } else {
        UnitReceived(s, timestamp, r, a.nalus, s.Budget());
        r1 := r.(sequence := s1.sequence, units := r.units + [AccessUnit(timestamp, a.nalus)]);
        assert r.nalus + a.nalus == a.nalus;
      }
      RunReceived(s1, r1, run[1..]);
      TimesDoNotDrift(s, s1, run[1..]);
      ReceiveAppend(r, packets, RunPackets(s1, run[1..]));
      AfterAfter(s, |packets|, |RunPackets(s1, run[1..])|);
      Associative(r.units, if a.nalus == [] then [] else [AccessUnit(timestamp, a.nalus)], UnitsOfRun(s, run[1..]));
      assert r.units + [] == r.units;
    }
  }

  lemma NothingReceived(r: Receiver)
    ensures ReceiveAll(r, []) == Some(r)
  {
  }

  lemma NothingSent(s: Stream, timestamp: u32, budget: nat)
    ensures Numbered(s, timestamp, UnitParts([], budget)) == []
  {
  }

  /** A timestamp depends on the stream's origin and clock and not on how much has been sent. */
  lemma {:induction false} TimesDoNotDrift(s: Stream, s1: Stream, run: seq<Access>)
    requires s1 == s.(sequence := s1.sequence)
    ensures UnitsOfRun(s1, run) == UnitsOfRun(s, run)
    decreases |run|
  {
    if run != [] {
      TimesDoNotDrift(s, s1, run[1..]);
    }
  }

  // ---------------------------------------------------------------- sizes, numbers and markers

  lemma {:induction false} FragmentsFit(indicator: byte, kind: byte, body: seq<byte>, room: nat, start: bool,
                                        last: bool, i: nat)
    requires room > 0 && kind < 32 && i < |Fragments(indicator, kind, body, room, start, last)|
    ensures var parts := Fragments(indicator, kind, body, room, start, last);
            |parts[i].payload| <= room + 2 && (parts[i].marker <==> last && i + 1 == |parts|)
    decreases |body|
  {
    if i > 0 {
      FragmentsFit(indicator, kind, body[room..], room, false, last, i - 1);
    }
  }

  lemma NalPartsFit(nal: Nal, budget: nat, last: bool, i: nat)
    requires |nal| <= budget || budget > 2
    requires i < |NalParts(nal, budget, last)|
    ensures var parts := NalParts(nal, budget, last);
            |parts[i].payload| <= budget && (parts[i].marker <==> last && i + 1 == |parts|)
  {
    hide Fragments;
    if |nal| > budget {
      FragmentsFit(nal[0] / 32 * 32 + FU_A, nal[0] % 32, nal[1..], budget - 2, true, last, i);
    }
  }

  /** Every part of an access unit fits a packet, and the last alone is marked. */
  lemma {:induction false} UnitPartsFit(nalus: seq<Nal>, budget: nat, i: nat)
    requires Carries(budget, nalus) && i < |UnitParts(nalus, budget)|
    ensures var parts := UnitParts(nalus, budget);
            |parts[i].payload| <= budget && (parts[i].marker <==> i + 1 == |parts|)
    decreases |nalus|
  {
    hide NalParts;
    var head := NalParts(nalus[0], budget, |nalus| == 1);
    if i < |head| {
      NalPartsFit(nalus[0], budget, |nalus| == 1, i);
      assert |nalus| > 1 ==> UnitParts(nalus[1..], budget) != [];
    } else {
      UnitPartsFit(nalus[1..], budget, i - |head|);
    }
  }

  /** Across a whole run, every packet is within the MTU and numbered one after the last. */
  lemma {:induction false} RunIsNumbered(s: Stream, run: seq<Access>, i: nat)
    requires s.Valid() && Sendable(s.Budget(), run)
    ensures i < |RunPackets(s, run)| ==>
      var packet := RunPackets(s, run)[i];
      && |packet| <= s.mtu
      && ParseHeader(packet).Some?
      && ParseHeader(packet).value.0.sequence == (s.sequence + i) % 0x1_0000
    decreases |run|
  {
    hide Numbered, ParseHeader, WriteHeader, UnitParts;
    if run == [] {
      return;
    }
    var timestamp, parts := s.Timestamp(run[0].nanos), UnitParts(run[0].nalus, s.Budget());
    if i < |parts| {
      NumberedAt(s, timestamp, parts, i);
      HeaderReads(After(s, i).Stamp(parts[i].marker, timestamp), parts[i].payload);
      UnitPartsFit(run[0].nalus, s.Budget(), i);
    } else {
      RunIsNumbered(After(s, |parts|), run[1..], i - |parts|);
      AfterAfter(s, |parts|, i - |parts|);
    }
  }

  // ---------------------------------------------------------------- as few packets as will do

  /** As many pieces as it takes, and every one but the last as full as a packet is. */
  lemma {:induction false} FragmentsAreFull(indicator: byte, kind: byte, body: seq<byte>, room: nat, start: bool,
                                            last: bool)
    requires room > 0 && kind < 32 && body != []
    ensures var parts := Fragments(indicator, kind, body, room, start, last);
            && (|parts| - 1) * room < |body| <= |parts| * room
            && forall i :: 0 <= i < |parts| - 1 ==> |parts[i].payload| == room + 2
    decreases |body|
  {
    if |body| > room {
      FragmentsAreFull(indicator, kind, body[room..], room, false, last);
    }
  }

  /** A unit that fits a packet goes in one, unchanged; one that does not is in no more pieces than it has to be. */
  lemma CutNoMoreThanNeeded(nal: Nal, budget: nat, last: bool)
    requires |nal| <= budget || budget > 2
    ensures var parts := NalParts(nal, budget, last);
            if |nal| <= budget then |parts| == 1 && parts[0].payload == nal
            else
              && |parts| >= 2 && (|parts| - 1) * (budget - 2) < |nal| - 1 <= |parts| * (budget - 2)
              && forall i :: 0 <= i < |parts| - 1 ==> |parts[i].payload| == budget
  {
    hide Fragments;
    if |nal| > budget {
      FragmentsAreFull(nal[0] / 32 * 32 + FU_A, nal[0] % 32, nal[1..], budget - 2, true, last);
    }
  }
}

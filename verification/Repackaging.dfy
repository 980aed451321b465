/**
  * The claim the relay is built on: a picture that comes in over RTMP goes out
  * over RTSP as the same coded bytes.
  */
module Repackaging {
  import opened Wrappers
  import opened Bytes
  import opened H264
  import opened Rtp
  import opened RtpReceiver
  import H264RoundTrip
  import Rtsp

  /** A coded picture as RTMP carries it, length-prefixed, and when it belongs. */
  datatype Picture = Picture(data: seq<byte>, nanos: nat)

  /** Pictures whose framing is sound, of the NAL unit types that travel as they are or in fragments. */
  predicate Relayable(width: nat, pictures: seq<Picture>) {
    forall p <- pictures ::
      && SplitLengthPrefixed(p.data, width).Ok?
      && forall nal <- SplitLengthPrefixed(p.data, width).value :: Plain(NalType(nal))
  }

  /** Ingest: each picture as the NAL units it was framed from. */
  function Split(width: nat, pictures: seq<Picture>): seq<Access>
    requires Relayable(width, pictures)
  {
    if pictures == [] then []
    else
      assert forall p <- pictures[1..] :: p in pictures;
      [Access(SplitLengthPrefixed(pictures[0].data, width).value, pictures[0].nanos)] + Split(width, pictures[1..])
  }

  lemma {:induction false} SplitIsSendable(width: nat, pictures: seq<Picture>, budget: nat)
    requires Relayable(width, pictures) && budget > 2
    ensures Sendable(budget, Split(width, pictures))
    decreases |pictures|
  {
    hide SplitLengthPrefixed;
    if pictures != [] {
      assert forall p <- pictures[1..] :: p in pictures;
      SplitIsSendable(width, pictures[1..], budget);
    }
  }

  /** Egress: the bytes that go out on the connection. */
  function Wire(s: Stream, channel: byte, width: nat, pictures: seq<Picture>): seq<byte>
    requires s.Valid() && s.Budget() > 2 && Relayable(width, pictures)
  {
    SplitIsSendable(width, pictures, s.Budget());
    Rtsp.InterleaveAll(channel, RunPackets(s, Split(width, pictures)))
  }

  /** The player: frames off the connection, and the packets in them to a strict receiver. */
  function Play(s: Stream, wire: seq<byte>): Option<seq<AccessUnit>> {
    var (frames, left) := Rtsp.ReadFrames(wire);
    if left != [] then None
    else
      var packets := seq(|frames|, i requires 0 <= i < |frames| => frames[i].data);
      var r :- ReceiveAll(Tuned(s), packets);
      if r.Idle() then Some(r.units) else None
  }

  /** No packet of a run is too long to interleave. */
  lemma PacketsInterleave(s: Stream, run: seq<Access>)
    requires s.Valid() && Sendable(s.Budget(), run) && s.mtu <= 0xffff
    ensures forall packet <- RunPackets(s, run) :: |packet| <= 0xffff && Rtsp.Interleave(0, packet).Ok?
  {
    hide ParseHeader, RunPackets;
    forall packet <- RunPackets(s, run) ensures |packet| <= 0xffff {
      var i :| 0 <= i < |RunPackets(s, run)| && RunPackets(s, run)[i] == packet;
      RunIsNumbered(s, run, i);
    }
  }

  /**
    * Repackaging preserves the stream. For any run of length-prefixed pictures, splitting, packetizing,
    * interleaving, reading back and reassembling give exactly the original NAL units, picture by picture, in
    * order and at their times.
    */
  lemma RepackagingPreservesTheStream(s: Stream, channel: byte, width: nat, pictures: seq<Picture>)
    requires s.Valid() && s.Budget() > 2 && s.mtu <= 0xffff && Relayable(width, pictures)
    ensures Play(s, Wire(s, channel, width, pictures)) == Some(UnitsOfRun(s, Split(width, pictures)))
  {
    hide RunPackets, Split, Rtsp.ReadFrames, Rtsp.InterleaveAll, ReceiveAll, UnitsOfRun, Relayable, Sendable, After;
    SplitIsSendable(width, pictures, s.Budget());
    var run := Split(width, pictures);
    var packets := RunPackets(s, run);
    PacketsInterleave(s, run);
    Rtsp.FramesRead(channel, packets);
    var frames := Rtsp.FramesOf(channel, packets);
    assert seq(|frames|, i requires 0 <= i < |frames| => frames[i].data) == packets;
    RunReceived(s, Tuned(s), run);
    assert [] + UnitsOfRun(s, run) == UnitsOfRun(s, run);
  }

  /** Pictures as they would arrive: the ones with anything in them, each at its time on the stream. */
  function Arriving(s: Stream, pictures: seq<Picture>): seq<(u32, seq<byte>)> {
    if pictures == [] then []
    else (if pictures[0].data == [] then [] else [(s.Timestamp(pictures[0].nanos), pictures[0].data)])
         + Arriving(s, pictures[1..])
  }

  /** Access units framed again at the width they came in at. */
  function Reframed(width: nat, units: seq<AccessUnit>): Option<seq<(u32, seq<byte>)>> {
    if units == [] then Some([])
    else
      var rest :- Reframed(width, units[1..]);
      match ToLengthPrefixed(units[0].nalus, width)
      case Ok(data) => Some([(units[0].timestamp, data)] + rest)
      case Err(_) => None
  }

  lemma {:induction false} UnitsReframe(s: Stream, width: nat, pictures: seq<Picture>)
    requires Relayable(width, pictures)
    ensures Reframed(width, UnitsOfRun(s, Split(width, pictures))) == Some(Arriving(s, pictures))
    decreases |pictures|
  {
    hide SplitLengthPrefixed, ToLengthPrefixed;
    if pictures != [] {
      assert forall p <- pictures[1..] :: p in pictures;
      UnitsReframe(s, width, pictures[1..]);
      var first, later := pictures[0], UnitsOfRun(s, Split(width, pictures[1..]));
      var nalus := SplitLengthPrefixed(first.data, width).value;
      H264RoundTrip.SplitThenJoin(first.data, width);
      EmptySplitsToNothing(first.data, width);
      assert Split(width, pictures)[1..] == Split(width, pictures[1..]);
      if first.data == [] {
        assert [] + later == later && [] + Arriving(s, pictures[1..]) == Arriving(s, pictures[1..]);
      } else {
        var units := [AccessUnit(s.Timestamp(first.nanos), nalus)] + later;
        assert units[1..] == later;
      }
    }
  }

  lemma EmptySplitsToNothing(data: seq<byte>, width: nat)
    requires SplitLengthPrefixed(data, width).Ok?
    ensures data == [] <==> SplitLengthPrefixed(data, width).value == []
  {
  }

  /** So the bytes themselves survive: the units a player gets, framed as they came, are the pictures that came. */
  lemma BytesSurvive(s: Stream, channel: byte, width: nat, pictures: seq<Picture>)
    requires s.Valid() && s.Budget() > 2 && s.mtu <= 0xffff && Relayable(width, pictures)
    ensures var played := Play(s, Wire(s, channel, width, pictures));
            played.Some? && Reframed(width, played.value) == Some(Arriving(s, pictures))
  {
    hide Play, Wire, Split, UnitsOfRun, Relayable;
    RepackagingPreservesTheStream(s, channel, width, pictures);
    UnitsReframe(s, width, pictures);
  }
}

/**
  * A player that keeps the channels of its connection apart gets every track it
  * set up, whole and in order, whatever order the units of the tracks came in.
  */
module EgressTracks {
  import opened Wrappers
  import opened Bytes
  import opened H264
  import opened Rtp
  import opened Egress
  import Clocks
  import P = RtpReceiver
  import A = RtpAac
  import Rtsp
  import U = Unit

  /** No two tracks share a channel. The client names the channels. */
  predicate Apart(bounds: seq<Bound>) {
    forall i, j :: 0 <= i < j < |bounds| ==> bounds[i].channel != bounds[j].channel
  }

  /** The units that go to one packetizer. */
  function Mine(bounds: seq<Bound>, i: nat, units: seq<U.Unit>): seq<U.Unit> {
    if units == [] then []
    else (if Find(bounds, units[0].track) == Some(i) then [units[0]] else []) + Mine(bounds, i, units[1..])
  }

  /** What frames say on one channel. */
  function OnChannel(frames: seq<Rtsp.Frame>, channel: byte): seq<seq<byte>> {
    if frames == [] then []
    else (if frames[0].channel == channel then [frames[0].data] else []) + OnChannel(frames[1..], channel)
  }

  /** A packetizer's packets for units one after another. */
  function Emitted(p: Sender, units: seq<U.Unit>): seq<seq<byte>>
    requires p.Fits()
    decreases |units|
  {
    if units == [] then [] else PacketsOf(p, units[0]) + Emitted(Sent(p, units[0]), units[1..])
  }

  lemma {:induction false} OnChannelAppend(a: seq<Rtsp.Frame>, b: seq<Rtsp.Frame>, channel: byte)
    ensures OnChannel(a + b, channel) == OnChannel(a, channel) + OnChannel(b, channel)
  {
    if a == [] {
      assert a + b == b;
    } else {
      OnChannelAppend(a[1..], b, channel);
      assert (a + b)[1..] == a[1..] + b && (a + b)[0] == a[0];
      var first := if a[0].channel == channel then [a[0].data] else [];
      Associative(first, OnChannel(a[1..], channel), OnChannel(b, channel));
    }
  }

  lemma {:induction false} OnOneChannel(channel: byte, packets: seq<seq<byte>>, asked: byte)
    ensures OnChannel(Rtsp.FramesOf(channel, packets), asked) == if asked == channel then packets else []
  {
    if packets == [] {
    } else {
      OnOneChannel(channel, packets[1..], asked);
      assert Rtsp.FramesOf(channel, packets)[1..] == Rtsp.FramesOf(channel, packets[1..]);
    }
  }

  lemma PacketsFit(p: Sender, unit: U.Unit)
    requires p.Fits()
    ensures forall packet <- PacketsOf(p, unit) :: |packet| <= 0xffff
  {
    hide Numbered, UnitParts, A.Pieces, WriteHeader;
    var packets := PacketsOf(p, unit);
    forall packet <- packets ensures |packet| <= 0xffff {
      var i :| 0 <= i < |packets| && packets[i] == packet;
      var timestamp, budget := p.stream.Timestamp(unit.pts * Clocks.NANOS), p.stream.Budget();
      if unit.Picture? {
        NumberedAt(p.stream, timestamp, UnitParts(unit.nalus, budget), i);
        P.UnitPartsFit(unit.nalus, budget, i);
      } else {
        NumberedAt(p.stream, timestamp, A.FrameParts(unit.data, budget), i);
        A.PiecesFit(A.AuHeader(|unit.data|), unit.data, budget - A.PREFIX, i);
      }
    }
  }

  /** The connection reads back as frames with nothing left over, and each channel carries one packetizer's packets. */
  lemma {:induction false} ChannelCarriesTrack(bounds: seq<Bound>, senders: seq<Sender>, units: seq<U.Unit>, i: nat)
    requires |senders| == |bounds| && AllFit(senders) && Apart(bounds) && i < |bounds|
    ensures var (frames, left) := Rtsp.ReadFrames(Play(bounds, senders, units));
            left == [] && OnChannel(frames, bounds[i].channel) == Emitted(senders[i], Mine(bounds, i, units))
    decreases |units|
  {
    hide Rtsp.ReadFrames, Rtsp.InterleaveAll, PacketsOf, Sent, Rtsp.FramesOf;
    if units == [] {
      Rtsp.NothingReads();
    } else {
      var unit, rest := units[0], units[1..];
      var (after, bytes) := WriteUnit(bounds, senders, unit);
      ChannelCarriesTrack(bounds, after, rest, i);
      var (frames, left) := Rtsp.ReadFrames(Play(bounds, after, rest));
      match Find(bounds, unit.track)
      case None =>
        assert bytes + Play(bounds, after, rest) == Play(bounds, after, rest);
        assert Mine(bounds, i, units) == Mine(bounds, i, rest);
      case Some(k) =>
        var packets := PacketsOf(senders[k], unit);
        PacketsFit(senders[k], unit);
        Rtsp.FramesThen(bounds[k].channel, packets, Play(bounds, after, rest));
        OnChannelAppend(Rtsp.FramesOf(bounds[k].channel, packets), frames, bounds[i].channel);
        OnOneChannel(bounds[k].channel, packets, bounds[i].channel);
        if k == i {
          assert Mine(bounds, i, units)[1..] == Mine(bounds, i, rest);
        } else {
          assert bounds[k].channel != bounds[i].channel;
          assert Mine(bounds, i, units) == Mine(bounds, i, rest);
        }
    }
  }

  // ---------------------------------------------------------------- receivers

  /** Pictures of the NAL unit types that travel as they are or in fragments. */
  predicate Playable(units: seq<U.Unit>) {
    forall u <- units :: u.Picture? ==> forall nal <- u.nalus :: P.Plain(NalType(nal))
  }

  function AccessOf(unit: U.Unit): P.Access
    requires unit.Picture?
  {
    P.Access(unit.nalus, unit.pts * Clocks.NANOS)
  }

  function Accesses(units: seq<U.Unit>): seq<P.Access> {
    if units == [] then []
    else (if units[0].Picture? then [AccessOf(units[0])] else []) + Accesses(units[1..])
  }

  function Heard(units: seq<U.Unit>): seq<A.Sound> {
    if units == [] then []
    else (if units[0].Frame? then [SoundOf(units[0])] else []) + Heard(units[1..])
  }

  function SoundOf(unit: U.Unit): A.Sound
    requires unit.Frame?
  {
    A.Sound(unit.data, unit.pts * Clocks.NANOS)
  }

  lemma {:induction false} AccessesSend(units: seq<U.Unit>, budget: nat)
    requires Playable(units) && budget > 2
    ensures P.Sendable(budget, Accesses(units))
  {
    if units != [] {
      assert forall u <- units[1..] :: u in units;
      AccessesSend(units[1..], budget);
      assert units[0] in units;
    }
  }

  lemma SentNothing(p: Sender, unit: U.Unit)
    requires p.Fits() && PacketsOf(p, unit) == []
    ensures Sent(p, unit) == p
  {
    AfterNone(p.stream);
  }

  lemma {:induction false} EmitsPictures(p: Sender, units: seq<U.Unit>)
    requires p.Fits() && p.Pictures? && Playable(units)
    ensures P.Sendable(p.stream.Budget(), Accesses(units))
    ensures Emitted(p, units) == P.RunPackets(p.stream, Accesses(units))
    decreases |units|
  {
    hide Numbered, UnitParts, After, P.Sendable;
    AccessesSend(units, p.stream.Budget());
    if units != [] {
      assert forall u <- units[1..] :: u in units;
      EmitsPictures(Sent(p, units[0]), units[1..]);
      if units[0].Picture? {
        assert Accesses(units)[1..] == Accesses(units[1..]);
      } else {
        SentNothing(p, units[0]);
        assert Accesses(units) == Accesses(units[1..]);
      }
    }
  }

  lemma {:induction false} EmitsSounds(p: Sender, units: seq<U.Unit>)
    requires p.Fits() && p.Sounds?
    ensures Emitted(p, units) == A.RunPackets(p.stream, Heard(units))
    decreases |units|
  {
    hide PacketsOf, Sent, A.RunPackets;
    if units == [] {
      NoSounds(p);
    } else {
      var next, rest := Sent(p, units[0]), units[1..];
      EmitsSounds(next, rest);
      SoundEmits(p, units[0], Heard(rest));
      if units[0].Frame? {
        assert Heard(units) == [SoundOf(units[0])] + Heard(rest);
      } else {
        assert Heard(units) == Heard(rest);
      }
    }
  }

  lemma NoSounds(p: Sender)
    requires p.Fits() && p.Sounds?
    ensures A.RunPackets(p.stream, []) == []
  {
  }

  /** One unit to a packetizer of sound, and sounds after it. */
  lemma SoundEmits(p: Sender, unit: U.Unit, later: seq<A.Sound>)
    requires p.Fits() && p.Sounds?
    ensures PacketsOf(p, unit) + A.RunPackets(Sent(p, unit).stream, later)
         == A.RunPackets(p.stream, (if unit.Frame? then [SoundOf(unit)] else []) + later)
  {
    hide Numbered, A.FrameParts, After;
    if unit.Frame? {
      assert ([SoundOf(unit)] + later)[1..] == later;
      if |unit.data| > A.MAX_ACCESS_UNIT {
        SentNothing(p, unit);
      }
    } else {
      SentNothing(p, unit);
      assert [] + later == later;
    }
  }

  /** What a player makes of one track. */
  datatype Received = Watched(pictures: seq<P.AccessUnit>) | Listened(frames: seq<A.Frame>)

  /** A strict receiver of the track's kind, given everything on its channel. It must end between access units. */
  function Receive(p: Sender, packets: seq<seq<byte>>): Option<Received> {
    match p
    case Pictures(s) =>
      var r :- P.ReceiveAll(P.Tuned(s), packets);
      if r.Idle() then Some(Watched(r.units)) else None
    case Sounds(s) =>
      var r :- A.ReceiveAll(A.Tuned(s), packets);
      if r.timestamp.None? then Some(Listened(r.frames)) else None
  }

  /** What the track's units are to a player: their coded bytes, each at its time. */
  function Due(p: Sender, units: seq<U.Unit>): Received {
    match p
    case Pictures(s) => Watched(P.UnitsOfRun(s, Accesses(units)))
    case Sounds(s) => Listened(A.FramesOfRun(s, Heard(units)))
  }

  lemma EmittedIsReceived(p: Sender, units: seq<U.Unit>)
    requires p.Fits() && Playable(units)
    ensures Receive(p, Emitted(p, units)) == Some(Due(p, units))
  {
    hide Emitted, Accesses, Heard, P.RunPackets, A.RunPackets, P.ReceiveAll, A.ReceiveAll, P.UnitsOfRun, A.FramesOfRun;
    match p
    case Pictures(s) =>
      EmitsPictures(p, units);
      P.RunReceived(s, P.Tuned(s), Accesses(units));
      assert [] + P.UnitsOfRun(s, Accesses(units)) == P.UnitsOfRun(s, Accesses(units));
    case Sounds(s) =>
      EmitsSounds(p, units);
      A.RunReceived(s, A.Tuned(s), Heard(units));
      assert [] + A.FramesOfRun(s, Heard(units)) == A.FramesOfRun(s, Heard(units));
  }

  lemma {:induction false} MineAreAmong(bounds: seq<Bound>, i: nat, units: seq<U.Unit>)
    ensures forall u <- Mine(bounds, i, units) :: u in units
  {
    if units != [] {
      MineAreAmong(bounds, i, units[1..]);
    }
  }

  /**
    * However the units of different tracks are interleaved, each track set up arrives on its own channel as
    * if it were alone on the connection: every picture's NAL units and every expressible frame, in order and
    * at its time.
    */
  lemma EveryTrackPlays(bounds: seq<Bound>, senders: seq<Sender>, units: seq<U.Unit>, i: nat)
    requires |senders| == |bounds| && AllFit(senders) && Apart(bounds) && i < |bounds| && Playable(units)
    ensures var (frames, left) := Rtsp.ReadFrames(Play(bounds, senders, units));
            var mine := Mine(bounds, i, units);
            left == [] && Receive(senders[i], OnChannel(frames, bounds[i].channel)) == Some(Due(senders[i], mine))
  {
    hide Rtsp.ReadFrames, Play, OnChannel, Receive, Due, Mine, Emitted;
    ChannelCarriesTrack(bounds, senders, units, i);
    MineAreAmong(bounds, i, units);
    EmittedIsReceived(senders[i], Mine(bounds, i, units));
  }
}

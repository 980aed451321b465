/**
  * What a player is sent: every track it asked for, each on its own channel of
  * the one connection, and what a player that keeps the channels apart gets back.
  */
module Egress {
  import opened Wrappers
  import opened Bytes
  import opened Rtp
  import Clocks
  import A = RtpAac
  import Rtsp
  import U = Unit

  /** A track's packetizer, by what it packetizes. */
  datatype Sender = Pictures(stream: Stream) | Sounds(stream: Stream) {
    /** Room for a fragment's header or a size, and no packet too long to interleave. */
    predicate Fits() { stream.Valid() && stream.Budget() > A.PREFIX && stream.mtu <= 0xffff }
  }

  datatype Bound = Bound(track: nat, channel: byte)

  predicate AllFit(senders: seq<Sender>) { forall s <- senders :: s.Fits() }

  /** The first track bound to an id. */
  function Find(bounds: seq<Bound>, track: nat): (r: Option<nat>)
    ensures match r
            case Some(i) =>
              i < |bounds| && bounds[i].track == track && forall j :: 0 <= j < i ==> bounds[j].track != track
            case None => forall b <- bounds :: b.track != track
  {
    if bounds == [] then None
    else if bounds[0].track == track then Some(0)
    else
      var i :- Find(bounds[1..], track);
      Some(i + 1)
  }

  /** A unit as packets. One not of the packetizer's kind is none, and nor is a frame too long to express. */
  function PacketsOf(p: Sender, unit: U.Unit): seq<seq<byte>>
    requires p.Fits()
  {
    var timestamp := p.stream.Timestamp(unit.pts * Clocks.NANOS);
    if p.Pictures? && unit.Picture? then Numbered(p.stream, timestamp, UnitParts(unit.nalus, p.stream.Budget()))
    else if p.Sounds? && unit.Frame? && |unit.data| <= A.MAX_ACCESS_UNIT then
      Numbered(p.stream, timestamp, A.FrameParts(unit.data, p.stream.Budget()))
    else []
  }

  function Sent(p: Sender, unit: U.Unit): (p': Sender)
    requires p.Fits()
    ensures p'.Fits() && (p'.Pictures? <==> p.Pictures?)
  {
    p.(stream := After(p.stream, |PacketsOf(p, unit)|))
  }

  /** What one unit adds to the connection, and where it leaves the packetizers. */
  function WriteUnit(bounds: seq<Bound>, senders: seq<Sender>, unit: U.Unit): (w: (seq<Sender>, seq<byte>))
    requires |senders| == |bounds| && AllFit(senders)
    ensures |w.0| == |bounds| && AllFit(w.0)
  {
    match Find(bounds, unit.track)
    case None => (senders, [])
    case Some(i) =>
      (senders[i := Sent(senders[i], unit)], Rtsp.InterleaveAll(bounds[i].channel, PacketsOf(senders[i], unit)))
  }

  function Play(bounds: seq<Bound>, senders: seq<Sender>, units: seq<U.Unit>): seq<byte>
    requires |senders| == |bounds| && AllFit(senders)
    decreases |units|
  {
    if units == [] then []
    else
      var (after, bytes) := WriteUnit(bounds, senders, units[0]);
      bytes + Play(bounds, after, units[1..])
  }

  // ---------------------------------------------------------------- in place

  datatype Packetizer = OfPictures(pictures: H264Packetizer) | OfSound(sound: A.AacPacketizer) {
    ghost function Object(): object {
      match this
      case OfPictures(p) => p
      case OfSound(p) => p
    }

    ghost function State(): Sender
      reads Object()
    {
      match this
      case OfPictures(p) => Pictures(p.stream)
      case OfSound(p) => Sounds(p.stream)
    }
  }

  class Playing {
    const bounds: seq<Bound>
    const packetizers: seq<Packetizer>

    ghost function Objects(): set<object> {
      set p <- packetizers :: p.Object()
    }

    /** One packetizer to a track, none of them shared. */
    ghost predicate Valid() {
      && |packetizers| == |bounds|
      && forall i, j :: 0 <= i < j < |packetizers| ==> packetizers[i].Object() != packetizers[j].Object()
    }

    ghost function Senders(): seq<Sender>
      reads Objects()
    {
      seq(|packetizers|, i requires 0 <= i < |packetizers| reads Objects() => packetizers[i].State())
    }

    constructor (bounds: seq<Bound>, packetizers: seq<Packetizer>)
      ensures this.bounds == bounds && this.packetizers == packetizers
    {
      this.bounds, this.packetizers := bounds, packetizers;
    }

    /** What a unit comes to on the connection: its track's packets, framed, if its track is wanted. */
    method Write(out: Buffer, unit: U.Unit)
      requires Valid() && AllFit(Senders()) && out !in Objects()
      modifies out, Objects()
      ensures Senders() == WriteUnit(bounds, old(Senders()), unit).0
      ensures out.data == old(out.data) + WriteUnit(bounds, old(Senders()), unit).1
    {
      hide Numbered, UnitParts, A.FrameParts, Rtsp.InterleaveAll, After;
      var i := 0;
      while i < |bounds| && bounds[i].track != unit.track
        invariant 0 <= i <= |bounds|
        invariant forall j :: 0 <= j < i ==> bounds[j].track != unit.track
      {
        i := i + 1;
      }
      if i == |bounds| {
        return;
      }
      assert Find(bounds, unit.track) == Some(i);
      ghost var before, was := Senders(), packetizers[i].State();
      assert was == before[i] && was.Fits();
      var packets := Packetize(packetizers[i], unit);
      assert Senders() == before[i := packetizers[i].State()];
      PutAll(out, bounds[i].channel, packets);
    }

    static method Packetize(packetizer: Packetizer, unit: U.Unit) returns (packets: seq<seq<byte>>)
      requires packetizer.State().Fits()
      modifies packetizer.Object()
      ensures packets == PacketsOf(old(packetizer.State()), unit)
      ensures packetizer.State() == Sent(old(packetizer.State()), unit)
    {
      hide Numbered, UnitParts, A.FrameParts, Packetized, A.FramePacketized;
      AfterNone(packetizer.State().stream);
      match (packetizer, unit)
      case (OfPictures(p), Picture(_, nalus, pts, _, _)) =>
        PacketizesExactly(p.stream, nalus, pts * Clocks.NANOS);
        var r := p.Packetize(nalus, pts * Clocks.NANOS);
        packets := r.value;
      case (OfSound(p), Frame(_, data, pts)) =>
        A.FramePacketizesExactly(p.stream, data, pts * Clocks.NANOS);
        A.TooLongIsRefused(p.stream, data, pts * Clocks.NANOS);
        var r := p.Packetize(data, pts * Clocks.NANOS);
        packets := if r.value.Ok? then r.value.value else [];
      case (_, _) =>
        packets := [];
    }

    static method PutAll(out: Buffer, channel: byte, packets: seq<seq<byte>>)
      modifies out
      ensures out.data == old(out.data) + Rtsp.InterleaveAll(channel, packets)
    {
      hide Rtsp.Interleave;
      ghost var start, done := out.data, [];
      assert packets[0..] == packets;
      for i := 0 to |packets|
        invariant out.data == start + done
        invariant done + Rtsp.InterleaveAll(channel, packets[i..]) == Rtsp.InterleaveAll(channel, packets)
      {
        var r := Rtsp.PutInterleaved(out, channel, packets[i]);
        ghost var bytes := match Rtsp.Interleave(channel, packets[i]) case Ok(b) => b case Err(_) => [];
        Associative(done, bytes, Rtsp.InterleaveAll(channel, packets[i + 1..]));
        Associative(start, done, bytes);
        done := done + bytes;
      }
      assert done + [] == done;
    }
  }
}

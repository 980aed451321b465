/** From a publisher's connection to a player's: what is sent to the one is what is played at the other. */
module Relay {
  import opened Wrappers
  import opened Track
  import opened Egress
  import opened EgressTracks
  import opened Session
  import opened SessionRuns
  import B = Bytes
  import A = RtpAac
  import Cache
  import Clocks
  import Delivery
  import P = RtpReceiver
  import Rtp
  import Rtsp
  import SessionMedia
  import U = Unit

  /** A track a client set up, and the channel it asked for it on, if it asked for one. */
  datatype Setup = Setup(track: nat, channel: Option<B.byte>)

  /** Where a stream's numbers begin. They need only differ. */
  datatype Start = Start(ssrc: B.u32, sequence: B.u16, origin: B.u32)

  const VIDEO_CLOCK: B.u32 := 90_000
  const VIDEO_PAYLOAD: Rtp.PayloadType := 96
  const AUDIO_PAYLOAD: Rtp.PayloadType := 97

  function NewStream(start: Start, payloadType: Rtp.PayloadType, clockRate: B.u32): Rtp.Stream {
    Rtp.Stream(start.ssrc, payloadType, clockRate, start.sequence, start.origin, Rtp.MTU)
  }

  function SenderFor(codec: Codec, start: Start): (s: Sender)
    ensures s.Fits() && (s.Pictures? <==> codec.H264Codec?)
  {
    match codec
    case H264Codec(_) => Pictures(NewStream(start, VIDEO_PAYLOAD, VIDEO_CLOCK))
    case AacCodec(aac) => Sounds(NewStream(start, AUDIO_PAYLOAD, aac.sampleRate))
  }

  /** A packetizer for each track set up that the stream has and that is to go on this connection. */
  function Attach(d: Description, setups: seq<Setup>, starts: seq<Start>): (a: (seq<Bound>, seq<Sender>))
    requires |starts| == |setups|
    ensures |a.0| == |a.1| && AllFit(a.1)
    ensures forall i :: 0 <= i < |a.0| ==> Suits(d, a.0[i], a.1[i])
    ensures forall b: Bound :: b in a.0 <==> b.track < |d.tracks| && Setup(b.track, Some(b.channel)) in setups
  {
    if setups == [] then ([], [])
    else
      var (bounds, senders) := Attach(d, setups[1..], starts[1..]);
      var Setup(track, channel) := setups[0];
      if track < |d.tracks| && channel.Some? then
        ([Bound(track, channel.value)] + bounds, [SenderFor(d.tracks[track], starts[0])] + senders)
      else (bounds, senders)
  }

  /** A packetizer of the kind of its track. */
  predicate Suits(d: Description, bound: Bound, sender: Sender) {
    bound.track < |d.tracks| && (sender.Pictures? <==> d.tracks[bound.track].H264Codec?)
  }

  /** A track's packetizer: numbered from its own start, at its clock rate, in packets of up to 1400. */
  function NumberedFor(codec: Codec, start: Start): Sender {
    match codec
    case H264Codec(_) => Pictures(Rtp.Stream(start.ssrc, 96, 90_000, start.sequence, start.origin, 1400))
    case AacCodec(aac) => Sounds(Rtp.Stream(start.ssrc, 97, aac.sampleRate, start.sequence, start.origin, 1400))
  }

  lemma AttachFirst(d: Description, setups: seq<Setup>, starts: seq<Start>)
    requires |starts| == |setups| > 0
    ensures var (bounds, senders) := Attach(d, setups[1..], starts[1..]);
            var Setup(track, channel) := setups[0];
            Attach(d, setups, starts) ==
              if track < |d.tracks| && channel.Some? then
                ([Bound(track, channel.value)] + bounds, [SenderFor(d.tracks[track], starts[0])] + senders)
              else (bounds, senders)
  {
    hide SenderFor;
  }

  /** Each goes on the channel it was asked for on, for one of the setups, with that one's numbers. */
  lemma {:induction false} AttachedAsAsked(d: Description, setups: seq<Setup>, starts: seq<Start>, i: nat)
    returns (k: nat)
    requires |starts| == |setups| && i < |Attach(d, setups, starts).0|
    ensures k < |setups| && setups[k].track < |d.tracks|
    ensures var (bounds, senders) := Attach(d, setups, starts);
            && setups[k] == Setup(bounds[i].track, Some(bounds[i].channel))
            && senders[i] == NumberedFor(d.tracks[setups[k].track], starts[k])
    decreases |setups|
  {
    hide Attach, SenderFor, NumberedFor;
    if setups == [] {
      NothingToAttach(d);
      assert false;
    }
    AttachFirst(d, setups, starts);
    SenderIsNumberedThere(d, setups[0], starts[0]);
    var later := Attach(d, setups[1..], starts[1..]).0;
    var added := |Attach(d, setups, starts).0| - |later|;
    if i < added {
      k := 0;
    } else {
      k := AttachedAsAsked(d, setups[1..], starts[1..], i - added);
      k := k + 1;
    }
  }

  lemma NothingToAttach(d: Description)
    ensures Attach(d, [], []) == ([], [])
  {
  }

  lemma SenderIsNumberedThere(d: Description, setup: Setup, start: Start)
    ensures setup.track < |d.tracks| ==>
      SenderFor(d.tracks[setup.track], start) == NumberedFor(d.tracks[setup.track], start)
  {
  }

  /** What a track's units are to whoever plays them: the coded bytes of its own kind, at their times on its clock. */
  function Expected(codec: Codec, origin: B.u32, units: seq<U.Unit>): Received {
    match codec
    case H264Codec(_) => Watched(Shown(origin, units))
    case AacCodec(aac) => Listened(Sounded(origin, aac.sampleRate, units))
  }

  /** Ninety ticks to the millisecond. */
  function Shown(origin: B.u32, units: seq<U.Unit>): seq<P.AccessUnit> {
    if units == [] then []
    else (if units[0].Picture? && units[0].nalus != []
          then [P.AccessUnit((origin + 90 * units[0].pts) % 0x1_0000_0000, units[0].nalus)] else [])
         + Shown(origin, units[1..])
  }

  /** Whole samples, and no frame of more than 8191 bytes. */
  function Sounded(origin: B.u32, rate: B.u32, units: seq<U.Unit>): seq<A.Frame> {
    if units == [] then []
    else (if units[0].Frame? && |units[0].data| <= 8191
          then [A.Frame((origin + units[0].pts * rate / 1000) % 0x1_0000_0000, units[0].data)] else [])
         + Sounded(origin, rate, units[1..])
  }

  lemma {:induction false} DueIsShown(s: Rtp.Stream, units: seq<U.Unit>)
    requires s.clockRate == 90_000
    ensures P.UnitsOfRun(s, Accesses(units)) == Shown(s.origin, units)
    decreases |units|
  {
    if units != [] {
      DueIsShown(s, units[1..]);
      if units[0].Picture? {
        Clocks.VideoTicksAreExact(s, units[0].pts);
        assert Accesses(units)[1..] == Accesses(units[1..]);
      } else {
        assert Accesses(units) == Accesses(units[1..]);
      }
    }
  }

  lemma {:induction false} DueIsSounded(s: Rtp.Stream, units: seq<U.Unit>)
    ensures A.FramesOfRun(s, Heard(units)) == Sounded(s.origin, s.clockRate, units)
    decreases |units|
  {
    if units != [] {
      DueIsSounded(s, units[1..]);
      if units[0].Frame? {
        Clocks.MillisInTicks(s, units[0].pts);
        assert Heard(units)[1..] == Heard(units[1..]);
      } else {
        assert Heard(units) == Heard(units[1..]);
      }
    }
  }

  lemma DueIsExpected(d: Description, setups: seq<Setup>, starts: seq<Start>, i: nat, units: seq<U.Unit>)
    requires |starts| == |setups| && i < |Attach(d, setups, starts).0|
    ensures var (bounds, senders) := Attach(d, setups, starts);
            && bounds[i].track < |d.tracks|
            && Due(senders[i], units) == Expected(d.tracks[bounds[i].track], senders[i].stream.origin, units)
  {
    hide Attach, P.UnitsOfRun, A.FramesOfRun, Shown, Sounded, Accesses, Heard;
    var (bounds, senders) := Attach(d, setups, starts);
    var _ := AttachedAsAsked(d, setups, starts, i);
    match senders[i]
    case Pictures(s) => DueIsShown(s, units);
    case Sounds(s) => DueIsSounded(s, units);
  }

  /** Units of a session's, in any order and with any missing. */
  predicate Among(units: seq<U.Unit>, actions: seq<Action>) {
    forall u <- units :: Media(u) in actions
  }

  lemma UnitsMatch(actions: seq<Action>, d: Description, path: seq<B.byte>, unit: U.Unit)
    requires Safe(actions) && Action.Publish(path, d) in actions && Media(unit) in actions
    ensures Matches(d, unit)
  {
    var i :| 0 <= i < |actions| && actions[i] == Media(unit);
    var j :| 0 <= j < |actions| && actions[j] == Action.Publish(path, d);
  }

  /** No unit of a session's ever reaches a packetizer of the other kind. */
  lemma {:induction false} OnlyItsOwnKind(events: seq<Event>, d: Description, path: seq<B.byte>, setups: seq<Setup>,
                                          starts: seq<Start>, units: seq<U.Unit>, i: nat)
    requires |starts| == |setups| && Action.Publish(path, d) in Actions(Run(events).turns)
    requires Among(units, Actions(Run(events).turns)) && i < |Attach(d, setups, starts).0|
    ensures var (bounds, senders) := Attach(d, setups, starts);
            forall u <- Mine(bounds, i, units) :: u.track == bounds[i].track && (u.Picture? <==> senders[i].Pictures?)
    decreases |units|
  {
    hide Run, Safe, Actions, Matches;
    SessionIsSafe(events);
    var (bounds, senders) := Attach(d, setups, starts);
    if units != [] {
      assert forall u <- units[1..] :: u in units;
      OnlyItsOwnKind(events, d, path, setups, starts, units[1..], i);
      KindOf(Actions(Run(events).turns), d, path, units[0]);
      assert Suits(d, bounds[i], senders[i]);
    }
  }

  lemma KindOf(actions: seq<Action>, d: Description, path: seq<B.byte>, unit: U.Unit)
    requires Safe(actions) && Action.Publish(path, d) in actions && Media(unit) in actions
    ensures unit.track < |d.tracks| && (unit.Picture? <==> d.tracks[unit.track].H264Codec?)
  {
    hide Safe;
    UnitsMatch(actions, d, path, unit);
  }

  /**
    * What is published is what is played. Whatever a publisher sends, and whichever of the units made of it a
    * player is handed, each track the player set up arrives on its own channel, through a strict receiver of
    * the track's kind, as exactly the units of that track: every coded byte, in order, at its time.
    */
  lemma PublishedIsPlayed(events: seq<Event>, d: Description, path: seq<B.byte>, setups: seq<Setup>,
                          starts: seq<Start>, units: seq<U.Unit>, i: nat)
    requires |starts| == |setups| && Action.Publish(path, d) in Actions(Run(events).turns)
    requires Among(units, Actions(Run(events).turns)) && Playable(units)
    requires Apart(Attach(d, setups, starts).0) && i < |Attach(d, setups, starts).0|
    ensures var (bounds, senders) := Attach(d, setups, starts);
            var mine := Mine(bounds, i, units);
            var (frames, left) := Rtsp.ReadFrames(Play(bounds, senders, units));
            && left == [] && bounds[i].track < |d.tracks|
            && EgressTracks.Receive(senders[i], OnChannel(frames, bounds[i].channel))
               == Some(Expected(d.tracks[bounds[i].track], senders[i].stream.origin, mine))
            && forall u <- mine :: u.track == bounds[i].track && (u.Picture? <==> senders[i].Pictures?)
  {
    hide Run, Actions, Attach, Playable, Apart, Mine, EgressTracks.Receive, Due, Expected, OnChannel, Rtsp.ReadFrames,
         Play;
    var (bounds, senders) := Attach(d, setups, starts);
    EveryTrackPlays(bounds, senders, units, i);
    DueIsExpected(d, setups, starts, i, Mine(bounds, i, units));
    OnlyItsOwnKind(events, d, path, setups, starts, units, i);
  }

  // ---------------------------------------------------------------- through a path

  /** The units pushed over a run of a reader's life. */
  function Pushed(feed: seq<Delivery.Event>): seq<U.Unit> {
    if feed == [] then []
    else
      var last := feed[|feed| - 1];
      Pushed(feed[..|feed| - 1]) + if last.Push? then [last.unit] else []
  }

  lemma {:induction false} SentArePushed(history: seq<U.Unit>, feed: seq<Delivery.Event>)
    ensures Delivery.Run(history, feed).feed.sent <= history + Pushed(feed)
    ensures !Delivery.Run(history, feed).feed.closed ==> Delivery.Run(history, feed).feed.sent == history + Pushed(feed)
    decreases |feed|
  {
    hide Cache.Kept, Delivery.Poll;
    if feed != [] {
      SentArePushed(history, feed[..|feed| - 1]);
    }
  }

  lemma {:induction false} UnitsAreMedia(actions: seq<Action>)
    ensures Among(SessionMedia.Units(actions), actions)
  {
    if actions != [] {
      UnitsAreMedia(actions[1..]);
      assert forall a <- actions[1..] :: a in actions;
    }
  }

  /** What a reader is given was pushed, before it joined or since. */
  lemma DeliveredWerePushed(history: seq<U.Unit>, feed: seq<Delivery.Event>)
    ensures forall u <- Delivery.Run(history, feed).delivered :: u in history + Pushed(feed)
  {
    hide Delivery.Run, Cache.Kept, Pushed;
    var l := Delivery.Run(history, feed);
    Delivery.DeliveredInOrder(history, feed);
    SentArePushed(history, feed);
    Cache.KeptIsAnEnd(history);
    var all := history + Pushed(feed);
    assert forall u <- l.feed.sent :: u in all;
    forall u <- Cache.Kept(history) ensures u in all {
      assert u in history;
    }
    if l.picked != [] {
      forall u <- Delivery.Chosen(l.feed.sent, l.picked) ensures u in all {
        assert u in l.feed.sent;
      }
    }
  }

  /**
    * From encoder to player through a path. A publisher's units are pushed as its session makes them; a reader
    * joins after any number of them and receives as it may. The player gets on each channel its track's share
    * of exactly what the reader was given, which is the start of the cache and then later units in order, going
    * on from a picture that opens a stream wherever it was passed over unless it strayed.
    */
  lemma PublishedIsPlayedLive(events: seq<Event>, d: Description, path: seq<B.byte>, joined: nat,
                              feed: seq<Delivery.Event>, setups: seq<Setup>, starts: seq<Start>, i: nat)
    requires |starts| == |setups| && Action.Publish(path, d) in Actions(Run(events).turns)
    requires joined <= |SessionMedia.Units(Actions(Run(events).turns))|
    requires var units := SessionMedia.Units(Actions(Run(events).turns));
             Playable(units) && units[..joined] + Pushed(feed) <= units
    requires Apart(Attach(d, setups, starts).0) && i < |Attach(d, setups, starts).0|
    ensures var history := SessionMedia.Units(Actions(Run(events).turns))[..joined];
            var l := Delivery.Run(history, feed);
            var (bounds, senders) := Attach(d, setups, starts);
            var mine := Mine(bounds, i, l.delivered);
            var (frames, left) := Rtsp.ReadFrames(Play(bounds, senders, l.delivered));
            && left == [] && bounds[i].track < |d.tracks|
            && EgressTracks.Receive(senders[i], OnChannel(frames, bounds[i].channel))
               == Some(Expected(d.tracks[bounds[i].track], senders[i].stream.origin, mine))
            && (forall u <- mine :: u.track == bounds[i].track && (u.Picture? <==> senders[i].Pictures?))
            && Delivery.Ordered(l.feed.sent, joined, l.picked)
            && (if l.picked == [] then l.delivered <= Cache.Kept(history)
                else l.delivered == Cache.Kept(history) + Delivery.Chosen(l.feed.sent, l.picked))
            && (Delivery.Startable(l.feed.sent, joined, l.picked) <==> Delivery.NeverStrays(history, feed))
  {
    hide Run, Actions, Attach, Playable, Apart, Mine, EgressTracks.Receive, Due, Expected, OnChannel, Rtsp.ReadFrames,
         Play, Delivery.Run, Delivery.NeverStrays, Delivery.Startable, Delivery.Ordered, Cache.Kept, SessionMedia.Units,
         Pushed;
    var actions := Actions(Run(events).turns);
    var units := SessionMedia.Units(actions);
    var history := units[..joined];
    var l := Delivery.Run(history, feed);
    Delivery.DeliveredInOrder(history, feed);
    Delivery.ResumesExactly(history, feed);
    DeliveredWerePushed(history, feed);
    UnitsAreMedia(actions);
    assert forall u <- l.delivered :: u in units;
    assert Playable(l.delivered) by { FewerPlayable(units, l.delivered); }
    PublishedIsPlayed(events, d, path, setups, starts, l.delivered, i);
  }

  lemma FewerPlayable(units: seq<U.Unit>, some: seq<U.Unit>)
    requires Playable(units) && forall u <- some :: u in units
    ensures Playable(some)
  {
  }
}

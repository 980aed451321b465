/**
  * What a run of a session makes of the media it is sent: each picture and frame
  * becomes one unit, in order, with its own bytes and its own time.
  */
module SessionMedia {
  import opened Wrappers
  import Bytes
  import Chunk
  import opened Session
  import opened SessionRuns
  import Amf0
  import Clocks
  import H264
  import U = Unit

  function Units(actions: seq<Action>): seq<U.Unit> {
    if actions == [] then []
    else (if actions[0].Media? then [actions[0].unit] else []) + Units(actions[1..])
  }

  /** Whether a message is a picture or a frame of sound. */
  predicate Brings(incoming: Incoming) {
    || (incoming.message.kind.Video? && incoming.video.Ok? && incoming.video.value.VideoPicture?)
    || (incoming.message.kind.Audio? && incoming.audio.Ok? && incoming.audio.value.AudioFrame?)
  }

  /** The media of a run, in the order it came. */
  function Brought(turns: seq<Turn>): seq<Incoming> {
    if turns == [] then []
    else
      var last := turns[|turns| - 1].event;
      Brought(turns[..|turns| - 1]) + if last.Message? && Brings(last.incoming) then [last.incoming] else []
  }

  function Stamps(media: seq<Incoming>): (r: seq<Bytes.u32>)
    ensures |r| == |media|
  {
    seq(|media|, i requires 0 <= i < |media| => media[i].message.timestamp)
  }

  /** A unit is what its message said, at a time: a picture as its NAL units, at a width, and a frame as it came. */
  predicate Bears(s: SessionState, incoming: Incoming, unit: U.Unit, time: nat) {
    if incoming.message.kind.Video? then
      && incoming.video.Ok? && incoming.video.value.VideoPicture? && s.video.Some?
      && unit.Picture? && unit.dts == time
      && unit.pts == (if time + incoming.video.value.compositionTime < 0 then 0
                      else time + incoming.video.value.compositionTime)
      && H264.SplitLengthPrefixed(incoming.video.value.data, s.video.value.nalLengthSize) == Ok(unit.nalus)
      && (unit.keyframe <==> exists nal <- unit.nalus :: nal[0] % 32 == 5)
    else
      && incoming.audio.Ok? && incoming.audio.value.AudioFrame?
      && unit.Frame? && unit.pts == time && unit.data == incoming.audio.value.data
  }

  lemma {:induction false} UnitsAppend(a: seq<Action>, b: seq<Action>)
    ensures Units(a + b) == Units(a) + Units(b)
  {
    if a == [] {
      assert a + b == b;
    } else {
      UnitsAppend(a[1..], b);
      assert (a + b)[1..] == a[1..] + b && (a + b)[0] == a[0];
      Bytes.Associative(if a[0].Media? then [a[0].unit] else [], Units(a[1..]), Units(b));
    }
  }

  lemma {:induction false} QuietHasNoUnits(actions: seq<Action>)
    requires forall a <- actions :: !a.Media?
    ensures Units(actions) == []
  {
    if actions != [] {
      QuietHasNoUnits(actions[1..]);
    }
  }

  lemma ThenMedia(first: seq<Action>, unit: U.Unit)
    requires forall a <- first :: !a.Media?
    ensures Units(first + [Media(unit)]) == [unit]
  {
    QuietHasNoUnits(first);
    UnitsAppend(first, [Media(unit)]);
    assert Units([Media(unit)]) == [unit] by { assert [Media(unit)][1..] == []; }
  }

  lemma SettleIsNotMedia(s: SessionState)
    requires Settle(s).Ok?
    ensures var (s', actions) := Settle(s).value;
            && (forall a <- actions :: !a.Media?)
            && s' == s.(published := s'.published) && s'.published.Some?
  {
  }

  lemma PictureBears(s: SessionState, incoming: Incoming)
    requires incoming.message.kind.Video? && Brings(incoming) && VideoCame(s, incoming).Ok?
    requires s.published.Some? ==> s.published == Some(Settled(s))
    ensures var (s', actions) := VideoCame(s, incoming).value;
            var (clock, time) := Clocks.At(s.clock, incoming.message.timestamp);
            && s'.clock == clock && s'.published.Some?
            && |Units(actions)| == 1 && Bears(s', incoming, Units(actions)[0], time)
  {
    hide H264.SplitLengthPrefixed, H264.IsKeyframe, Clocks.At, Settle, Units;
    SettleIsNotMedia(s);
    var (s1, first) := Settle(s).value;
    SettledWidth(s);
    var actions := VideoCame(s, incoming).value.1;
    var unit := actions[|actions| - 1].unit;
    U.OpensExactly(unit.track, unit.nalus, [], unit.pts, unit.dts);
    ThenMedia(first, unit);
  }

  lemma SettledWidth(s: SessionState)
    requires Settle(s).Ok? && (s.published.Some? ==> s.published == Some(Settled(s)))
    ensures Settle(s).value.0.published == Some(Settled(s))
  {
  }

  lemma FrameBears(s: SessionState, incoming: Incoming)
    requires incoming.message.kind.Audio? && Brings(incoming) && AudioCame(s, incoming).Ok?
    ensures var (s', actions) := AudioCame(s, incoming).value;
            var (clock, time) := Clocks.At(s.clock, incoming.message.timestamp);
            && s'.clock == clock && s'.published.Some?
            && |Units(actions)| == 1 && Bears(s', incoming, Units(actions)[0], time)
  {
    hide Clocks.At, Settle, Units;
    SettleIsNotMedia(s);
    var (s1, first) := Settle(s).value;
    var actions := AudioCame(s, incoming).value.1;
    ThenMedia(first, actions[|actions| - 1].unit);
  }

  /** Anything that is not media passes none on and leaves the clock where it was. */
  lemma OthersBearNothing(s: SessionState, e: Event)
    requires Take(s, e).Ok? && !(e.Message? && Brings(e.incoming))
    ensures Units(Take(s, e).value.1) == [] && Take(s, e).value.0.clock == s.clock
  {
    hide Command, Units, H264.ParseConfig;
    var actions := Take(s, e).value.1;
    if e.Message? && e.incoming.message.kind.Amf0Command? {
      CommandLeavesTheClock(s, e.incoming.message);
    }
    assert forall a <- actions :: !a.Media?;
    QuietHasNoUnits(actions);
  }

  lemma CommandLeavesTheClock(s: SessionState, message: Chunk.Message)
    ensures Command(s, message).Ok? ==>
      var (s', actions) := Command(s, message).value;
      s'.clock == s.clock && forall a <- actions :: !a.Media?
  {
    hide Said, Status, Amf0.ReadAll, TrimSlashes, BeforeQuery, AppOf, TextAt;
  }

  /** What a run has made of its media so far. */
  ghost predicate Accounted(l: Life) {
    var media, units := Brought(l.turns), Units(Actions(l.turns));
    var (clock, times) := Clocks.Readings(Clocks.Unset, Stamps(media));
    && |units| == |media| == |times|
    && l.session.clock == clock
    && (media != [] ==> l.session.published.Some?)
    && forall i :: 0 <= i < |media| ==> Bears(l.session, media[i], units[i], times[i])
  }

  /** One event: it brings one unit or none, and moves the clock on by that unit's timestamp or not at all. */
  lemma TurnBears(s: SessionState, before: seq<Action>, e: Event)
    requires Consistent(s, before) && Take(s, e).Ok?
    ensures var (s', actions) := Take(s, e).value;
            if e.Message? && Brings(e.incoming) then
              var (clock, time) := Clocks.At(s.clock, e.incoming.message.timestamp);
              && s'.clock == clock && s'.published.Some?
              && |Units(actions)| == 1 && Bears(s', e.incoming, Units(actions)[0], time)
            else Units(actions) == [] && s'.clock == s.clock
  {
    hide Consistent, VideoCame, AudioCame, Command, Clocks.At, Bears, Units;
    if e.Message? && Brings(e.incoming) {
      if s.published.Some? {
        ConsistentIsSettled(s, before);
      }
      if e.incoming.message.kind.Video? {
        PictureBears(s, e.incoming);
      } else {
        FrameBears(s, e.incoming);
      }
    } else {
      OthersBearNothing(s, e);
    }
  }

  lemma ReadingsThen(counter: seq<Bytes.u32>, timestamp: Bytes.u32)
    ensures var (before, times) := Clocks.Readings(Clocks.Unset, counter);
            var (after, time) := Clocks.At(before, timestamp);
            Clocks.Readings(Clocks.Unset, counter + [timestamp]) == (after, times + [time])
  {
    hide Clocks.At;
    assert (counter + [timestamp])[..|counter|] == counter;
  }

  lemma BroughtThen(turns: seq<Turn>, t: Turn)
    ensures Brought(turns + [t])
         == Brought(turns) + if t.event.Message? && Brings(t.event.incoming) then [t.event.incoming] else []
    ensures Actions(turns + [t]) == Actions(turns) + t.actions
  {
    hide Brings;
    assert (turns + [t])[..|turns|] == turns;
  }

  lemma BearsStill(s: SessionState, s': SessionState, incoming: Incoming, unit: U.Unit, time: nat)
    requires Bears(s, incoming, unit, time) && s'.video == s.video
    ensures Bears(s', incoming, unit, time)
  {
    hide H264.SplitLengthPrefixed, Offset;
  }

  lemma StepAccounts(l: Life, e: Event)
    requires Sound(l) && Accounted(l)
    ensures Accounted(Step(l, e))
  {
    hide Take, Bears, Brings, Clocks.Readings, Clocks.At, Units, Brought, Consistent, Actions, SplitAsStated;
    if !l.over && Take(l.session, e).Ok? {
      var (s', actions) := Take(l.session, e).value;
      var t := Turn(e, actions);
      var media, units := Brought(l.turns), Units(Actions(l.turns));
      TurnExtends(l.session, Actions(l.turns), e);
      TurnBears(l.session, Actions(l.turns), e);
      BroughtThen(l.turns, t);
      UnitsAppend(Actions(l.turns), actions);
      var times := Clocks.Readings(Clocks.Unset, Stamps(media)).1;
      forall i | 0 <= i < |media| ensures Bears(s', media[i], units[i], times[i]) {
        BearsStill(l.session, s', media[i], units[i], times[i]);
      }
      if e.Message? && Brings(e.incoming) {
        ReadingsThen(Stamps(media), e.incoming.message.timestamp);
        assert Stamps(media + [e.incoming]) == Stamps(media) + [e.incoming.message.timestamp];
      } else {
        assert media + [] == media && units + [] == units;
      }
    }
  }

  lemma NothingToAccount()
    ensures Accounted(Life(Fresh, [], false))
  {
    assert Stamps([]) == [];
  }

  /**
    * Over every run: the units passed on are the pictures and frames that came, one for one and in order, each
    * with its message's bytes and the time one clock gives its timestamp.
    */
  lemma {:induction false} RunAccounts(events: seq<Event>)
    ensures Accounted(Run(events))
    decreases |events|
  {
    hide Step, Accounted, Sound;
    if events == [] {
      NothingToAccount();
    } else {
      var before := events[..|events| - 1];
      RunIsSound(before);
      RunAccounts(before);
      StepAccounts(Run(before), events[|events| - 1]);
    }
  }

  /** A unit's place on the stream's timeline: when it is decoded, or heard. */
  function Time(unit: U.Unit): nat { if unit.Picture? then unit.dts else unit.pts }

  /**
    * And those times are true: a publisher whose steps can be told from its 32-bit counter has every unit put
    * at its own time since the first, over however many wraps.
    */
  lemma TimesAreTrue(events: seq<Event>, ts: seq<nat>)
    requires Clocks.Genuine(ts) && Clocks.Counter(ts) == Stamps(Brought(Run(events).turns))
    ensures var units := Units(Actions(Run(events).turns));
            && |units| == |ts|
            && forall i :: 0 <= i < |ts| ==> Time(units[i]) == if ts[i] >= ts[0] then ts[i] - ts[0] else 0
  {
    hide Run, Clocks.Readings, Clocks.Genuine, Brought, Units, Actions, H264.SplitLengthPrefixed, H264.IsKeyframe;
    RunAccounts(events);
    Clocks.CounterUnwraps(ts);
    var l := Run(events);
    var media, units := Brought(l.turns), Units(Actions(l.turns));
    var times := Clocks.Readings(Clocks.Unset, Stamps(media)).1;
    assert |Clocks.Counter(ts)| == |Stamps(media)|;
    forall i | 0 <= i < |ts| ensures Time(units[i]) == times[i] {
      assert Bears(l.session, media[i], units[i], times[i]);
    }
  }

  /**
    * A picture is decoded no later than it is shown exactly where its message states no negative offset, or
    * where the clock reads nothing from the timestamps that have come, so that there is no earlier moment to name.
    */
  lemma DecodedInTimeExactly(events: seq<Event>, i: nat)
    requires i < |Brought(Run(events).turns)| && Brought(Run(events).turns)[i].message.kind.Video?
    ensures var media, units := Brought(Run(events).turns), Units(Actions(Run(events).turns));
            var times := Clocks.Readings(Clocks.Unset, Stamps(media)).1;
            && i < |units| && i < |times| && units[i].Picture?
            && media[i].video.Ok? && media[i].video.value.VideoPicture?
            && (units[i].dts <= units[i].pts <==> media[i].video.value.compositionTime >= 0 || times[i] == 0)
  {
    hide Run, Brought, Units, Actions, Clocks.Readings, H264.SplitLengthPrefixed, H264.IsKeyframe;
    RunAccounts(events);
    var l := Run(events);
    var times := Clocks.Readings(Clocks.Unset, Stamps(Brought(l.turns))).1;
    assert Bears(l.session, Brought(l.turns)[i], Units(Actions(l.turns))[i], times[i]);
  }

  /** For a publisher whose steps can be told: where the offset is not negative, or no time has gone by. */
  lemma DecodedInTimeForTrueTimes(events: seq<Event>, ts: seq<nat>, i: nat)
    requires Clocks.Genuine(ts) && Clocks.Counter(ts) == Stamps(Brought(Run(events).turns))
    requires i < |ts| && i < |Brought(Run(events).turns)| && Brought(Run(events).turns)[i].message.kind.Video?
    ensures var media, units := Brought(Run(events).turns), Units(Actions(Run(events).turns));
            && i < |units| && units[i].Picture?
            && media[i].video.Ok? && media[i].video.value.VideoPicture?
            && (units[i].dts <= units[i].pts <==> media[i].video.value.compositionTime >= 0 || ts[i] <= ts[0])
  {
    hide Run, Brought, Units, Actions, Stamps, Clocks.Readings, Clocks.Genuine;
    DecodedInTimeExactly(events, i);
    Clocks.CounterUnwraps(ts);
  }
}

/** Whole runs of a publishing session, up to its first error or the end of its stream. */
module SessionRuns {
  import opened Wrappers
  import opened Bytes
  import Chunk
  import opened Track
  import opened Session
  import H264
  import U = Unit

  /** What a session is given: a message, or a count of bytes read. */
  datatype Event = Message(incoming: Incoming) | BytesRead(bytes: nat)

  /** An event, and what the session wanted done about it. */
  datatype Turn = Turn(event: Event, actions: seq<Action>)

  /** A connection's life so far. Once over, nothing more is handled. */
  datatype Life = Life(session: SessionState, turns: seq<Turn>, over: bool)

  function Take(s: SessionState, e: Event): Answer {
    match e
    case Message(incoming) => Handle(s, incoming)
    case BytesRead(bytes) => Ok(Receive(s, bytes))
  }

  function Step(l: Life, e: Event): Life {
    if l.over then l
    else match Take(l.session, e)
      case Err(_) => l.(over := true)
      case Ok((session, actions)) => Life(session, l.turns + [Turn(e, actions)], Unpublish in actions)
  }

  function Run(events: seq<Event>): Life {
    if events == [] then Life(Fresh, [], false)
    else Step(Run(events[..|events| - 1]), events[|events| - 1])
  }

  /** Everything the session wanted done, in order. */
  function Actions(turns: seq<Turn>): seq<Action> {
    if turns == [] then [] else Actions(turns[..|turns| - 1]) + turns[|turns| - 1].actions
  }

  // ---------------------------------------------------------------- what is safe

  /** A unit is on a track of the description, and that track is of its kind. */
  predicate Matches(description: Description, unit: U.Unit) {
    && unit.track < |description.tracks|
    && (unit.Picture? <==> description.tracks[unit.track].H264Codec?)
  }

  /** Where there is video it is track 0, and nowhere else. */
  predicate VideoFirst(description: Description) {
    forall i :: 0 < i < |description.tracks| ==> description.tracks[i].AacCodec?
  }

  /** At most one stream is published, and every unit comes after it and is one of its own. */
  predicate Safe(actions: seq<Action>) {
    && (forall i, j :: 0 <= i < j < |actions| && actions[i].Publish? ==> !actions[j].Publish?)
    && (forall i :: 0 <= i < |actions| && actions[i].Publish? ==> VideoFirst(actions[i].description))
    && (forall i :: 0 <= i < |actions| && actions[i].Media? ==>
          exists k :: 0 <= k < i && actions[k].Publish? && Matches(actions[k].description, actions[i].unit))
  }

  /** A turn in which a picture came and was passed on. */
  predicate PassedOn(t: Turn) {
    && t.event.Message? && t.event.incoming.message.kind.Video?
    && t.event.incoming.video.Ok? && t.event.incoming.video.value.VideoPicture?
    && t.actions != [] && t.actions[|t.actions| - 1].Media?
  }

  /** A picture was split at a prefix width, and nothing of it lost. */
  predicate SplitAt(t: Turn, width: nat)
    requires PassedOn(t)
  {
    var unit := t.actions[|t.actions| - 1].unit;
    unit.Picture? && H264.SplitLengthPrefixed(t.event.incoming.video.value.data, width) == Ok(unit.nalus)
  }

  /** Every picture passed on was split at the width the one sequence header kept states. */
  predicate SplitAsStated(s: SessionState, turns: seq<Turn>) {
    forall t <- turns :: PassedOn(t) ==> s.video.Some? && SplitAt(t, s.video.value.nalLengthSize)
  }

  /** What has been published, if anything has, is what the sequence headers still kept describe. */
  predicate AsKept(s: SessionState, actions: seq<Action>) {
    && ((exists a <- actions :: a.Publish?) <==> s.published.Some?)
    && forall a <- actions :: a.Publish? ==> a.description.tracks == Codecs(s)
  }

  // ---------------------------------------------------------------- the invariant

  /** Where the stream was published, if it has been. */
  predicate PublishedAt(actions: seq<Action>, k: nat, tracks: seq<Codec>) {
    && k < |actions| && actions[k].Publish? && actions[k].description.tracks == tracks
    && forall i :: 0 <= i < |actions| && actions[i].Publish? ==> i == k
  }

  predicate UnitsFollow(actions: seq<Action>, k: nat) {
    forall i :: 0 <= i < |actions| && actions[i].Media? ==>
      k < i && actions[k].Publish? && Matches(actions[k].description, actions[i].unit)
  }

  /** Nothing is published until something is settled, and what was settled is what the headers kept still say. */
  ghost predicate Consistent(s: SessionState, actions: seq<Action>) {
    if s.published.None? then
      forall i :: 0 <= i < |actions| ==> !actions[i].Publish? && !actions[i].Media?
    else
      && s.published == Some(Settled(s))
      && Codecs(s) != []
      && exists k :: PublishedAt(actions, k, Codecs(s)) && UnitsFollow(actions, k)
  }

  /** Actions that neither publish nor carry media. */
  predicate Quiet(actions: seq<Action>) { forall a <- actions :: !a.Publish? && !a.Media? }

  /** An answer that leaves the stream, the headers and the media alone. */
  predicate Incidental(s: SessionState, s': SessionState, actions: seq<Action>) {
    && s'.video == s.video && s'.audio == s.audio && s'.published == s.published && Quiet(actions)
  }

  lemma QuietExtends(s: SessionState, before: seq<Action>, s': SessionState, actions: seq<Action>)
    requires Consistent(s, before) && Incidental(s, s', actions)
    ensures Consistent(s', before + actions)
  {
    var all := before + actions;
    if s.published.None? {
      assert forall i :: 0 <= i < |all| ==> all[i] in before || all[i] in actions;
    } else {
      var k :| PublishedAt(before, k, Codecs(s)) && UnitsFollow(before, k);
      assert forall i | |before| <= i < |all| :: all[i] in actions;
      assert PublishedAt(all, k, Codecs(s)) && UnitsFollow(all, k);
    }
  }

  /** A sequence header, before anything is settled. */
  lemma HeaderExtends(s: SessionState, before: seq<Action>, s': SessionState)
    requires Consistent(s, before) && s.published.None? && s'.published.None?
    ensures Consistent(s', before + [])
  {
    assert before + [] == before;
  }

  /** A unit of media, once the stream is settled. */
  lemma MediaExtends(s: SessionState, before: seq<Action>, s': SessionState, unit: U.Unit)
    requires Consistent(s, before) && s.published.Some?
    requires s'.video == s.video && s'.audio == s.audio && s'.published == s.published
    requires Matches(Description(Codecs(s)), unit)
    ensures Consistent(s', before + [Media(unit)])
  {
    var all := before + [Media(unit)];
    var k :| PublishedAt(before, k, Codecs(s)) && UnitsFollow(before, k);
    assert PublishedAt(all, k, Codecs(s)) && UnitsFollow(all, k);
  }

  lemma SettleExtends(s: SessionState, before: seq<Action>)
    requires Consistent(s, before) && Settle(s).Ok?
    ensures var (s', actions) := Settle(s).value;
            && Consistent(s', before + actions) && s'.published.Some?
            && s' == s.(published := s'.published)
  {
    var (s', actions) := Settle(s).value;
    var all := before + actions;
    if s.published.Some? {
      assert all == before;
    } else {
      assert PublishedAt(all, |before|, Codecs(s')) && UnitsFollow(all, |before|);
    }
  }

  lemma PictureExtends(s: SessionState, before: seq<Action>, timestamp: u32, compositionTime: int, data: seq<byte>)
    requires Consistent(s, before) && PictureCame(s, timestamp, compositionTime, data).Ok?
    ensures var (s', actions) := PictureCame(s, timestamp, compositionTime, data).value;
            && Consistent(s', before + actions)
            && s'.video == s.video && s'.video.Some?
            && actions != [] && actions[|actions| - 1].Media? && actions[|actions| - 1].unit.Picture?
            && H264.SplitLengthPrefixed(data, s'.video.value.nalLengthSize) == Ok(actions[|actions| - 1].unit.nalus)
  {
    hide Consistent, H264.SplitLengthPrefixed, H264.IsKeyframe;
    SettleExtends(s, before);
    var (s1, first) := Settle(s).value;
    ConsistentIsSettled(s1, before + first);
    var (s', actions) := PictureCame(s, timestamp, compositionTime, data).value;
    var unit := actions[|actions| - 1].unit;
    MediaExtends(s1, before + first, s', unit);
    Associative(before, first, [Media(unit)]);
  }

  lemma FrameExtends(s: SessionState, before: seq<Action>, timestamp: u32, data: seq<byte>)
    requires Consistent(s, before) && FrameCame(s, timestamp, data).Ok?
    ensures var (s', actions) := FrameCame(s, timestamp, data).value;
            Consistent(s', before + actions) && s'.video == s.video
  {
    hide Consistent;
    SettleExtends(s, before);
    var (s1, first) := Settle(s).value;
    ConsistentIsSettled(s1, before + first);
    var (s', actions) := FrameCame(s, timestamp, data).value;
    var unit := actions[|actions| - 1].unit;
    MediaExtends(s1, before + first, s', unit);
    Associative(before, first, [Media(unit)]);
  }

  lemma ConsistentIsSettled(s: SessionState, actions: seq<Action>)
    requires Consistent(s, actions) && s.published.Some?
    ensures s.published == Some(Settled(s))
  {
  }

  lemma CommandIsIncidental(s: SessionState, message: Chunk.Message)
    ensures Command(s, message).Ok? ==>
      Incidental(s, Command(s, message).value.0, Command(s, message).value.1)
  {
    hide Said, Status, Amf0.ReadAll, TrimSlashes, BeforeQuery, AppOf, TextAt;
  }

  /** Every kind of message, and every count of bytes. */
  lemma TurnExtends(s: SessionState, before: seq<Action>, e: Event)
    requires Consistent(s, before) && Take(s, e).Ok?
    ensures var (s', actions) := Take(s, e).value;
            && Consistent(s', before + actions)
            && (s.published.Some? ==> s'.video == s.video && s'.published.Some?)
            && (PassedOn(Turn(e, actions)) ==>
                  && s'.published.Some? && s'.video.Some?
                  && SplitAt(Turn(e, actions), s'.video.value.nalLengthSize))
  {
    hide Consistent, Command, PictureCame, FrameCame, H264.SplitLengthPrefixed, H264.ParseConfig, Settle;
    var (s', actions) := Take(s, e).value;
    match e
    case BytesRead(_) => QuietExtends(s, before, s', actions);
    case Message(incoming) =>
      match incoming.message.kind
      case Amf0Command =>
        CommandIsIncidental(s, incoming.message);
        QuietExtends(s, before, s', actions);
      case Video => VideoExtends(s, before, incoming);
      case Audio => AudioExtends(s, before, incoming);
      case _ => QuietExtends(s, before, s', actions);
  }

  lemma VideoExtends(s: SessionState, before: seq<Action>, incoming: Incoming)
    requires Consistent(s, before) && VideoCame(s, incoming).Ok?
    ensures var (s', actions) := VideoCame(s, incoming).value;
            && Consistent(s', before + actions)
            && (s.published.Some? ==> s'.video == s.video && s'.published.Some?)
            && (incoming.video.Ok? && incoming.video.value.VideoPicture? ==>
                  && s'.published.Some? && s'.video.Some?
                  && actions != [] && actions[|actions| - 1].Media? && actions[|actions| - 1].unit.Picture?
                  && H264.SplitLengthPrefixed(incoming.video.value.data, s'.video.value.nalLengthSize)
                     == Ok(actions[|actions| - 1].unit.nalus))
  {
    hide Consistent, PictureCame, H264.SplitLengthPrefixed, H264.ParseConfig;
    var (s', actions) := VideoCame(s, incoming).value;
    match incoming.video.value
    case VideoHeader(_) =>
      if s' == s { QuietExtends(s, before, s', actions); } else { HeaderExtends(s, before, s'); }
    case VideoPicture(compositionTime, data) =>
      PictureExtends(s, before, incoming.message.timestamp, compositionTime, data);
      PictureSettles(s, incoming.message.timestamp, compositionTime, data);
    case VideoEnd => QuietExtends(s, before, s', actions);
  }

  lemma PictureSettles(s: SessionState, timestamp: u32, compositionTime: int, data: seq<byte>)
    requires PictureCame(s, timestamp, compositionTime, data).Ok?
    ensures PictureCame(s, timestamp, compositionTime, data).value.0.published.Some?
  {
    hide H264.SplitLengthPrefixed;
  }

  lemma AudioExtends(s: SessionState, before: seq<Action>, incoming: Incoming)
    requires Consistent(s, before) && AudioCame(s, incoming).Ok?
    ensures var (s', actions) := AudioCame(s, incoming).value;
            && Consistent(s', before + actions)
            && (s.published.Some? ==> s'.video == s.video && s'.published.Some?)
  {
    hide Consistent;
    var (s', actions) := AudioCame(s, incoming).value;
    match incoming.audio.value
    case AudioHeader(_) =>
      if s' == s { QuietExtends(s, before, s', actions); } else { HeaderExtends(s, before, s'); }
    case AudioFrame(data) => FrameExtends(s, before, incoming.message.timestamp, data);
  }

  /** What a run has done so far. */
  ghost predicate Sound(l: Life) {
    && Consistent(l.session, Actions(l.turns))
    && SplitAsStated(l.session, l.turns)
    && ((exists t <- l.turns :: PassedOn(t)) ==> l.session.published.Some?)
  }

  lemma StepKeeps(l: Life, e: Event)
    requires Sound(l)
    ensures Sound(Step(l, e))
  {
    hide Consistent, Take, H264.SplitLengthPrefixed;
    if !l.over && Take(l.session, e).Ok? {
      var (s', actions) := Take(l.session, e).value;
      TurnExtends(l.session, Actions(l.turns), e);
      var turns := l.turns + [Turn(e, actions)];
      assert turns[..|l.turns|] == l.turns;
      forall t <- turns | PassedOn(t)
        ensures s'.published.Some? && s'.video.Some? && SplitAt(t, s'.video.value.nalLengthSize)
      {
        if t in l.turns {
          assert PassedOn(t);
        }
      }
    }
  }

  lemma {:induction false} RunIsSound(events: seq<Event>)
    ensures Sound(Run(events))
    decreases |events|
  {
    hide Step, Sound;
    if events == [] {
      BeginningIsSound();
    } else {
      RunIsSound(events[..|events| - 1]);
      StepKeeps(Run(events[..|events| - 1]), events[|events| - 1]);
    }
  }

  lemma BeginningIsSound()
    ensures Sound(Life(Fresh, [], false))
  {
  }

  /**
    * Session safety, over every run: at most one stream is published, with video on track 0 where there is
    * any; every unit comes after it, on a track of it of the right codec; and every picture was split at the
    * prefix width of the one sequence header kept, which is also the one published.
    */
  lemma SessionIsSafe(events: seq<Event>)
    ensures var l := Run(events);
            && Safe(Actions(l.turns)) && SplitAsStated(l.session, l.turns)
            && AsKept(l.session, Actions(l.turns))
  {
    hide Run, SplitAsStated;
    var l := Run(events);
    RunIsSound(events);
    ConsistentIsSafe(l.session, Actions(l.turns));
  }

  lemma KeptIsVideoFirst(s: SessionState)
    ensures VideoFirst(Description(Codecs(s)))
  {
  }

  lemma ConsistentIsSafe(s: SessionState, actions: seq<Action>)
    requires Consistent(s, actions)
    ensures Safe(actions) && AsKept(s, actions)
  {
    hide Codecs, Settled;
    if s.published.Some? {
      var k: nat :| PublishedAt(actions, k, Codecs(s)) && UnitsFollow(actions, k);
      assert actions[k] in actions;
      KeptIsVideoFirst(s);
    }
  }
}

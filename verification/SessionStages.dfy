/**
  * How far a session has come, told from what was asked of it: whether it is on the
  * air, under what name, on which headers; and when it says that its stream is over.
  */
module SessionStages {
  import opened Wrappers
  import opened Session
  import opened SessionRuns
  import opened SessionCommands
  import Amf0
  import Bytes
  import Chunk
  import Clocks
  import H264
  import SessionReplies
  import Track

  predicate Asked(e: Event, name: Amf0.Text) { e.Message? && Called(e.incoming.message, name) }

  /** A command that a publisher ends its stream with. */
  predicate Ends(e: Event) { e.Message? && EndsStream(e.incoming.message) }

  /** Whether a stream was asked for and nothing since has ended it: none of the three commands, and no new start. */
  predicate OnAir(turns: seq<Turn>) {
    turns != []
    && var last := turns[|turns| - 1].event;
       (Asked(last, PUBLISH_TEXT)
        || (!Asked(last, CONNECT_TEXT) && !Ends(last) && OnAir(turns[..|turns| - 1])))
  }

  /** The values of a command. */
  function ValuesOf(e: Event): seq<Amf0.Value> {
    if e.Message? && Amf0.ReadAll(e.incoming.message.payload).Ok?
    then Amf0.ReadAll(e.incoming.message.payload).value else []
  }

  function Or(t: Option<Amf0.Text>): Amf0.Text { if t.Some? then t.value else [] }

  /** The application last connected to. */
  function AppNamed(turns: seq<Turn>): Amf0.Text {
    if turns == [] then []
    else
      var last := turns[|turns| - 1].event;
      if Asked(last, CONNECT_TEXT) then TrimSlashes(Or(AppStated(ValuesOf(last)))) else AppNamed(turns[..|turns| - 1])
  }

  /** Where the stream last asked for is to go. */
  function PathNamed(turns: seq<Turn>): Amf0.Text {
    if turns == [] then []
    else
      var before, last := turns[..|turns| - 1], turns[|turns| - 1].event;
      if Asked(last, PUBLISH_TEXT) then AppNamed(before) + [0x2f] + Or(KeyStated(ValuesOf(last))) else PathNamed(before)
  }

  predicate Standing(s: SessionState, turns: seq<Turn>) {
    && (s.stage.Publishing? <==> OnAir(turns))
    && s.app == AppNamed(turns)
    && s.path == PathNamed(turns)
  }

  /** A command's turn: what it says of the stream, and where it leaves the session. */
  lemma CommandStands(s: SessionState, message: Chunk.Message)
    ensures message.kind.Amf0Command? && Command(s, message).Ok? ==>
      var e := Message(Incoming(message, Err(FlvError("")), Err(FlvError(""))));
      var (s', said) := Command(s, message).value;
      && (Asked(e, PUBLISH_TEXT) ==>
            && s'.stage.Publishing? && s'.app == s.app && s'.path == s.app + [0x2f] + Or(KeyStated(ValuesOf(e)))
            && !Asked(e, CONNECT_TEXT) && !Ends(e))
      && (Asked(e, CONNECT_TEXT) ==>
            && s'.stage.Connected? && s'.app == TrimSlashes(Or(AppStated(ValuesOf(e)))) && s'.path == s.path
            && !Ends(e))
      && (Ends(e) ==> s'.stage.Connected? && s'.app == s.app && s'.path == s.path)
      && (!Asked(e, PUBLISH_TEXT) && !Asked(e, CONNECT_TEXT) && !Ends(e) ==>
            s'.stage == s.stage && s'.app == s.app && s'.path == s.path)
      && (Unpublish in said <==> Ends(e) && s.stage.Publishing?)
      && (Unpublish in said ==> said == [Unpublish])
      && forall a <- said :: !a.Publish?
  {
    hide Command, Amf0.ReadAll, TextAt, AppStated, KeyStated, TrimSlashes, ConnectReplies, Said;
    NamesDiffer();
    NamelessIsRefused(s, message);
    var name := NameOf(message);
    if Command(s, message).Ok? && name.Some? {
      if name.value == CONNECT_TEXT {
        ConnectByName(s, message);
        ConnectIsPlain(SessionReplies.TransactionOf(Amf0.ReadAll(message.payload).value));
      } else if name.value == CREATE_STREAM_TEXT {
        CreateStreamByName(s, message);
      } else if name.value == PUBLISH_TEXT {
        PublishByName(s, message);
      } else if name.value == DELETE_STREAM_TEXT || name.value == CLOSE_STREAM_TEXT || name.value == FCUNPUBLISH_TEXT {
        EndByName(s, message);
      } else {
        OthersByName(s, message);
      }
    }
  }

  lemma ConnectIsPlain(transaction: Bytes.u64)
    ensures forall a <- ConnectReplies(transaction) :: !a.Unpublish? && !a.Publish?
  {
    hide Said, Status;
  }

  /** Any turn: what it says of the stream, and where it leaves the session. */
  lemma TurnStands(s: SessionState, e: Event)
    ensures SessionRuns.Take(s, e).Ok? ==>
      var (s', said) := SessionRuns.Take(s, e).value;
      && (Asked(e, PUBLISH_TEXT) ==>
            && s'.stage.Publishing? && s'.app == s.app && s'.path == s.app + [0x2f] + Or(KeyStated(ValuesOf(e)))
            && !Asked(e, CONNECT_TEXT) && !Ends(e))
      && (Asked(e, CONNECT_TEXT) ==>
            && s'.stage.Connected? && s'.app == TrimSlashes(Or(AppStated(ValuesOf(e)))) && s'.path == s.path
            && !Ends(e))
      && (Ends(e) ==> s'.stage.Connected? && s'.app == s.app && s'.path == s.path)
      && (!Asked(e, PUBLISH_TEXT) && !Asked(e, CONNECT_TEXT) && !Ends(e) ==>
            s'.stage == s.stage && s'.app == s.app && s'.path == s.path)
      && (Unpublish in said <==> Ends(e) && s.stage.Publishing?)
      && (Unpublish in said ==> said == [Unpublish])
      && forall a <- said :: a.Publish? ==> a.path == s.path
  {
    hide Command, VideoCame, AudioCame, Amf0.ReadAll, NameOf, AppStated, KeyStated, TrimSlashes;
    if e.Message? {
      CommandStands(s, e.incoming.message);
      MediaStands(s, e.incoming);
    }
  }

  lemma MediaStands(s: SessionState, incoming: Incoming)
    ensures VideoCame(s, incoming).Ok? ==>
      var (s', said) := VideoCame(s, incoming).value;
      && s'.stage == s.stage && s'.app == s.app && s'.path == s.path
      && Unpublish !in said && forall a <- said :: a.Publish? ==> a.path == s.path
    ensures AudioCame(s, incoming).Ok? ==>
      var (s', said) := AudioCame(s, incoming).value;
      && s'.stage == s.stage && s'.app == s.app && s'.path == s.path
      && Unpublish !in said && forall a <- said :: a.Publish? ==> a.path == s.path
  {
    hide H264.ParseConfig, H264.SplitLengthPrefixed, Clocks.At, Settle;
    if Settle(s).Ok? {
      SettleStands(s);
    }
  }

  lemma SettleStands(s: SessionState)
    requires Settle(s).Ok?
    ensures var (s', said) := Settle(s).value;
            && s'.stage == s.stage && s'.app == s.app && s'.path == s.path
            && Unpublish !in said && forall a <- said :: a.Publish? ==> a.path == s.path
  {
  }

  /** What a turn says, by the turns before it: the end of a stream that is on the air, the path of one that begins. */
  predicate SaysSo(turns: seq<Turn>, i: nat)
    requires i < |turns|
  {
    && (Unpublish in turns[i].actions <==> OnAir(turns[..i]) && Ends(turns[i].event))
    && (Unpublish in turns[i].actions ==> turns[i].actions == [Unpublish] && i == |turns| - 1)
    && forall a <- turns[i].actions :: a.Publish? ==> a.path == PathNamed(turns[..i])
  }

  ghost predicate Recounted(l: Life) {
    && Standing(l.session, l.turns)
    && (forall i :: 0 <= i < |l.turns| ==> SaysSo(l.turns, i))
    && (!l.over ==> l.turns == [] || Unpublish !in l.turns[|l.turns| - 1].actions)
  }

  lemma StepTells(l: Life, e: Event)
    requires Recounted(l)
    ensures Recounted(Step(l, e))
  {
    hide SessionRuns.Take, Asked, Ends, AppStated, KeyStated, TrimSlashes, ValuesOf;
    TurnStands(l.session, e);
    if !l.over && SessionRuns.Take(l.session, e).Ok? {
      var (s', said) := SessionRuns.Take(l.session, e).value;
      var turns := l.turns + [Turn(e, said)];
      var n := |l.turns|;
      assert turns[..n] == l.turns;
      StandsAfter(l.session, l.turns, e, s', said);
      forall i | 0 <= i < |turns| ensures SaysSo(turns, i) {
        if i < n {
          assert SaysSo(l.turns, i);
          assert turns[..i] == l.turns[..i];
        }
      }
    }
  }

  lemma StandsAfter(s: SessionState, turns: seq<Turn>, e: Event, s': SessionState, said: seq<Action>)
    requires Standing(s, turns) && SessionRuns.Take(s, e) == Ok((s', said))
    ensures Standing(s', turns + [Turn(e, said)])
  {
    hide SessionRuns.Take, Asked, Ends, AppStated, KeyStated, TrimSlashes, ValuesOf;
    TurnStands(s, e);
    assert (turns + [Turn(e, said)])[..|turns|] == turns;
  }

  lemma NothingTold()
    ensures Recounted(Life(Fresh, [], false))
  {
  }

  /**
    * Over every run: a turn says that the stream is over exactly when one was on the air and the turn's message
    * is a command that ends it; it says nothing else, and is the last. A stream that begins, begins under the
    * application last connected to and the key last asked for.
    */
  lemma {:induction false} EndsAreToldExactly(events: seq<Event>)
    ensures Recounted(Run(events))
    decreases |events|
  {
    hide Step, Recounted;
    if events == [] {
      NothingTold();
    } else {
      EndsAreToldExactly(events[..|events| - 1]);
      StepTells(Run(events[..|events| - 1]), events[|events| - 1]);
    }
  }

  // ---------------------------------------------------------------- headers

  /** The header a turn's message states, as it was read. */
  function VideoStated(t: Turn): Option<H264.AvcConfig> {
    if t.event.Message? && t.event.incoming.message.kind.Video? && t.event.incoming.video.Ok?
       && t.event.incoming.video.value.VideoHeader?
       && H264.ParseConfig(t.event.incoming.video.value.record).Ok?
    then Some(H264.ParseConfig(t.event.incoming.video.value.record).value) else None
  }

  function AudioStated(t: Turn): Option<Track.AacParameters> {
    if t.event.Message? && t.event.incoming.message.kind.Audio? && t.event.incoming.audio.Ok?
       && t.event.incoming.audio.value.AudioHeader? && t.event.incoming.audio.value.parameters.Ok?
    then Some(t.event.incoming.audio.value.parameters.value) else None
  }

  /** One turn: the headers it states are the ones kept from then on, and nothing else changes what is kept. */
  predicate Keeps(s: SessionState, s': SessionState, t: Turn) {
    && (VideoStated(t).Some? ==> s'.video == VideoStated(t) && (s.video.Some? ==> s.video == s'.video))
    && (VideoStated(t).None? ==> s'.video == s.video)
    && (AudioStated(t).Some? ==> s'.audio == AudioStated(t) && (s.audio.Some? ==> s.audio == s'.audio))
    && (AudioStated(t).None? ==> s'.audio == s.audio)
  }

  lemma TurnKeeps(s: SessionState, e: Event)
    ensures SessionRuns.Take(s, e).Ok? ==>
      Keeps(s, SessionRuns.Take(s, e).value.0, Turn(e, SessionRuns.Take(s, e).value.1))
  {
    hide Command, H264.ParseConfig, H264.SplitLengthPrefixed, Clocks.At, Settle;
    if SessionRuns.Take(s, e).Ok? {
      if e.Message? && e.incoming.message.kind.Amf0Command? {
        CommandKeepsHeaders(s, e.incoming.message);
      }
      if Settle(s).Ok? {
        SettleKeepsHeaders(s);
      }
    }
  }

  lemma CommandKeepsHeaders(s: SessionState, message: Chunk.Message)
    ensures Command(s, message).Ok? ==> Incidental(s, Command(s, message).value.0, Command(s, message).value.1)
  {
    hide Command;
    CommandIsIncidental(s, message);
  }

  lemma SettleKeepsHeaders(s: SessionState)
    requires Settle(s).Ok?
    ensures Settle(s).value.0.video == s.video && Settle(s).value.0.audio == s.audio
  {
  }

  ghost predicate OneHeaderEach(l: Life) {
    && (forall t <- l.turns :: VideoStated(t).Some? ==> VideoStated(t) == l.session.video)
    && (forall t <- l.turns :: AudioStated(t).Some? ==> AudioStated(t) == l.session.audio)
    && (l.session.video.Some? ==> exists t <- l.turns :: VideoStated(t).Some?)
    && (l.session.audio.Some? ==> exists t <- l.turns :: AudioStated(t).Some?)
  }

  lemma StepKeepsOne(l: Life, e: Event)
    requires OneHeaderEach(l)
    ensures OneHeaderEach(Step(l, e))
  {
    hide SessionRuns.Take, VideoStated, AudioStated;
    TurnKeeps(l.session, e);
    if !l.over && SessionRuns.Take(l.session, e).Ok? {
      var (s', said) := SessionRuns.Take(l.session, e).value;
      var t := Turn(e, said);
      var turns := l.turns + [t];
      assert forall u <- turns :: u in l.turns || u == t;
      assert t in turns && forall u <- l.turns :: u in turns;
    }
  }

  lemma NoHeaders()
    ensures OneHeaderEach(Life(Fresh, [], false))
  {
  }

  /** Over every run all the sequence headers of each kind are the one kept, and one is kept only if it came. */
  lemma {:induction false} HeadersAgree(events: seq<Event>)
    ensures OneHeaderEach(Run(events))
    decreases |events|
  {
    hide Step, OneHeaderEach;
    if events == [] {
      NoHeaders();
    } else {
      HeadersAgree(events[..|events| - 1]);
      StepKeepsOne(Run(events[..|events| - 1]), events[|events| - 1]);
    }
  }
}

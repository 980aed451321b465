/** A publisher whose second picture is decoded after it is shown. */
module LatePicture {
  import opened Wrappers
  import Bytes
  import Chunk
  import opened Session
  import opened SessionRuns
  import opened SessionMedia
  import Amf0
  import Clocks
  import H264
  import H264RoundTrip
  import Requests
  import SessionReplies
  import Track
  import U = Unit

  const APP: seq<Bytes.byte> := [0x6c, 0x69, 0x76, 0x65]
  const KEY: seq<Bytes.byte> := [0x63, 0x61, 0x6d]
  const SPS: H264.Nal := [0x67, 0x42, 0xc0, 0x1e]
  const PPS: H264.Nal := [0x68, 0xce]
  const CONFIG := H264.AvcConfig(H264.Parameters([SPS], [PPS]), 4)
  const SLICES: seq<H264.Nal> := [[0x65, 0x88]]
  const NOTHING: FlvError := FlvError("")

  function Asked(message: Chunk.Message): Event {
    Message(Incoming(message, Err(NOTHING), Err(NOTHING)))
  }

  function Video(timestamp: Bytes.u32, tag: VideoTag): Event {
    Message(Incoming(Chunk.Message(timestamp, Chunk.Video, PUBLISH_STREAM, []), Ok(tag), Err(NOTHING)))
  }

  function Record(): seq<Bytes.byte> {
    match H264.ConfigToBytes(CONFIG)
    case Ok(bytes) => bytes
    case Err(_) => []
  }

  function Framed(): seq<Bytes.byte> {
    match H264.ToLengthPrefixed(SLICES, 4)
    case Ok(bytes) => bytes
    case Err(_) => []
  }

  /** Connect, publish, a sequence header, a picture at 0, and one at 40 shown 10 before it is decoded. */
  const BEGINNING: seq<Event> := [
    Asked(Requests.Request(Requests.ConnectTo(APP))),
    Asked(Requests.Request(Requests.PublishAs(KEY))),
    Video(0, VideoHeader(Record()))]
  const FIRST: Event := Video(0, VideoPicture(0, Framed()))
  const SECOND: Event := Video(40, VideoPicture(-10, Framed()))

  lemma RecordReads()
    ensures H264.ParseConfig(Record()) == Ok(CONFIG)
  {
    hide H264.ParseConfig, H264.ConfigToBytes;
    H264RoundTrip.RecordIsWritten(CONFIG);
    H264RoundTrip.RecordRoundTrip(CONFIG);
  }

  lemma FramedSplits()
    ensures H264.SplitLengthPrefixed(Framed(), 4) == Ok(SLICES)
  {
    hide H264.SplitLengthPrefixed, H264.ToLengthPrefixed;
    Bytes.Widths();
    H264RoundTrip.JoinsWhenEachFits(SLICES, 4);
    H264RoundTrip.JoinThenSplit(SLICES, 4);
  }

  lemma RunOn(events: seq<Event>, e: Event)
    ensures Run(events + [e]) == Step(Run(events), e)
  {
    hide Step;
    assert (events + [e])[..|events|] == events;
  }

  lemma KeysArePlain()
    ensures Requests.Spelt(APP) && Requests.Spelt(KEY) && Requests.Plain(KEY)
  {
    assert Amf0.Utf8(APP[4..]) && Amf0.Utf8(APP[3..]) && Amf0.Utf8(APP[2..]) && Amf0.Utf8(APP[1..]);
    assert Amf0.Utf8(KEY[3..]) && Amf0.Utf8(KEY[2..]) && Amf0.Utf8(KEY[1..]);
  }

  /** A run that goes on, and what it has passed on so far. */
  predicate At(l: Life, s: SessionState, units: seq<U.Unit>) {
    !l.over && l.session == s && Units(Actions(l.turns)) == units
  }

  lemma StepTo(l: Life, e: Event, s: SessionState, units: seq<U.Unit>, s': SessionState, actions: seq<Action>)
    requires At(l, s, units) && Take(s, e) == Ok((s', actions)) && Unpublish !in actions
    ensures At(Step(l, e), s', units + Units(actions))
    ensures Units(actions) == [] ==> At(Step(l, e), s', units)
  {
    hide Take, Units;
    assert units + [] == units;
    assert (l.turns + [Turn(e, actions)])[..|l.turns|] == l.turns;
    UnitsAppend(Actions(l.turns), actions);
  }

  /** Nothing is passed on until there is a picture, and by then the header has been kept. */
  lemma Begins() returns (s: SessionState)
    ensures At(Run(BEGINNING), s, [])
    ensures s.stage.Publishing? && s.video == Some(CONFIG) && s.audio.None? && s.published.None?
    ensures s.clock == Clocks.Unset
  {
    hide Command, ConnectReplies, Said, Requests.ConnectTo, Requests.PublishAs, Record, Run, Step,
         TrimSlashes, Units, At, H264.ParseConfig, Status, KEY, APP;
    KeysArePlain();
    Requests.ConnectIsAnswered(Fresh, APP);
    var e0, e1, e2 := BEGINNING[0], BEGINNING[1], BEGINNING[2];
    assert [] + [e0] == [e0] && [e0] + [e1] == [e0, e1] && [e0, e1] + [e2] == BEGINNING;
    var s1 := Fresh.(app := TrimSlashes(APP), stage := Connected);
    NothingYet();
    ConnectIsQuiet(ONE);
    StepTo(Run([]), e0, Fresh, [], s1, ConnectReplies(ONE));
    RunOn([], e0);
    Requests.PublishIsAnswered(s1, KEY);
    var s2 := s1.(path := s1.app + [SLASH] + KEY, stage := Publishing);
    var actions := Command(s1, e1.incoming.message).value.1;
    QuietHasNoUnits(actions);
    StepTo(Run([e0]), e1, s1, [], s2, actions);
    RunOn([e0], e1);
    RecordReads();
    s := s2.(video := Some(CONFIG));
    QuietHasNoUnits([]);
    StepTo(Run([e0, e1]), e2, s2, [], s, []);
    RunOn([e0, e1], e2);
  }

  lemma NothingYet()
    ensures At(Run([]), Fresh, [])
  {
  }

  lemma ConnectIsQuiet(transaction: Bytes.u64)
    ensures Units(ConnectReplies(transaction)) == [] && Unpublish !in ConnectReplies(transaction)
  {
    hide Said, Status;
    QuietHasNoUnits(ConnectReplies(transaction));
  }

  function PictureAt(pts: nat, dts: nat): U.Unit { U.NewPicture(0, SLICES, pts, dts) }

  lemma FirstCame(s: SessionState)
    requires s.stage.Publishing? && s.video == Some(CONFIG) && s.audio.None? && s.published.None?
    requires s.clock == Clocks.Unset
    ensures var answer := Take(s, FIRST);
            && answer.Ok? && Unpublish !in answer.value.1 && Units(answer.value.1) == [PictureAt(0, 0)]
            && answer.value.0
               == s.(published := Some(Published(Some((0, 4)), None)), clock := Clocks.Clock(Some(0), 0, 0))
  {
    hide H264.SplitLengthPrefixed, Framed, Units, H264.IsKeyframe;
    FramedSplits();
    assert Codecs(s) == [Track.H264Codec(CONFIG.parameters)];
    var (s1, first) := Settle(s).value;
    ThenMedia(first, PictureAt(0, 0));
  }

  lemma SecondCame(s: SessionState)
    requires s.stage.Publishing? && s.published == Some(Published(Some((0, 4)), None))
    requires s.clock == Clocks.Clock(Some(0), 0, 0)
    ensures var answer := Take(s, SECOND);
            answer.Ok? && Unpublish !in answer.value.1 && Units(answer.value.1) == [PictureAt(30, 40)]
  {
    hide H264.SplitLengthPrefixed, Framed, Units, H264.IsKeyframe;
    FramedSplits();
    ThenMedia([], PictureAt(30, 40));
    assert [] + [Media(PictureAt(30, 40))] == [Media(PictureAt(30, 40))];
  }

  /** In this run the second picture is decoded at 40 and shown at 30. */
  lemma DecodedLate()
    ensures var units := Units(Actions(Run(BEGINNING + [FIRST] + [SECOND]).turns));
            && units == [PictureAt(0, 0), PictureAt(30, 40)]
            && units[1].dts > units[1].pts
  {
    hide Take, Run, Step, Units, At, BEGINNING, FIRST, SECOND;
    var s := Begins();
    FirstCame(s);
    var (s1, first) := Take(s, FIRST).value;
    StepTo(Run(BEGINNING), FIRST, s, [], s1, first);
    RunOn(BEGINNING, FIRST);
    assert [] + [PictureAt(0, 0)] == [PictureAt(0, 0)];
    assert [PictureAt(0, 0)] + [PictureAt(30, 40)] == [PictureAt(0, 0), PictureAt(30, 40)];
    SecondCame(s1);
    var (s2, second) := Take(s1, SECOND).value;
    StepTo(Run(BEGINNING + [FIRST]), SECOND, s1, [PictureAt(0, 0)], s2, second);
    RunOn(BEGINNING + [FIRST], SECOND);
    IsAt(Run(BEGINNING + [FIRST] + [SECOND]), s2, [PictureAt(0, 0), PictureAt(30, 40)]);
  }

  lemma IsAt(l: Life, s: SessionState, units: seq<U.Unit>)
    ensures At(l, s, units) ==> Units(Actions(l.turns)) == units
  {
  }
}

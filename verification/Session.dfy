/**
  * What a publishing RTMP connection does, with the socket left out: messages go
  * in, and what to do about them comes back.
  *
  * A media message comes with the tag its payload is read as. Times are in
  * milliseconds.
  */
module Session {
  import opened Wrappers
  import opened Bytes
  import opened Chunk
  import opened Amf0
  import opened Track
  import opened Clocks
  import Amf0RoundTrip
  import H264
  import U = Unit

  const WINDOW_SIZE := 2_500_000
  const CHUNK_SIZE := 65_536
  const PUBLISH_STREAM := 1

  const CONTROL: ChunkStreamId := 2
  const COMMAND: ChunkStreamId := 3

  // ---------------------------------------------------------------- vocabulary

  datatype FlvError = FlvError(reason: string)

  datatype AacError = AacError(reason: string)

  datatype VideoTag = VideoHeader(record: seq<byte>) | VideoPicture(compositionTime: int, data: seq<byte>) | VideoEnd

  datatype AudioTag = AudioHeader(parameters: Result<AacParameters, AacError>) | AudioFrame(data: seq<byte>)

  /** A message, and what its payload is as a media tag, which only a media message is asked for. */
  datatype Incoming = Incoming(message: Message, video: Result<VideoTag, FlvError>, audio: Result<AudioTag, FlvError>)

  datatype Action =
    | Send(csid: ChunkStreamId, message: Message)
    | ChangeChunkSize(size: nat)
    | Publish(path: Text, description: Description)
    | Media(unit: U.Unit)
    | Unpublish

  datatype SessionError =
    | BadAmf0(amf0: Amf0Error)
    | BadFlv(flv: FlvError)
    | BadH264(h264: H264.H264Error)
    | BadAac(aac: AacError)
    | BadDescription(description: DescriptionError)
    | Nameless
    | NoApp
    | NoStream
    | NotPublishing(kind: MessageType)
    | NoParameters
    | ParametersChanged(kind: MessageType)
    | UnreadMessage(kind: MessageType)

  datatype Stage = New | Connected | Publishing

  /** A settled stream: which track each kind of media is, and how wide a picture's length prefixes are. */
  datatype Published = Published(video: Option<(nat, nat)>, audio: Option<nat>)

  datatype SessionState = SessionState(
    stage: Stage,
    app: Text,
    path: Text,
    video: Option<H264.AvcConfig>,
    audio: Option<AacParameters>,
    published: Option<Published>,
    clock: Clock,
    received: nat,
    acknowledged: nat)

  const Fresh := SessionState(New, [], [], None, None, None, Unset, 0, 0)

  type Answer = Result<(SessionState, seq<Action>), SessionError>

  // ---------------------------------------------------------------- texts

  function Ascii(s: string): Text
    requires forall i :: 0 <= i < |s| ==> s[i] < 128 as char
  {
    seq(|s|, i requires 0 <= i < |s| => s[i] as int)
  }

  const RESULT_TEXT: Text := Ascii("_result")
  const ON_STATUS_TEXT: Text := Ascii("onStatus")
  const LEVEL_TEXT: Text := Ascii("level")
  const STATUS_TEXT: Text := Ascii("status")
  const CODE_TEXT: Text := Ascii("code")
  const DESCRIPTION_TEXT: Text := Ascii("description")
  const FMS_VER_TEXT: Text := Ascii("fmsVer")
  const FMS_VERSION_TEXT: Text := Ascii("FMS/3,0,1,123")
  const CAPABILITIES_TEXT: Text := Ascii("capabilities")
  const CONNECT_SUCCESS_TEXT: Text := Ascii("NetConnection.Connect.Success")
  const CONNECTION_SUCCEEDED_TEXT: Text := Ascii("Connection succeeded.")
  const OBJECT_ENCODING_TEXT: Text := Ascii("objectEncoding")
  const APP_TEXT: Text := Ascii("app")
  const PUBLISH_START_TEXT: Text := Ascii("NetStream.Publish.Start")
  const PUBLISHING_TEXT: Text := Ascii("Publishing.")
  const DETAILS_TEXT: Text := Ascii("details")
  const CONNECT_TEXT: Text := Ascii("connect")
  const CREATE_STREAM_TEXT: Text := Ascii("createStream")
  const PUBLISH_TEXT: Text := Ascii("publish")
  const DELETE_STREAM_TEXT: Text := Ascii("deleteStream")
  const CLOSE_STREAM_TEXT: Text := Ascii("closeStream")
  const FCUNPUBLISH_TEXT: Text := Ascii("FCUnpublish")

  const SLASH := 0x2f
  const QUERY := 0x3f

  function TrimStart(t: Text): (r: Text)
    ensures |r| <= |t|
  {
    if t != [] && t[0] == SLASH then TrimStart(t[1..]) else t
  }

  function TrimSlashes(t: Text): (r: Text)
    ensures |r| <= |t|
    decreases |t|
  {
    if t != [] && t[|t| - 1] == SLASH then TrimSlashes(t[..|t| - 1]) else TrimStart(t)
  }

  function BeforeQuery(t: Text): (r: Text)
    ensures |r| <= |t|
  {
    if t == [] || t[0] == QUERY then [] else [t[0]] + BeforeQuery(t[1..])
  }

  // ---------------------------------------------------------------- what is said

  const ZERO: u64 := 0
  const ONE: u64 := 0x3ff0_0000_0000_0000
  const THIRTY_ONE: u64 := 0x403f_0000_0000_0000

  function Say(csid: ChunkStreamId, kind: MessageType, streamId: u32, payload: seq<byte>): Action {
    Send(csid, Message(0, kind, streamId, payload))
  }

  /** Values as a command's payload. The ones said here can always be written. */
  function Said(values: seq<Value>): seq<byte>
    requires forall v <- values :: Amf0RoundTrip.Writable(v)
  {
    Amf0RoundTrip.ValuesAreWritten(values);
    WriteAll(values).value
  }

  function Reply(transaction: u64, values: seq<Value>): Action
    requires forall v <- values :: Amf0RoundTrip.Writable(v)
  {
    var all := [String(RESULT_TEXT), Number(transaction)] + values;
    assert forall v <- all :: Amf0RoundTrip.Writable(v);
    Say(COMMAND, Amf0Command, 0, Said(all))
  }

  function OnStatus(status: Value): Action
    requires Amf0RoundTrip.Writable(status)
  {
    Say(COMMAND, Amf0Command, PUBLISH_STREAM, Said([String(ON_STATUS_TEXT), Number(ZERO), Null, status]))
  }

  function Status(code: Text, description: Text, key: Text, value: Value): (v: Value)
    requires |code| < 0x1_0000_0000 && |description| < 0x1_0000_0000
    requires 0 < |key| < 0x1_0000 && Amf0RoundTrip.Writable(value)
    ensures Amf0RoundTrip.Writable(v)
  {
    Object([
      Property(LEVEL_TEXT, String(STATUS_TEXT)),
      Property(CODE_TEXT, String(code)),
      Property(DESCRIPTION_TEXT, String(description)),
      Property(key, value)])
  }

  // ---------------------------------------------------------------- commands

  function ConnectReplies(transaction: u64): seq<Action> {
    [ Say(CONTROL, WindowAckSize, 0, BigEndian(WINDOW_SIZE, 4)),
      Say(CONTROL, SetPeerBandwidth, 0, BigEndian(WINDOW_SIZE, 4) + [2]),
      Say(CONTROL, MessageType.SetChunkSize, 0, BigEndian(CHUNK_SIZE, 4)),
      ChangeChunkSize(CHUNK_SIZE),
      Reply(transaction, [
        Object([Property(FMS_VER_TEXT, String(FMS_VERSION_TEXT)),
                Property(CAPABILITIES_TEXT, Number(THIRTY_ONE))]),
        Status(CONNECT_SUCCESS_TEXT, CONNECTION_SUCCEEDED_TEXT,
               OBJECT_ENCODING_TEXT, Number(ZERO))])
    ]
  }

  function Nth<T>(items: seq<T>, i: nat): Option<T> {
    if i < |items| then Some(items[i]) else None
  }

  function TextAt(values: seq<Value>, i: nat): Option<Text> {
    var v :- Nth(values, i);
    v.AsText()
  }

  function AppOf(values: seq<Value>): Option<Text> {
    var options :- Nth(values, 2);
    var app :- options.Get(APP_TEXT);
    app.AsText()
  }

  function Connect(s: SessionState, values: seq<Value>, transaction: u64): Answer {
    match AppOf(values)
    case None => Err(NoApp)
    case Some(app) => Ok((s.(app := TrimSlashes(app), stage := Connected), ConnectReplies(transaction)))
  }

  function StartPublishing(s: SessionState, values: seq<Value>): Answer
    requires forall v <- values :: Amf0RoundTrip.Writable(v)
  {
    match TextAt(values, 3)
    case None => Err(NoStream)
    case Some(stated) =>
      var key := TrimSlashes(BeforeQuery(stated));
      if key == [] then Err(NoStream)
      else
        assert Amf0RoundTrip.Writable(values[3]);
        Ok((s.(path := s.app + [SLASH] + key, stage := Publishing),
            [ Say(CONTROL, UserControl, 0, BigEndian(0, 2) + BigEndian(PUBLISH_STREAM, 4)),
              OnStatus(Status(PUBLISH_START_TEXT, PUBLISHING_TEXT, DETAILS_TEXT, String(key)))
            ]))
  }

  function Command(s: SessionState, message: Message): Answer {
    match Amf0.ReadAll(message.payload)
    case Err(error) => Err(BadAmf0(error))
    case Ok(values) =>
      match TextAt(values, 0)
      case None => Err(Nameless)
      case Some(name) =>
        var stated := if |values| > 1 then values[1].AsNumber() else None;
        var transaction := if stated.Some? then stated.value else ZERO;
        if name == CONNECT_TEXT then Connect(s, values, transaction)
        else if name == CREATE_STREAM_TEXT then Ok((s, [Reply(transaction, [Null, Number(ONE)])]))
        else if name == PUBLISH_TEXT then
          Amf0RoundTrip.ReadReprints(message.payload);
          StartPublishing(s, values)
        else if name == DELETE_STREAM_TEXT || name == CLOSE_STREAM_TEXT || name == FCUNPUBLISH_TEXT then
          Ok((s.(stage := Connected), if s.stage.Publishing? then [Unpublish] else []))
        else Ok((s, []))
  }

  // ---------------------------------------------------------------- media

  /** What is settled, from the sequence headers there have been: video first where there is video. */
  function Settled(s: SessionState): Published {
    Published(
      if s.video.Some? then Some((0, s.video.value.nalLengthSize)) else None,
      if s.audio.Some? then Some(if s.video.Some? then 1 else 0) else None)
  }

  function Codecs(s: SessionState): seq<Codec> {
    (if s.video.Some? then [H264Codec(s.video.value.parameters)] else [])
    + (if s.audio.Some? then [AacCodec(s.audio.value)] else [])
  }

  /** Settles the description at the first frame of media, if it is not settled yet. */
  function Settle(s: SessionState): Answer {
    if s.published.Some? then Ok((s, []))
    else if Codecs(s) == [] then Err(NoParameters)
    else match NewDescription(Codecs(s))
      case Err(error) => Err(BadDescription(error))
      case Ok(description) => Ok((s.(published := Some(Settled(s))), [Publish(s.path, description)]))
  }

  function Offset(dts: nat, compositionTime: int): nat {
    if compositionTime < 0 then (if dts >= -compositionTime then dts + compositionTime else 0)
    else dts + compositionTime
  }

  function VideoHeaderStated(s: SessionState, record: seq<byte>): Answer {
    match H264.ParseConfig(record)
    case Err(error) => Err(BadH264(error))
    case Ok(config) =>
      if s.video == Some(config) then Ok((s, []))
      else if s.published.Some? || s.video.Some? then Err(ParametersChanged(Video))
      else Ok((s.(video := Some(config)), []))
  }

  function AudioHeaderStated(s: SessionState, parameters: Result<AacParameters, AacError>): Answer {
    match parameters
    case Err(error) => Err(BadAac(error))
    case Ok(stated) =>
      if s.audio == Some(stated) then Ok((s, []))
      else if s.published.Some? || s.audio.Some? then Err(ParametersChanged(Audio))
      else Ok((s.(audio := Some(stated)), []))
  }

  function PictureCame(s: SessionState, timestamp: u32, compositionTime: int, data: seq<byte>): Answer {
    var (s1, actions) :- Settle(s);
    match s1.published.value.video
    case None => Err(ParametersChanged(Video))
    case Some((track, width)) =>
      var (clock, dts) := Clocks.At(s1.clock, timestamp);
      match H264.SplitLengthPrefixed(data, width)
      case Err(error) => Err(BadH264(error))
      case Ok(nalus) =>
        Ok((s1.(clock := clock),
            actions + [Media(U.NewPicture(track, nalus, Offset(dts, compositionTime), dts))]))
  }

  function FrameCame(s: SessionState, timestamp: u32, data: seq<byte>): Answer {
    var (s1, actions) :- Settle(s);
    match s1.published.value.audio
    case None => Err(ParametersChanged(Audio))
    case Some(track) =>
      var (clock, pts) := Clocks.At(s1.clock, timestamp);
      Ok((s1.(clock := clock), actions + [Media(U.Frame(track, data, pts))]))
  }

  function VideoCame(s: SessionState, incoming: Incoming): Answer {
    if !s.stage.Publishing? then Err(NotPublishing(Video))
    else match incoming.video
      case Err(error) => Err(BadFlv(error))
      case Ok(VideoHeader(record)) => VideoHeaderStated(s, record)
      case Ok(VideoPicture(compositionTime, data)) => PictureCame(s, incoming.message.timestamp, compositionTime, data)
      case Ok(VideoEnd) => Ok((s, []))
  }

  function AudioCame(s: SessionState, incoming: Incoming): Answer {
    if !s.stage.Publishing? then Err(NotPublishing(Audio))
    else match incoming.audio
      case Err(error) => Err(BadFlv(error))
      case Ok(AudioHeader(parameters)) => AudioHeaderStated(s, parameters)
      case Ok(AudioFrame(data)) => FrameCame(s, incoming.message.timestamp, data)
  }

  /** The session's answer to any message, by its kind. */
  function Handle(s: SessionState, incoming: Incoming): Answer {
    match incoming.message.kind
    case Amf0Command => Command(s, incoming.message)
    case Video => VideoCame(s, incoming)
    case Audio => AudioCame(s, incoming)
    case Amf3Command => Err(UnreadMessage(Amf3Command))
    case Amf3Data => Err(UnreadMessage(Amf3Data))
    case Aggregate => Err(UnreadMessage(Aggregate))
    case _ => Ok((s, []))
  }

  /** Counts bytes read from the peer, and acknowledges a window's worth. The count said is 32 bits and wraps. */
  function Receive(s: SessionState, bytes: nat): (SessionState, seq<Action>) {
    var s1 := s.(received := s.received + bytes);
    if s1.received - s1.acknowledged < WINDOW_SIZE then (s1, [])
    else
      (s1.(acknowledged := s1.received), [Say(CONTROL, Acknowledgement, 0, BigEndian(s1.received, 4))])
  }
}

/** What each command is answered with, to the byte and to the last property; and what every other message draws. */
module SessionCommands {
  import opened Wrappers
  import opened Bytes
  import Chunk
  import opened Amf0
  import opened Amf0RoundTrip
  import opened Session
  import opened SessionReplies
  import H264
  import Track

  /** What a command is called, and what it carries. */
  function NameOf(message: Chunk.Message): Option<Text> {
    match Amf0.ReadAll(message.payload)
    case Ok(values) => TextAt(values, 0)
    case Err(_) => None
  }

  predicate Called(message: Chunk.Message, name: Text) { message.kind.Amf0Command? && NameOf(message) == Some(name) }

  predicate EndsStream(message: Chunk.Message) {
    || Called(message, DELETE_STREAM_TEXT) || Called(message, CLOSE_STREAM_TEXT) || Called(message, FCUNPUBLISH_TEXT)
  }

  lemma NamesSpelt()
    ensures CONNECT_TEXT == Ascii("connect") && CREATE_STREAM_TEXT == Ascii("createStream")
    ensures PUBLISH_TEXT == Ascii("publish") && APP_TEXT == Ascii("app")
  {
  }

  lemma EndingsSpelt()
    ensures DELETE_STREAM_TEXT == Ascii("deleteStream") && CLOSE_STREAM_TEXT == Ascii("closeStream")
    ensures FCUNPUBLISH_TEXT == Ascii("FCUnpublish")
  {
  }

  /** Something said as a command, on a message stream, which reads as these values. */
  predicate Tells(a: Action, streamId: u32, values: seq<Value>) {
    && a.Send? && a.csid == 3
    && a.message == Chunk.Message(0, Chunk.Amf0Command, streamId, a.message.payload)
    && Amf0.ReadAll(a.message.payload) == Ok(values)
  }

  function Word(s: string): Value
    requires forall i :: 0 <= i < |s| ==> s[i] < 128 as char
  {
    String(Ascii(s))
  }

  lemma ReplyTells(transaction: u64, values: seq<Value>)
    requires forall v <- values :: Small(v)
    ensures (forall v <- values :: Writable(v))
    ensures Tells(Reply(transaction, values), 0, [Word("_result"), Number(transaction)] + values)
  {
    hide Utf8, Said, Amf0.ReadAll, Small, Ascii, Writable;
    ReplyReads(transaction, values);
  }

  /** What a connection is told of the server it has reached. */
  function Server(): Value {
    Object([Property(Ascii("fmsVer"), Word("FMS/3,0,1,123")),
            Property(Ascii("capabilities"), Number(0x403f_0000_0000_0000))])
  }

  /** News of some kind: what happened, in a code and in words, and one thing more. */
  function Told(code: string, words: string, key: string, value: Value): Value
    requires forall i :: 0 <= i < |code| ==> code[i] < 128 as char
    requires forall i :: 0 <= i < |words| ==> words[i] < 128 as char
    requires forall i :: 0 <= i < |key| ==> key[i] < 128 as char
  {
    Object([Property(Ascii("level"), Word("status")),
            Property(Ascii("code"), Word(code)),
            Property(Ascii("description"), Word(words)),
            Property(Ascii(key), value)])
  }

  lemma ServerIs()
    ensures Server() == Object([Property(FMS_VER_TEXT, String(FMS_VERSION_TEXT)),
                                Property(CAPABILITIES_TEXT, Number(THIRTY_ONE))])
  {
    hide Ascii;
  }

  function Success(): Value {
    Told("NetConnection.Connect.Success", "Connection succeeded.", "objectEncoding", Number(0))
  }

  lemma SuccessIs()
    ensures |CONNECT_SUCCESS_TEXT| == 29 && |CONNECTION_SUCCEEDED_TEXT| == 21 && |OBJECT_ENCODING_TEXT| == 14
    ensures Success() == Status(CONNECT_SUCCESS_TEXT, CONNECTION_SUCCEEDED_TEXT, OBJECT_ENCODING_TEXT, Number(ZERO))
  {
    hide Utf8, Ascii;
    ConnectNamesAreTexts();
  }

  lemma ServerIsSmall()
    ensures Small(Server())
  {
    hide Utf8, Small, Writable, WellSpelt, Fits, FMS_VER_TEXT, FMS_VERSION_TEXT, CAPABILITIES_TEXT, Server;
    ConnectNamesAreTexts();
    ServerIs();
    ScalarsAreSmall(String(FMS_VERSION_TEXT));
    ScalarsAreSmall(Number(THIRTY_ONE));
    PropertiesAreSmall([Property(FMS_VER_TEXT, String(FMS_VERSION_TEXT)),
                        Property(CAPABILITIES_TEXT, Number(THIRTY_ONE))]);
  }

  lemma SuccessIsSmall()
    ensures Small(Success())
  {
    hide Utf8, Small, Writable, WellSpelt, Fits, CONNECT_SUCCESS_TEXT, CONNECTION_SUCCEEDED_TEXT, OBJECT_ENCODING_TEXT,
         Success, Status;
    ConnectNamesAreTexts();
    SuccessIs();
    ScalarsAreSmall(Number(ZERO));
    StatusIsSmall(CONNECT_SUCCESS_TEXT, CONNECTION_SUCCEEDED_TEXT, OBJECT_ENCODING_TEXT, Number(ZERO));
  }

  lemma ConnectSaysLast(transaction: u64)
    requires Small(Server()) && Small(Success())
    ensures Writable(Server()) && Writable(Success())
    ensures |ConnectReplies(transaction)| == 5
    ensures ConnectReplies(transaction)[4] == Reply(transaction, [Server(), Success()])
  {
    hide Utf8, Said, Ascii, BigEndian, Reply, WellSpelt, Fits, Server, Success, Status;
    ServerIs();
    SuccessIs();
  }

  lemma WindowsAreSaid()
    ensures BigEndian(WINDOW_SIZE, 4) == [0x00, 0x26, 0x25, 0xa0]
    ensures BigEndian(WINDOW_SIZE, 4) + [2] == [0x00, 0x26, 0x25, 0xa0, 0x02]
    ensures BigEndian(CHUNK_SIZE, 4) == [0x00, 0x01, 0x00, 0x00]
  {
    hide BigEndian;
    FourBytes(WINDOW_SIZE);
    FourBytes(CHUNK_SIZE);
  }

  /** Two windows of 2 500 000 bytes, chunks of 65536 and the change to them, and the connection's success. */
  lemma ConnectSays(transaction: u64)
    ensures var said := ConnectReplies(transaction);
            && |said| == 5
            && said[0] == Send(2, Chunk.Message(0, Chunk.WindowAckSize, 0, [0x00, 0x26, 0x25, 0xa0]))
            && said[1] == Send(2, Chunk.Message(0, Chunk.SetPeerBandwidth, 0, [0x00, 0x26, 0x25, 0xa0, 0x02]))
            && said[2] == Send(2, Chunk.Message(0, Chunk.SetChunkSize, 0, [0x00, 0x01, 0x00, 0x00]))
            && said[3] == ChangeChunkSize(65536)
            && Tells(said[4], 0, [Word("_result"), Number(transaction), Server(), Success()])
  {
    hide Utf8, Said, Amf0.ReadAll, Small, Writable, Ascii, BigEndian, Tells, Reply, Server, Success;
    WindowsAreSaid();
    ServerIsSmall();
    SuccessIsSmall();
    ReplyTells(transaction, [Server(), Success()]);
    ConnectSaysLast(transaction);
    assert [Word("_result"), Number(transaction)] + [Server(), Success()]
        == [Word("_result"), Number(transaction), Server(), Success()];
  }

  /** The stream created is number one. */
  lemma CreateStreamSays(transaction: u64)
    ensures Tells(Reply(transaction, [Null, Number(ONE)]), 0,
                  [Word("_result"), Number(transaction), Null, Number(0x3ff0_0000_0000_0000)])
  {
    hide Utf8, Said, Amf0.ReadAll, Small, Ascii, Tells, Reply;
    ScalarsAreSmall(Null);
    ScalarsAreSmall(Number(ONE));
    ReplyTells(transaction, [Null, Number(ONE)]);
    assert [Word("_result"), Number(transaction)] + [Null, Number(ONE)]
        == [Word("_result"), Number(transaction), Null, Number(0x3ff0_0000_0000_0000)];
  }

  /** The news that a stream is being published under a key. */
  function NewsOf(key: Text): seq<Value> {
    [Word("onStatus"), Number(0), Null, Told("NetStream.Publish.Start", "Publishing.", "details", String(key))]
  }

  lemma NewsIs(key: Text)
    requires |key| < 0x1_0000_0000
    ensures |PUBLISH_START_TEXT| == 23 && |PUBLISHING_TEXT| == 11 && |DETAILS_TEXT| == 7
    ensures NewsOf(key) == [String(ON_STATUS_TEXT), Number(ZERO), Null,
                            Status(PUBLISH_START_TEXT, PUBLISHING_TEXT, DETAILS_TEXT, String(key))]
  {
    hide Ascii, Utf8;
    PublishNamesAreTexts();
  }

  /** The stream begins, and the news of it under its key goes out on the stream it is about. */
  lemma PublishSays(s: SessionState, values: seq<Value>)
    requires PrintableValues(values) && (forall v <- values :: Writable(v)) && StartPublishing(s, values).Ok?
    ensures TextAt(values, 3).Some?
    ensures var key := TrimSlashes(BeforeQuery(TextAt(values, 3).value));
            var (s', said) := StartPublishing(s, values).value;
            && key != [] && s' == s.(path := s.app + [0x2f] + key, stage := Publishing)
            && |said| == 2
            && said[0] == Send(2, Chunk.Message(0, Chunk.UserControl, 0, [0x00, 0x00, 0x00, 0x00, 0x00, 0x01]))
            && Tells(said[1], 1, NewsOf(key))
  {
    hide Utf8, Said, Amf0.ReadAll, Small, TrimSlashes, BeforeQuery, Ascii, BigEndian, Writable, NewsOf, Status;
    var stated := TextAt(values, 3).value;
    var key := TrimSlashes(BeforeQuery(stated));
    StatedIsText(values);
    BeforeQueryIsText(stated);
    TrimSlashesIsText(BeforeQuery(stated));
    ScalarsAreSmall(String(key));
    PublishNamesAreTexts();
    StatusIsSmall(PUBLISH_START_TEXT, PUBLISHING_TEXT, DETAILS_TEXT, String(key));
    OnStatusReads(Status(PUBLISH_START_TEXT, PUBLISHING_TEXT, DETAILS_TEXT, String(key)));
    NewsIs(key);
    BeginsIsSaid();
  }

  lemma StatedIsText(values: seq<Value>)
    requires PrintableValues(values) && TextAt(values, 3).Some?
    ensures Utf8(TextAt(values, 3).value) && |TextAt(values, 3).value| < 0x1_0000_0000
  {
    hide Utf8;
    assert Printable(values[3]);
  }

  lemma BeginsIsSaid()
    ensures BigEndian(0, 2) + BigEndian(PUBLISH_STREAM, 4) == [0x00, 0x00, 0x00, 0x00, 0x00, 0x01]
  {
    hide BigEndian;
    TwoBytes(0);
    FourBytes(PUBLISH_STREAM);
  }

  // ---------------------------------------------------------------- by name

  lemma AsciiBegins(s: string)
    requires s != "" && forall i :: 0 <= i < |s| ==> s[i] < 128 as char
    ensures |Ascii(s)| == |s| && Ascii(s)[0] == s[0] as int
  {
  }

  lemma NamesDiffer()
    ensures CONNECT_TEXT != CREATE_STREAM_TEXT && CONNECT_TEXT != PUBLISH_TEXT && CREATE_STREAM_TEXT != PUBLISH_TEXT
    ensures DELETE_STREAM_TEXT !in {CONNECT_TEXT, CREATE_STREAM_TEXT, PUBLISH_TEXT}
    ensures CLOSE_STREAM_TEXT !in {CONNECT_TEXT, CREATE_STREAM_TEXT, PUBLISH_TEXT}
    ensures FCUNPUBLISH_TEXT !in {CONNECT_TEXT, CREATE_STREAM_TEXT, PUBLISH_TEXT}
  {
    hide Ascii;
    AsciiBegins("connect");
    AsciiBegins("createStream");
    AsciiBegins("publish");
    AsciiBegins("deleteStream");
    AsciiBegins("closeStream");
    AsciiBegins("FCUnpublish");
  }

  /** The application a connection is to, if its third value has a text under `app`. */
  function AppStated(values: seq<Value>): Option<Text> {
    if |values| > 2 && values[2].Get(APP_TEXT).Some? && values[2].Get(APP_TEXT).value.String?
    then Some(values[2].Get(APP_TEXT).value.text) else None
  }

  /** What is not a command with a name is refused. */
  lemma NamelessIsRefused(s: SessionState, message: Chunk.Message)
    ensures Amf0.ReadAll(message.payload).Err? ==>
      Command(s, message) == Err(BadAmf0(Amf0.ReadAll(message.payload).error))
    ensures Amf0.ReadAll(message.payload).Ok? && NameOf(message).None? ==> Command(s, message) == Err(Nameless)
  {
    hide Amf0.ReadAll, Said, Status, ConnectReplies, StartPublishing, Reply, AppOf;
  }

  /** Connecting names an application or is refused for not. */
  lemma ConnectByName(s: SessionState, message: Chunk.Message)
    requires NameOf(message) == Some(CONNECT_TEXT)
    ensures var values := Amf0.ReadAll(message.payload).value;
            Command(s, message) == match AppStated(values)
              case None => Err(NoApp)
              case Some(app) =>
                Ok((s.(app := TrimSlashes(app), stage := Connected), ConnectReplies(TransactionOf(values))))
  {
    hide Amf0.ReadAll, Said, Status, ConnectReplies, StartPublishing, Reply, TrimSlashes, Ascii;
  }

  lemma CreateStreamByName(s: SessionState, message: Chunk.Message)
    requires NameOf(message) == Some(CREATE_STREAM_TEXT)
    ensures var values := Amf0.ReadAll(message.payload).value;
            Command(s, message) == Ok((s, [Reply(TransactionOf(values), [Null, Number(ONE)])]))
  {
    hide Amf0.ReadAll, Said, Status, ConnectReplies, StartPublishing, Reply, AppOf, Ascii;
    NamesDiffer();
  }

  /** The key a stream is to go under, without its query and slashes, if there is anything left of it. */
  function KeyStated(values: seq<Value>): Option<Text> {
    if |values| > 3 && values[3].String? && TrimSlashes(BeforeQuery(values[3].text)) != []
    then Some(TrimSlashes(BeforeQuery(values[3].text))) else None
  }

  lemma PublishByName(s: SessionState, message: Chunk.Message)
    requires NameOf(message) == Some(PUBLISH_TEXT)
    ensures var values := Amf0.ReadAll(message.payload).value;
            match KeyStated(values)
            case None => Command(s, message) == Err(NoStream)
            case Some(key) =>
              Command(s, message).Ok?
              && Command(s, message).value.0 == s.(path := s.app + [0x2f] + key, stage := Publishing)
              && forall a <- Command(s, message).value.1 :: a.Send?
  {
    hide Amf0.ReadAll, Said, Status, ConnectReplies, Reply, AppOf, Ascii, TrimSlashes, BeforeQuery, PrintableValues,
         ValuesFit, NodesOf;
    NamesDiffer();
    ReadReprints(message.payload);
    PrintableIsWritable(Amf0.ReadAll(message.payload).value);
  }

  /** The end of a stream is said once, and only by one that has begun. */
  lemma EndByName(s: SessionState, message: Chunk.Message)
    requires NameOf(message) == Some(DELETE_STREAM_TEXT) || NameOf(message) == Some(CLOSE_STREAM_TEXT)
          || NameOf(message) == Some(FCUNPUBLISH_TEXT)
    ensures Command(s, message) == Ok((s.(stage := Connected), if s.stage.Publishing? then [Unpublish] else []))
  {
    hide Amf0.ReadAll, Said, Status, ConnectReplies, StartPublishing, Reply, AppOf, Ascii;
    NamesDiffer();
  }

  /** Anything else that has a name is read past. */
  lemma OthersByName(s: SessionState, message: Chunk.Message)
    requires NameOf(message).Some?
    requires var name := NameOf(message).value;
      && name != CONNECT_TEXT && name != CREATE_STREAM_TEXT && name != PUBLISH_TEXT
      && name != DELETE_STREAM_TEXT && name != CLOSE_STREAM_TEXT && name != FCUNPUBLISH_TEXT
    ensures Command(s, message) == Ok((s, []))
  {
    hide Amf0.ReadAll, Said, Status, ConnectReplies, StartPublishing, Reply, AppOf, Ascii, TextAt;
  }

  // ---------------------------------------------------------------- by kind

  /** Messages of the three kinds that are not read are refused; of the rest only commands and media are acted on. */
  lemma ByKind(s: SessionState, incoming: Incoming)
    ensures var kind := incoming.message.kind;
            && (kind.Amf3Command? || kind.Amf3Data? || kind.Aggregate? ==>
                  Handle(s, incoming) == Err(UnreadMessage(kind)))
            && (kind.Amf0Command? ==> Handle(s, incoming) == Command(s, incoming.message))
            && ((kind.SetChunkSize? || kind.Abort? || kind.Acknowledgement? || kind.UserControl? || kind.WindowAckSize?
                 || kind.SetPeerBandwidth? || kind.Amf0Data? || kind.Other?) ==> Handle(s, incoming) == Ok((s, [])))
  {
    hide Command, VideoCame, AudioCame;
  }

  /** Media is refused before there is a stream for it, and where its payload does not read as any. */
  lemma MediaNeedsStream(s: SessionState, incoming: Incoming)
    ensures incoming.message.kind.Video? ==>
      && (!s.stage.Publishing? ==> Handle(s, incoming) == Err(NotPublishing(Chunk.Video)))
      && (s.stage.Publishing? && incoming.video.Err? ==> Handle(s, incoming) == Err(BadFlv(incoming.video.error)))
      && (s.stage.Publishing? && incoming.video == Ok(VideoEnd) ==> Handle(s, incoming) == Ok((s, [])))
    ensures incoming.message.kind.Audio? ==>
      && (!s.stage.Publishing? ==> Handle(s, incoming) == Err(NotPublishing(Chunk.Audio)))
      && (s.stage.Publishing? && incoming.audio.Err? ==> Handle(s, incoming) == Err(BadFlv(incoming.audio.error)))
  {
    hide PictureCame, FrameCame, VideoHeaderStated, AudioHeaderStated;
  }

  /** A sequence header is kept if it is the first and nothing is settled, let by if the same again, else refused. */
  lemma VideoHeaderExactly(s: SessionState, record: seq<byte>)
    ensures match H264.ParseConfig(record)
            case Err(error) => VideoHeaderStated(s, record) == Err(BadH264(error))
            case Ok(config) =>
              && (s.video == Some(config) ==> VideoHeaderStated(s, record) == Ok((s, [])))
              && (s.video.None? && s.published.None? ==>
                    VideoHeaderStated(s, record) == Ok((s.(video := Some(config)), [])))
              && (s.video.Some? && s.video != Some(config) ==>
                    VideoHeaderStated(s, record) == Err(ParametersChanged(Chunk.Video)))
              && (s.video.None? && s.published.Some? ==>
                    VideoHeaderStated(s, record) == Err(ParametersChanged(Chunk.Video)))
  {
    hide H264.ParseConfig;
  }

  lemma AudioHeaderExactly(s: SessionState, stated: Track.AacParameters)
    ensures var answer := AudioHeaderStated(s, Ok(stated));
            && (s.audio == Some(stated) ==> answer == Ok((s, [])))
            && (s.audio.None? && s.published.None? ==> answer == Ok((s.(audio := Some(stated)), [])))
            && (s.audio.Some? && s.audio != Some(stated) ==> answer == Err(ParametersChanged(Chunk.Audio)))
            && (s.audio.None? && s.published.Some? ==> answer == Err(ParametersChanged(Chunk.Audio)))
    ensures forall error :: AudioHeaderStated(s, Err(error)) == Err(BadAac(error))
  {
  }

  /** The first media of a session settles it, on what headers there have been, or is refused with none. */
  lemma SettlesExactly(s: SessionState)
    requires s.published.None?
    ensures s.video.None? && s.audio.None? <==> Settle(s) == Err(NoParameters)
    ensures Settle(s).Ok? <==>
      (s.video.Some? || s.audio.Some?)
      && (s.video.Some? ==> s.video.value.parameters.sps != [] && s.video.value.parameters.pps != [])
    ensures Settle(s).Ok? ==>
      var (s', said) := Settle(s).value;
      && |said| == 1 && said[0].Publish? && said[0].path == s.path
      && s' == s.(published := s'.published) && s'.published.Some?
      && (s'.published.value.video
          == if s.video.Some? then Some((0, s.video.value.nalLengthSize)) else None)
      && (s'.published.value.audio == if s.audio.None? then None else if s.video.Some? then Some(1) else Some(0))
  {
  }

  /** A picture or a frame is passed on unless the stream was settled without its kind or the picture will not split. */
  lemma MediaExactly(s: SessionState, timestamp: u32, compositionTime: int, data: seq<byte>)
    requires s.published.Some?
    ensures s.published.value.video.None? ==>
      PictureCame(s, timestamp, compositionTime, data) == Err(ParametersChanged(Chunk.Video))
    ensures s.published.value.audio.None? ==> FrameCame(s, timestamp, data) == Err(ParametersChanged(Chunk.Audio))
    ensures s.published.value.audio.Some? ==> FrameCame(s, timestamp, data).Ok?
    ensures s.published.value.video.Some? ==>
      match H264.SplitLengthPrefixed(data, s.published.value.video.value.1)
      case Ok(_) => PictureCame(s, timestamp, compositionTime, data).Ok?
      case Err(error) => PictureCame(s, timestamp, compositionTime, data) == Err(BadH264(error))
  {
    hide H264.SplitLengthPrefixed;
  }
}

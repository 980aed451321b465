/** The session as it is held by a connection: its fields, and the methods that change them. */
module SessionMachine {
  import opened Wrappers
  import opened Bytes
  import opened Chunk
  import opened Amf0
  import opened Track
  import opened Clocks
  import opened Session
  import Amf0Codec
  import Amf0RoundTrip
  import H264
  import H264Codec
  import U = Unit

  class Machine {
    var stage: Stage
    var app: Text
    var path: Text
    var video: Option<H264.AvcConfig>
    var audio: Option<AacParameters>
    var published: Option<Published>
    const timeline: Timeline
    var received: nat
    var acknowledged: nat

    ghost function State(): SessionState
      reads this, timeline
    {
      SessionState(stage, app, path, video, audio, published, timeline.State(), received, acknowledged)
    }

    /** The answer is what the specification gives, and the session is left as it says, unless it failed. */
    ghost predicate Follows(r: Result<seq<Action>, SessionError>, spec: Answer)
      reads this, timeline
    {
      match spec
      case Ok((s, actions)) => r == Ok(actions) && State() == s
      case Err(error) => r == Err(error)
    }

    constructor ()
      ensures State() == Fresh && fresh(timeline)
    {
      stage, app, path, video, audio, published := New, [], [], None, None, None;
      timeline := new Timeline();
      received, acknowledged := 0, 0;
    }

    /** Counts bytes read, and says when the peer is owed an acknowledgement. */
    method Received(bytes: nat) returns (actions: seq<Action>)
      modifies this
      ensures (State(), actions) == Receive(old(State()), bytes)
    {
      received := received + bytes;
      if received - acknowledged < WINDOW_SIZE {
        return [];
      }
      acknowledged := received;
      return [Say(CONTROL, Acknowledgement, 0, BigEndian(received, 4))];
    }

    method HandleCommand(message: Message) returns (r: Result<seq<Action>, SessionError>)
      modifies this
      ensures Follows(r, Command(old(State()), message))
    {
      hide Said, Status, Amf0.ReadAll, AppOf, TextAt, ConnectReplies, TrimSlashes, BeforeQuery, Reply, OnStatus;
      var read := Amf0Codec.ReadEvery(message.payload);
      if read.Err? {
        return Err(BadAmf0(read.error));
      }
      var values := read.value;
      var name := TextAt(values, 0);
      if name.None? {
        return Err(Nameless);
      }
      var stated := if |values| > 1 then values[1].AsNumber() else None;
      var transaction := if stated.Some? then stated.value else ZERO;
      if name.value == CONNECT_TEXT {
        var stated := AppOf(values);
        if stated.None? {
          return Err(NoApp);
        }
        app := TrimSlashes(stated.value);
        stage := Connected;
        return Ok(ConnectReplies(transaction));
      } else if name.value == CREATE_STREAM_TEXT {
        return Ok([Reply(transaction, [Null, Number(ONE)])]);
      } else if name.value == PUBLISH_TEXT {
        Amf0RoundTrip.ReadReprints(message.payload);
        r := Publish(values);
        return;
      } else if name.value == DELETE_STREAM_TEXT || name.value == CLOSE_STREAM_TEXT || name.value == FCUNPUBLISH_TEXT {
        var was := stage;
        stage := Connected;
        return Ok(if was.Publishing? then [Unpublish] else []);
      }
      return Ok([]);
    }

    method Publish(values: seq<Value>) returns (r: Result<seq<Action>, SessionError>)
      requires forall v <- values :: Amf0RoundTrip.Writable(v)
      modifies this
      ensures Follows(r, StartPublishing(old(State()), values))
    {
      hide Said, OnStatus, TrimSlashes, BeforeQuery;
      var stated := TextAt(values, 3);
      if stated.None? {
        return Err(NoStream);
      }
      var key := TrimSlashes(BeforeQuery(stated.value));
      if key == [] {
        return Err(NoStream);
      }
      path := app + [SLASH] + key;
      stage := Publishing;
      assert Amf0RoundTrip.Writable(values[3]);
      return Ok([
        Say(CONTROL, UserControl, 0, BigEndian(0, 2) + BigEndian(PUBLISH_STREAM, 4)),
        OnStatus(Status(PUBLISH_START_TEXT, PUBLISHING_TEXT, DETAILS_TEXT, String(key)))]);
    }

    /** Settles the description if it is not settled yet. */
    method SettleNow() returns (r: Result<seq<Action>, SessionError>)
      modifies this
      ensures Follows(r, Settle(old(State())))
      ensures r.Ok? ==> published.Some?
    {
      if published.Some? {
        return Ok([]);
      }
      var codecs := [];
      var videoTrack, audioTrack := None, None;
      if video.Some? {
        videoTrack := Some((|codecs|, video.value.nalLengthSize));
        codecs := codecs + [H264Codec(video.value.parameters)];
      }
      if audio.Some? {
        audioTrack := Some(|codecs|);
        codecs := codecs + [AacCodec(audio.value)];
      }
      assert codecs == Codecs(State());
      if codecs == [] {
        return Err(NoParameters);
      }
      var description := NewDescription(codecs);
      if description.Err? {
        return Err(BadDescription(description.error));
      }
      published := Some(Published(videoTrack, audioTrack));
      return Ok([Action.Publish(path, description.value)]);
    }

    method HandleVideo(incoming: Incoming) returns (r: Result<seq<Action>, SessionError>)
      modifies this, timeline
      ensures Follows(r, VideoCame(old(State()), incoming))
    {
      hide H264.ParseConfig, H264.SplitLengthPrefixed, Settle, U.NewPicture;
      if !stage.Publishing? {
        return Err(NotPublishing(Video));
      }
      match incoming.video
      case Err(error) => return Err(BadFlv(error));
      case Ok(VideoEnd) => return Ok([]);
      case Ok(VideoHeader(record)) =>
        var config := H264Codec.Parse(record);
        if config.Err? {
          return Err(BadH264(config.error));
        }
        if video == Some(config.value) {
          return Ok([]);
        }
        if published.Some? || video.Some? {
          return Err(ParametersChanged(Video));
        }
        video := Some(config.value);
        return Ok([]);
      case Ok(VideoPicture(compositionTime, data)) =>
        var actions :- SettleNow();
        if published.value.video.None? {
          return Err(ParametersChanged(Video));
        }
        var (track, width) := published.value.video.value;
        var dts := timeline.Reading(incoming.message.timestamp);
        var nalus := H264Codec.Split(data, width);
        if nalus.Err? {
          return Err(BadH264(nalus.error));
        }
        return Ok(actions + [Media(U.NewPicture(track, nalus.value, Offset(dts, compositionTime), dts))]);
    }

    method HandleAudio(incoming: Incoming) returns (r: Result<seq<Action>, SessionError>)
      modifies this, timeline
      ensures Follows(r, AudioCame(old(State()), incoming))
    {
      hide Settle;
      if !stage.Publishing? {
        return Err(NotPublishing(Audio));
      }
      match incoming.audio
      case Err(error) => return Err(BadFlv(error));
      case Ok(AudioHeader(Err(error))) => return Err(BadAac(error));
      case Ok(AudioHeader(Ok(stated))) =>
        if audio == Some(stated) {
          return Ok([]);
        }
        if published.Some? || audio.Some? {
          return Err(ParametersChanged(Audio));
        }
        audio := Some(stated);
        return Ok([]);
      case Ok(AudioFrame(data)) =>
        var actions :- SettleNow();
        if published.value.audio.None? {
          return Err(ParametersChanged(Audio));
        }
        var pts := timeline.Reading(incoming.message.timestamp);
        return Ok(actions + [Media(U.Frame(published.value.audio.value, data, pts))]);
    }

    method HandleMessage(incoming: Incoming) returns (r: Result<seq<Action>, SessionError>)
      modifies this, timeline
      ensures Follows(r, Handle(old(State()), incoming))
    {
      hide Command, VideoCame, AudioCame;
      match incoming.message.kind
      case Amf0Command => r := HandleCommand(incoming.message);
      case Video => r := HandleVideo(incoming);
      case Audio => r := HandleAudio(incoming);
      case Amf3Command => return Err(UnreadMessage(Amf3Command));
      case Amf3Data => return Err(UnreadMessage(Amf3Data));
      case Aggregate => return Err(UnreadMessage(Aggregate));
      case _ => return Ok([]);
    }
  }
}

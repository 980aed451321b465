/** The commands a publisher opens with, and what a session makes of them. */
module Requests {
  import opened Wrappers
  import opened Bytes
  import Chunk
  import opened Amf0
  import opened Amf0RoundTrip
  import opened Session
  import opened SessionReplies

  function Request(values: seq<Value>): Chunk.Message
    requires forall v <- values :: Writable(v)
  {
    Chunk.Message(0, Chunk.Amf0Command, 0, Said(values))
  }

  predicate Spelt(t: Text) { Utf8(t) && |t| < 0x1_0000_0000 }

  function ConnectTo(app: Text): (values: seq<Value>)
    requires |app| < 0x1_0000_0000
    ensures forall v <- values :: Writable(v)
  {
    [String(CONNECT_TEXT), Number(ONE), Object([Property(APP_TEXT, String(app))])]
  }

  function PublishAs(key: Text): (values: seq<Value>)
    requires |key| < 0x1_0000_0000
    ensures forall v <- values :: Writable(v)
  {
    [String(PUBLISH_TEXT), Number(ONE), Null, String(key)]
  }

  /** A key with nothing in it to be taken away. */
  predicate Plain(key: Text) { key != [] && key[0] != SLASH && key[|key| - 1] != SLASH && QUERY !in key }

  lemma PlainStays(key: Text)
    requires Plain(key)
    ensures TrimSlashes(BeforeQuery(key)) == key
  {
    BeforeQueryIs(key);
    assert key[..|key|] == key;
  }

  lemma AsciiBegins(s: string)
    requires s != "" && forall i :: 0 <= i < |s| ==> s[i] < 128 as char
    ensures |Ascii(s)| == |s| && Ascii(s)[0] == s[0] as int
  {
  }

  lemma CommandNames()
    ensures Name(CONNECT_TEXT, 7) && Name(PUBLISH_TEXT, 7) && Name(APP_TEXT, 3)
    ensures CONNECT_TEXT != PUBLISH_TEXT && PUBLISH_TEXT != CREATE_STREAM_TEXT
  {
    hide Utf8, Ascii;
    AsciiIsText("connect");
    AsciiIsText("publish");
    AsciiIsText("app");
    AsciiBegins("connect");
    AsciiBegins("publish");
    AsciiBegins("createStream");
  }

  lemma ConnectReads(app: Text)
    requires Spelt(app)
    ensures ReadAll(Request(ConnectTo(app)).payload) == Ok(ConnectTo(app))
  {
    hide Utf8, Said, Amf0.ReadAll, Small, CONNECT_TEXT, APP_TEXT;
    CommandNames();
    ScalarsAreSmall(String(CONNECT_TEXT));
    ScalarsAreSmall(Number(ONE));
    ScalarsAreSmall(String(app));
    PropertiesAreSmall([Property(APP_TEXT, String(app))]);
    SmallIsShallow(ConnectTo(app));
    SaidReads(ConnectTo(app));
  }

  lemma PublishReads(key: Text)
    requires Spelt(key)
    ensures ReadAll(Request(PublishAs(key)).payload) == Ok(PublishAs(key))
  {
    hide Utf8, Said, Amf0.ReadAll, Small, PUBLISH_TEXT;
    CommandNames();
    ScalarsAreSmall(String(PUBLISH_TEXT));
    ScalarsAreSmall(Number(ONE));
    ScalarsAreSmall(Null);
    ScalarsAreSmall(String(key));
    SmallIsShallow(PublishAs(key));
    SaidReads(PublishAs(key));
  }

  lemma ConnectIsAnswered(s: SessionState, app: Text)
    requires Spelt(app)
    ensures Command(s, Request(ConnectTo(app)))
         == Ok((s.(app := TrimSlashes(app), stage := Connected), ConnectReplies(ONE)))
  {
    hide Utf8, Said, Amf0.ReadAll, CONNECT_TEXT, APP_TEXT, TrimSlashes, ConnectReplies;
    ConnectReads(app);
    assert ConnectTo(app)[2].Get(APP_TEXT) == Some(String(app));
  }

  /** A plain key is published as it stands, and the news says so. */
  lemma PublishIsAnswered(s: SessionState, key: Text)
    requires Spelt(key) && Plain(key)
    ensures Command(s, Request(PublishAs(key)))
         == Ok((s.(path := s.app + [SLASH] + key, stage := Publishing),
                [Say(CONTROL, Chunk.UserControl, 0, BigEndian(0, 2) + BigEndian(PUBLISH_STREAM, 4)),
                 OnStatus(Status(PUBLISH_START_TEXT, PUBLISHING_TEXT, DETAILS_TEXT, String(key)))]))
  {
    hide Utf8, Said, Amf0.ReadAll, PUBLISH_TEXT, CONNECT_TEXT, CREATE_STREAM_TEXT, TrimSlashes, BeforeQuery, OnStatus,
         Status, Plain;
    PublishReads(key);
    PlainStays(key);
    CommandNames();
    assert key != [] by { PlainIsSomething(key); }
  }

  lemma PlainIsSomething(key: Text)
    requires Plain(key)
    ensures key != []
  {
  }
}

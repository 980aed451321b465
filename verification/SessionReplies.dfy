/** What a session's replies say, once the peer has read them. */
module SessionReplies {
  import opened Wrappers
  import opened Bytes
  import Chunk
  import opened Amf0
  import opened Amf0RoundTrip
  import opened Session

  // ---------------------------------------------------------------- texts stay texts

  /** The bytes of one character, with anything behind them. */
  lemma CharThen(s: seq<byte>, rest: seq<byte>)
    requires CharLength(s) > 0
    ensures var n := CharLength(s);
            && CharLength(s[..n] + rest) == n
            && (s[..n] + rest)[n..] == rest
            && (forall i :: 1 <= i < n ==> s[i] >= 0x80)
            && (n > 1 ==> s[0] >= 0x80)
  {
    var n := CharLength(s);
    var t := s[..n] + rest;
    assert forall i :: 0 <= i < n ==> t[i] == s[i];
  }

  lemma {:induction false} CharThenText(s: seq<byte>, rest: seq<byte>)
    requires CharLength(s) > 0
    ensures Utf8(s[..CharLength(s)] + rest) <==> Utf8(rest)
  {
    hide CharLength;
    CharThen(s, rest);
  }

  lemma {:induction false} AsciiIsText(s: string)
    requires forall i :: 0 <= i < |s| ==> s[i] < 128 as char
    ensures Utf8(Ascii(s)) && |Ascii(s)| == |s|
    decreases |s|
  {
    if s != [] {
      AsciiIsText(s[1..]);
      assert Ascii(s)[1..] == Ascii(s[1..]);
    }
  }

  /** No byte of a character of several bytes is an ASCII one. */
  lemma {:induction false} QueryInText(t: Text, n: nat)
    requires n <= |t| && forall i :: 0 <= i < n ==> t[i] != QUERY
    ensures BeforeQuery(t) == t[..n] + BeforeQuery(t[n..])
    decreases n
  {
    if n == 0 {
      assert t[0..] == t && [] + BeforeQuery(t) == BeforeQuery(t);
    } else {
      QueryInText(t[1..], n - 1);
      DropDrop(t, 1, n - 1);
      assert t[..n] == [t[0]] + t[1..][..n - 1];
      Associative([t[0]], t[1..][..n - 1], BeforeQuery(t[n..]));
    }
  }

  lemma {:induction false} BeforeQueryIsText(t: Text)
    requires Utf8(t)
    ensures Utf8(BeforeQuery(t))
    decreases |t|
  {
    hide CharLength;
    if t != [] && t[0] != QUERY {
      var n := CharLength(t);
      CharThen(t, t[n..]);
      BeforeQueryIsText(t[n..]);
      QueryInText(t, n);
      CharThenText(t, BeforeQuery(t[n..]));
    }
  }

  lemma {:induction false} TrimStartIsText(t: Text)
    requires Utf8(t)
    ensures Utf8(TrimStart(t))
    decreases |t|
  {
    if t != [] && t[0] == SLASH {
      TrimStartIsText(t[1..]);
    }
  }

  lemma {:induction false} WithoutLastSlash(t: Text)
    requires Utf8(t) && t != [] && t[|t| - 1] == SLASH
    ensures Utf8(t[..|t| - 1])
    decreases |t|
  {
    hide CharLength;
    var n, last := CharLength(t), |t| - 1;
    CharThen(t, t[n..]);
    if n < |t| {
      WithoutLastSlash(t[n..]);
      var rest := t[n..][..|t[n..]| - 1];
      CharThenText(t, rest);
      assert t[..last] == t[..n] + rest;
    } else {
      assert n == 1;
      assert t[..0] == [];
    }
  }

  lemma {:induction false} TrimSlashesIsText(t: Text)
    requires Utf8(t)
    ensures Utf8(TrimSlashes(t))
    decreases |t|
  {
    hide Utf8;
    if t != [] && t[|t| - 1] == SLASH {
      WithoutLastSlash(t);
      TrimSlashesIsText(t[..|t| - 1]);
    } else {
      TrimStartIsText(t);
    }
  }

  // ---------------------------------------------------------------- the name published

  lemma {:induction false} BeforeQueryIs(t: Text)
    ensures var n := |BeforeQuery(t)|;
            BeforeQuery(t) == t[..n] && QUERY !in t[..n] && (n < |t| ==> t[n] == QUERY)
    decreases |t|
  {
    if t != [] && t[0] != QUERY {
      BeforeQueryIs(t[1..]);
      var n := |BeforeQuery(t)|;
      assert t[..n] == [t[0]] + t[1..][..n - 1];
    }
  }

  predicate Slashes(t: Text) { forall b <- t :: b == SLASH }

  lemma {:induction false} TrimStartIs(t: Text)
    ensures var n := |t| - |TrimStart(t)|;
            TrimStart(t) == t[n..] && Slashes(t[..n]) && (n < |t| ==> t[n] != SLASH)
    decreases |t|
  {
    if t != [] && t[0] == SLASH {
      TrimStartIs(t[1..]);
      var n := |t| - |TrimStart(t)|;
      DropDrop(t, 1, n - 1);
      assert t[..n] == [t[0]] + t[1..][..n - 1];
    }
  }

  /** Nothing but slashes is trimmed, and all of them. */
  lemma {:induction false} TrimSlashesIs(t: Text) returns (before: Text, after: Text)
    ensures t == before + TrimSlashes(t) + after && Slashes(before) && Slashes(after)
    ensures var r := TrimSlashes(t); r != [] ==> r[0] != SLASH && r[|r| - 1] != SLASH
    decreases |t|
  {
    if t != [] && t[|t| - 1] == SLASH {
      var after1;
      before, after1 := TrimSlashesIs(t[..|t| - 1]);
      after := after1 + [t[|t| - 1]];
      assert t == t[..|t| - 1] + [t[|t| - 1]];
    } else {
      TrimStartIs(t);
      var n := |t| - |TrimStart(t)|;
      before, after := t[..n], [];
      assert t == before + TrimSlashes(t) + after;
    }
  }

  /**
    * A stream goes where its publisher named: under the application, by the key it stated, without the query
    * string behind it or the slashes around it, and with nothing else taken away.
    */
  lemma PublishesByName(s: SessionState, values: seq<Value>) returns (key: Text, before: Text, after: Text)
    requires (forall v <- values :: Writable(v)) && StartPublishing(s, values).Ok?
    ensures var (s', _) := StartPublishing(s, values).value;
            s'.path == s.app + [SLASH] + key && s'.stage.Publishing?
    ensures key != [] && key[0] != SLASH && key[|key| - 1] != SLASH && QUERY !in key
    ensures TextAt(values, 3).Some? && Slashes(before) && Slashes(after)
    ensures before + key + after <= TextAt(values, 3).value
    ensures var stated := TextAt(values, 3).value;
            before + key + after != stated ==> stated[|before + key + after|] == QUERY
  {
    hide TrimSlashes, BeforeQuery, OnStatus, Status, Writable;
    var stated := TextAt(values, 3).value;
    var named := BeforeQuery(stated);
    key := TrimSlashes(named);
    BeforeQueryIs(stated);
    before, after := TrimSlashesIs(named);
    forall b <- key ensures b != QUERY {
      assert b in named;
    }
  }

  // ---------------------------------------------------------------- replies

  lemma SaidReads(values: seq<Value>)
    requires PrintableValues(values) && ValuesFit(values, MAX_DEPTH)
    ensures (forall v <- values :: Writable(v)) && Amf0.ReadAll(Said(values)) == Ok(values)
  {
    hide Amf0.ReadAll, WriteAll;
    assert forall v <- values :: Printable(v);
    PrintedReads(values);
  }

  /** The name of something said: a text, and not too long to be a key. */
  predicate Name(t: Text, length: nat) { Utf8(t) && |t| == length && 0 < length < 0x100 }

  lemma NamesAreTexts()
    ensures Name(RESULT_TEXT, 7) && Name(ON_STATUS_TEXT, 8)
    ensures Name(LEVEL_TEXT, 5) && Name(STATUS_TEXT, 6) && Name(CODE_TEXT, 4) && Name(DESCRIPTION_TEXT, 11)
  {
    hide Utf8, Ascii;
    AsciiIsText("_result");
    AsciiIsText("onStatus");
    AsciiIsText("level");
    AsciiIsText("status");
    AsciiIsText("code");
    AsciiIsText("description");
  }

  lemma ConnectNamesAreTexts()
    ensures Name(FMS_VER_TEXT, 6) && Name(FMS_VERSION_TEXT, 13) && Name(CAPABILITIES_TEXT, 12)
    ensures Name(CONNECT_SUCCESS_TEXT, 29) && Name(CONNECTION_SUCCEEDED_TEXT, 21) && Name(OBJECT_ENCODING_TEXT, 14)
  {
    hide Utf8, Ascii;
    AsciiIsText("fmsVer");
    AsciiIsText("FMS/3,0,1,123");
    AsciiIsText("capabilities");
    AsciiIsText("NetConnection.Connect.Success");
    AsciiIsText("Connection succeeded.");
    AsciiIsText("objectEncoding");
  }

  lemma PublishNamesAreTexts()
    ensures Name(PUBLISH_START_TEXT, 23) && Name(PUBLISHING_TEXT, 11) && Name(DETAILS_TEXT, 7)
  {
    hide Utf8, Ascii;
    AsciiIsText("NetStream.Publish.Start");
    AsciiIsText("Publishing.");
    AsciiIsText("details");
  }

  predicate Scalar(v: Value) { Printable(v) && !Holder(v) }

  predicate Small(v: Value) { Printable(v) && Fits(v, 1) }

  lemma PropertiesAreSmall(properties: seq<Property>)
    requires forall p <- properties :: 0 < |p.key| < 0x1_0000 && Utf8(p.key) && Scalar(p.value)
    ensures Small(Object(properties))
  {
    hide Utf8;
    forall p <- properties ensures Writable(p.value) && WellSpelt(p.value) && Fits(p.value, 0) {
      assert Scalar(p.value);
    }
  }

  lemma StatusIsSmall(code: Text, description: Text, key: Text, value: Value)
    requires Utf8(code) && Utf8(description) && Utf8(key) && Scalar(value)
    requires |code| < 0x1_0000_0000 && |description| < 0x1_0000_0000 && 0 < |key| < 0x1_0000
    ensures Small(Status(code, description, key, value))
  {
    hide Utf8, LEVEL_TEXT, STATUS_TEXT, CODE_TEXT, DESCRIPTION_TEXT, Small;
    NamesAreTexts();
    PropertiesAreSmall(Status(code, description, key, value).properties);
  }

  /** The property a status adds is the one found by its name. */
  lemma StatusTells(code: Text, description: Text, key: Text, value: Value)
    requires |code| < 0x1_0000_0000 && |description| < 0x1_0000_0000 && 0 < |key| < 0x1_0000 && Writable(value)
    requires |key| != 5 && |key| != 4 && |key| != 11
    ensures Status(code, description, key, value).Get(key) == Some(value)
    ensures Status(code, description, key, value).Get(CODE_TEXT) == Some(String(code))
  {
    hide Utf8, LEVEL_TEXT, STATUS_TEXT, CODE_TEXT, DESCRIPTION_TEXT, Writable;
    NamesAreTexts();
    var level, c, d, p := Property(LEVEL_TEXT, String(STATUS_TEXT)), Property(CODE_TEXT, String(code)),
                          Property(DESCRIPTION_TEXT, String(description)), Property(key, value);
    assert [level, c, d, p][1..] == [c, d, p] && [c, d, p][1..] == [d, p] && [d, p][1..] == [p];
    assert Find([p], key) == Some(value);
    assert Find([d, p], key) == Find([p], key);
    assert Find([c, d, p], key) == Find([d, p], key) && Find([c, d, p], CODE_TEXT) == Some(String(code));
  }

  /** Values said as a reply to a command are read as the reply to that command. */
  lemma ReplyReads(transaction: u64, values: seq<Value>)
    requires forall v <- values :: Small(v)
    ensures (forall v <- values :: Writable(v)) && Reply(transaction, values).Send?
    ensures Amf0.ReadAll(Reply(transaction, values).message.payload)
         == Ok([String(RESULT_TEXT), Number(transaction)] + values)
  {
    hide Utf8, Said, Amf0.ReadAll, RESULT_TEXT, Writable, WellSpelt, Fits;
    assert forall v <- values :: Small(v);
    NamesAreTexts();
    var all := [String(RESULT_TEXT), Number(transaction)] + values;
    ScalarsAreSmall(String(RESULT_TEXT));
    ScalarsAreSmall(Number(transaction));
    assert forall v <- all :: Small(v);
    SmallIsShallow(all);
    SaidReads(all);
  }

  lemma ScalarsAreSmall(v: Value)
    requires v.Number? || v.Null? || (v.String? && Utf8(v.text) && |v.text| < 0x1_0000_0000)
    ensures Small(v) && Scalar(v)
  {
    hide Utf8;
  }

  lemma {:induction false} FitsMore(v: Value, room: int, more: int)
    requires Fits(v, room) && room <= more
    ensures Fits(v, more)
    decreases v
  {
    match v
    case Object(properties) =>
      forall p <- properties ensures Fits(p.value, more - 1) { FitsMore(p.value, room - 1, more - 1); }
    case EcmaArray(properties) =>
      forall p <- properties ensures Fits(p.value, more - 1) { FitsMore(p.value, room - 1, more - 1); }
    case StrictArray(values) => forall w <- values ensures Fits(w, more - 1) { FitsMore(w, room - 1, more - 1); }
    case _ =>
  }

  lemma SmallIsShallow(values: seq<Value>)
    requires forall v <- values :: Small(v)
    ensures PrintableValues(values) && ValuesFit(values, MAX_DEPTH)
  {
    hide Writable, WellSpelt, Fits;
    forall v <- values ensures Fits(v, MAX_DEPTH) {
      assert Small(v);
      FitsMore(v, 1, MAX_DEPTH);
    }
  }

  /** The number a command is answered by. */
  function TransactionOf(values: seq<Value>): u64 {
    var stated := if |values| > 1 then values[1].AsNumber() else None;
    if stated.Some? then stated.value else ZERO
  }

  /** A reply as the peer reads it: the result of the command it asked, or the news that publishing has begun. */
  predicate Answers(values: seq<Value>, path: Text, said: seq<Value>) {
    || (|said| > 2 && said[0] == String(RESULT_TEXT) && said[1] == Number(TransactionOf(values)))
    || (|said| == 4 && said[0] == String(ON_STATUS_TEXT) && said[1] == Number(ZERO) && said[2] == Null
        && said[3].Get(CODE_TEXT) == Some(String(PUBLISH_START_TEXT))
        && var key := said[3].Get(DETAILS_TEXT);
           key.Some? && key.value.String? && key.value.text != []
           && |path| > |key.value.text| && path[|path| - |key.value.text|..] == key.value.text)
  }

  lemma ConnectReads(values: seq<Value>)
    ensures var reply := ConnectReplies(TransactionOf(values))[4];
            && reply.Send? && reply.message.kind.Amf0Command?
            && Amf0.ReadAll(reply.message.payload).Ok?
            && Answers(values, [], Amf0.ReadAll(reply.message.payload).value)
  {
    hide Utf8, Said, Amf0.ReadAll, Small, Writable, WellSpelt, Fits, Status, RESULT_TEXT, FMS_VER_TEXT,
         FMS_VERSION_TEXT, CAPABILITIES_TEXT, CONNECT_SUCCESS_TEXT, CONNECTION_SUCCEEDED_TEXT, OBJECT_ENCODING_TEXT;
    ConnectNamesAreTexts();
    ScalarsAreSmall(String(FMS_VERSION_TEXT));
    ScalarsAreSmall(Number(THIRTY_ONE));
    ScalarsAreSmall(Number(ZERO));
    PropertiesAreSmall([Property(FMS_VER_TEXT, String(FMS_VERSION_TEXT)),
                        Property(CAPABILITIES_TEXT, Number(THIRTY_ONE))]);
    StatusIsSmall(CONNECT_SUCCESS_TEXT, CONNECTION_SUCCEEDED_TEXT, OBJECT_ENCODING_TEXT, Number(ZERO));
    ReplyReads(TransactionOf(values), [
      Object([Property(FMS_VER_TEXT, String(FMS_VERSION_TEXT)),
              Property(CAPABILITIES_TEXT, Number(THIRTY_ONE))]),
      Status(CONNECT_SUCCESS_TEXT, CONNECTION_SUCCEEDED_TEXT, OBJECT_ENCODING_TEXT, Number(ZERO))]);
  }

  lemma OneConnectAnswer(transaction: u64)
    ensures var all := ConnectReplies(transaction);
            |all| == 5 && forall a <- all :: a.Send? && a.message.kind.Amf0Command? ==> a == all[4]
  {
    hide Said, Status;
  }

  lemma CreateStreamReads(values: seq<Value>)
    ensures var reply := Reply(TransactionOf(values), [Null, Number(ONE)]);
            && reply.Send? && Amf0.ReadAll(reply.message.payload).Ok?
            && Answers(values, [], Amf0.ReadAll(reply.message.payload).value)
  {
    hide Utf8, Said, Amf0.ReadAll, Small, RESULT_TEXT;
    ScalarsAreSmall(Null);
    ScalarsAreSmall(Number(ONE));
    ReplyReads(TransactionOf(values), [Null, Number(ONE)]);
  }

  lemma OnStatusReads(status: Value)
    requires Small(status)
    ensures Writable(status)
    ensures Amf0.ReadAll(OnStatus(status).message.payload) == Ok([String(ON_STATUS_TEXT), Number(ZERO), Null, status])
  {
    hide Utf8, Said, Amf0.ReadAll, Writable, WellSpelt, Fits, ON_STATUS_TEXT;
    NamesAreTexts();
    ScalarsAreSmall(String(ON_STATUS_TEXT));
    ScalarsAreSmall(Number(ZERO));
    ScalarsAreSmall(Null);
    SmallIsShallow([String(ON_STATUS_TEXT), Number(ZERO), Null, status]);
    SaidReads([String(ON_STATUS_TEXT), Number(ZERO), Null, status]);
  }

  lemma PublishReads(s: SessionState, values: seq<Value>)
    requires PrintableValues(values)
    requires (forall v <- values :: Writable(v)) && StartPublishing(s, values).Ok?
    ensures var (s', actions) := StartPublishing(s, values).value;
            && |actions| == 2 && actions[1].Send? && Amf0.ReadAll(actions[1].message.payload).Ok?
            && actions[0].Send? && !actions[0].message.kind.Amf0Command?
            && Answers(values, s'.path, Amf0.ReadAll(actions[1].message.payload).value)
  {
    hide Utf8, Said, Amf0.ReadAll, Small, Status, TrimSlashes, BeforeQuery, ON_STATUS_TEXT, PUBLISH_START_TEXT,
         PUBLISHING_TEXT, DETAILS_TEXT, CODE_TEXT;
    assert Printable(values[3]);
    var stated := TextAt(values, 3).value;
    var key := TrimSlashes(BeforeQuery(stated));
    BeforeQueryIsText(stated);
    TrimSlashesIsText(BeforeQuery(stated));
    ScalarsAreSmall(String(key));
    PublishNamesAreTexts();
    StatusIsSmall(PUBLISH_START_TEXT, PUBLISHING_TEXT, DETAILS_TEXT, String(key));
    StatusTells(PUBLISH_START_TEXT, PUBLISHING_TEXT, DETAILS_TEXT, String(key));
    OnStatusReads(Status(PUBLISH_START_TEXT, PUBLISHING_TEXT, DETAILS_TEXT, String(key)));
    var path := s.app + [SLASH] + key;
    assert path[|path| - |key|..] == key;
  }

  /**
    * Every command the server says in answer to one, the peer can read, and it is what it should be: a
    * result bearing the transaction it was asked by, or the news of publishing under the name the path ends in.
    */
  lemma AnswersAreRead(s: SessionState, message: Chunk.Message)
    ensures Command(s, message).Ok? ==>
      var (s', actions) := Command(s, message).value;
      && Amf0.ReadAll(message.payload).Ok?
      && forall a <- actions :: a.Send? && a.message.kind.Amf0Command? ==>
           && Amf0.ReadAll(a.message.payload).Ok?
           && Answers(Amf0.ReadAll(message.payload).value, s'.path, Amf0.ReadAll(a.message.payload).value)
  {
    hide Amf0.ReadAll, Reply, StartPublishing, AppOf, TextAt, TrimSlashes, Status, PrintableValues, ValuesFit, NodesOf,
         ConnectReplies, Writable;
    if Command(s, message).Ok? {
      var values := Amf0.ReadAll(message.payload).value;
      ReadReprints(message.payload);
      OneConnectAnswer(TransactionOf(values));
      ConnectReads(values);
      CreateStreamReads(values);
      PrintableIsWritable(values);
      if StartPublishing(s, values).Ok? {
        PublishReads(s, values);
      }
    }
  }

  lemma PrintableIsWritable(values: seq<Value>)
    requires PrintableValues(values)
    ensures forall v <- values :: Writable(v)
  {
    assert forall v <- values :: Printable(v);
  }
}

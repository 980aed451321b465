/** How long a session's replies are, and how long a request has to be to draw a long one. */
module ReplySizes {
  import opened Wrappers
  import opened Bytes
  import Chunk
  import opened Amf0
  import opened Amf0RoundTrip
  import opened Session
  import opened SessionReplies

  // ---------------------------------------------------------------- printed

  function TextSize(length: nat): nat { length + if length < 0x1_0000 then 3 else 5 }

  function Printed(v: Value): nat
    requires Writable(v)
  {
    WritableIsWritten(v);
    |Write(v).value|
  }

  lemma ScalarSizes(v: Value)
    requires Writable(v)
    ensures v.String? ==> Printed(v) == TextSize(|v.text|)
    ensures v.Number? ==> Printed(v) == 9
    ensures v.Null? ==> Printed(v) == 1
  {
  }

  predicate WritableProperties(properties: seq<Property>) {
    forall p <- properties :: 0 < |p.key| < 0x1_0000 && Writable(p.value)
  }

  function PropertiesSize(properties: seq<Property>): nat
    requires WritableProperties(properties)
  {
    if properties == [] then 3
    else
      assert forall p <- properties[1..] :: p in properties;
      2 + |properties[0].key| + Printed(properties[0].value) + PropertiesSize(properties[1..])
  }

  lemma {:induction false} PropertiesSizeIs(properties: seq<Property>)
    requires WritableProperties(properties)
    ensures WriteProperties(properties).Ok? && |WriteProperties(properties).value| == PropertiesSize(properties)
  {
    hide BigEndian, Write, Writable;
    PropertiesAreWritten(properties);
    if properties != [] {
      assert forall p <- properties[1..] :: p in properties;
      PropertiesSizeIs(properties[1..]);
    }
  }

  lemma ObjectSize(properties: seq<Property>)
    requires WritableProperties(properties)
    ensures Printed(Object(properties)) == 1 + PropertiesSize(properties)
  {
    PropertiesSizeIs(properties);
  }

  function ValuesSize(values: seq<Value>): nat
    requires forall v <- values :: Writable(v)
  {
    if values == [] then 0
    else
      assert forall v <- values[1..] :: v in values;
      Printed(values[0]) + ValuesSize(values[1..])
  }

  lemma {:induction false} SaidSize(values: seq<Value>)
    requires forall v <- values :: Writable(v)
    ensures |Said(values)| == ValuesSize(values)
  {
    hide Write, Writable;
    ValuesAreWritten(values);
    if values != [] {
      assert forall v <- values[1..] :: v in values;
      SaidSize(values[1..]);
      ValuesAreWritten(values[1..]);
    }
  }

  // ---------------------------------------------------------------- replies

  /** The object a status is, by the text and the property it adds. */
  lemma StatusSize(code: Text, description: Text, key: Text, value: Value)
    requires |code| < 0x1_0000 && |description| < 0x1_0000 && 0 < |key| < 0x1_0000 && Writable(value)
    ensures Printed(Status(code, description, key, value))
         == 47 + |code| + |description| + |key| + Printed(value)
  {
    hide Writable, Printed, LEVEL_TEXT, STATUS_TEXT, CODE_TEXT, DESCRIPTION_TEXT, Utf8;
    NamesAreTexts();
    var level, c, d, p := Property(LEVEL_TEXT, String(STATUS_TEXT)), Property(CODE_TEXT, String(code)),
                          Property(DESCRIPTION_TEXT, String(description)), Property(key, value);
    TextsAreWritable(STATUS_TEXT, code, description);
    var all := [level, c, d, p];
    assert all[1..] == [c, d, p] && [c, d, p][1..] == [d, p] && [d, p][1..] == [p] && [p][1..] == [];
    ObjectSize(all);
    assert PropertiesSize([p]) == 2 + |key| + Printed(value) + 3;
    assert PropertiesSize([d, p]) == 2 + 11 + TextSize(|description|) + PropertiesSize([p]);
    assert PropertiesSize([c, d, p]) == 2 + 4 + TextSize(|code|) + PropertiesSize([d, p]);
  }

  lemma TextsAreWritable(a: Text, b: Text, c: Text)
    requires |a| < 0x1_0000 && |b| < 0x1_0000 && |c| < 0x1_0000
    ensures Writable(String(a)) && Writable(String(b)) && Writable(String(c))
    ensures Printed(String(a)) == 3 + |a| && Printed(String(b)) == 3 + |b| && Printed(String(c)) == 3 + |c|
  {
    ScalarSizes(String(a));
    ScalarSizes(String(b));
    ScalarSizes(String(c));
  }

  /** The news that publishing has begun, under a key of some length. */
  lemma NewsSize(key: Text)
    requires |key| < 0x1_0000_0000
    ensures var news := OnStatus(Status(PUBLISH_START_TEXT, PUBLISHING_TEXT, DETAILS_TEXT, String(key)));
            |news.message.payload| == 109 + TextSize(|key|)
  {
    hide Printed, Said, Status, ON_STATUS_TEXT, PUBLISH_START_TEXT, PUBLISHING_TEXT, DETAILS_TEXT, Utf8;
    NamesAreTexts();
    PublishNamesAreTexts();
    ScalarSizes(String(key));
    ScalarSizes(String(ON_STATUS_TEXT));
    ScalarSizes(Number(ZERO));
    ScalarSizes(Null);
    StatusSize(PUBLISH_START_TEXT, PUBLISHING_TEXT, DETAILS_TEXT, String(key));
    var status := Status(PUBLISH_START_TEXT, PUBLISHING_TEXT, DETAILS_TEXT, String(key));
    FourValues(String(ON_STATUS_TEXT), Number(ZERO), Null, status);
  }

  lemma FourValues(a: Value, b: Value, c: Value, d: Value)
    requires Writable(a) && Writable(b) && Writable(c) && Writable(d)
    ensures |Said([a, b, c, d])| == Printed(a) + Printed(b) + Printed(c) + Printed(d)
  {
    hide Writable, Printed, Said;
    SaidSize([a, b, c, d]);
    assert [a, b, c, d][1..] == [b, c, d] && [b, c, d][1..] == [c, d] && [c, d][1..] == [d] && [d][1..] == [];
    assert ValuesSize([d]) == Printed(d);
    assert ValuesSize([c, d]) == Printed(c) + ValuesSize([d]);
    assert ValuesSize([b, c, d]) == Printed(b) + ValuesSize([c, d]);
  }

  lemma ConnectSizes(transaction: u64)
    ensures forall a <- ConnectReplies(transaction) :: a.Send? ==> |a.message.payload| <= 190
  {
    hide Printed, Said, Status, RESULT_TEXT, FMS_VER_TEXT, FMS_VERSION_TEXT, CAPABILITIES_TEXT, CONNECT_SUCCESS_TEXT,
         CONNECTION_SUCCEEDED_TEXT, OBJECT_ENCODING_TEXT, Utf8;
    NamesAreTexts();
    ConnectNamesAreTexts();
    var version, able := Property(FMS_VER_TEXT, String(FMS_VERSION_TEXT)),
                         Property(CAPABILITIES_TEXT, Number(THIRTY_ONE));
    ScalarSizes(String(RESULT_TEXT));
    ScalarSizes(Number(transaction));
    ScalarSizes(String(FMS_VERSION_TEXT));
    ScalarSizes(Number(THIRTY_ONE));
    ScalarSizes(Number(ZERO));
    TwoProperties(version, able);
    StatusSize(CONNECT_SUCCESS_TEXT, CONNECTION_SUCCEEDED_TEXT, OBJECT_ENCODING_TEXT, Number(ZERO));
    var info := Status(CONNECT_SUCCESS_TEXT, CONNECTION_SUCCEEDED_TEXT, OBJECT_ENCODING_TEXT, Number(ZERO));
    FourValues(String(RESULT_TEXT), Number(transaction), Object([version, able]), info);
    var all := [String(RESULT_TEXT), Number(transaction)] + [Object([version, able]), info];
    assert all == [String(RESULT_TEXT), Number(transaction), Object([version, able]), info];
  }

  lemma TwoProperties(p: Property, q: Property)
    requires WritableProperties([p, q])
    ensures Writable(p.value) && Writable(q.value)
    ensures Printed(Object([p, q])) == 8 + |p.key| + |q.key| + Printed(p.value) + Printed(q.value)
  {
    hide Writable, Printed;
    assert p in [p, q] && q in [p, q];
    ObjectSize([p, q]);
    assert [p, q][1..] == [q] && [q][1..] == [];
    assert PropertiesSize([q]) == 2 + |q.key| + Printed(q.value) + 3;
  }

  lemma CreateStreamSize(transaction: u64)
    ensures |Reply(transaction, [Null, Number(ONE)]).message.payload| == 29
  {
    hide Printed, Said, RESULT_TEXT, Utf8;
    NamesAreTexts();
    ScalarSizes(String(RESULT_TEXT));
    ScalarSizes(Number(transaction));
    ScalarSizes(Null);
    ScalarSizes(Number(ONE));
    FourValues(String(RESULT_TEXT), Number(transaction), Null, Number(ONE));
    assert [String(RESULT_TEXT), Number(transaction)] + [Null, Number(ONE)]
        == [String(RESULT_TEXT), Number(transaction), Null, Number(ONE)];
  }

  // ---------------------------------------------------------------- requests

  /** The least a value takes to write. */
  function Cost(v: Value): nat { if v.String? then TextSize(|v.text|) else 1 }

  function Costs(values: seq<Value>): nat {
    if values == [] then 0 else Cost(values[0]) + Costs(values[1..])
  }

  lemma StringCosts(c: Cursor, width: nat)
    requires (width == 2 || width == 4) && ReadString(c, width).Ok?
    ensures var (v, c') := ReadString(c, width).value;
            v.String? && |c.rest| == |c'.rest| + width + |v.text| && (width == 2 ==> |v.text| < 0x1_0000)
  {
    hide Utf8, FromBigEndian;
    Widths();
  }

  lemma ValueCosts(c: Cursor, depth: nat)
    requires ReadValue(c, depth).Ok?
    ensures Cost(ReadValue(c, depth).value.0) + |ReadValue(c, depth).value.1.rest| <= |c.rest|
  {
    hide ReadNested, ReadItems, ReadString, ReadDate, Utf8, FromBigEndian;
    Widths();
    var (marker, c1) := ReadNumber(c, 1).value;
    if marker == STRING {
      StringCosts(c1, 2);
    } else if marker == LONG_STRING {
      StringCosts(c1, 4);
    }
  }

  lemma {:induction false} RestCosts(c: Cursor)
    ensures ReadRest(c).Ok? ==> Costs(ReadRest(c).value) <= |c.rest|
    decreases |c.rest|
  {
    hide ReadValue, Cost;
    if c.rest != [] && ReadRest(c).Ok? {
      var (value, c1) := ReadValue(c, 0).value;
      ValueCosts(c, 0);
      RestCosts(c1);
      var rest := ReadRest(c1).value;
      assert ([value] + rest)[1..] == rest;
    }
  }

  /** A request to publish under a key is longer than the key: its name, a number and an object come first. */
  lemma PublishCosts(message: Chunk.Message)
    requires Amf0.ReadAll(message.payload).Ok?
    requires TextAt(Amf0.ReadAll(message.payload).value, 0) == Some(PUBLISH_TEXT)
    requires TextAt(Amf0.ReadAll(message.payload).value, 3).Some?
    ensures |message.payload| >= 12 + TextSize(|TextAt(Amf0.ReadAll(message.payload).value, 3).value|)
  {
    hide ReadRest, PUBLISH_TEXT, TextSize;
    var values := Amf0.ReadAll(message.payload).value;
    RestCosts(Cursor(message.payload, 0));
    PublishIsSeven();
    assert Costs(values) == Cost(values[0]) + Costs(values[1..]);
    assert Costs(values[1..]) == Cost(values[1]) + Costs(values[2..]) by { DropDrop(values, 1, 1); }
    assert Costs(values[2..]) == Cost(values[2]) + Costs(values[3..]) by { DropDrop(values, 2, 1); }
    assert Costs(values[3..]) == Cost(values[3]) + Costs(values[4..]) by { DropDrop(values, 3, 1); }
    EveryCostIsSomething(values[1]);
    EveryCostIsSomething(values[2]);
  }

  lemma EveryCostIsSomething(v: Value)
    ensures Cost(v) >= 1
  {
  }

  lemma PublishIsSeven()
    ensures |PUBLISH_TEXT| == 7 && Cost(String(PUBLISH_TEXT)) == 10
  {
    hide Utf8;
    AsciiIsText("publish");
  }

  lemma LongerTextIsLonger(a: nat, b: nat)
    ensures a <= b ==> TextSize(a) <= TextSize(b)
  {
  }

  /** What a reply is longer by than the request it answers, at most, unless both are short. */
  const MARGIN := 97

  /** Every command's replies are short, or not much longer than the command. */
  lemma RepliesAreBounded(s: SessionState, message: Chunk.Message)
    ensures Command(s, message).Ok? ==>
      forall a <- Command(s, message).value.1 :: a.Send? ==>
        |a.message.payload| <= 190 || |a.message.payload| <= |message.payload| + MARGIN
  {
    hide Amf0.ReadAll, Reply, StartPublishing, AppOf, TextAt, TrimSlashes, Status, ConnectReplies, Writable,
         PrintableValues, ValuesFit, NodesOf;
    if Command(s, message).Ok? {
      var values := Amf0.ReadAll(message.payload).value;
      ConnectSizes(TransactionOf(values));
      CreateStreamSize(TransactionOf(values));
      ReadReprints(message.payload);
      PrintableIsWritable(values);
      if TextAt(values, 0) == Some(PUBLISH_TEXT) && StartPublishing(s, values).Ok? {
        PublishReplies(s, message);
      }
    }
  }

  /** A publish command's replies: the stream's beginning, and the news with the key in it. */
  lemma PublishReplies(s: SessionState, message: Chunk.Message)
    requires Amf0.ReadAll(message.payload).Ok?
    requires TextAt(Amf0.ReadAll(message.payload).value, 0) == Some(PUBLISH_TEXT)
    requires forall v <- Amf0.ReadAll(message.payload).value :: Writable(v)
    ensures StartPublishing(s, Amf0.ReadAll(message.payload).value).Ok? ==>
      forall a <- StartPublishing(s, Amf0.ReadAll(message.payload).value).value.1 :: a.Send? ==>
        |a.message.payload| <= 190 || |a.message.payload| <= |message.payload| + MARGIN
  {
    hide Amf0.ReadAll, TextAt, TrimSlashes, BeforeQuery, OnStatus, Status, Writable, TextSize;
    if StartPublishing(s, Amf0.ReadAll(message.payload).value).Ok? {
      var stated := TextAt(Amf0.ReadAll(message.payload).value, 3).value;
      var key := TrimSlashes(BeforeQuery(stated));
      PublishCosts(message);
      assert |stated| < 0x1_0000_0000 by { StatedIsWritable(Amf0.ReadAll(message.payload).value); }
      NewsSize(key);
      LongerTextIsLonger(|key|, |stated|);
    }
  }

  lemma StatedIsWritable(values: seq<Value>)
    requires forall v <- values :: Writable(v)
    ensures TextAt(values, 3).Some? ==> |TextAt(values, 3).value| < 0x1_0000_0000
  {
    if TextAt(values, 3).Some? {
      assert Writable(values[3]);
    }
  }
}

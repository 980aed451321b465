/**
  * AMF0 as anybody may write it: every sequence of bytes that a value can be encoded as, byte for byte, and that
  * those are exactly the bytes the parser takes for it.
  */
module Amf0Wire {
  import opened Wrappers
  import opened Bytes
  import opened Amf0
  import opened Amf0RoundTrip

  /** Text behind a count of its bytes. */
  predicate Spells(w: seq<byte>, width: nat, text: Text) {
    |text| < Pow256(width) && w == BigEndian(|text|, width) + text && Utf8(text)
  }

  /**
    * Encoders differ: a short string may be in the long form, true is any byte but zero, an associative array's
    * count may say anything, and so may a date's time zone.
    */
  ghost predicate Encodes(w: seq<byte>, v: Value)
    decreases v, 1
  {
    w != [] &&
    match v
    case Number(bits) => w[0] == 0 && w[1..] == BigEndian(bits, 8)
    case Boolean(flag) => w[0] == 1 && |w| == 2 && (flag <==> w[1] != 0)
    case String(text) => (w[0] == 2 && Spells(w[1..], 2, text)) || (w[0] == 12 && Spells(w[1..], 4, text))
    case Object(properties) => w[0] == 3 && EncodesProperties(w[1..], properties)
    case EcmaArray(properties) => w[0] == 8 && |w| >= 5 && EncodesProperties(w[5..], properties)
    case StrictArray(values) => w[0] == 10 && |w| >= 5 && Counts(w[1..5], |values|) && EncodesValues(w[5..], values)
    case Date(millis) => w[0] == 11 && |w| == 11 && w[1..9] == BigEndian(millis, 8)
    case Null => w == [5]
    case Undefined => w == [6]
  }

  predicate Counts(w: seq<byte>, count: nat) { count < 0x1_0000_0000 && w == BigEndian(count, 4) }

  ghost predicate EncodesProperties(w: seq<byte>, properties: seq<Property>)
    decreases properties, 0
  {
    if properties == [] then w == [0, 0, 9]
    else
      var k := 2 + |properties[0].key|;
      && properties[0].key != [] && k <= |w| && Spells(w[..k], 2, properties[0].key)
      && exists m :: k <= m <= |w|
           && Encodes(w[k..m], properties[0].value) && EncodesProperties(w[m..], properties[1..])
  }

  ghost predicate EncodesValues(w: seq<byte>, values: seq<Value>)
    decreases values, 0
  {
    if values == [] then w == []
    else exists m :: 0 <= m <= |w| && Encodes(w[..m], values[0]) && EncodesValues(w[m..], values[1..])
  }

  // ---------------------------------------------------------------- every encoding is read

  lemma ScalarEncodingReads(w: seq<byte>, v: Value, suffix: seq<byte>, at: nat, depth: nat)
    requires Encodes(w, v) && !Holder(v)
    ensures ReadValue(Cursor(w + suffix, at), depth) == Ok((v, Cursor(suffix, at + |w|)))
  {
    hide Utf8, BigEndian, ReadValue, ReadDate, ReadString, Refuse;
    var body := w[1..];
    assert w + suffix == [w[0]] + (body + suffix);
    match v
    case Number(bits) =>
      ScalarDispatch(w[0], body + suffix, at, depth);
      NumericReads(v, suffix, at);
    case Boolean(flag) =>
      ScalarDispatch(w[0], body + suffix, at, depth);
      assert body == [w[1]];
      FlagReads(w[1], suffix, at + 1);
    case String(text) =>
      ScalarDispatch(w[0], body + suffix, at, depth);
      var width := if w[0] == 2 then 2 else 4;
      Associative(BigEndian(|text|, width), text, suffix);
      StringReads(text, width, suffix, at + 1);
    case Date(millis) =>
      ScalarDispatch(w[0], body + suffix, at, depth);
      assert body + suffix == BigEndian(millis, 8) + (w[9..] + suffix);
      AnyDateReads(millis, w[9..], suffix, at + 1);
    case Null => ScalarDispatch(5, suffix, at, depth);
    case Undefined => ScalarDispatch(6, suffix, at, depth);
  }

  /** Anything but zero is true. */
  lemma FlagReads(b: byte, suffix: seq<byte>, at: nat)
    ensures ReadScalar(1, at, Cursor([b] + suffix, at)) == Ok((Boolean(b != 0), Cursor(suffix, at + 1)))
  {
    hide ReadNumber, Utf8, Refuse, ReadString, ReadDate;
    MarkerReads(at, b, suffix);
  }

  lemma AnyDateReads(millis: u64, zone: seq<byte>, suffix: seq<byte>, at: nat)
    requires |zone| == 2
    ensures ReadDate(Cursor(BigEndian(millis, 8) + (zone + suffix), at)) == Ok((Date(millis), Cursor(suffix, at + 10)))
  {
    hide BigEndian, ReadNumber;
    Widths();
    NumberReads(at, millis, 8, zone + suffix);
    BytesRead(at + 8, zone, suffix);
  }

  /** The count in front of an associative array is read past, whatever its bytes are. */
  lemma AnyEcmaDispatch(count: seq<byte>, body: seq<byte>, at: nat, depth: nat)
    requires |count| == 4
    ensures ReadValue(Cursor([8] + (count + body), at), depth) == AsEcmaArray(ReadNested(Cursor(body, at + 5), depth))
  {
    hide BigEndian, ReadValue, AsEcmaArray;
    BigEndianOfValue(count);
    EcmaDispatch(FromBigEndian(count), body, at, depth);
  }

  /**
    * Whoever wrote it: a value's bytes, with anything behind them, are read as that value and no further, if it
    * nests at most 32 deep from the outermost; otherwise it is refused for that.
    */
  lemma {:induction false} EncodingReads(w: seq<byte>, v: Value, suffix: seq<byte>, at: nat, depth: nat)
    requires Encodes(w, v) && depth <= 32
    ensures ReadValue(Cursor(w + suffix, at), depth) ==
      if Fits(v, 32 - depth) then Ok((v, Cursor(suffix, at + |w|))) else Err(TooDeep(32))
    decreases v, 1
  {
    hide ReadValue, Utf8, BigEndian, ReadProperties, ReadItems, EncodesProperties, EncodesValues;
    match v
    case Object(properties) =>
      assert w + suffix == [3] + (w[1..] + suffix);
      ObjectDispatch(w[1..] + suffix, at, depth);
      if depth < 32 {
        PropertiesEncodingReads(w[1..], properties, suffix, at + 1, depth + 1);
      }
    case EcmaArray(properties) =>
      assert w + suffix == [8] + (w[1..5] + (w[5..] + suffix));
      AnyEcmaDispatch(w[1..5], w[5..] + suffix, at, depth);
      if depth < 32 {
        PropertiesEncodingReads(w[5..], properties, suffix, at + 5, depth + 1);
      }
    case StrictArray(values) =>
      assert w + suffix == [10] + (w[1..5] + (w[5..] + suffix));
      StrictDispatch(|values|, w[5..] + suffix, at, depth);
      if depth < 32 {
        ValuesEncodingRead(w[5..], values, suffix, at + 5, depth + 1);
      }
    case _ => ScalarEncodingReads(w, v, suffix, at, depth);
  }

  lemma {:induction false} PropertiesEncodingReads(w: seq<byte>, properties: seq<Property>, suffix: seq<byte>, at: nat,
                                                   depth: nat)
    requires EncodesProperties(w, properties) && depth <= 32
    ensures ReadProperties(Cursor(w + suffix, at), depth) ==
      if PropertiesFit(properties, 32 - depth) then Ok((properties, Cursor(suffix, at + |w|))) else Err(TooDeep(32))
    decreases properties, 0
  {
    hide ReadValue, ReadProperties, Utf8, Fits, PutKey, Encodes, EncodesProperties;
    if properties == [] {
      NoProperties(w);
      EndReads(suffix, at, depth);
    } else {
      var p := properties[0];
      var key, value, rest := FirstProperty(w, properties);
      assert w + suffix == key + (value + (rest + suffix));
      KeyReads(p.key, value + (rest + suffix), at, depth);
      EncodingReads(value, p.value, rest + suffix, at + |key|, depth);
      PropertiesEncodingReads(rest, properties[1..], suffix, at + |key| + |value|, depth);
      assert properties == [Property(p.key, p.value)] + properties[1..];
    }
  }

  lemma NoProperties(w: seq<byte>)
    ensures EncodesProperties(w, []) <==> w == [0, 0, 9]
  {
  }

  lemma FirstProperty(w: seq<byte>, properties: seq<Property>)
    returns (key: seq<byte>, value: seq<byte>, rest: seq<byte>)
    requires EncodesProperties(w, properties) && properties != []
    ensures w == key + (value + rest) && |w| == |key| + |value| + |rest|
    ensures PutKey(properties[0].key) == Ok(key) && |key| == 2 + |properties[0].key|
    ensures 0 < |properties[0].key| < 0x1_0000 && Utf8(properties[0].key)
    ensures Encodes(value, properties[0].value) && EncodesProperties(rest, properties[1..])
  {
    hide Encodes, Utf8, BigEndian;
    var k := 2 + |properties[0].key|;
    var m :| k <= m <= |w| && Encodes(w[k..m], properties[0].value) && EncodesProperties(w[m..], properties[1..]);
    key, value, rest := w[..k], w[k..m], w[m..];
    Widths();
    KeyIsPut(key, properties[0].key);
  }

  lemma KeyIsPut(w: seq<byte>, key: Text)
    requires key != [] && Spells(w, 2, key)
    ensures PutKey(key) == Ok(w)
  {
    Widths();
  }

  lemma {:induction false} ValuesEncodingRead(w: seq<byte>, values: seq<Value>, suffix: seq<byte>, at: nat, depth: nat)
    requires EncodesValues(w, values) && depth <= 32
    ensures ReadItems(Cursor(w + suffix, at), depth, |values|) ==
      if ValuesFit(values, 32 - depth) then Ok((values, Cursor(suffix, at + |w|))) else Err(TooDeep(32))
    decreases values, 0
  {
    hide ReadValue, Fits, Encodes;
    if values == [] {
      assert w + suffix == suffix;
    } else {
      var m :| 0 <= m <= |w| && Encodes(w[..m], values[0]) && EncodesValues(w[m..], values[1..]);
      assert w + suffix == w[..m] + (w[m..] + suffix);
      EncodingReads(w[..m], values[0], w[m..] + suffix, at, depth);
      ValuesEncodingRead(w[m..], values[1..], suffix, at + m, depth);
      assert values == [values[0]] + values[1..];
    }
  }

  // ---------------------------------------------------------------- and nothing else is

  /** What reading took. */
  function Taken(c: Cursor, c': Cursor): seq<byte>
    requires |c'.rest| <= |c.rest|
  {
    c.rest[..|c.rest| - |c'.rest|]
  }

  predicate Took(c: Cursor, c': Cursor) {
    |c'.rest| <= |c.rest| && c.rest == Taken(c, c') + c'.rest && c'.at + |c'.rest| == c.at + |c.rest|
  }

  lemma TookBoth(c: Cursor, c1: Cursor, c2: Cursor)
    requires Took(c, c1) && Took(c1, c2)
    ensures Took(c, c2) && Taken(c, c2) == Taken(c, c1) + Taken(c1, c2)
  {
    assert c.rest == Taken(c, c1) + (Taken(c1, c2) + c2.rest);
  }

  lemma BytesTaken(c: Cursor, count: nat)
    requires ReadBytes(c, count).Ok?
    ensures Took(c, ReadBytes(c, count).value.1) && Taken(c, ReadBytes(c, count).value.1) == ReadBytes(c, count).value.0
  {
  }

  lemma NumberTaken(c: Cursor, width: nat)
    requires ReadNumber(c, width).Ok?
    ensures var (n, c') := ReadNumber(c, width).value;
            Took(c, c') && Taken(c, c') == BigEndian(n, width) && |Taken(c, c')| == width
  {
    hide BigEndian, FromBigEndian, ReadBytes, Taken;
    BytesTaken(c, width);
    BigEndianOfValue(ReadBytes(c, width).value.0);
  }

  lemma OneByte(b: byte)
    ensures BigEndian(b, 1) == [b]
  {
  }

  lemma StringTaken(c: Cursor, width: nat)
    requires ReadString(c, width).Ok?
    ensures var (v, c') := ReadString(c, width).value;
            v.String? && Took(c, c') && Spells(Taken(c, c'), width, v.text)
  {
    hide BigEndian, FromBigEndian, ReadNumber, ReadBytes, Utf8, Taken, Took;
    NumberTaken(c, width);
    var (length, c1) := ReadNumber(c, width).value;
    BytesTaken(c1, length);
    TookBoth(c, c1, ReadBytes(c1, length).value.1);
  }

  lemma DateTaken(c: Cursor)
    requires ReadDate(c).Ok?
    ensures var (v, c') := ReadDate(c).value;
            && v.Date? && Took(c, c') && |Taken(c, c')| == 10 && Taken(c, c')[..8] == BigEndian(v.millis, 8)
  {
    hide BigEndian, FromBigEndian, ReadNumber, ReadBytes, Taken, Took;
    Widths();
    NumberTaken(c, 8);
    var c1 := ReadNumber(c, 8).value.1;
    BytesTaken(c1, 2);
    TookBoth(c, c1, ReadBytes(c1, 2).value.1);
  }

  lemma ScalarTaken(marker: byte, offset: nat, c: Cursor)
    requires ReadScalar(marker, offset, c).Ok?
    ensures var (v, c') := ReadScalar(marker, offset, c).value;
            Took(c, c') && Encodes([marker] + Taken(c, c'), v)
  {
    hide BigEndian, FromBigEndian, ReadNumber, Utf8, ReadDate, ReadString, Took, Taken, Spells;
    Widths();
    var (v, c') := ReadScalar(marker, offset, c).value;
    assert ([marker] + Taken(c, c'))[1..] == Taken(c, c');
    match v
    case Number(_) => NumberTaken(c, 8);
    case Boolean(_) =>
      NumberTaken(c, 1);
      OneByte(ReadNumber(c, 1).value.0);
    case String(_) => StringTaken(c, if marker == STRING then 2 else 4);
    case Date(_) =>
      DateTaken(c);
      assert ([marker] + Taken(c, c'))[1..9] == Taken(c, c')[..8];
    case Null =>
      NothingTaken(c);
      assert [marker] + [] == [marker];
    case Undefined =>
      NothingTaken(c);
      assert [marker] + [] == [marker];
  }

  lemma NothingTaken(c: Cursor)
    ensures Took(c, c) && Taken(c, c) == []
  {
  }

  /** Whatever is read is read from an encoding of it. */
  lemma {:induction false} ReadIsEncoding(c: Cursor, depth: nat)
    requires ReadValue(c, depth).Ok?
    ensures var (v, c') := ReadValue(c, depth).value;
            Took(c, c') && Encodes(Taken(c, c'), v)
    decreases |c.rest|, 1
  {
    hide BigEndian, FromBigEndian, ReadNumber, Utf8, ReadScalar, ReadProperties, ReadItems, Took, Taken,
         EncodesProperties, EncodesValues;
    Widths();
    var (v, c') := ReadValue(c, depth).value;
    NumberTaken(c, 1);
    var (marker, c1) := ReadNumber(c, 1).value;
    OneByte(marker);
    if marker == OBJECT {
      ReadPropertiesIsEncoding(c1, depth + 1);
      TookBoth(c, c1, c');
      assert Taken(c, c')[1..] == Taken(c1, c');
    } else if marker == ECMA_ARRAY {
      NumberTaken(c1, 4);
      var c2 := ReadNumber(c1, 4).value.1;
      ReadPropertiesIsEncoding(c2, depth + 1);
      TookBoth(c1, c2, c');
      TookBoth(c, c1, c');
      assert Taken(c, c')[5..] == Taken(c2, c');
    } else if marker == STRICT_ARRAY {
      NumberTaken(c1, 4);
      var (count, c2) := ReadNumber(c1, 4).value;
      ReadItemsIsEncoding(c2, depth + 1, count);
      TookBoth(c1, c2, c');
      TookBoth(c, c1, c');
      assert Taken(c, c')[1..5] == Taken(c1, c2) && Taken(c, c')[5..] == Taken(c2, c');
    } else {
      ScalarTaken(marker, c.at, c1);
      TookBoth(c, c1, c');
    }
  }

  lemma {:induction false} ReadPropertiesIsEncoding(c: Cursor, depth: nat)
    requires ReadProperties(c, depth).Ok?
    ensures var (properties, c') := ReadProperties(c, depth).value;
            Took(c, c') && EncodesProperties(Taken(c, c'), properties)
    decreases |c.rest|, 0
  {
    hide BigEndian, FromBigEndian, ReadNumber, Utf8, ReadValue, Took, Taken, Encodes, ReadBytes;
    Widths();
    var (properties, c') := ReadProperties(c, depth).value;
    NumberTaken(c, 2);
    var (length, c1) := ReadNumber(c, 2).value;
    if length == 0 {
      NumberTaken(c1, 1);
      OneByte(9);
      TookBoth(c, c1, c');
      TwoBytes(0);
    } else {
      BytesTaken(c1, length);
      var (key, c2) := ReadText(c1, length).value;
      TookBoth(c, c1, c2);
      ReadIsEncoding(c2, depth);
      var (value, c3) := ReadValue(c2, depth).value;
      ReadPropertiesIsEncoding(c3, depth);
      var rest := ReadProperties(c3, depth).value.0;
      TookBoth(c2, c3, c');
      TookBoth(c, c2, c');
      assert properties[1..] == rest && properties[0] == Property(key, value);
      PropertyThen(Taken(c, c2), Taken(c2, c3), Taken(c3, c'), properties);
    }
  }

  lemma PropertyThen(key: seq<byte>, value: seq<byte>, rest: seq<byte>, properties: seq<Property>)
    requires properties != [] && properties[0].key != [] && Spells(key, 2, properties[0].key)
    requires Encodes(value, properties[0].value) && EncodesProperties(rest, properties[1..])
    ensures EncodesProperties(key + (value + rest), properties)
  {
    hide Encodes, Utf8, BigEndian;
    var w := key + (value + rest);
    assert w[..|key|] == key && w[|key|..|key| + |value|] == value && w[|key| + |value|..] == rest;
  }

  lemma {:induction false} ReadItemsIsEncoding(c: Cursor, depth: nat, count: nat)
    requires ReadItems(c, depth, count).Ok?
    ensures var (values, c') := ReadItems(c, depth, count).value;
            Took(c, c') && EncodesValues(Taken(c, c'), values)
    decreases |c.rest|, 2, count
  {
    hide ReadValue, Took, Taken, Encodes;
    NothingTaken(c);
    if count != 0 {
      var c' := ReadItems(c, depth, count).value.1;
      ReadIsEncoding(c, depth);
      var (value, c1) := ReadValue(c, depth).value;
      ReadItemsIsEncoding(c1, depth, count - 1);
      var rest := ReadItems(c1, depth, count - 1).value.0;
      TookBoth(c, c1, c');
      ValueThen(Taken(c, c1), Taken(c1, c'), value, rest);
    }
  }

  lemma ValueThen(first: seq<byte>, later: seq<byte>, value: Value, rest: seq<Value>)
    requires Encodes(first, value) && EncodesValues(later, rest)
    ensures EncodesValues(first + later, [value] + rest)
  {
    hide Encodes;
    var w := first + later;
    assert w[..|first|] == first && w[|first|..] == later && ([value] + rest)[1..] == rest;
  }

  /** A payload is read as values exactly when it is encodings of them end to end and they nest at most 32 deep. */
  lemma ReadExactly(data: seq<byte>, values: seq<Value>)
    ensures Amf0.ReadAll(data) == Ok(values) <==> EncodesValues(data, values) && ValuesFit(values, 32)
  {
    hide EncodesValues, ValuesFit, ReadRest;
    if EncodesValues(data, values) {
      AllReads(data, values, 0);
    }
    if Amf0.ReadAll(data).Ok? {
      RestIsEncoding(Cursor(data, 0));
      ReadRestIsSound(Cursor(data, 0));
    }
  }

  lemma {:induction false} AllReads(w: seq<byte>, values: seq<Value>, at: nat)
    requires EncodesValues(w, values)
    ensures ReadRest(Cursor(w, at)) == if ValuesFit(values, 32) then Ok(values) else Err(TooDeep(32))
    decreases |values|
  {
    hide ReadValue, Fits, Encodes;
    if values != [] {
      var m :| 0 <= m <= |w| && Encodes(w[..m], values[0]) && EncodesValues(w[m..], values[1..]);
      assert w == w[..m] + w[m..];
      NotNothing(w[..m], values[0]);
      EncodingReads(w[..m], values[0], w[m..], at, 0);
      AllReads(w[m..], values[1..], at + m);
      assert values == [values[0]] + values[1..];
    }
  }

  lemma NotNothing(w: seq<byte>, v: Value)
    requires Encodes(w, v)
    ensures w != []
  {
  }

  lemma {:induction false} RestIsEncoding(c: Cursor)
    requires ReadRest(c).Ok?
    ensures EncodesValues(c.rest, ReadRest(c).value)
    decreases |c.rest|
  {
    hide ReadValue, Encodes;
    if c.rest != [] {
      ReadIsEncoding(c, 0);
      var (value, c1) := ReadValue(c, 0).value;
      RestIsEncoding(c1);
      ValueThen(Taken(c, c1), c1.rest, value, ReadRest(c1).value);
    }
  }

  // ---------------------------------------------------------------- what the printer chooses

  lemma PutKeySpells(key: Text)
    requires 0 < |key| < 0x1_0000 && Utf8(key)
    ensures PutKey(key).Ok? && Spells(PutKey(key).value, 2, key) && |PutKey(key).value| == 2 + |key|
  {
    Widths();
  }

  lemma ScalarIsEncoding(v: Value)
    requires Printable(v) && !Holder(v)
    ensures Write(v).Ok? && Encodes(Write(v).value, v)
  {
    hide Utf8, BigEndian;
    Widths();
    match v
    case String(text) =>
      var w := PutString(text).value;
      assert w[1..] == BigEndian(|text|, if |text| < 0x1_0000 then 2 else 4) + text;
    case Date(millis) =>
      var w := Write(v).value;
      assert w[1..9] == BigEndian(millis, 8);
    case _ =>
  }

  /** What is printed is an encoding. */
  lemma {:induction false} WrittenIsEncoding(v: Value)
    requires Printable(v)
    ensures Write(v).Ok? && Encodes(Write(v).value, v)
    decreases v, 1
  {
    hide Utf8, BigEndian, EncodesProperties, EncodesValues;
    match v
    case Object(properties) =>
      PropertiesAreEncoding(properties);
      assert Write(v).value[1..] == WriteProperties(properties).value;
    case EcmaArray(properties) =>
      PropertiesAreEncoding(properties);
      assert Write(v).value[5..] == WriteProperties(properties).value;
    case StrictArray(values) =>
      ValuesAreEncoding(values);
      var w := Write(v).value;
      assert w[1..5] == BigEndian(|values|, 4) && w[5..] == WriteAll(values).value;
    case _ => ScalarIsEncoding(v);
  }

  lemma {:induction false} PropertiesAreEncoding(properties: seq<Property>)
    requires PrintableProperties(properties)
    ensures WriteProperties(properties).Ok? && EncodesProperties(WriteProperties(properties).value, properties)
    decreases properties, 0
  {
    hide Utf8, Write, PutKey, Encodes, EncodesProperties, Writable, WellSpelt, Spells;
    if properties == [] {
      NoProperties(END);
    } else {
      var p := properties[0];
      PutKeySpells(p.key);
      WrittenIsEncoding(p.value);
      PropertiesAreEncoding(properties[1..]);
      PropertyThen(PutKey(p.key).value, Write(p.value).value, WriteProperties(properties[1..]).value, properties);
    }
  }

  lemma {:induction false} ValuesAreEncoding(values: seq<Value>)
    requires PrintableValues(values)
    ensures WriteAll(values).Ok? && EncodesValues(WriteAll(values).value, values)
    decreases values, 0
  {
    hide Write, Encodes, Writable, WellSpelt;
    if values != [] {
      WrittenIsEncoding(values[0]);
      ValuesAreEncoding(values[1..]);
      assert values == [values[0]] + values[1..];
      ValueThen(Write(values[0]).value, WriteAll(values[1..]).value, values[0], values[1..]);
    }
  }

  /** Where an encoder has a choice: true is 1, a string is short if it can be, a count is true and a zone is zero. */
  lemma PrinterChooses(v: Value)
    requires Printable(v)
    ensures Write(v).Ok?
    ensures var w := Write(v).value;
            && (v.Boolean? ==> w == [1, if v.flag then 1 else 0])
            && (v.String? ==> w != [] && (w[0] == 2 <==> |v.text| <= 0xffff))
            && (v.EcmaArray? ==> |w| > 5 && w[1..5] == BigEndian(|v.properties|, 4))
            && (v.Date? ==> |w| == 11 && w[9..] == [0, 0])
  {
    hide Utf8, BigEndian;
    WrittenIsEncoding(v);
    if v.EcmaArray? {
      NoProperties([]);
      PropertiesAreWritten(v.properties);
      EndIsWritten(v.properties);
    }
  }

  lemma {:induction false} EndIsWritten(properties: seq<Property>)
    ensures WriteProperties(properties).Ok? ==> WriteProperties(properties).value != []
  {
  }

  /** What the printer has a form for: keys of 1 to 65535 bytes and strings of less than 2^32. */
  predicate Expressible(v: Value) {
    match v
    case String(text) => |text| < 0x1_0000_0000
    case Object(properties) => forall p <- properties :: 0 < |p.key| < 0x1_0000 && Expressible(p.value)
    case EcmaArray(properties) => forall p <- properties :: 0 < |p.key| < 0x1_0000 && Expressible(p.value)
    case StrictArray(values) => forall w <- values :: Expressible(w)
    case _ => true
  }

  /** A length that is refused: of a string or of a key. */
  predicate NamesLength(e: Amf0Error) {
    || (e.StringTooLong? && e.length >= 0x1_0000_0000)
    || (e.UnwritableKey? && (e.length == 0 || e.length > 0xffff))
  }

  /** Anything else is refused, by the length that is wrong, and nothing that has a form is. */
  lemma {:induction false} RefusedExactly(v: Value)
    ensures Write(v).Ok? <==> Expressible(v)
    ensures Write(v).Err? ==> NamesLength(Write(v).error)
    decreases v, 1
  {
    hide BigEndian;
    match v
    case Object(properties) => PropertiesRefusedExactly(properties);
    case EcmaArray(properties) => PropertiesRefusedExactly(properties);
    case StrictArray(values) => ValuesRefusedExactly(values);
    case _ =>
  }

  lemma {:induction false} PropertiesRefusedExactly(properties: seq<Property>)
    ensures WriteProperties(properties).Ok? <==>
      forall p <- properties :: 0 < |p.key| < 0x1_0000 && Expressible(p.value)
    ensures WriteProperties(properties).Err? ==> NamesLength(WriteProperties(properties).error)
    decreases properties, 0
  {
    hide BigEndian, Write, Expressible;
    if properties != [] {
      RefusedExactly(properties[0].value);
      PropertiesRefusedExactly(properties[1..]);
      assert properties == [properties[0]] + properties[1..];
    }
  }

  lemma {:induction false} ValuesRefusedExactly(values: seq<Value>)
    ensures WriteAll(values).Ok? <==> forall w <- values :: Expressible(w)
    ensures WriteAll(values).Err? ==> NamesLength(WriteAll(values).error)
    decreases values, 0
  {
    hide Write, Expressible;
    if values != [] {
      RefusedExactly(values[0]);
      ValuesRefusedExactly(values[1..]);
      assert values == [values[0]] + values[1..];
    }
  }
}

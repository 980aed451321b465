/** The AMF0 printer and parser undo each other, exactly as deep as the parser goes. */
module Amf0RoundTrip {
  import opened Wrappers
  import opened Bytes
  import opened Amf0

  /** What the encoding has room for: keys of 1 to 65535 bytes, and counts that fit in 32 bits. */
  predicate Writable(v: Value) {
    match v
    case String(text) => |text| < 0x1_0000_0000
    case Object(properties) => forall p <- properties :: 0 < |p.key| < 0x1_0000 && Writable(p.value)
    case EcmaArray(properties) => forall p <- properties :: 0 < |p.key| < 0x1_0000 && Writable(p.value)
    case StrictArray(values) => |values| < 0x1_0000_0000 && forall w <- values :: Writable(w)
    case _ => true
  }

  /** Every string in it is the UTF-8 that a string is. */
  predicate WellSpelt(v: Value) {
    match v
    case String(text) => Utf8(text)
    case Object(properties) => forall p <- properties :: Utf8(p.key) && WellSpelt(p.value)
    case EcmaArray(properties) => forall p <- properties :: Utf8(p.key) && WellSpelt(p.value)
    case StrictArray(values) => forall w <- values :: WellSpelt(w)
    case _ => true
  }

  /** Nests at most `room` deep. */
  predicate Fits(v: Value, room: int) {
    match v
    case Object(properties) => room > 0 && forall p <- properties :: Fits(p.value, room - 1)
    case EcmaArray(properties) => room > 0 && forall p <- properties :: Fits(p.value, room - 1)
    case StrictArray(values) => room > 0 && forall w <- values :: Fits(w, room - 1)
    case _ => true
  }

  /** How many values there are in it, itself included. */
  function Nodes(v: Value): nat
    decreases v, 1
  {
    match v
    case Object(properties) => 1 + NodesIn(properties)
    case EcmaArray(properties) => 1 + NodesIn(properties)
    case StrictArray(values) => 1 + NodesOf(values)
    case _ => 1
  }

  function NodesIn(properties: seq<Property>): nat
    decreases properties, 0
  {
    if properties == [] then 0 else Nodes(properties[0].value) + NodesIn(properties[1..])
  }

  function NodesOf(values: seq<Value>): nat
    decreases values, 0
  {
    if values == [] then 0 else Nodes(values[0]) + NodesOf(values[1..])
  }

  predicate Printable(v: Value) { Writable(v) && WellSpelt(v) }

  predicate PrintableProperties(properties: seq<Property>) {
    forall p <- properties :: 0 < |p.key| < 0x1_0000 && Utf8(p.key) && Printable(p.value)
  }

  predicate PrintableValues(values: seq<Value>) { forall w <- values :: Printable(w) }

  // ---------------------------------------------------------------- everything writable is written

  lemma {:induction false} WritableIsWritten(v: Value)
    requires Writable(v)
    ensures Write(v).Ok? && Write(v).value != []
    decreases v, 1
  {
    match v
    case Object(properties) => PropertiesAreWritten(properties);
    case EcmaArray(properties) => PropertiesAreWritten(properties);
    case StrictArray(values) => ValuesAreWritten(values);
    case _ =>
  }

  lemma {:induction false} PropertiesAreWritten(properties: seq<Property>)
    requires forall p <- properties :: 0 < |p.key| < 0x1_0000 && Writable(p.value)
    ensures WriteProperties(properties).Ok?
    decreases properties, 0
  {
    if properties != [] {
      WritableIsWritten(properties[0].value);
      PropertiesAreWritten(properties[1..]);
    }
  }

  lemma {:induction false} ValuesAreWritten(values: seq<Value>)
    requires forall w <- values :: Writable(w)
    ensures WriteAll(values).Ok?
    decreases values, 0
  {
    if values != [] {
      WritableIsWritten(values[0]);
      ValuesAreWritten(values[1..]);
    }
  }

  // ---------------------------------------------------------------- printer, then parser

  lemma BytesRead(at: nat, bytes: seq<byte>, suffix: seq<byte>)
    ensures ReadBytes(Cursor(bytes + suffix, at), |bytes|) == Ok((bytes, Cursor(suffix, at + |bytes|)))
  {
    assert (bytes + suffix)[..|bytes|] == bytes && (bytes + suffix)[|bytes|..] == suffix;
  }

  lemma NumberReads(at: nat, n: nat, width: nat, suffix: seq<byte>)
    requires n < Pow256(width)
    ensures ReadNumber(Cursor(BigEndian(n, width) + suffix, at), width) == Ok((n, Cursor(suffix, at + width)))
  {
    BytesRead(at, BigEndian(n, width), suffix);
    ValueOfBigEndian(n, width);
  }

  lemma MarkerReads(at: nat, marker: byte, suffix: seq<byte>)
    ensures ReadNumber(Cursor([marker] + suffix, at), 1) == Ok((marker as nat, Cursor(suffix, at + 1)))
  {
    BytesRead(at, [marker], suffix);
    assert [marker][..0] == [] && FromBigEndian([marker]) == marker;
  }

  lemma StringReads(text: Text, width: nat, suffix: seq<byte>, at: nat)
    requires |text| < Pow256(width) && Utf8(text)
    ensures ReadString(Cursor(BigEndian(|text|, width) + (text + suffix), at), width)
         == Ok((String(text), Cursor(suffix, at + width + |text|)))
  {
    hide Utf8, BigEndian, ReadNumber, ReadBytes;
    NumberReads(at, |text|, width, text + suffix);
    BytesRead(at + width, text, suffix);
  }

  lemma DateReads(millis: u64, suffix: seq<byte>, at: nat)
    ensures ReadDate(Cursor(BigEndian(millis, 8) + ([0, 0] + suffix), at))
         == Ok((Date(millis), Cursor(suffix, at + 10)))
  {
    hide BigEndian, ReadNumber;
    Widths();
    NumberReads(at, millis, 8, [0, 0] + suffix);
    BytesRead(at + 8, [0, 0], suffix);
  }

  lemma NumericReads(v: Value, suffix: seq<byte>, at: nat)
    requires v.Number? || v.Boolean?
    ensures ReadScalar(if v.Number? then NUMBER else BOOLEAN, at,
                       Cursor((if v.Number? then BigEndian(v.bits, 8) else [if v.flag then 1 else 0]) + suffix, at + 1))
         == Ok((v, Cursor(suffix, at + if v.Number? then 9 else 2)))
  {
    hide Utf8, BigEndian, ReadNumber, Refuse;
    Widths();
    if v.Number? {
      NumberReads(at + 1, v.bits, 8, suffix);
    } else {
      MarkerReads(at + 1, if v.flag then 1 else 0, suffix);
    }
  }

  predicate Holder(v: Value) { v.Object? || v.EcmaArray? || v.StrictArray? }

  /** What a written value begins with, and what its marker leads to. */
  lemma ScalarDispatch(marker: byte, body: seq<byte>, at: nat, depth: nat)
    requires marker != OBJECT && marker != ECMA_ARRAY && marker != STRICT_ARRAY
    ensures ReadValue(Cursor([marker] + body, at), depth) == ReadScalar(marker, at, Cursor(body, at + 1))
  {
    hide ReadScalar;
    MarkerReads(at, marker, body);
  }

  lemma WrittenStringReads(text: Text, suffix: seq<byte>, at: nat, depth: nat)
    requires |text| < 0x1_0000_0000 && Utf8(text)
    ensures var w := PutString(text).value;
            ReadValue(Cursor(w + suffix, at), depth) == Ok((String(text), Cursor(suffix, at + |w|)))
  {
    hide Utf8, BigEndian, ReadValue, ReadString;
    Widths();
    var width, marker: byte := if |text| < 0x1_0000 then 2 else 4, if |text| < 0x1_0000 then STRING else LONG_STRING;
    var count := BigEndian(|text|, width);
    Associative([marker] + count, text, suffix);
    Associative([marker], count, text + suffix);
    ScalarDispatch(marker, count + (text + suffix), at, depth);
    StringReads(text, width, suffix, at + 1);
  }

  lemma WrittenDateReads(millis: u64, suffix: seq<byte>, at: nat, depth: nat)
    ensures var w := [DATE] + BigEndian(millis, 8) + [0, 0];
            ReadValue(Cursor(w + suffix, at), depth) == Ok((Date(millis), Cursor(suffix, at + |w|)))
  {
    hide BigEndian, ReadValue, ReadDate;
    var bits := BigEndian(millis, 8);
    Associative([DATE] + bits, [0, 0], suffix);
    Associative([DATE], bits, [0, 0] + suffix);
    ScalarDispatch(DATE, bits + ([0, 0] + suffix), at, depth);
    DateReads(millis, suffix, at + 1);
  }

  lemma ScalarReads(v: Value, suffix: seq<byte>, at: nat, depth: nat)
    requires Printable(v) && !Holder(v)
    ensures Write(v).Ok?
    ensures var w := Write(v).value;
            ReadValue(Cursor(w + suffix, at), depth) == Ok((v, Cursor(suffix, at + |w|)))
  {
    hide Utf8, BigEndian, ReadValue, PutString;
    match v
    case Number(bits) =>
      Associative([NUMBER], BigEndian(bits, 8), suffix);
      ScalarDispatch(NUMBER, BigEndian(bits, 8) + suffix, at, depth);
      NumericReads(v, suffix, at);
    case Boolean(flag) =>
      var b: byte := if flag then 1 else 0;
      assert [BOOLEAN, b] + suffix == [BOOLEAN] + ([b] + suffix);
      ScalarDispatch(BOOLEAN, [b] + suffix, at, depth);
      NumericReads(v, suffix, at);
    case String(text) =>
      StringIsWritten(text);
      WrittenStringReads(text, suffix, at, depth);
    case Date(millis) => WrittenDateReads(millis, suffix, at, depth);
    case Null => ScalarDispatch(NULL, suffix, at, depth);
    case Undefined => ScalarDispatch(UNDEFINED, suffix, at, depth);
  }

  lemma StringIsWritten(text: Text)
    requires |text| < 0x1_0000_0000
    ensures PutString(text).Ok?
  {
  }

  // ---------------------------------------------------------------- the values that hold others

  function AsObject(r: Read<seq<Property>>): Read<Value> {
    var (properties, c) :- r;
    Ok((Object(properties), c))
  }

  function AsEcmaArray(r: Read<seq<Property>>): Read<Value> {
    var (properties, c) :- r;
    Ok((EcmaArray(properties), c))
  }

  function AsStrictArray(r: Read<seq<Value>>): Read<Value> {
    var (values, c) :- r;
    Ok((StrictArray(values), c))
  }

  /** The rest of a property whose key has been read, and the properties after it. */
  function AfterKey(key: Text, c: Cursor, depth: nat): Read<seq<Property>> {
    var (value, c1) :- ReadValue(c, depth);
    var (rest, c2) :- ReadProperties(c1, depth);
    Ok(([Property(key, value)] + rest, c2))
  }

  lemma ObjectDispatch(body: seq<byte>, at: nat, depth: nat)
    ensures ReadValue(Cursor([OBJECT] + body, at), depth)
         == AsObject(ReadNested(Cursor(body, at + 1), depth))
  {
    hide ReadNested, ReadScalar;
    MarkerReads(at, OBJECT, body);
  }

  /** The count in front of an associative array is read past, whatever it says. */
  lemma EcmaDispatch(count: nat, body: seq<byte>, at: nat, depth: nat)
    ensures ReadValue(Cursor([ECMA_ARRAY] + (BigEndian(count, 4) + body), at), depth)
         == AsEcmaArray(ReadNested(Cursor(body, at + 5), depth))
  {
    hide ReadNested, ReadScalar, BigEndian;
    MarkerReads(at, ECMA_ARRAY, BigEndian(count, 4) + body);
    BytesRead(at + 1, BigEndian(count, 4), body);
  }

  lemma StrictDispatch(count: nat, body: seq<byte>, at: nat, depth: nat)
    requires count < 0x1_0000_0000
    ensures ReadValue(Cursor([STRICT_ARRAY] + (BigEndian(count, 4) + body), at), depth) ==
      if depth >= MAX_DEPTH then Err(TooDeep(MAX_DEPTH))
      else AsStrictArray(ReadItems(Cursor(body, at + 5), depth + 1, count))
  {
    hide ReadItems, ReadScalar, BigEndian;
    Widths();
    MarkerReads(at, STRICT_ARRAY, BigEndian(count, 4) + body);
    NumberReads(at + 1, count, 4, body);
  }

  lemma EndReads(suffix: seq<byte>, at: nat, depth: nat)
    ensures ReadProperties(Cursor(END + suffix, at), depth) == Ok(([], Cursor(suffix, at + 3)))
  {
    hide ReadNumber;
    Widths();
    assert BigEndian(0, 2) == [0, 0] by { assert BigEndian(0, 1) == [0]; }
    assert END + suffix == BigEndian(0, 2) + ([OBJECT_END] + suffix);
    NumberReads(at, 0, 2, [OBJECT_END] + suffix);
    MarkerReads(at + 2, OBJECT_END, suffix);
  }

  lemma KeyReads(key: Text, body: seq<byte>, at: nat, depth: nat)
    requires 0 < |key| < 0x1_0000 && Utf8(key)
    ensures ReadProperties(Cursor(PutKey(key).value + body, at), depth)
         == AfterKey(key, Cursor(body, at + |PutKey(key).value|), depth)
  {
    hide ReadNumber, ReadValue, Utf8, BigEndian;
    Widths();
    Associative(BigEndian(|key|, 2), key, body);
    NumberReads(at, |key|, 2, key + body);
    BytesRead(at + 2, key, body);
  }

  /**
    * Reading one written value with anything behind it consumes exactly that value's bytes and gives it
    * back, if it nests no deeper than there is room for; otherwise it is refused for that.
    */
  lemma {:induction false} ValueReads(v: Value, suffix: seq<byte>, at: nat, depth: nat)
    requires Printable(v) && depth <= MAX_DEPTH
    ensures Write(v).Ok?
    ensures var w := Write(v).value;
            ReadValue(Cursor(w + suffix, at), depth) ==
              if Fits(v, MAX_DEPTH - depth) then Ok((v, Cursor(suffix, at + |w|))) else Err(TooDeep(MAX_DEPTH))
    decreases v, 1
  {
    hide ReadValue, Utf8, BigEndian, ReadProperties;
    match v
    case Object(properties) =>
      var body := NestedReads(properties, suffix, at + 1, depth, v);
      Associative([OBJECT], body, suffix);
      ObjectDispatch(body + suffix, at, depth);
    case EcmaArray(properties) =>
      var count := BigEndian(|properties|, 4);
      var body := NestedReads(properties, suffix, at + 5, depth, v);
      Associative([ECMA_ARRAY] + count, body, suffix);
      Associative([ECMA_ARRAY], count, body + suffix);
      EcmaDispatch(|properties|, body + suffix, at, depth);
    case StrictArray(values) =>
      ValuesAreWritten(values);
      var count, body := BigEndian(|values|, 4), WriteAll(values).value;
      Associative([STRICT_ARRAY] + count, body, suffix);
      Associative([STRICT_ARRAY], count, body + suffix);
      StrictDispatch(|values|, body + suffix, at, depth);
      if depth < MAX_DEPTH {
        ItemsRead(values, suffix, at + 5, depth + 1);
      }
    case _ => ScalarReads(v, suffix, at, depth);
  }

  /** The properties of a value, one level further in. */
  lemma {:induction false} NestedReads(properties: seq<Property>, suffix: seq<byte>, at: nat, depth: nat, v: Value)
    returns (body: seq<byte>)
    requires PrintableProperties(properties) && depth <= MAX_DEPTH
    requires (v.Object? || v.EcmaArray?) && v.properties == properties
    ensures WriteProperties(properties) == Ok(body)
    ensures ReadNested(Cursor(body + suffix, at), depth) ==
      if Fits(v, MAX_DEPTH - depth) then Ok((properties, Cursor(suffix, at + |body|))) else Err(TooDeep(MAX_DEPTH))
    decreases v, 0
  {
    hide ReadValue, Utf8, ReadProperties, Write, WriteProperties;
    PropertiesAreWritten(properties);
    body := WriteProperties(properties).value;
    if depth < MAX_DEPTH {
      PropertiesRead(properties, suffix, at, depth + 1);
    }
  }

  predicate PropertiesFit(properties: seq<Property>, room: int) { forall p <- properties :: Fits(p.value, room) }

  predicate ValuesFit(values: seq<Value>, room: int) { forall w <- values :: Fits(w, room) }

  lemma {:induction false} PropertiesRead(properties: seq<Property>, suffix: seq<byte>, at: nat, depth: nat)
    requires PrintableProperties(properties) && depth <= MAX_DEPTH
    ensures WriteProperties(properties).Ok?
    ensures var w := WriteProperties(properties).value;
            ReadProperties(Cursor(w + suffix, at), depth) ==
              if PropertiesFit(properties, MAX_DEPTH - depth)
              then Ok((properties, Cursor(suffix, at + |w|))) else Err(TooDeep(MAX_DEPTH))
    decreases properties, 0
  {
    hide ReadValue, ReadProperties, Write, Utf8, PutKey, Fits;
    if properties == [] {
      EndReads(suffix, at, depth);
    } else {
      var p, rest := properties[0], properties[1..];
      PropertiesAreWritten(properties);
      var key, value, tail := PutKey(p.key).value, Write(p.value).value, WriteProperties(rest).value;
      assert key + (value + tail) + suffix == key + (value + (tail + suffix));
      KeyReads(p.key, value + (tail + suffix), at, depth);
      ValueReads(p.value, tail + suffix, at + |key|, depth);
      PropertiesRead(rest, suffix, at + |key| + |value|, depth);
      assert properties == [Property(p.key, p.value)] + rest;
    }
  }

  lemma {:induction false} ItemsRead(values: seq<Value>, suffix: seq<byte>, at: nat, depth: nat)
    requires PrintableValues(values) && depth <= MAX_DEPTH
    ensures WriteAll(values).Ok?
    ensures var w := WriteAll(values).value;
            ReadItems(Cursor(w + suffix, at), depth, |values|) ==
              if ValuesFit(values, MAX_DEPTH - depth)
              then Ok((values, Cursor(suffix, at + |w|))) else Err(TooDeep(MAX_DEPTH))
    decreases values, 0
  {
    hide ReadValue, Write, Fits;
    if values == [] {
      assert [] + suffix == suffix;
    } else {
      var v, rest := values[0], values[1..];
      ValuesAreWritten(values);
      var value, tail := Write(v).value, WriteAll(rest).value;
      Associative(value, tail, suffix);
      ValueReads(v, tail + suffix, at, depth);
      ItemsRead(rest, suffix, at + |value|, depth);
      assert values == [v] + rest;
    }
  }

  /** Printer, then parser: a list of values comes back exactly when none of them nests more than 32 deep. */
  lemma PrintedReads(values: seq<Value>)
    requires PrintableValues(values)
    ensures WriteAll(values).Ok?
    ensures Amf0.ReadAll(WriteAll(values).value)
         == if ValuesFit(values, MAX_DEPTH) then Ok(values) else Err(TooDeep(MAX_DEPTH))
  {
    PrintedReadsFrom(values, 0);
  }

  lemma {:induction false} PrintedReadsFrom(values: seq<Value>, at: nat)
    requires PrintableValues(values)
    ensures WriteAll(values).Ok?
    ensures ReadRest(Cursor(WriteAll(values).value, at))
         == if ValuesFit(values, MAX_DEPTH) then Ok(values) else Err(TooDeep(MAX_DEPTH))
    decreases |values|
  {
    hide ReadValue, Write, Fits, WellSpelt;
    if values != [] {
      ValuesAreWritten(values);
      assert Printable(values[0]);
      WritableIsWritten(values[0]);
      var value, tail := Write(values[0]).value, WriteAll(values[1..]).value;
      ValueReads(values[0], tail, at, 0);
      PrintedReadsFrom(values[1..], at + |value|);
      assert values == [values[0]] + values[1..];
    }
  }

  // ---------------------------------------------------------------- parser, then printer

  /** What a value that was read is: writable, well spelt, no deeper than there was room for, and paid for in bytes. */
  predicate Sound(v: Value, c: Cursor, c': Cursor, depth: int) {
    && Printable(v) && Fits(v, MAX_DEPTH - depth)
    && Nodes(v) + |c'.rest| <= |c.rest|
  }

  lemma {:induction false} ReadIsSound(c: Cursor, depth: nat)
    requires depth <= MAX_DEPTH && ReadValue(c, depth).Ok?
    ensures Sound(ReadValue(c, depth).value.0, c, ReadValue(c, depth).value.1, depth)
    decreases |c.rest|, 1
  {
    hide Utf8, ReadScalar, ReadProperties, ReadItems;
    Widths();
    var (marker, c1) := ReadNumber(c, 1).value;
    if marker == OBJECT {
      ReadPropertiesIsSound(c1, depth + 1);
    } else if marker == ECMA_ARRAY {
      ReadPropertiesIsSound(ReadNumber(c1, 4).value.1, depth + 1);
    } else if marker == STRICT_ARRAY {
      var (count, c2) := ReadNumber(c1, 4).value;
      ReadItemsIsSound(c2, depth + 1, count);
    } else {
      ReadScalarIsSound(marker, c.at, c1);
    }
  }

  lemma ReadScalarIsSound(marker: byte, offset: nat, c: Cursor)
    requires ReadScalar(marker, offset, c).Ok?
    ensures var v := ReadScalar(marker, offset, c).value.0;
            !Holder(v) && Printable(v) && Nodes(v) == 1
  {
    hide Utf8;
    Widths();
  }

  lemma {:induction false} ReadPropertiesIsSound(c: Cursor, depth: nat)
    requires depth <= MAX_DEPTH && ReadProperties(c, depth).Ok?
    ensures var (properties, c') := ReadProperties(c, depth).value;
            && PrintableProperties(properties) && PropertiesFit(properties, MAX_DEPTH - depth)
            && NodesIn(properties) + |c'.rest| <= |c.rest|
    decreases |c.rest|, 0
  {
    hide Utf8, ReadValue, Writable, WellSpelt, Fits;
    Widths();
    var (length, c1) := ReadNumber(c, 2).value;
    if length != 0 {
      var (key, c2) := ReadText(c1, length).value;
      ReadIsSound(c2, depth);
      var (value, c3) := ReadValue(c2, depth).value;
      ReadPropertiesIsSound(c3, depth);
      var rest := ReadProperties(c3, depth).value.0;
      assert ([Property(key, value)] + rest)[1..] == rest;
    }
  }

  lemma {:induction false} ReadItemsIsSound(c: Cursor, depth: nat, count: nat)
    requires depth <= MAX_DEPTH && ReadItems(c, depth, count).Ok?
    ensures var (values, c') := ReadItems(c, depth, count).value;
            && PrintableValues(values) && ValuesFit(values, MAX_DEPTH - depth)
            && NodesOf(values) + |c'.rest| <= |c.rest|
    decreases |c.rest|, 2, count
  {
    hide ReadValue, Writable, WellSpelt, Fits;
    if count != 0 {
      ReadIsSound(c, depth);
      var (value, c1) := ReadValue(c, depth).value;
      ReadItemsIsSound(c1, depth, count - 1);
      var rest := ReadItems(c1, depth, count - 1).value.0;
      assert ([value] + rest)[1..] == rest;
    }
  }

  lemma {:induction false} ReadRestIsSound(c: Cursor)
    requires ReadRest(c).Ok?
    ensures var values := ReadRest(c).value;
            PrintableValues(values) && ValuesFit(values, MAX_DEPTH) && NodesOf(values) <= |c.rest|
    decreases |c.rest|
  {
    hide ReadValue, Writable, WellSpelt, Fits;
    if c.rest != [] {
      ReadIsSound(c, 0);
      var (value, c1) := ReadValue(c, 0).value;
      ReadRestIsSound(c1);
      var rest := ReadRest(c1).value;
      assert ([value] + rest)[1..] == rest;
    }
  }

  /**
    * Parser, then printer: whatever bytes were read, the values are all writable, nest at most 32 deep,
    * number no more than the bytes they came in whatever counts those claimed, and read back unchanged.
    */
  lemma ReadReprints(data: seq<byte>)
    requires Amf0.ReadAll(data).Ok?
    ensures var values := Amf0.ReadAll(data).value;
            && PrintableValues(values) && ValuesFit(values, MAX_DEPTH)
            && NodesOf(values) <= |data|
            && WriteAll(values).Ok?
            && Amf0.ReadAll(WriteAll(values).value) == Ok(values)
  {
    hide ReadRest, WriteAll, Writable, WellSpelt, Fits, NodesOf;
    ReadRestIsSound(Cursor(data, 0));
    PrintedReads(Amf0.ReadAll(data).value);
  }
}

/**
  * AMF0, the value encoding RTMP writes its commands in (section 2 of Adobe's
  * AMF 0 specification): a printer, and a parser that refuses what it does not
  * read and anything nested more than 32 deep.
  *
  * Strings are UTF-8 bytes and numbers are the 64 bits of a double.
  */
module Amf0 {
  import opened Wrappers
  import opened Bytes

  const MAX_DEPTH := 32

  const NUMBER := 0x00
  const BOOLEAN := 0x01
  const STRING := 0x02
  const OBJECT := 0x03
  const MOVIE_CLIP := 0x04
  const NULL := 0x05
  const UNDEFINED := 0x06
  const REFERENCE := 0x07
  const ECMA_ARRAY := 0x08
  const OBJECT_END := 0x09
  const STRICT_ARRAY := 0x0a
  const DATE := 0x0b
  const LONG_STRING := 0x0c
  const UNSUPPORTED := 0x0d
  const RECORD_SET := 0x0e
  const XML_DOCUMENT := 0x0f
  const TYPED_OBJECT := 0x10
  const AVM_PLUS := 0x11

  type Text = seq<byte>

  datatype Property = Property(key: Text, value: Value)

  datatype Value =
    | Number(bits: u64)
    | Boolean(flag: bool)
    | String(text: Text)
    | Object(properties: seq<Property>)
    | EcmaArray(properties: seq<Property>)
    | StrictArray(values: seq<Value>)
    | Date(millis: u64)
    | Null
    | Undefined
  {
    /** What a key stands for, in a value that has keys. Of several the first counts. */
    function Get(key: Text): Option<Value> {
      if Object? || EcmaArray? then Find(properties, key) else None
    }

    function AsText(): Option<Text> {
      if String? then Some(text) else None
    }

    function AsNumber(): Option<u64> {
      if Number? then Some(bits) else None
    }
  }

  function Find(properties: seq<Property>, key: Text): (r: Option<Value>)
    ensures r.None? <==> forall p <- properties :: p.key != key
    ensures r.Some? ==> exists i | 0 <= i < |properties| ::
                          properties[i] == Property(key, r.value) && forall p <- properties[..i] :: p.key != key
  {
    if properties == [] then None
    else if properties[0].key == key then Some(properties[0].value)
    else Find(properties[1..], key)
  }

  datatype Amf0Error =
    | Truncated(offset: nat, needed: nat)
    | UnknownMarker(marker: byte, offset: nat)
    | UnreadType(name: string, offset: nat)
    | NotUtf8(offset: nat)
    | TooDeep(limit: nat)
    | UnexpectedObjectEnd(offset: nat)
    | StringTooLong(length: nat)
    | UnwritableKey(length: nat)

  // ---------------------------------------------------------------- UTF-8

  predicate Continues(s: seq<byte>, from: nat, count: nat) {
    from + count <= |s| && forall i | from <= i < from + count :: 0x80 <= s[i] <= 0xbf
  }

  /** How many bytes the first character takes, or 0 if they are not one: table 3-7 of the Unicode Standard. */
  function CharLength(s: seq<byte>): (n: nat)
    ensures n <= |s|
  {
    if s == [] then 0
    else if s[0] <= 0x7f then 1
    else if 0xc2 <= s[0] <= 0xdf then if Continues(s, 1, 1) then 2 else 0
    else if 0xe0 <= s[0] <= 0xef then
      if Continues(s, 1, 2) && (s[0] == 0xe0 ==> s[1] >= 0xa0) && (s[0] == 0xed ==> s[1] <= 0x9f) then 3 else 0
    else if 0xf0 <= s[0] <= 0xf4 then
      if Continues(s, 1, 3) && (s[0] == 0xf0 ==> s[1] >= 0x90) && (s[0] == 0xf4 ==> s[1] <= 0x8f) then 4 else 0
    else 0
  }

  predicate Utf8(s: seq<byte>) {
    s == [] || (CharLength(s) > 0 && Utf8(s[CharLength(s)..]))
  }

  // ---------------------------------------------------------------- the printer

  function PutString(text: Text): Result<seq<byte>, Amf0Error> {
    if |text| < 0x1_0000 then Ok([STRING] + BigEndian(|text|, 2) + text)
    else if |text| < 0x1_0000_0000 then Ok([LONG_STRING] + BigEndian(|text|, 4) + text)
    else Err(StringTooLong(|text|))
  }

  function Write(v: Value): Result<seq<byte>, Amf0Error>
    decreases v, 1
  {
    match v
    case Number(bits) => Ok([NUMBER] + BigEndian(bits, 8))
    case Boolean(flag) => Ok([BOOLEAN, if flag then 1 else 0])
    case String(text) => PutString(text)
    case Object(properties) =>
      var body :- WriteProperties(properties);
      Ok([OBJECT] + body)
    case EcmaArray(properties) =>
      var body :- WriteProperties(properties);
      Ok([ECMA_ARRAY] + BigEndian(|properties|, 4) + body)
    case StrictArray(values) =>
      var body :- WriteAll(values);
      Ok([STRICT_ARRAY] + BigEndian(|values|, 4) + body)
    case Date(millis) => Ok([DATE] + BigEndian(millis, 8) + [0, 0])
    case Null => Ok([NULL])
    case Undefined => Ok([UNDEFINED])
  }

  function PutKey(key: Text): Result<seq<byte>, Amf0Error> {
    if 0 < |key| < 0x1_0000 then Ok(BigEndian(|key|, 2) + key) else Err(UnwritableKey(|key|))
  }

  const END: seq<byte> := [0, 0, OBJECT_END]

  function WriteProperties(properties: seq<Property>): Result<seq<byte>, Amf0Error>
    decreases properties, 0
  {
    if properties == [] then Ok(END)
    else
      var key :- PutKey(properties[0].key);
      var value :- Write(properties[0].value);
      var rest :- WriteProperties(properties[1..]);
      Ok(key + (value + rest))
  }

  function WriteAll(values: seq<Value>): Result<seq<byte>, Amf0Error>
    decreases values, 0
  {
    if values == [] then Ok([])
    else
      var value :- Write(values[0]);
      var rest :- WriteAll(values[1..]);
      Ok(value + rest)
  }

  // ---------------------------------------------------------------- the parser

  /** What is left to read, and where in the payload it begins. */
  datatype Cursor = Cursor(rest: seq<byte>, at: nat)

  type Read<T> = Result<(T, Cursor), Amf0Error>

  function ReadBytes(c: Cursor, count: nat): (r: Read<seq<byte>>)
    ensures r.Ok? ==> |r.value.0| == count && c.rest == r.value.0 + r.value.1.rest
    ensures r.Ok? ==> r.value.1.at + |r.value.1.rest| == c.at + |c.rest|
  {
    if count > |c.rest| then Err(Truncated(c.at, count - |c.rest|))
    else Ok((c.rest[..count], Cursor(c.rest[count..], c.at + count)))
  }

  function ReadNumber(c: Cursor, width: nat): (r: Read<nat>)
    ensures r.Ok? ==> r.value.0 < Pow256(width) && |r.value.1.rest| + width == |c.rest|
    ensures r.Ok? ==> r.value.1.at + |r.value.1.rest| == c.at + |c.rest|
  {
    var (bytes, c1) :- ReadBytes(c, width);
    Ok((FromBigEndian(bytes), c1))
  }

  function ReadText(c: Cursor, length: nat): (r: Read<Text>)
    ensures r.Ok? ==> |r.value.0| == length && |r.value.1.rest| + length == |c.rest|
    ensures r.Ok? ==> r.value.1.at + |r.value.1.rest| == c.at + |c.rest|
  {
    var (bytes, c1) :- ReadBytes(c, length);
    if Utf8(bytes) then Ok((bytes, c1)) else Err(NotUtf8(c.at))
  }

  /** The types that have markers and are refused by name. */
  function UnreadName(marker: nat): Option<string> {
    if marker == MOVIE_CLIP then Some("a movie clip")
    else if marker == REFERENCE then Some("a reference")
    else if marker == UNSUPPORTED then Some("an unsupported-type marker")
    else if marker == RECORD_SET then Some("a record set")
    else if marker == XML_DOCUMENT then Some("an XML document")
    else if marker == TYPED_OBJECT then Some("a typed object")
    else if marker == AVM_PLUS then Some("a switch to AMF3")
    else None
  }

  function Refuse(marker: byte, offset: nat): Amf0Error {
    if marker == OBJECT_END then UnexpectedObjectEnd(offset)
    else match UnreadName(marker)
      case Some(name) => UnreadType(name, offset)
      case None => UnknownMarker(marker, offset)
  }

  /** One value, at a nesting depth. */
  function ReadValue(c: Cursor, depth: nat): (r: Read<Value>)
    ensures r.Ok? ==> |r.value.1.rest| < |c.rest| && r.value.1.at + |r.value.1.rest| == c.at + |c.rest|
    decreases |c.rest|, 1
  {
    Widths();
    var (marker, c1) :- ReadNumber(c, 1);
    if marker == OBJECT then
      var (properties, c2) :- ReadNested(c1, depth);
      Ok((Object(properties), c2))
    else if marker == ECMA_ARRAY then
      var (_, c2) :- ReadNumber(c1, 4);
      var (properties, c3) :- ReadNested(c2, depth);
      Ok((EcmaArray(properties), c3))
    else if marker == STRICT_ARRAY then
      var (count, c2) :- ReadNumber(c1, 4);
      if depth >= MAX_DEPTH then Err(TooDeep(MAX_DEPTH))
      else
        var (values, c3) :- ReadItems(c2, depth + 1, count);
        Ok((StrictArray(values), c3))
    else ReadScalar(marker, c.at, c1)
  }

  /** A string behind a count of so many bytes. */
  function ReadString(c: Cursor, width: nat): (r: Read<Value>)
    ensures r.Ok? ==> |r.value.1.rest| <= |c.rest| && r.value.1.at + |r.value.1.rest| == c.at + |c.rest|
    ensures r.Ok? ==> r.value.0.String? && |r.value.0.text| < Pow256(width)
  {
    var (length, c1) :- ReadNumber(c, width);
    var (text, c2) :- ReadText(c1, length);
    Ok((String(text), c2))
  }

  /** A date, and the time zone behind it, which is ignored. */
  function ReadDate(c: Cursor): (r: Read<Value>)
    ensures r.Ok? ==> |r.value.1.rest| <= |c.rest| && r.value.1.at + |r.value.1.rest| == c.at + |c.rest|
    ensures r.Ok? ==> r.value.0.Date?
  {
    Widths();
    var (millis, c1) :- ReadNumber(c, 8);
    var (_, c2) :- ReadBytes(c1, 2);
    Ok((Date(millis), c2))
  }

  /** The values that hold no others. */
  function ReadScalar(marker: byte, offset: nat, c: Cursor): (r: Read<Value>)
    ensures r.Ok? ==> |r.value.1.rest| <= |c.rest| && r.value.1.at + |r.value.1.rest| == c.at + |c.rest|
    ensures r.Ok? ==> !r.value.0.Object? && !r.value.0.EcmaArray? && !r.value.0.StrictArray?
  {
    Widths();
    if marker == NUMBER then
      var (bits, c1) :- ReadNumber(c, 8);
      Ok((Number(bits), c1))
    else if marker == BOOLEAN then
      var (flag, c1) :- ReadNumber(c, 1);
      Ok((Boolean(flag != 0), c1))
    else if marker == STRING then ReadString(c, 2)
    else if marker == LONG_STRING then ReadString(c, 4)
    else if marker == DATE then ReadDate(c)
    else if marker == NULL then Ok((Null, c))
    else if marker == UNDEFINED then Ok((Undefined, c))
    else Err(Refuse(marker, offset))
  }

  /** Named values one level further in. */
  function ReadNested(c: Cursor, depth: nat): (r: Read<seq<Property>>)
    ensures r.Ok? ==> |r.value.1.rest| <= |c.rest| && r.value.1.at + |r.value.1.rest| == c.at + |c.rest|
    decreases |c.rest|, 1
  {
    if depth >= MAX_DEPTH then Err(TooDeep(MAX_DEPTH)) else ReadProperties(c, depth + 1)
  }

  /** Named values until an empty key and the marker that confirms it. */
  function ReadProperties(c: Cursor, depth: nat): (r: Read<seq<Property>>)
    ensures r.Ok? ==> |r.value.1.rest| <= |c.rest| && r.value.1.at + |r.value.1.rest| == c.at + |c.rest|
    decreases |c.rest|, 0
  {
    var (length, c1) :- ReadNumber(c, 2);
    if length == 0 then
      var (marker, c2) :- ReadNumber(c1, 1);
      if marker != OBJECT_END then Widths(); Err(UnknownMarker(marker, c1.at)) else Ok(([], c2))
    else
      var (key, c2) :- ReadText(c1, length);
      var (value, c3) :- ReadValue(c2, depth);
      var (rest, c4) :- ReadProperties(c3, depth);
      Ok(([Property(key, value)] + rest, c4))
  }

  function ReadItems(c: Cursor, depth: nat, count: nat): (r: Read<seq<Value>>)
    ensures r.Ok? ==> |r.value.0| == count
    ensures r.Ok? ==> |r.value.1.rest| <= |c.rest| && r.value.1.at + |r.value.1.rest| == c.at + |c.rest|
    decreases |c.rest|, 2, count
  {
    if count == 0 then Ok(([], c))
    else
      var (value, c1) :- ReadValue(c, depth);
      var (rest, c2) :- ReadItems(c1, depth, count - 1);
      Ok(([value] + rest, c2))
  }

  /** Every value up to the end. */
  function ReadRest(c: Cursor): Result<seq<Value>, Amf0Error>
    decreases |c.rest|
  {
    if c.rest == [] then Ok([])
    else
      var (value, c1) :- ReadValue(c, 0);
      var rest :- ReadRest(c1);
      Ok([value] + rest)
  }

  function ReadAll(data: seq<byte>): Result<seq<Value>, Amf0Error> { ReadRest(Cursor(data, 0)) }
}

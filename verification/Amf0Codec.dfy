/** AMF0 as it is done in place: a reader that moves through a payload, and printing onto a buffer. */
module Amf0Codec {
  import opened Wrappers
  import opened Bytes
  import opened Amf0

  /** A loop's progress: what has been collected so far, put before what the rest of the reading gives. */
  function Prepended<T>(before: seq<T>, r: Read<seq<T>>): Read<seq<T>> {
    var (items, c) :- r;
    Ok((before + items, c))
  }

  lemma PrependedTwice<T>(a: seq<T>, b: T, r: Read<seq<T>>)
    ensures Prepended(a, Prepended([b], r)) == Prepended(a + [b], r)
  {
    if r.Ok? {
      Associative(a, [b], r.value.0);
    }
  }

  lemma PrependedNothing<T>(r: Read<seq<T>>)
    ensures Prepended([], r) == r
  {
    if r.Ok? {
      assert [] + r.value.0 == r.value.0;
    }
  }

  class Reader {
    const data: seq<byte>
    var pos: nat
    var depth: nat

    ghost predicate Valid()
      reads this
    {
      pos <= |data| && depth <= MAX_DEPTH
    }

    ghost function Here(): Cursor
      requires Valid()
      reads this
    {
      Cursor(data[pos..], pos)
    }

    /** The result is what the specification reads from here, and the reader has moved past it. */
    ghost predicate Follows<T(!new)>(r: Result<T, Amf0Error>, spec: Read<T>)
      requires Valid()
      reads this
    {
      match spec
      case Ok((value, c)) => r == Ok(value) && Here() == c
      case Err(e) => r == Err(e)
    }

    constructor (data: seq<byte>)
      ensures Valid() && this.data == data && Here() == Cursor(data, 0) && depth == 0
    {
      this.data := data;
      pos := 0;
      depth := 0;
    }

    method Take(count: nat) returns (r: Result<seq<byte>, Amf0Error>)
      requires Valid()
      modifies `pos
      ensures Valid() && Follows(r, ReadBytes(old(Here()), count))
      ensures pos == if r.Ok? then old(pos) + count else old(pos)
    {
      if pos + count > |data| {
        return Err(Truncated(pos, pos + count - |data|));
      }
      assert data[pos..][..count] == data[pos..pos + count] && data[pos..][count..] == data[pos + count..];
      pos := pos + count;
      return Ok(data[pos - count..pos]);
    }

    method Number(width: nat) returns (r: Result<nat, Amf0Error>)
      requires Valid()
      modifies `pos
      ensures Valid() && Follows(r, ReadNumber(old(Here()), width))
      ensures pos == if r.Ok? then old(pos) + width else old(pos)
      ensures r.Ok? ==> r.value < Pow256(width)
    {
      var bytes := Take(width);
      if bytes.Err? {
        return Err(bytes.error);
      }
      return Ok(FromBigEndian(bytes.value));
    }

    method Text(length: nat) returns (r: Result<Text, Amf0Error>)
      requires Valid()
      modifies `pos
      ensures Valid() && Follows(r, ReadText(old(Here()), length))
      ensures pos >= old(pos) && (r.Ok? ==> pos == old(pos) + length)
    {
      var offset := pos;
      var bytes := Take(length);
      if bytes.Err? {
        return Err(bytes.error);
      }
      return if Utf8(bytes.value) then Ok(bytes.value) else Err(NotUtf8(offset));
    }

    method Scalar(marker: byte, offset: nat) returns (r: Result<Value, Amf0Error>)
      requires Valid()
      modifies `pos
      ensures Valid() && Follows(r, ReadScalar(marker, offset, old(Here())))
      ensures pos >= old(pos)
    {
      hide Utf8, Refuse;
      Widths();
      if marker == NUMBER {
        var bits :- Number(8);
        return Ok(Value.Number(bits));
      } else if marker == BOOLEAN {
        var flag :- Number(1);
        return Ok(Boolean(flag != 0));
      } else if marker == STRING {
        var length :- Number(2);
        var text :- Text(length);
        return Ok(String(text));
      } else if marker == LONG_STRING {
        var length :- Number(4);
        var text :- Text(length);
        return Ok(String(text));
      } else if marker == DATE {
        var millis :- Number(8);
        var _ :- Take(2);
        return Ok(Date(millis));
      } else if marker == NULL {
        return Ok(Null);
      } else if marker == UNDEFINED {
        return Ok(Undefined);
      }
      return Err(Refuse(marker, offset));
    }

    /** One value. The depth is as it was afterwards, whether the value was read or refused. */
    method One() returns (r: Result<Value, Amf0Error>)
      requires Valid()
      modifies `pos, `depth
      ensures Valid() && depth == old(depth) && pos >= old(pos)
      ensures Follows(r, ReadValue(old(Here()), old(depth)))
      decreases |data| - pos, 2
    {
      hide ReadScalar, ReadProperties, ReadItems;
      Widths();
      var offset := pos;
      var marker :- Number(1);
      if marker == OBJECT {
        var properties :- Properties();
        return Ok(Object(properties));
      } else if marker == ECMA_ARRAY {
        var _ :- Number(4);
        var properties :- Properties();
        return Ok(EcmaArray(properties));
      } else if marker == STRICT_ARRAY {
        var count :- Number(4);
        if depth >= MAX_DEPTH {
          return Err(TooDeep(MAX_DEPTH));
        }
        depth := depth + 1;
        var values := Items(count);
        depth := depth - 1;
        return if values.Ok? then Ok(StrictArray(values.value)) else Err(values.error);
      }
      r := Scalar(marker, offset);
    }

    method Items(count: nat) returns (r: Result<seq<Value>, Amf0Error>)
      requires Valid()
      modifies `pos, `depth
      ensures Valid() && depth == old(depth) && pos >= old(pos)
      ensures Follows(r, ReadItems(old(Here()), old(depth), count))
      decreases |data| - pos, 3
    {
      hide ReadValue;
      ghost var spec := ReadItems(Here(), depth, count);
      var values := [];
      PrependedNothing(spec);
      for i := 0 to count
        invariant Valid() && depth == old(depth) && pos >= old(pos)
        invariant |data| - pos < |data| - old(pos) || (i == 0 && pos == old(pos))
        invariant Prepended(values, ReadItems(Here(), depth, count - i)) == spec
      {
        ghost var left := count - i;
        var value :- One();
        PrependedTwice(values, value, ReadItems(Here(), depth, left - 1));
        values := values + [value];
      }
      assert values + [] == values;
      return Ok(values);
    }

    method Properties() returns (r: Result<seq<Property>, Amf0Error>)
      requires Valid()
      modifies `pos, `depth
      ensures Valid() && depth == old(depth) && pos >= old(pos)
      ensures Follows(r, ReadNested(old(Here()), old(depth)))
      decreases |data| - pos, 1
    {
      if depth >= MAX_DEPTH {
        return Err(TooDeep(MAX_DEPTH));
      }
      depth := depth + 1;
      r := PropertiesInside();
      depth := depth - 1;
    }

    method PropertiesInside() returns (r: Result<seq<Property>, Amf0Error>)
      requires Valid()
      modifies `pos, `depth
      ensures Valid() && depth == old(depth) && pos >= old(pos)
      ensures Follows(r, ReadProperties(old(Here()), old(depth)))
      decreases |data| - pos, 0
    {
      hide ReadValue, Utf8;
      Widths();
      ghost var spec := ReadProperties(Here(), depth);
      var properties := [];
      PrependedNothing(spec);
      while true
        invariant Valid() && depth == old(depth) && pos >= old(pos)
        invariant Prepended(properties, ReadProperties(Here(), depth)) == spec
        decreases |data| - pos
      {
        var length :- Number(2);
        if length == 0 {
          var offset := pos;
          var marker :- Number(1);
          if marker != OBJECT_END {
            return Err(UnknownMarker(marker, offset));
          }
          assert properties + [] == properties;
          return Ok(properties);
        }
        var key :- Text(length);
        var value :- One();
        PrependedTwice(properties, Property(key, value), ReadProperties(Here(), depth));
        properties := properties + [Property(key, value)];
      }
    }
  }

  /** Reads every value in `data`, in order. */
  method ReadEvery(data: seq<byte>) returns (r: Result<seq<Value>, Amf0Error>)
    ensures r == Amf0.ReadAll(data)
  {
    hide ReadValue;
    var reader := new Reader(data);
    var values := [];
    if Amf0.ReadAll(data).Ok? {
      assert [] + Amf0.ReadAll(data).value == Amf0.ReadAll(data).value;
    }
    while reader.pos < |data|
      invariant fresh(reader) && reader.Valid() && reader.data == data && reader.depth == 0
      invariant match ReadRest(reader.Here())
                case Ok(rest) => Amf0.ReadAll(data) == Ok(values + rest)
                case Err(e) => Amf0.ReadAll(data) == Err(e)
      decreases |data| - reader.pos
    {
      ghost var here := reader.Here();
      var value :- reader.One();
      if ReadRest(reader.Here()).Ok? {
        Associative(values, [value], ReadRest(reader.Here()).value);
      }
      values := values + [value];
    }
    assert values + [] == values;
    return Ok(values);
  }

  /** Appends one value to `out`. What was there stays, whatever comes of it. */
  method Put(out: Buffer, value: Value) returns (r: Result<(), Amf0Error>)
    modifies out
    ensures match Write(value)
            case Ok(bytes) => r.Ok? && out.data == old(out.data) + bytes
            case Err(e) => r == Err(e) && old(out.data) <= out.data
    decreases value, 1
  {
    match value
    case Number(bits) => out.Put([NUMBER]); out.Put(BigEndian(bits, 8));
      Associative(old(out.data), [NUMBER], BigEndian(bits, 8));
      return Ok(());
    case Boolean(flag) => out.Put([BOOLEAN, if flag then 1 else 0]); return Ok(());
    case String(text) =>
      var bytes :- PutString(text);
      out.Put(bytes);
      return Ok(());
    case Object(properties) =>
      out.Put([OBJECT]);
      r := PutProperties(out, properties);
      if r.Ok? {
        Associative(old(out.data), [OBJECT], WriteProperties(properties).value);
      }
    case EcmaArray(properties) =>
      out.Put([ECMA_ARRAY] + BigEndian(|properties|, 4));
      r := PutProperties(out, properties);
      if r.Ok? {
        Associative(old(out.data), [ECMA_ARRAY] + BigEndian(|properties|, 4), WriteProperties(properties).value);
      }
    case StrictArray(values) =>
      out.Put([STRICT_ARRAY] + BigEndian(|values|, 4));
      r := PutAll(out, values);
      if r.Ok? {
        Associative(old(out.data), [STRICT_ARRAY] + BigEndian(|values|, 4), WriteAll(values).value);
      }
    case Date(millis) => out.Put([DATE] + BigEndian(millis, 8) + [0, 0]); return Ok(());
    case Null => out.Put([NULL]); return Ok(());
    case Undefined => out.Put([UNDEFINED]); return Ok(());
  }

  function After(done: seq<byte>, r: Result<seq<byte>, Amf0Error>): Result<seq<byte>, Amf0Error> {
    var rest :- r;
    Ok(done + rest)
  }

  lemma AfterTwice(a: seq<byte>, b: seq<byte>, r: Result<seq<byte>, Amf0Error>)
    ensures After(a, After(b, r)) == After(a + b, r)
  {
    if r.Ok? {
      Associative(a, b, r.value);
    }
  }

  /** One property, and what is left of the properties. */
  lemma PropertyThenRest(properties: seq<Property>, i: nat)
    requires i < |properties|
    ensures var p := properties[i];
            PutKey(p.key).Ok? && Write(p.value).Ok? ==>
              WriteProperties(properties[i..])
                == After(PutKey(p.key).value + Write(p.value).value, WriteProperties(properties[i + 1..]))
  {
    hide Write, PutKey;
    assert properties[i..][1..] == properties[i + 1..];
    var p, rest := properties[i], WriteProperties(properties[i + 1..]);
    if PutKey(p.key).Ok? && Write(p.value).Ok? && rest.Ok? {
      Associative(PutKey(p.key).value, Write(p.value).value, rest.value);
    }
  }

  method PutProperties(out: Buffer, properties: seq<Property>) returns (r: Result<(), Amf0Error>)
    modifies out
    ensures match WriteProperties(properties)
            case Ok(bytes) => r.Ok? && out.data == old(out.data) + bytes
            case Err(e) => r == Err(e) && old(out.data) <= out.data
    decreases properties, 0
  {
    hide Write, PutKey;
    ghost var start, spec, done := out.data, WriteProperties(properties), [];
    assert properties[0..] == properties;
    if spec.Ok? { assert [] + spec.value == spec.value; }
    for i := 0 to |properties|
      invariant out.data == start + done
      invariant After(done, WriteProperties(properties[i..])) == spec
    {
      var p := properties[i];
      assert properties[i..] != [] && properties[i..][0] == p;
      PropertyThenRest(properties, i);
      var key :- PutKey(p.key);
      out.Put(key);
      var wrote := Put(out, p.value);
      if wrote.Err? {
        return wrote;
      }
      ghost var value := Write(p.value).value;
      AfterTwice(done, key + value, WriteProperties(properties[i + 1..]));
      Associative(start, done, key);
      Associative(start, done + key, value);
      Associative(done, key, value);
      done := done + (key + value);
    }
    out.Put(END);
    Associative(start, done, END);
    return Ok(());
  }

  method PutAll(out: Buffer, values: seq<Value>) returns (r: Result<(), Amf0Error>)
    modifies out
    ensures match WriteAll(values)
            case Ok(bytes) => r.Ok? && out.data == old(out.data) + bytes
            case Err(e) => r == Err(e) && old(out.data) <= out.data
    decreases values, 0
  {
    hide Write;
    ghost var start, spec, done := out.data, WriteAll(values), [];
    assert values[0..] == values;
    if spec.Ok? { assert [] + spec.value == spec.value; }
    for i := 0 to |values|
      invariant out.data == start + done
      invariant After(done, WriteAll(values[i..])) == spec
    {
      assert values[i..] != [] && values[i..][0] == values[i] && values[i..][1..] == values[i + 1..];
      var wrote := Put(out, values[i]);
      if wrote.Err? {
        return wrote;
      }
      ghost var value := Write(values[i]).value;
      AfterTwice(done, value, WriteAll(values[i + 1..]));
      Associative(start, done, value);
      done := done + value;
    }
    assert done + [] == done;
    return Ok(());
  }
}

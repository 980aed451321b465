/** H.264's framings and its configuration record as they are read and written in place. */
module H264Codec {
  import opened Wrappers
  import opened Bytes
  import opened H264

  // ---------------------------------------------------------------- Annex B

  /** Where each start code is and how wide, from an offset on. */
  ghost function Codes(data: seq<byte>, from: nat): seq<(nat, nat)>
    requires from <= |data|
    decreases |data| - from
  {
    var n := from + NextCode(data[from..]);
    if n >= |data| then []
    else
      assert data[from..][n - from..] == data[n..];
      var width := CodeWidth(data[n..]);
      [(n, width)] + Codes(data, n + width)
  }

  /** The units between start codes. */
  ghost function Between(data: seq<byte>, codes: seq<(nat, nat)>): seq<Nal> {
    if codes == [] then []
    else
      var unit := codes[0].0 + codes[0].1;
      var end := if |codes| > 1 then codes[1].0 else |data|;
      (if unit < end <= |data| then [data[unit..end]] else []) + Between(data, codes[1..])
  }

  lemma FirstUnit(s: seq<byte>)
    ensures UnitsOf(s) == (if NextCode(s) > 0 then [s[..NextCode(s)]] else []) + SplitAnnexB(s)
  {
    hide NextCode, CodeWidth;
  }

  lemma {:induction false} BetweenCodes(data: seq<byte>, from: nat)
    requires from <= |data|
    ensures Between(data, Codes(data, from)) == SplitAnnexB(data[from..])
    decreases |data| - from
  {
    hide NextCode, CodeWidth, UnitsOf;
    var s := data[from..];
    var n := NextCode(s);
    if n < |s| {
      DropDrop(data, from, n);
      var width := CodeWidth(s[n..]);
      var unit := from + n + width;
      DropDrop(data, from, n + width);
      BetweenCodes(data, unit);
      var later := Codes(data, unit);
      assert Codes(data, from)[1..] == later;
      FirstUnit(data[unit..]);
      DropTake(data, unit, NextCode(data[unit..]));
    }
  }

  lemma NoCodeHere(data: seq<byte>, offset: nat)
    requires offset + 3 <= |data| && CodeWidth(data[offset..]) == 0
    ensures Codes(data, offset) == Codes(data, offset + 1)
  {
    hide CodeWidth;
    DropDrop(data, offset, 1);
    assert NextCode(data[offset..]) == 1 + NextCode(data[offset + 1..]);
  }

  method FindUnits(data: seq<byte>) returns (units: seq<Nal>)
    ensures units == SplitAnnexB(data)
  {
    hide CodeWidth, NextCode, Codes, SplitAnnexB;
    assert data[0..] == data;
    BetweenCodes(data, 0);
    var codes := FindCodes(data);
    units := [];
    assert codes[0..] == codes;
    assert [] + Between(data, codes) == Between(data, codes);
    for index := 0 to |codes|
      invariant units + Between(data, codes[index..]) == Between(data, codes)
    {
      var unit := codes[index].0 + codes[index].1;
      var end := if index + 1 < |codes| then codes[index + 1].0 else |data|;
      DropDrop(codes, index, 1);
      assert codes[index..][0] == codes[index];
      ghost var later := Between(data, codes[index + 1..]);
      if unit < end {
        Associative(units, [data[unit..end]], later);
        units := units + [data[unit..end]];
      } else {
        assert [] + later == later;
      }
    }
    assert units + [] == units;
  }

  /** Scans for start codes, stepping over each one found. */
  method FindCodes(data: seq<byte>) returns (codes: seq<(nat, nat)>)
    ensures codes == Codes(data, 0)
    ensures forall i :: 0 <= i < |codes| ==> codes[i].0 + codes[i].1 <= |data|
  {
    hide CodeWidth;
    codes := [];
    var offset := 0;
    assert [] + Codes(data, 0) == Codes(data, 0);
    while offset + 3 <= |data|
      invariant offset <= |data|
      invariant codes + Codes(data, offset) == Codes(data, 0)
      invariant forall i :: 0 <= i < |codes| ==> codes[i].0 + codes[i].1 <= |data|
      decreases |data| - offset
    {
      var width := CodeWidth(data[offset..]);
      if width == 0 {
        NoCodeHere(data, offset);
        offset := offset + 1;
        continue;
      }
      Associative(codes, [(offset, width)], Codes(data, offset + width));
      codes := codes + [(offset, width)];
      offset := offset + width;
    }
    assert codes + [] == codes;
  }

  method WriteAnnexB(nalus: seq<Nal>) returns (out: Buffer)
    ensures fresh(out) && out.data == ToAnnexB(nalus)
  {
    out := new Buffer();
    assert nalus[0..] == nalus && [] + ToAnnexB(nalus) == ToAnnexB(nalus);
    for i := 0 to |nalus|
      invariant out.data + ToAnnexB(nalus[i..]) == ToAnnexB(nalus)
    {
      ghost var was := out.data;
      DropDrop(nalus, i, 1);
      assert nalus[i..][0] == nalus[i];
      out.Put(START_CODE);
      out.Put(nalus[i]);
      Associative(was, START_CODE, nalus[i]);
      Associative(was, START_CODE + nalus[i], ToAnnexB(nalus[i + 1..]));
    }
    assert out.data + [] == out.data;
  }

  // ---------------------------------------------------------------- length prefixes

  /** What a split has collected, before what the rest of it gives. */
  ghost function Collected(before: seq<Nal>, r: Result<seq<Nal>, H264Error>): Result<seq<Nal>, H264Error> {
    var rest :- r;
    Ok(before + rest)
  }

  /** One unit, `offset` bytes into the payload. */
  lemma SplitOnce(data: seq<byte>, width: nat, offset: nat)
    requires offset < |data|
    ensures SplitFrom(data[offset..], width, offset) ==
      if offset + width > |data| then Err(Truncated(offset, width - (|data| - offset)))
      else
        var length := FromBigEndian(data[offset..offset + width]);
        var unit := offset + width;
        if length == 0 then Err(EmptyNalUnit(unit))
        else if unit + length > |data| then Err(Truncated(unit, unit + length - |data|))
        else Collected([data[unit..unit + length]], SplitFrom(data[unit + length..], width, unit + length))
  {
    hide FromBigEndian;
    var left := data[offset..];
    if offset + width <= |data| {
      DropTake(data, offset, width);
      var length := FromBigEndian(left[..width]);
      if 0 < length <= |left| - width {
        DropDrop(data, offset, width + length);
        assert left[width..width + length] == data[offset + width..offset + width + length];
      }
    }
  }

  lemma CollectedTwice(a: seq<Nal>, b: seq<Nal>, r: Result<seq<Nal>, H264Error>)
    ensures Collected(a, Collected(b, r)) == Collected(a + b, r)
  {
    if r.Ok? {
      Associative(a, b, r.value);
    }
  }

  method Split(data: seq<byte>, width: nat) returns (r: Result<seq<Nal>, H264Error>)
    ensures r == SplitLengthPrefixed(data, width)
  {
    hide FromBigEndian, SplitFrom;
    var nalus: seq<Nal> := [];
    var offset := 0;
    ghost var spec := SplitFrom(data, width, 0);
    assert data[0..] == data;
    if spec.Ok? { assert [] + spec.value == spec.value; }
    while offset < |data|
      invariant offset <= |data|
      invariant Collected(nalus, SplitFrom(data[offset..], width, offset)) == spec
      decreases |data| - offset
    {
      SplitOnce(data, width, offset);
      if offset + width > |data| {
        return Err(Truncated(offset, width - (|data| - offset)));
      }
      var length := FromBigEndian(data[offset..offset + width]);
      offset := offset + width;
      if length == 0 {
        return Err(EmptyNalUnit(offset));
      }
      var end := offset + length;
      if end > |data| {
        return Err(Truncated(offset, end - |data|));
      }
      CollectedTwice(nalus, [data[offset..end]], SplitFrom(data[end..], width, end));
      nalus := nalus + [data[offset..end]];
      offset := end;
    }
    NothingLeft(data, width);
    assert nalus + [] == nalus;
    return Ok(nalus);
  }

  lemma NothingLeft(data: seq<byte>, width: nat)
    ensures SplitFrom(data[|data|..], width, |data|) == Ok([])
  {
  }

  /** A number shifted right by a number of whole bytes. */
  function ShiftRight(n: nat, bytes: nat): nat {
    if bytes == 0 then n else ShiftRight(n, bytes - 1) / 256
  }

  /** Appends a unit behind its length, most significant byte first. */
  method PutPrefixed(out: Buffer, nal: Nal, width: nat) returns (r: Result<(), H264Error>)
    modifies out
    ensures match PutLengthPrefixed(nal, width)
            case Ok(bytes) => r.Ok? && out.data == old(out.data) + bytes
            case Err(e) => r == Err(e) && out.data == old(out.data)
  {
    if !(width >= 8 || |nal| < Pow256(width)) {
      return Err(NalUnitTooLong(|nal|, width));
    }
    ghost var start, done := out.data, [];
    var shift: nat := width;
    while shift > 0
      invariant shift <= width
      invariant out.data == start + done && done == BigEndian(ShiftRight(|nal|, shift), width - shift)
    {
      shift := shift - 1;
      var digit := ShiftRight(|nal|, shift) % 256;
      out.Put([digit]);
      Associative(start, done, [digit]);
      done := done + [digit];
    }
    assert done == BigEndian(|nal|, width);
    out.Put(nal);
    Associative(start, done, nal);
    return Ok(());
  }

  ghost function JoinedAfter(before: seq<byte>, r: Result<seq<byte>, H264Error>): Result<seq<byte>, H264Error> {
    var rest :- r;
    Ok(before + rest)
  }

  method Join(nalus: seq<Nal>, width: nat) returns (r: Result<seq<byte>, H264Error>)
    ensures r == ToLengthPrefixed(nalus, width)
  {
    hide PutLengthPrefixed;
    var out := new Buffer();
    r := PutSets(out, nalus, width);
    if r.Ok? {
      assert [] + ToLengthPrefixed(nalus, width).value == ToLengthPrefixed(nalus, width).value;
    }
  }

  method PutSets(out: Buffer, nalus: seq<Nal>, width: nat) returns (r: Result<seq<byte>, H264Error>)
    modifies out
    ensures match ToLengthPrefixed(nalus, width)
            case Ok(bytes) => out.data == old(out.data) + bytes && r == Ok(out.data)
            case Err(e) => r == Err(e)
  {
    hide PutLengthPrefixed;
    ghost var start, spec, done := out.data, ToLengthPrefixed(nalus, width), [];
    assert nalus[0..] == nalus;
    if spec.Ok? { assert [] + spec.value == spec.value; }
    for i := 0 to |nalus|
      invariant out.data == start + done
      invariant JoinedAfter(done, ToLengthPrefixed(nalus[i..], width)) == spec
    {
      DropDrop(nalus, i, 1);
      assert nalus[i..][0] == nalus[i];
      var put := PutPrefixed(out, nalus[i], width);
      if put.Err? {
        return Err(put.error);
      }
      ghost var piece, rest := PutLengthPrefixed(nalus[i], width).value, ToLengthPrefixed(nalus[i + 1..], width);
      Associative(start, done, piece);
      if rest.Ok? {
        Associative(done, piece, rest.value);
      }
      done := done + piece;
    }
    assert done + [] == done;
    return Ok(out.data);
  }

  // ---------------------------------------------------------------- the configuration record

  class RecordReader {
    const data: seq<byte>
    var pos: nat

    ghost predicate Valid()
      reads this
    {
      pos <= |data|
    }

    ghost function Here(): Cursor
      requires Valid()
      reads this
    {
      Cursor(data[pos..], pos)
    }

    ghost predicate Follows<T(!new)>(r: Result<T, H264Error>, spec: Read<T>)
      requires Valid()
      reads this
    {
      match spec
      case Ok((value, c)) => r == Ok(value) && Here() == c
      case Err(e) => r == Err(e)
    }

    constructor (data: seq<byte>)
      ensures Valid() && this.data == data && Here() == Cursor(data, 0)
    {
      this.data := data;
      pos := 0;
    }

    method Take(count: nat) returns (r: Result<seq<byte>, H264Error>)
      requires Valid()
      modifies `pos
      ensures Valid() && Follows(r, ReadBytes(old(Here()), count))
    {
      if pos + count > |data| {
        return Err(Truncated(pos, pos + count - |data|));
      }
      DropTake(data, pos, count);
      DropDrop(data, pos, count);
      pos := pos + count;
      return Ok(data[pos - count..pos]);
    }

    method Number(width: nat) returns (r: Result<nat, H264Error>)
      requires Valid()
      modifies `pos
      ensures Valid() && Follows(r, ReadNumber(old(Here()), width))
    {
      var bytes := Take(width);
      return if bytes.Ok? then Ok(FromBigEndian(bytes.value)) else Err(bytes.error);
    }

    method ParameterSets(modulus: nat) returns (r: Result<seq<Nal>, H264Error>)
      requires Valid() && modulus > 0
      modifies `pos
      ensures Valid() && Follows(r, ReadCounted(old(Here()), modulus))
    {
      hide ReadNumber;
      var stated :- Number(1);
      var count := stated % modulus;
      ghost var spec := ReadSets(Here(), count);
      var sets: seq<Nal> := [];
      if spec.Ok? { assert [] + spec.value.0 == spec.value.0; }
      for i := 0 to count
        invariant Valid()
        invariant match ReadSets(Here(), count - i)
                  case Ok((rest, c)) => spec == Ok((sets + rest, c))
                  case Err(e) => spec == Err(e)
      {
        var length :- Number(2);
        if length == 0 {
          return Err(EmptyNalUnit(pos));
        }
        var entry :- Take(length);
        ghost var rest := ReadSets(Here(), count - i - 1);
        if rest.Ok? {
          Associative(sets, [entry], rest.value.0);
        }
        sets := sets + [entry];
      }
      assert sets + [] == sets;
      return Ok(sets);
    }
  }

  method Parse(data: seq<byte>) returns (r: Result<AvcConfig, H264Error>)
    ensures r == ParseConfig(data)
  {
    hide ReadNumber, ReadBytes, ReadCounted;
    var reader := new RecordReader(data);
    var version :- reader.Number(1);
    if version != 1 {
      return Err(UnsupportedConfigVersion(version));
    }
    var _ :- reader.Take(3);
    var size :- reader.Number(1);
    var sps :- reader.ParameterSets(32);
    var pps :- reader.ParameterSets(256);
    if sps == [] {
      return Err(MissingParameterSet("SPS"));
    }
    if pps == [] {
      return Err(MissingParameterSet("PPS"));
    }
    return Ok(AvcConfig(Parameters(sps, pps), size % 4 + 1));
  }

  method WriteRecord(config: AvcConfig) returns (r: Result<seq<byte>, H264Error>)
    requires config.nalLengthSize >= 1
    ensures r == ConfigToBytes(config)
  {
    hide ToLengthPrefixed;
    var p := config.parameters;
    var out := new Buffer();
    out.Put([1]);
    var level :- ProfileLevel(p);
    out.Put(level);
    out.Put([0xfc + (config.nalLengthSize - 1) % 4]);
    out.Put([0xe0 + |p.sps| % 32]);
    var _ :- PutSets(out, p.sps, 2);
    out.Put([|p.pps| % 256]);
    var _ :- PutSets(out, p.pps, 2);
    ghost var sps, pps := ToLengthPrefixed(p.sps, 2).value, ToLengthPrefixed(p.pps, 2).value;
    assert out.data == [1] + (level + ([0xfc + (config.nalLengthSize - 1) % 4]
           + ([0xe0 + |p.sps| % 32] + (sps + ([|p.pps| % 256] + pps)))));
    return Ok(out.data);
  }
}

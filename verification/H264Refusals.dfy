/** What the bytes of a length-prefixed payload and of a configuration record say, whoever wrote them. */
module H264Refusals {
  import opened Wrappers
  import opened Bytes
  import opened H264
  import opened H264RoundTrip

  // ---------------------------------------------------------------- length prefixes

  /** What can be behind the units of a payload and is not one: part of a prefix, a prefix of zero, part of a unit. */
  datatype Tail = CutPrefix(bytes: seq<byte>) | NoBytes(after: seq<byte>) | CutUnit(length: nat, part: seq<byte>) {
    predicate Wrong(width: nat) {
      match this
      case CutPrefix(bytes) => 0 < |bytes| < width
      case NoBytes(_) => width > 0
      case CutUnit(length, part) => |part| < length < Pow256(width)
    }

    function Bytes(width: nat): seq<byte> {
      match this
      case CutPrefix(bytes) => bytes
      case NoBytes(after) => BigEndian(0, width) + after
      case CutUnit(length, part) => BigEndian(length, width) + part
    }

    /** How it is refused, found so many bytes in: where it is, and how much of it is missing. */
    function Fault(width: nat, at: nat): H264Error
      requires Wrong(width)
    {
      match this
      case CutPrefix(bytes) => Truncated(at, width - |bytes|)
      case NoBytes(_) => EmptyNalUnit(at + width)
      case CutUnit(length, part) => Truncated(at + width, length - |part|)
    }
  }

  lemma TailIsRefused(tail: Tail, width: nat, at: nat)
    requires tail.Wrong(width)
    ensures SplitFrom(tail.Bytes(width), width, at) == Err(tail.Fault(width, at))
  {
    hide BigEndian, FromBigEndian;
    var data := tail.Bytes(width);
    match tail
    case CutPrefix(_) =>
    case NoBytes(after) =>
      ValueOfBigEndian(0, width);
      assert data[..width] == BigEndian(0, width);
    case CutUnit(length, part) =>
      ValueOfBigEndian(length, width);
      assert data[..width] == BigEndian(length, width) && width > 0 by { NoWidthHoldsNothing(width, length); }
  }

  lemma NoWidthHoldsNothing(width: nat, length: nat)
    requires 0 < length < Pow256(width)
    ensures width > 0
  {
  }

  lemma {:induction false} RefusedAfter(units: seq<Nal>, tail: Tail, width: nat, at: nat)
    requires width < 8 && ToLengthPrefixed(units, width).Ok? && tail.Wrong(width)
    ensures var before := ToLengthPrefixed(units, width).value;
            SplitFrom(before + tail.Bytes(width), width, at) == Err(tail.Fault(width, at + |before|))
    decreases |units|
  {
    hide SplitFrom, PutLengthPrefixed;
    if units == [] {
      TailIsRefused(tail, width, at);
      assert [] + tail.Bytes(width) == tail.Bytes(width);
    } else {
      var first, rest := PutLengthPrefixed(units[0], width).value, ToLengthPrefixed(units[1..], width).value;
      PrefixedIsLonger(units[0], width);
      Associative(first, rest, tail.Bytes(width));
      PrefixedSplits(units[0], width, rest + tail.Bytes(width), at);
      RefusedAfter(units[1..], tail, width, at + width + |units[0]|);
    }
  }

  lemma PrefixedIsLonger(nal: Nal, width: nat)
    ensures PutLengthPrefixed(nal, width).Ok? ==> |PutLengthPrefixed(nal, width).value| == width + |nal|
  {
  }

  /**
    * However many whole units come first, what is wrong behind them is what a payload is refused for, at its own
    * place in the whole.
    */
  lemma RefusedForItsTail(units: seq<Nal>, tail: Tail, width: nat)
    requires width < 8 && ToLengthPrefixed(units, width).Ok? && tail.Wrong(width)
    ensures var before := ToLengthPrefixed(units, width).value;
            SplitLengthPrefixed(before + tail.Bytes(width), width) == Err(tail.Fault(width, |before|))
  {
    RefusedAfter(units, tail, width, 0);
  }

  lemma FirstOrTail(data: seq<byte>, width: nat, at: nat) returns (tail: Tail)
    requires 0 < width < 8 && data != [] && SplitFrom(data, width, at).Err?
    ensures (tail.Wrong(width) && tail.Bytes(width) == data)
         || (&& width <= |data| && 0 < FromBigEndian(data[..width]) <= |data| - width
             && SplitFrom(data[width + FromBigEndian(data[..width])..], width,
                          at + width + FromBigEndian(data[..width])).Err?)
  {
    hide BigEndian, FromBigEndian;
    if |data| < width {
      tail := CutPrefix(data);
    } else {
      var prefix := data[..width];
      BigEndianOfValue(prefix);
      assert data == prefix + data[width..];
      var length := FromBigEndian(prefix);
      tail := if length == 0 then NoBytes(data[width..]) else CutUnit(length, data[width..]);
    }
  }

  /** And nothing is refused but for such an end, behind whole units. */
  lemma {:induction false} OnlyTailsAreRefused(data: seq<byte>, width: nat, at: nat)
    returns (units: seq<Nal>, tail: Tail)
    requires 0 < width < 8 && SplitFrom(data, width, at).Err?
    ensures tail.Wrong(width) && ToLengthPrefixed(units, width).Ok?
    ensures data == ToLengthPrefixed(units, width).value + tail.Bytes(width)
    decreases |data|
  {
    hide SplitFrom, BigEndian, FromBigEndian, PutLengthPrefixed, Pow256;
    if data == [] {
      NothingSplits(width, at);
      assert false;
    }
    tail := FirstOrTail(data, width, at);
    if tail.Wrong(width) && tail.Bytes(width) == data {
      units := [];
    } else {
      var length := FromBigEndian(data[..width]);
      var nal: Nal := data[width..width + length];
      UnitAgain(data, width);
      var later;
      later, tail := OnlyTailsAreRefused(data[width + length..], width, at + width + length);
      units := [nal] + later;
      assert units[1..] == later;
    }
  }

  lemma UnitAgain(data: seq<byte>, width: nat)
    requires width <= |data| && 0 < FromBigEndian(data[..width]) <= |data| - width
    ensures var length := FromBigEndian(data[..width]);
            var first := PutLengthPrefixed(data[width..width + length], width);
            first.Ok? && data == first.value + data[width + length..]
  {
    hide BigEndian, FromBigEndian;
    BigEndianOfValue(data[..width]);
  }

  // ---------------------------------------------------------------- the configuration record

  /** A record as any writer may write it: any profile and level, any reserved bits, and anything behind. */
  datatype Record = Record(profile: seq<byte>, width: byte, counted: byte, sps: seq<Nal>, pps: seq<Nal>) {
    predicate Valid() {
      && |profile| == 3 && counted % 32 == |sps| && |pps| < 256
      && ToLengthPrefixed(sps, 2).Ok? && ToLengthPrefixed(pps, 2).Ok?
    }

    function Bytes(): seq<byte>
      requires Valid()
    {
      [1] + (profile + ([width] + ([counted] + (ToLengthPrefixed(sps, 2).value
        + ([|pps|] + ToLengthPrefixed(pps, 2).value)))))
    }
  }

  /** What it says does not depend on what is stated twice, on reserved bits or on what is behind it. */
  lemma AnyRecordReads(r: Record, behind: seq<byte>)
    requires r.Valid()
    ensures ParseConfig(r.Bytes() + behind) ==
      if r.sps == [] then Err(MissingParameterSet("SPS"))
      else if r.pps == [] then Err(MissingParameterSet("PPS"))
      else Ok(AvcConfig(Parameters(r.sps, r.pps), r.width % 4 + 1))
  {
    hide ReadBytes, ReadNumber, ReadCounted, ToLengthPrefixed;
    var sps, pps := ToLengthPrefixed(r.sps, 2).value, ToLengthPrefixed(r.pps, 2).value;
    var ppsCount: byte := |r.pps|;
    var afterSps := [ppsCount] + (pps + behind);
    var afterSize := [r.counted] + (sps + afterSps);
    assert r.Bytes() + behind == [1] + (r.profile + ([r.width] + afterSize));
    ByteReads(0, 1, r.profile + ([r.width] + afterSize));
    BytesRead(1, r.profile, [r.width] + afterSize);
    ByteReads(4, r.width, afterSize);
    CountedReads(r.sps, r.counted, 32, afterSps, 5);
    CountedReads(r.pps, ppsCount, 256, behind, 6 + |sps|);
  }

  /** A version that is not 1 is refused by its number, whatever comes after. */
  lemma VersionIsRefused(data: seq<byte>)
    ensures data == [] ==> ParseConfig(data) == Err(Truncated(0, 1))
    ensures data != [] && data[0] != 1 ==> ParseConfig(data) == Err(UnsupportedConfigVersion(data[0]))
  {
    if data != [] {
      assert data == [data[0]] + data[1..];
      ByteReads(0, data[0], data[1..]);
    }
  }

  /** The record that is written, byte for byte: the first SPS states its profile, and the reserved bits are ones. */
  lemma RecordBytes(config: AvcConfig)
    requires Recordable(config) && ConfigToBytes(config).Ok?
    ensures var w, sps, pps := ConfigToBytes(config).value, config.parameters.sps, config.parameters.pps;
            && |sps[0]| >= 4 && ToLengthPrefixed(sps, 2).Ok? && ToLengthPrefixed(pps, 2).Ok?
            && w == Record(sps[0][1..4], 0xfc + config.nalLengthSize - 1, 0xe0 + |sps|, sps, pps).Bytes()
  {
    hide ToLengthPrefixed;
  }

  /** What is missing is named by the field it is missing from, begun before the bytes ran out, and by how much. */
  predicate Missing(e: H264Error, at: nat, have: nat, size: nat) {
    e.Truncated? && at <= e.offset <= at + have && 0 < e.needed <= size - have
  }

  lemma TooFewBytes(bytes: seq<byte>, count: nat, at: nat)
    requires |bytes| < count
    ensures ReadBytes(Cursor(bytes, at), count) == Err(Truncated(at, count - |bytes|))
    ensures ReadNumber(Cursor(bytes, at), count) == Err(Truncated(at, count - |bytes|))
  {
  }

  lemma LengthReads(length: nat, rest: seq<byte>, at: nat)
    requires length < 0x1_0000
    ensures ReadNumber(Cursor(BigEndian(length, 2) + rest, at), 2) == Ok((length, Cursor(rest, at + 2)))
  {
    hide BigEndian, FromBigEndian, ReadBytes;
    Widths();
    ValueOfBigEndian(length, 2);
    BytesRead(at, BigEndian(length, 2), rest);
  }

  lemma {:induction false} SetsCut(sets: seq<Nal>, k: nat, at: nat)
    requires ToLengthPrefixed(sets, 2).Ok? && k < |ToLengthPrefixed(sets, 2).value|
    ensures var w := ToLengthPrefixed(sets, 2).value;
            var r := ReadSets(Cursor(w[..k], at), |sets|);
            r.Err? && Missing(r.error, at, k, |w|)
    decreases |sets|
  {
    hide BigEndian, ReadNumber, ReadBytes;
    Widths();
    var w, first, tail := ToLengthPrefixed(sets, 2).value, sets[0], ToLengthPrefixed(sets[1..], 2).value;
    assert w == BigEndian(|first|, 2) + (first + tail);
    if k < 2 {
      TooFewBytes(w[..k], 2, at);
    } else if k < 2 + |first| {
      assert w[..k] == BigEndian(|first|, 2) + first[..k - 2];
      LengthReads(|first|, first[..k - 2], at);
      TooFewBytes(first[..k - 2], |first|, at + 2);
    } else {
      assert w[..k] == BigEndian(|first|, 2) + (first + tail[..k - 2 - |first|]);
      OneSetReads(first, |sets|, tail[..k - 2 - |first|], at);
      SetsCut(sets[1..], k - 2 - |first|, at + 2 + |first|);
    }
  }

  lemma CountedCut(sets: seq<Nal>, high: byte, modulus: nat, k: nat, at: nat)
    requires ToLengthPrefixed(sets, 2).Ok? && modulus > 0 && high % modulus == |sets|
    requires k <= |ToLengthPrefixed(sets, 2).value|
    ensures var w := [high] + ToLengthPrefixed(sets, 2).value;
            var r := ReadCounted(Cursor(w[..k], at), modulus);
            r.Err? && Missing(r.error, at, k, |w|)
  {
    hide ToLengthPrefixed, ReadSets, ReadNumber, ReadBytes;
    var w := ToLengthPrefixed(sets, 2).value;
    if k == 0 {
      TooFewBytes([], 1, at);
    } else {
      assert ([high] + w)[..k] == [high] + w[..k - 1];
      ByteReads(at, high, w[..k - 1]);
      SetsCut(sets, k - 1, at + 1);
    }
  }

  /** A record cut off anywhere is refused for what is missing from it. */
  lemma CutRecordIsRefused(r: Record, k: nat)
    requires r.Valid() && k < |r.Bytes()|
    ensures var parsed := ParseConfig(r.Bytes()[..k]);
            parsed.Err? && Missing(parsed.error, 0, k, |r.Bytes()|)
  {
    hide ReadBytes, ReadNumber, ReadCounted, ToLengthPrefixed;
    var sps, pps := ToLengthPrefixed(r.sps, 2).value, ToLengthPrefixed(r.pps, 2).value;
    var second := [|r.pps| as byte] + pps;
    var data := r.Bytes()[..k];
    if k == 0 {
      TooFewBytes(data, 1, 0);
    } else if k < 5 {
      assert data == [1] + ((r.profile + [r.width])[..k - 1]);
      ByteReads(0, 1, (r.profile + [r.width])[..k - 1]);
      if k < 4 {
        TooFewBytes((r.profile + [r.width])[..k - 1], 3, 1);
      } else {
        assert (r.profile + [r.width])[..3] == r.profile + [];
        BytesRead(1, r.profile, []);
        TooFewBytes([], 1, 4);
      }
    } else {
      var counted := ([r.counted] + (sps + second))[..k - 5];
      assert data == [1] + (r.profile + ([r.width] + counted));
      ByteReads(0, 1, r.profile + ([r.width] + counted));
      BytesRead(1, r.profile, [r.width] + counted);
      ByteReads(4, r.width, counted);
      if k <= 5 + |sps| {
        assert counted == ([r.counted] + sps)[..k - 5];
        CountedCut(r.sps, r.counted, 32, k - 5, 5);
      } else {
        assert counted == [r.counted] + (sps + second[..k - 6 - |sps|]);
        CountedReads(r.sps, r.counted, 32, second[..k - 6 - |sps|], 5);
        CountedCut(r.pps, |r.pps|, 256, k - 6 - |sps|, 6 + |sps|);
      }
    }
  }

  /** A set with nothing in it is refused behind its length, however many whole ones come first. */
  lemma {:induction false} EmptySetIsRefused(sets: seq<Nal>, after: seq<byte>, count: nat, at: nat)
    requires ToLengthPrefixed(sets, 2).Ok? && |sets| < count
    ensures var w := ToLengthPrefixed(sets, 2).value;
            ReadSets(Cursor(w + ([0, 0] + after), at), count) == Err(EmptyNalUnit(at + |w| + 2))
    decreases |sets|
  {
    hide BigEndian, ReadNumber, ReadBytes;
    if sets == [] {
      TwoBytes(0);
      LengthReads(0, after, at);
      assert [] + ([0, 0] + after) == BigEndian(0, 2) + after;
    } else {
      var first, tail := sets[0], ToLengthPrefixed(sets[1..], 2).value;
      Widths();
      var rest := tail + ([0, 0] + after);
      assert ToLengthPrefixed(sets, 2).value + ([0, 0] + after) == BigEndian(|first|, 2) + (first + rest);
      OneSetReads(first, count, rest, at);
      EmptySetIsRefused(sets[1..], after, count - 1, at + 2 + |first|);
    }
  }
}

/**
  * H.264's two framings, and the record that carries its parameter sets
  * (Annex B of ITU-T H.264, and section 5.2.4.1 of ISO/IEC 14496-15:2010).
  */
module H264 {
  import opened Wrappers
  import opened Bytes

  /** One NAL unit, unframed: its own bytes, beginning at its header byte. */
  type Nal = data: seq<byte> | data != [] witness [9]

  /** The `nal_unit_type` in the header byte. */
  function NalType(nal: Nal): nat { nal[0] % 32 }

  const IDR := 5

  predicate IsKeyframe(nalus: seq<Nal>) { exists i :: 0 <= i < |nalus| && NalType(nalus[i]) == IDR }

  datatype H264Error =
    | Truncated(offset: nat, needed: nat)
    | EmptyNalUnit(offset: nat)
    | NalUnitTooLong(length: nat, size: nat)
    | UnsupportedConfigVersion(version: nat)
    | MissingParameterSet(name: string)

  // ---------------------------------------------------------------- Annex B

  const START_CODE: seq<byte> := [0, 0, 0, 1]

  /** How wide a start code the bytes open with, or 0 for none. */
  function CodeWidth(s: seq<byte>): (width: nat)
    ensures width <= |s|
  {
    if |s| >= 4 && s[0] == 0 && s[1] == 0 && s[2] == 0 && s[3] == 1 then 4
    else if |s| >= 3 && s[0] == 0 && s[1] == 0 && s[2] == 1 then 3
    else 0
  }

  /** Where the next start code begins, or the end if there is none. */
  function NextCode(s: seq<byte>): (n: nat)
    ensures n <= |s|
    ensures n < |s| ==> CodeWidth(s[n..]) > 0
  {
    if |s| < 3 then |s| else if CodeWidth(s) > 0 then 0 else 1 + NextCode(s[1..])
  }

  /** The units of a stream that begins just after a start code. Empty ones are passed over. */
  function UnitsOf(s: seq<byte>): seq<Nal>
    decreases |s|
  {
    var n := NextCode(s);
    (if n > 0 then [s[..n]] else [])
    + (if n < |s| then UnitsOf(s[n + CodeWidth(s[n..])..]) else [])
  }

  /** The units of a byte stream. Whatever comes before the first start code is passed over. */
  function SplitAnnexB(data: seq<byte>): seq<Nal> {
    var n := NextCode(data);
    if n < |data| then UnitsOf(data[n + CodeWidth(data[n..])..]) else []
  }

  function ToAnnexB(nalus: seq<Nal>): seq<byte> {
    if nalus == [] then [] else START_CODE + nalus[0] + ToAnnexB(nalus[1..])
  }

  // ---------------------------------------------------------------- length prefixes

  /** The units of a length-prefixed payload that begins `at` bytes into the whole. */
  function SplitFrom(data: seq<byte>, width: nat, at: nat): Result<seq<Nal>, H264Error>
    decreases |data|
  {
    if data == [] then Ok([])
    else if |data| < width then Err(Truncated(at, width - |data|))
    else
      var length := FromBigEndian(data[..width]);
      if length == 0 then Err(EmptyNalUnit(at + width))
      else if width + length > |data| then Err(Truncated(at + width, width + length - |data|))
      else
        var rest :- SplitFrom(data[width + length..], width, at + width + length);
        Ok([data[width..width + length]] + rest)
  }

  function SplitLengthPrefixed(data: seq<byte>, width: nat): Result<seq<Nal>, H264Error> {
    SplitFrom(data, width, 0)
  }

  /** One unit behind its length. A width of 8 bytes or more holds any length there is. */
  function PutLengthPrefixed(nal: Nal, width: nat): Result<seq<byte>, H264Error> {
    if width >= 8 || |nal| < Pow256(width) then Ok(BigEndian(|nal|, width) + nal)
    else Err(NalUnitTooLong(|nal|, width))
  }

  function ToLengthPrefixed(nalus: seq<Nal>, width: nat): Result<seq<byte>, H264Error> {
    if nalus == [] then Ok([])
    else
      var first :- PutLengthPrefixed(nalus[0], width);
      var rest :- ToLengthPrefixed(nalus[1..], width);
      Ok(first + rest)
  }

  // ---------------------------------------------------------------- the configuration record

  datatype Parameters = Parameters(sps: seq<Nal>, pps: seq<Nal>)

  datatype AvcConfig = AvcConfig(parameters: Parameters, nalLengthSize: nat)

  datatype Cursor = Cursor(rest: seq<byte>, at: nat)

  type Read<T> = Result<(T, Cursor), H264Error>

  function ReadBytes(c: Cursor, count: nat): (r: Read<seq<byte>>)
    ensures r.Ok? ==> |r.value.0| == count && c.rest == r.value.0 + r.value.1.rest
  {
    if count > |c.rest| then Err(Truncated(c.at, count - |c.rest|))
    else Ok((c.rest[..count], Cursor(c.rest[count..], c.at + count)))
  }

  function ReadNumber(c: Cursor, width: nat): (r: Read<nat>)
    ensures r.Ok? ==> r.value.0 < Pow256(width)
  {
    var (bytes, c1) :- ReadBytes(c, width);
    Ok((FromBigEndian(bytes), c1))
  }

  function ReadSets(c: Cursor, count: nat): (r: Read<seq<Nal>>)
    ensures r.Ok? ==> |r.value.0| == count
    decreases count
  {
    if count == 0 then Ok(([], c))
    else
      var (length, c1) :- ReadNumber(c, 2);
      if length == 0 then Err(EmptyNalUnit(c1.at))
      else
        var (entry, c2) :- ReadBytes(c1, length);
        var (rest, c3) :- ReadSets(c2, count - 1);
        Ok(([entry] + rest, c3))
  }

  /** A counted list of parameter sets. Only the low bits of the count are the count. */
  function ReadCounted(c: Cursor, modulus: nat): (r: Read<seq<Nal>>)
    requires modulus > 0
    ensures r.Ok? ==> |r.value.0| < modulus
  {
    var (count, c1) :- ReadNumber(c, 1);
    ReadSets(c1, count % modulus)
  }

  function ParseConfig(data: seq<byte>): Result<AvcConfig, H264Error> {
    var (version, c1) :- ReadNumber(Cursor(data, 0), 1);
    if version != 1 then Err(UnsupportedConfigVersion(version))
    else
      var (_, c2) :- ReadBytes(c1, 3);
      var (size, c3) :- ReadNumber(c2, 1);
      var (sps, c4) :- ReadCounted(c3, 32);
      var (pps, c5) :- ReadCounted(c4, 256);
      if sps == [] then Err(MissingParameterSet("SPS"))
      else if pps == [] then Err(MissingParameterSet("PPS"))
      else Ok(AvcConfig(Parameters(sps, pps), size % 4 + 1))
  }

  function ProfileLevel(parameters: Parameters): Result<seq<byte>, H264Error> {
    if parameters.sps == [] then Err(MissingParameterSet("SPS"))
    else
      var first := parameters.sps[0];
      if |first| < 4 then Err(Truncated(1, 4 - |first|)) else Ok(first[1..4])
  }

  /**
    * The record as bytes. The reserved bits of the width and of the SPS count are ones, and neither has room
    * for more than its low bits: two for the width less one, five and eight for the counts.
    */
  function ConfigToBytes(config: AvcConfig): Result<seq<byte>, H264Error>
    requires config.nalLengthSize >= 1
  {
    var level :- ProfileLevel(config.parameters);
    var sps :- ToLengthPrefixed(config.parameters.sps, 2);
    var pps :- ToLengthPrefixed(config.parameters.pps, 2);
    Ok([1] + (level + ([0xfc + (config.nalLengthSize - 1) % 4]
       + ([0xe0 + |config.parameters.sps| % 32] + (sps + ([|config.parameters.pps| % 256] + pps))))))
  }
}

/** The two framings carry the same NAL units, and the record carries its parameter sets. */
module H264RoundTrip {
  import opened Wrappers
  import opened Bytes
  import opened H264

  // ---------------------------------------------------------------- Annex B

  predicate CodeAt(s: seq<byte>, i: nat)
    requires i + 3 <= |s|
  {
    s[i] == 0 && s[i + 1] == 0 && s[i + 2] == 1
  }

  /** Whether the three bytes no unit may contain are in it. */
  predicate HasCode(s: seq<byte>) { exists i: nat :: i + 3 <= |s| && CodeAt(s, i) }

  lemma NoCodeInTail(s: seq<byte>)
    requires s != [] && !HasCode(s)
    ensures !HasCode(s[1..])
  {
    forall i: nat | i + 3 <= |s[1..]| ensures !CodeAt(s[1..], i) {
      assert !CodeAt(s, i + 1);
    }
  }

  /** No start code begins within a unit that has none in it, whatever zeros it ends in. */
  lemma NoCodeStarts(unit: seq<byte>, rest: seq<byte>)
    requires unit != [] && !HasCode(unit)
    ensures CodeWidth(unit + (START_CODE + rest)) == 0
  {
    var s := unit + (START_CODE + rest);
    assert |unit| >= 3 ==> !CodeAt(unit, 0);
    assert |unit| >= 4 ==> !CodeAt(unit, 1);
    assert s[0] == unit[0];
    assert s[1] == if |unit| > 1 then unit[1] else 0;
    assert s[2] == if |unit| > 2 then unit[2] else 0;
    assert s[3] == if |unit| > 3 then unit[3] else if |unit| == 1 then 0 else s[3];
  }

  /** A unit without the code in it runs up to the start code written after it, trailing zeros and all. */
  lemma {:induction false} UnitEndsAtCode(unit: seq<byte>, rest: seq<byte>)
    requires !HasCode(unit)
    ensures NextCode(unit + (START_CODE + rest)) == |unit|
    decreases |unit|
  {
    hide HasCode, CodeWidth;
    if unit == [] {
      StartCodeOpens(rest);
      assert [] + (START_CODE + rest) == START_CODE + rest;
    } else {
      var s := unit + (START_CODE + rest);
      NoCodeInTail(unit);
      NoCodeStarts(unit, rest);
      assert s[1..] == unit[1..] + (START_CODE + rest);
      UnitEndsAtCode(unit[1..], rest);
    }
  }

  lemma {:induction false} UnitEndsAtEnd(unit: seq<byte>)
    requires !HasCode(unit)
    ensures NextCode(unit) == |unit|
    decreases |unit|
  {
    if unit != [] {
      NoCodeInTail(unit);
      assert |unit| >= 3 ==> !CodeAt(unit, 0);
      assert |unit| >= 4 ==> !CodeAt(unit, 1);
      UnitEndsAtEnd(unit[1..]);
    }
  }

  lemma {:induction false} NoCodeAt(s: seq<byte>, i: nat)
    requires i + 3 <= NextCode(s)
    ensures !CodeAt(s, i)
    decreases |s|
  {
    if i > 0 {
      NoCodeAt(s[1..], i - 1);
    }
  }

  /** Nothing before the next start code contains one. */
  lemma NoCodeBefore(s: seq<byte>)
    ensures !HasCode(s[..NextCode(s)])
  {
    hide NextCode;
    var n := NextCode(s);
    forall i: nat | i + 3 <= n ensures !CodeAt(s[..n], i) {
      NoCodeAt(s, i);
    }
  }

  predicate Clean(nalus: seq<Nal>) { forall n <- nalus :: !HasCode(n) }

  lemma CleanBoth(a: seq<Nal>, b: seq<Nal>)
    requires Clean(a) && Clean(b)
    ensures Clean(a + b)
  {
    hide HasCode;
  }

  lemma CleanOne(piece: seq<byte>)
    requires !HasCode(piece)
    ensures Clean(if |piece| > 0 then [piece] else [])
  {
    hide HasCode;
  }

  lemma {:induction false} UnitsAreClean(s: seq<byte>)
    ensures Clean(UnitsOf(s))
    decreases |s|
  {
    hide HasCode, NextCode, CodeWidth, Clean;
    var n := NextCode(s);
    NoCodeBefore(s);
    CleanOne(s[..n]);
    NothingIsClean();
    var first: seq<Nal> := if n > 0 then [s[..n]] else [];
    var later := if n < |s| then UnitsOf(s[n + CodeWidth(s[n..])..]) else [];
    if n < |s| {
      UnitsAreClean(s[n + CodeWidth(s[n..])..]);
    }
    CleanBoth(first, later);
    assert UnitsOf(s) == first + later;
  }

  lemma NothingIsClean()
    ensures Clean([])
  {
  }

  /** Whatever the bytes, no unit found in them contains 00 00 01. */
  lemma SplitIsClean(data: seq<byte>)
    ensures Clean(SplitAnnexB(data))
  {
    hide HasCode, NextCode, CodeWidth, UnitsOf;
    var n := NextCode(data);
    if n < |data| {
      UnitsAreClean(data[n + CodeWidth(data[n..])..]);
    }
  }

  lemma StartCodeOpens(rest: seq<byte>)
    ensures CodeWidth(START_CODE + rest) == 4 && NextCode(START_CODE + rest) == 0
    ensures (START_CODE + rest)[4..] == rest
  {
  }

  lemma CodeThen(nal: seq<byte>, after: seq<byte>)
    requires nal != [] && !HasCode(nal)
    ensures UnitsOf(nal + (START_CODE + after)) == [nal] + UnitsOf(after)
  {
    hide HasCode, NextCode, CodeWidth;
    UnitEndsAtCode(nal, after);
    StartCodeOpens(after);
    var s := nal + (START_CODE + after);
    assert s[..|nal|] == nal && s[|nal|..] == START_CODE + after;
    DropDrop(s, |nal|, 4);
  }

  lemma NothingThen(nal: seq<byte>)
    requires nal != [] && !HasCode(nal)
    ensures UnitsOf(nal) == [nal]
  {
    hide HasCode, NextCode;
    UnitEndsAtEnd(nal);
    assert nal[..|nal|] == nal;
  }

  lemma {:induction false} WrittenSplits(nal: Nal, rest: seq<Nal>)
    requires !HasCode(nal) && Clean(rest)
    ensures UnitsOf(nal + ToAnnexB(rest)) == [nal] + rest
    decreases |rest|
  {
    hide HasCode, UnitsOf;
    if rest == [] {
      NothingThen(nal);
      assert nal + [] == nal;
    } else {
      WrittenSplits(rest[0], rest[1..]);
      Associative(START_CODE, rest[0], ToAnnexB(rest[1..]));
      CodeThen(nal, rest[0] + ToAnnexB(rest[1..]));
      assert rest == [rest[0]] + rest[1..];
    }
  }

  /** Written as Annex B and split again, units come back exactly when none of them contains 00 00 01. */
  lemma AnnexBRoundTrip(nalus: seq<Nal>)
    ensures SplitAnnexB(ToAnnexB(nalus)) == nalus <==> Clean(nalus)
  {
    hide HasCode, UnitsOf;
    SplitIsClean(ToAnnexB(nalus));
    if Clean(nalus) && nalus != [] {
      WrittenSplits(nalus[0], nalus[1..]);
      var after := nalus[0] + ToAnnexB(nalus[1..]);
      Associative(START_CODE, nalus[0], ToAnnexB(nalus[1..]));
      StartCodeOpens(after);
      assert nalus == [nalus[0]] + nalus[1..];
    }
  }

  /** So a stream rewritten is the same stream, whatever it was to begin with. */
  lemma RewritingSettles(data: seq<byte>)
    ensures SplitAnnexB(ToAnnexB(SplitAnnexB(data))) == SplitAnnexB(data)
  {
    hide SplitAnnexB, ToAnnexB;
    SplitIsClean(data);
    AnnexBRoundTrip(SplitAnnexB(data));
  }

  /** The two start codes. */
  function Code(width: nat): seq<byte> { if width == 3 then [0, 0, 1] else START_CODE }

  /** Pieces of a byte stream, each behind a start code of some width. */
  function Framed(widths: seq<nat>, pieces: seq<seq<byte>>): seq<byte>
    requires |widths| == |pieces|
  {
    if widths == [] then [] else Code(widths[0]) + (pieces[0] + Framed(widths[1..], pieces[1..]))
  }

  function NotEmpty(pieces: seq<seq<byte>>): seq<Nal> {
    if pieces == [] then [] else (if pieces[0] == [] then [] else [pieces[0]]) + NotEmpty(pieces[1..])
  }

  /** A start code is taken as wide as it is: the short one only where no zero comes before it. */
  predicate Widest(width: nat, before: seq<byte>) {
    width == 4 || (width == 3 && (before == [] || before[|before| - 1] != 0))
  }

  /** Pieces with no start code in them, between start codes taken as wide as they are. */
  predicate Parted(before: seq<byte>, widths: seq<nat>, pieces: seq<seq<byte>>)
    requires |widths| == |pieces|
    decreases |widths|
  {
    && !HasCode(before)
    && (widths == [] || (Widest(widths[0], before) && Parted(pieces[0], widths[1..], pieces[1..])))
  }

  lemma {:induction false} NextIsFirst(s: seq<byte>, i: nat)
    requires i < NextCode(s)
    ensures CodeWidth(s[i..]) == 0
    decreases i
  {
    if i > 0 {
      NextIsFirst(s[1..], i - 1);
      DropDrop(s, 1, i - 1);
    } else {
      assert s[0..] == s;
    }
  }

  lemma CodeOpens(s: seq<byte>)
    requires CodeWidth(s) > 0
    ensures (CodeWidth(s) == 3 || CodeWidth(s) == 4) && s == Code(CodeWidth(s)) + s[CodeWidth(s)..]
  {
    var width := CodeWidth(s);
    assert s[..width] == Code(width);
  }

  /** A zero before a short start code makes it a long one that begins sooner. */
  lemma ZeroWidens(s: seq<byte>)
    requires s != [] && s[0] == 0 && CodeWidth(s[1..]) == 3
    ensures CodeWidth(s) == 4
  {
  }

  lemma WidestThere(s: seq<byte>, n: nat, width: nat)
    requires n <= |s| && (width == 4 || (width == 3 && (n == 0 || s[n - 1] != 0)))
    ensures Widest(width, s[..n])
  {
  }

  lemma ZeroBefore(s: seq<byte>, n: nat)
    requires 0 < n <= |s| && s[n - 1] == 0 && CodeWidth(s[n..]) == 3
    ensures CodeWidth(s[n - 1..]) == 4
  {
    hide CodeWidth;
    DropDrop(s, n - 1, 1);
    ZeroWidens(s[n - 1..]);
  }

  /** A short start code that is the first to be found has no zero before it. */
  lemma FirstIsWidest(s: seq<byte>, n: nat, width: nat)
    requires n == NextCode(s) < |s| && width == CodeWidth(s[n..])
    ensures Widest(width, s[..n])
  {
    hide NextCode, CodeWidth, Code, Widest;
    CodeOpens(s[n..]);
    if n > 0 && s[n - 1] == 0 && width == 3 {
      NextIsFirst(s, n - 1);
      ZeroBefore(s, n);
      assert false;
    }
    WidestThere(s, n, width);
  }

  /** What is at the next start code, and what is before it and behind it. */
  lemma CodeSplits(s: seq<byte>)
    requires NextCode(s) < |s|
    ensures var n, width := NextCode(s), CodeWidth(s[NextCode(s)..]);
            && n + width <= |s| && s == s[..n] + (Code(width) + s[n + width..]) && Widest(width, s[..n])
  {
    hide NextCode, CodeWidth, Code, Widest;
    var n := NextCode(s);
    var found := s[n..];
    FirstIsWidest(s, n, CodeWidth(found));
    CodeOpens(found);
    DropDrop(s, n, CodeWidth(found));
    assert s == s[..n] + found;
  }

  lemma OnePart(width: nat, first: seq<byte>, later: seq<nat>, next: seq<byte>, rest: seq<seq<byte>>)
    requires |later| == |rest| && !HasCode(first) && Widest(width, first) && Parted(next, later, rest)
    ensures Parted(first, [width] + later, [next] + rest)
    ensures Framed([width] + later, [next] + rest) == Code(width) + (next + Framed(later, rest))
    ensures NotEmpty([first] + ([next] + rest)) == (if first == [] then [] else [first]) + NotEmpty([next] + rest)
  {
    hide HasCode, Widest, Code;
    assert ([width] + later)[1..] == later && ([next] + rest)[1..] == rest;
    assert ([first] + ([next] + rest))[1..] == [next] + rest;
  }

  lemma LastPart(first: seq<byte>)
    requires !HasCode(first)
    ensures Parted(first, [], []) && first + Framed([], []) == first
    ensures NotEmpty([first] + []) == if first == [] then [] else [first]
  {
    assert [first] + [] == [first] && [first][1..] == [];
  }

  lemma {:induction false} UnitsLoseNothing(s: seq<byte>)
    returns (first: seq<byte>, widths: seq<nat>, pieces: seq<seq<byte>>)
    ensures |widths| == |pieces| && s == first + Framed(widths, pieces) && Parted(first, widths, pieces)
    ensures UnitsOf(s) == NotEmpty([first] + pieces)
    decreases |s|
  {
    hide HasCode, NextCode, CodeWidth, Widest, Code, Parted, Framed, NotEmpty;
    var n := NextCode(s);
    first := s[..n];
    NoCodeBefore(s);
    if n == |s| {
      widths, pieces := [], [];
      LastPart(first);
    } else {
      CodeSplits(s);
      var width := CodeWidth(s[n..]);
      var next, later, rest := UnitsLoseNothing(s[n + width..]);
      widths, pieces := [width] + later, [next] + rest;
      OnePart(width, first, later, next, rest);
    }
  }

  /**
    * Whatever the bytes, splitting loses nothing of them but the start codes, each taken as wide as it is, what
    * comes before the first, and pieces with nothing in them.
    */
  lemma SplitLosesNothing(data: seq<byte>) returns (lead: seq<byte>, widths: seq<nat>, pieces: seq<seq<byte>>)
    ensures |widths| == |pieces| && data == lead + Framed(widths, pieces) && Parted(lead, widths, pieces)
    ensures SplitAnnexB(data) == NotEmpty(pieces)
  {
    hide HasCode, NextCode, CodeWidth, Widest, Code, Parted, Framed, NotEmpty, UnitsOf;
    var n := NextCode(data);
    lead := data[..n];
    NoCodeBefore(data);
    if n == |data| {
      widths, pieces := [], [];
      LastPart(lead);
      assert NotEmpty([]) == [] by { NothingIsNotEmpty(); }
    } else {
      CodeSplits(data);
      var width := CodeWidth(data[n..]);
      var first, later, rest := UnitsLoseNothing(data[n + width..]);
      widths, pieces := [width] + later, [first] + rest;
      OnePart(width, lead, later, first, rest);
    }
  }

  lemma NothingIsNotEmpty()
    ensures NotEmpty([]) == []
  {
  }

  // ---------------------------------------------------------------- length prefixes

  /** A unit that was written behind its length is split off it. */
  lemma PrefixedSplits(nal: Nal, width: nat, rest: seq<byte>, at: nat)
    requires width < 8 && PutLengthPrefixed(nal, width).Ok?
    ensures SplitFrom(PutLengthPrefixed(nal, width).value + rest, width, at) ==
      match SplitFrom(rest, width, at + width + |nal|)
      case Ok(units) => Ok([nal] + units)
      case Err(e) => Err(e)
  {
    hide BigEndian, FromBigEndian;
    ValueOfBigEndian(|nal|, width);
    var data := BigEndian(|nal|, width) + nal + rest;
    assert data[..width] == BigEndian(|nal|, width);
    assert data[width..width + |nal|] == nal && data[width + |nal|..] == rest;
  }

  lemma {:induction false} JoinedSplits(nalus: seq<Nal>, width: nat, at: nat)
    requires width < 8 && ToLengthPrefixed(nalus, width).Ok?
    ensures SplitFrom(ToLengthPrefixed(nalus, width).value, width, at) == Ok(nalus)
    decreases |nalus|
  {
    hide SplitFrom, PutLengthPrefixed;
    if nalus == [] {
      NothingSplits(width, at);
    } else {
      PrefixedSplits(nalus[0], width, ToLengthPrefixed(nalus[1..], width).value, at);
      JoinedSplits(nalus[1..], width, at + width + |nalus[0]|);
      assert nalus == [nalus[0]] + nalus[1..];
    }
  }

  lemma NothingSplits(width: nat, at: nat)
    ensures SplitFrom([], width, at) == Ok([])
  {
  }

  lemma FirstOfSplit(data: seq<byte>, width: nat, at: nat) returns (nal: Nal, rest: seq<byte>)
    requires data != [] && SplitFrom(data, width, at).Ok?
    ensures PutLengthPrefixed(nal, width).Ok? && data == PutLengthPrefixed(nal, width).value + rest
    ensures |rest| < |data|
    ensures var later := SplitFrom(rest, width, at + width + |nal|);
            later.Ok? && SplitFrom(data, width, at) == Ok([nal] + later.value)
  {
    hide BigEndian, FromBigEndian;
    var prefix := data[..width];
    var length := FromBigEndian(prefix);
    BigEndianOfValue(prefix);
    nal, rest := data[width..width + length], data[width + length..];
    assert data == prefix + nal + rest;
  }

  lemma {:induction false} SplitJoins(data: seq<byte>, width: nat, at: nat)
    requires SplitFrom(data, width, at).Ok?
    ensures ToLengthPrefixed(SplitFrom(data, width, at).value, width) == Ok(data)
    decreases |data|
  {
    hide SplitFrom, PutLengthPrefixed;
    if data == [] {
      NothingSplits(width, at);
    } else {
      var nal, rest := FirstOfSplit(data, width, at);
      SplitJoins(rest, width, at + width + |nal|);
      var units := SplitFrom(rest, width, at + width + |nal|).value;
      assert ([nal] + units)[1..] == units;
    }
  }

  /** Units joined and split are the units they were, for every width whose prefix holds their lengths. */
  lemma JoinThenSplit(nalus: seq<Nal>, width: nat)
    requires width < 8 && ToLengthPrefixed(nalus, width).Ok?
    ensures SplitLengthPrefixed(ToLengthPrefixed(nalus, width).value, width) == Ok(nalus)
  {
    JoinedSplits(nalus, width, 0);
  }

  /** And bytes that split are the bytes their units join to: nothing that is accepted is read two ways. */
  lemma SplitThenJoin(data: seq<byte>, width: nat)
    requires SplitLengthPrefixed(data, width).Ok?
    ensures ToLengthPrefixed(SplitLengthPrefixed(data, width).value, width) == Ok(data)
  {
    SplitJoins(data, width, 0);
  }

  /** The lists that can be joined are the ones whose every unit fits its prefix. */
  lemma {:induction false} JoinsWhenEachFits(nalus: seq<Nal>, width: nat)
    requires width < 8
    ensures ToLengthPrefixed(nalus, width).Ok? <==> forall n <- nalus :: |n| < Pow256(width)
    decreases |nalus|
  {
    hide BigEndian, Pow256;
    if nalus != [] {
      JoinsWhenEachFits(nalus[1..], width);
    }
  }

  // ---------------------------------------------------------------- the configuration record

  lemma BytesRead(at: nat, bytes: seq<byte>, suffix: seq<byte>)
    ensures ReadBytes(Cursor(bytes + suffix, at), |bytes|) == Ok((bytes, Cursor(suffix, at + |bytes|)))
  {
    assert (bytes + suffix)[..|bytes|] == bytes && (bytes + suffix)[|bytes|..] == suffix;
  }

  lemma ByteReads(at: nat, b: byte, suffix: seq<byte>)
    ensures ReadNumber(Cursor([b] + suffix, at), 1) == Ok((b as nat, Cursor(suffix, at + 1)))
  {
    BytesRead(at, [b], suffix);
    assert [b][..0] == [] && FromBigEndian([b]) == b;
  }

  /** The sets after one whose length has been read. */
  function AfterSet(entry: Nal, r: Read<seq<Nal>>): Read<seq<Nal>> {
    var (rest, c) :- r;
    Ok(([entry] + rest, c))
  }

  lemma OneSetReads(entry: Nal, count: nat, rest: seq<byte>, at: nat)
    requires |entry| < 0x1_0000 && count > 0
    ensures ReadSets(Cursor(BigEndian(|entry|, 2) + (entry + rest), at), count)
         == AfterSet(entry, ReadSets(Cursor(rest, at + 2 + |entry|), count - 1))
  {
    hide BigEndian, FromBigEndian, ReadBytes;
    Widths();
    ValueOfBigEndian(|entry|, 2);
    BytesRead(at, BigEndian(|entry|, 2), entry + rest);
    BytesRead(at + 2, entry, rest);
  }

  lemma {:induction false} SetsRead(sets: seq<Nal>, suffix: seq<byte>, at: nat)
    requires ToLengthPrefixed(sets, 2).Ok?
    ensures var w := ToLengthPrefixed(sets, 2).value;
            ReadSets(Cursor(w + suffix, at), |sets|) == Ok((sets, Cursor(suffix, at + |w|)))
    decreases |sets|
  {
    hide BigEndian, ReadNumber, ReadBytes;
    if sets == [] {
      assert [] + suffix == suffix;
    } else {
      var first, rest := sets[0], sets[1..];
      var length, tail := BigEndian(|first|, 2), ToLengthPrefixed(rest, 2).value;
      Widths();
      Associative(length + first, tail, suffix);
      Associative(length, first, tail + suffix);
      OneSetReads(first, |sets|, tail + suffix, at);
      SetsRead(rest, suffix, at + 2 + |first|);
      assert sets == [first] + rest;
    }
  }

  lemma CountedReads(sets: seq<Nal>, high: byte, modulus: nat, suffix: seq<byte>, at: nat)
    requires ToLengthPrefixed(sets, 2).Ok? && modulus > 0
    requires high % modulus == |sets|
    ensures var w := ToLengthPrefixed(sets, 2).value;
            ReadCounted(Cursor([high] + (w + suffix), at), modulus) == Ok((sets, Cursor(suffix, at + 1 + |w|)))
  {
    hide ToLengthPrefixed, ReadSets;
    ByteReads(at, high, ToLengthPrefixed(sets, 2).value + suffix);
    SetsRead(sets, suffix, at + 1);
  }

  /** What the record's counts and width have room for. */
  predicate Recordable(config: AvcConfig) {
    && 1 <= |config.parameters.sps| <= 31
    && 1 <= |config.parameters.pps| <= 255
    && 1 <= config.nalLengthSize <= 4
  }

  lemma RecordReads(config: AvcConfig)
    requires Recordable(config) && ConfigToBytes(config).Ok?
    ensures ParseConfig(ConfigToBytes(config).value) == Ok(config)
  {
    hide ReadBytes, ReadNumber, ReadCounted, ToLengthPrefixed;
    var p := config.parameters;
    var level, sps, pps :=
      ProfileLevel(p).value, ToLengthPrefixed(p.sps, 2).value, ToLengthPrefixed(p.pps, 2).value;
    var size, spsCount, ppsCount: byte := 0xfc + (config.nalLengthSize - 1), 0xe0 + |p.sps|, |p.pps|;
    var afterSps := [ppsCount] + pps;
    var afterSize := [spsCount] + (sps + afterSps);
    ByteReads(0, 1, level + ([size] + afterSize));
    BytesRead(1, level, [size] + afterSize);
    ByteReads(4, size, afterSize);
    CountedReads(p.sps, spsCount, 32, afterSps, 5);
    assert pps + [] == pps;
    CountedReads(p.pps, ppsCount, 256, [], 6 + |sps|);
  }

  /** A record read is one that could be written: the counts and the width are in range. */
  lemma ParsedIsRecordable(data: seq<byte>)
    requires ParseConfig(data).Ok?
    ensures Recordable(ParseConfig(data).value)
  {
    hide ReadSets, ReadNumber;
  }

  /** A record written reads back as what it was written from exactly when its counts and width have room for it. */
  lemma RecordRoundTrip(config: AvcConfig)
    requires config.nalLengthSize >= 1 && ConfigToBytes(config).Ok?
    ensures ParseConfig(ConfigToBytes(config).value) == Ok(config) <==> Recordable(config)
  {
    hide ParseConfig, ConfigToBytes;
    if Recordable(config) {
      RecordReads(config);
    }
    if ParseConfig(ConfigToBytes(config).value) == Ok(config) {
      ParsedIsRecordable(ConfigToBytes(config).value);
    }
  }

  /** When a record can be written: parameter sets the prefix holds, and a first SPS that states its profile. */
  lemma RecordIsWritten(config: AvcConfig)
    requires config.nalLengthSize >= 1
    ensures ConfigToBytes(config).Ok? <==>
      && config.parameters.sps != [] && |config.parameters.sps[0]| >= 4
      && (forall n <- config.parameters.sps :: |n| < 0x1_0000)
      && (forall n <- config.parameters.pps :: |n| < 0x1_0000)
  {
    hide ToLengthPrefixed;
    Widths();
    JoinsWhenEachFits(config.parameters.sps, 2);
    JoinsWhenEachFits(config.parameters.pps, 2);
  }
}

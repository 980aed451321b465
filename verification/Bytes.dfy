/**
  * Bytes, the numbers written in them, and the growable buffer that the
  * codecs read from the front of and append to the back of.
  */
module Bytes {
  import opened Wrappers

  type byte = x: int | 0 <= x < 0x100
  type u16 = x: int | 0 <= x < 0x1_0000
  type u32 = x: int | 0 <= x < 0x1_0000_0000
  type u64 = x: int | 0 <= x < 0x1_0000_0000_0000_0000

  function Min(a: int, b: int): int { if a <= b then a else b }

  function Pow256(width: nat): (p: nat)
    ensures p >= 1
  {
    if width == 0 then 1 else 256 * Pow256(width - 1)
  }

  /** The low `width` bytes of a number, most significant first. */
  function BigEndian(value: nat, width: nat): (r: seq<byte>)
    ensures |r| == width
  {
    if width == 0 then [] else BigEndian(value / 256, width - 1) + [value % 256]
  }

  /** The number that bytes spell, most significant first. */
  function FromBigEndian(s: seq<byte>): (v: nat)
    ensures v < Pow256(|s|)
  {
    if s == [] then 0 else 256 * FromBigEndian(s[..|s| - 1]) + s[|s| - 1]
  }

  lemma {:induction false} ValueOfBigEndian(value: nat, width: nat)
    requires value < Pow256(width)
    ensures FromBigEndian(BigEndian(value, width)) == value
  {
    if width > 0 {
      ValueOfBigEndian(value / 256, width - 1);
      var s := BigEndian(value, width);
      assert s[..|s| - 1] == BigEndian(value / 256, width - 1);
    }
  }

  lemma Digits(high: nat, low: byte)
    ensures (256 * high + low) / 256 == high && (256 * high + low) % 256 == low
  {
  }

  lemma {:induction false} BigEndianOfValue(s: seq<byte>)
    ensures BigEndian(FromBigEndian(s), |s|) == s
  {
    if s != [] {
      var init, last := s[..|s| - 1], s[|s| - 1];
      BigEndianOfValue(init);
      Digits(FromBigEndian(init), last);
      assert s == init + [last];
    }
  }

  lemma Widths()
    ensures Pow256(1) == 0x100 && Pow256(2) == 0x1_0000 && Pow256(3) == 0x100_0000
    ensures Pow256(4) == 0x1_0000_0000 && Pow256(8) == 0x1_0000_0000_0000_0000
  {
    assert Pow256(5) == 256 * Pow256(4);
    assert Pow256(6) == 256 * Pow256(5);
    assert Pow256(7) == 256 * Pow256(6);
  }

  /** Which byte is where, spelt out for the widths that are used. */
  lemma TwoBytes(value: u16)
    ensures BigEndian(value, 2) == [value / 0x100, value % 0x100]
  {
    assert BigEndian(value / 0x100, 1) == [value / 0x100];
  }

  lemma ThreeBytes(value: nat)
    requires value < 0x100_0000
    ensures BigEndian(value, 3) == [value / 0x1_0000, value / 0x100 % 0x100, value % 0x100]
  {
    TwoBytes(value / 0x100);
  }

  lemma FourBytes(value: u32)
    ensures BigEndian(value, 4)
         == [value / 0x100_0000, value / 0x1_0000 % 0x100, value / 0x100 % 0x100, value % 0x100]
  {
    ThreeBytes(value / 0x100);
  }

  lemma FromTwo(s: seq<byte>)
    requires |s| == 2
    ensures FromBigEndian(s) == 0x100 * s[0] as nat + s[1] as nat
  {
    assert s[..1][..0] == [] && FromBigEndian(s[..1]) == s[0];
  }

  lemma FromThree(s: seq<byte>)
    requires |s| == 3
    ensures FromBigEndian(s) == 0x1_0000 * s[0] as nat + 0x100 * s[1] as nat + s[2] as nat
  {
    FromTwo(s[..2]);
  }

  lemma FromFour(s: seq<byte>)
    requires |s| == 4
    ensures FromBigEndian(s) ==
      0x100_0000 * s[0] as nat + 0x1_0000 * s[1] as nat + 0x100 * s[2] as nat + s[3] as nat
  {
    FromThree(s[..3]);
  }

  /** A number's bytes with the least significant first. */
  function LittleEndian(value: nat, width: nat): (r: seq<byte>)
    ensures |r| == width
  {
    if width == 0 then [] else [value % 256] + LittleEndian(value / 256, width - 1)
  }

  function FromLittleEndian(s: seq<byte>): (v: nat)
    ensures v < Pow256(|s|)
  {
    if s == [] then 0 else s[0] + 256 * FromLittleEndian(s[1..])
  }

  lemma {:induction false} ValueOfLittleEndian(value: nat, width: nat)
    requires value < Pow256(width)
    ensures FromLittleEndian(LittleEndian(value, width)) == value
  {
    if width > 0 {
      ValueOfLittleEndian(value / 256, width - 1);
      assert LittleEndian(value, width)[1..] == LittleEndian(value / 256, width - 1);
    }
  }

  /** Least significant first is most significant first, backwards. */
  lemma FourBackwards(value: u32)
    ensures LittleEndian(value, 4)
         == [value % 0x100, value / 0x100 % 0x100, value / 0x1_0000 % 0x100, value / 0x100_0000]
  {
    assert LittleEndian(value / 0x100_0000, 1) == [value / 0x100_0000];
    assert LittleEndian(value / 0x1_0000, 2) == [value / 0x1_0000 % 0x100, value / 0x100_0000];
    assert LittleEndian(value / 0x100, 3)
        == [value / 0x100 % 0x100, value / 0x1_0000 % 0x100, value / 0x100_0000];
  }

  /** The first `count` bytes and what follows them, or nothing when they are not all there. */
  function Take(data: seq<byte>, count: nat): (r: Option<(seq<byte>, seq<byte>)>)
    ensures r.Some? <==> count <= |data|
    ensures r.Some? ==> |r.value.0| == count && r.value.0 + r.value.1 == data
  {
    if count <= |data| then Some((data[..count], data[count..])) else None
  }

  /** A big-endian number off the front. */
  function TakeNumber(data: seq<byte>, width: nat): (r: Option<(nat, seq<byte>)>)
    ensures r.Some? <==> width <= |data|
    ensures r.Some? ==> r.value.0 < Pow256(width) && |r.value.1| + width == |data|
  {
    var (bytes, rest) :- Take(data, width);
    Some((FromBigEndian(bytes), rest))
  }

  lemma TakeWhole(a: seq<byte>, b: seq<byte>)
    ensures Take(a + b, |a|) == Some((a, b))
  {
    assert (a + b)[..|a|] == a && (a + b)[|a|..] == b;
  }

  lemma TakeWritten(value: nat, width: nat, rest: seq<byte>)
    requires value < Pow256(width)
    ensures TakeNumber(BigEndian(value, width) + rest, width) == Some((value, rest))
  {
    TakeWhole(BigEndian(value, width), rest);
    ValueOfBigEndian(value, width);
  }

  /** More bytes arriving behind do not change what is taken from the front. */
  lemma TakeMore(data: seq<byte>, count: nat, more: seq<byte>)
    requires count <= |data|
    ensures Take(data + more, count) == Some((Take(data, count).value.0, Take(data, count).value.1 + more))
  {
    assert (data + more)[..count] == data[..count];
    assert (data + more)[count..] == data[count..] + more;
  }

  lemma Associative<T>(a: seq<T>, b: seq<T>, c: seq<T>)
    ensures (a + b) + c == a + (b + c)
  {
  }

  lemma DropDrop<T>(s: seq<T>, a: nat, b: nat)
    requires a + b <= |s|
    ensures s[a..][b..] == s[a + b..]
  {
  }

  lemma DropTake<T>(s: seq<T>, a: nat, b: nat)
    requires a + b <= |s|
    ensures s[a..][..b] == s[a..a + b]
  {
  }

  lemma SmallerSet<T>(a: set<T>, b: set<T>)
    requires a <= b
    ensures |a| <= |b|
  {
    assert b == a + (b - a);
  }

  /** Pieces laid end to end. */
  function Flatten(pieces: seq<seq<byte>>): seq<byte> {
    if pieces == [] then [] else pieces[0] + Flatten(pieces[1..])
  }

  /** A buffer that is filled at the back and consumed from the front. */
  class Buffer {
    var data: seq<byte>

    constructor ()
      ensures data == []
    {
      data := [];
    }

    method Put(bytes: seq<byte>)
      modifies this
      ensures data == old(data) + bytes
    {
      data := data + bytes;
    }

    method Advance(count: nat)
      requires count <= |data|
      modifies this
      ensures data == old(data)[count..]
    {
      data := data[count..];
    }

    method SplitTo(count: nat) returns (front: seq<byte>)
      requires count <= |data|
      modifies this
      ensures front == old(data)[..count] && data == old(data)[count..]
    {
      front := data[..count];
      data := data[count..];
    }
  }
}

/** The bytes that are taken for text are the UTF-8 of some Unicode scalar values, and all of them are (RFC 3629). */
module Utf8Text {
  import opened Bytes
  import opened Amf0

  /** A Unicode scalar value: any code point but a surrogate. */
  type Scalar = c: int | (0 <= c < 0xd800) || (0xe000 <= c < 0x11_0000)

  /** Its bits, most significant first, six to each byte after the first. */
  function Encode(c: Scalar): seq<byte> {
    if c < 0x80 then [c]
    else if c < 0x800 then [0xc0 + c / 0x40, 0x80 + c % 0x40]
    else if c < 0x1_0000 then [0xe0 + c / 0x1000, 0x80 + c / 0x40 % 0x40, 0x80 + c % 0x40]
    else [0xf0 + c / 0x4_0000, 0x80 + c / 0x1000 % 0x40, 0x80 + c / 0x40 % 0x40, 0x80 + c % 0x40]
  }

  function Spelling(text: seq<Scalar>): seq<byte> {
    if text == [] then [] else Encode(text[0]) + Spelling(text[1..])
  }

  lemma OneIsTaken(c: Scalar, rest: seq<byte>)
    ensures CharLength(Encode(c) + rest) == |Encode(c)|
    ensures (Encode(c) + rest)[|Encode(c)|..] == rest
  {
  }

  lemma {:induction false} SpellingIsUtf8(text: seq<Scalar>)
    ensures Utf8(Spelling(text))
  {
    hide Encode, CharLength;
    if text != [] {
      SpellingIsUtf8(text[1..]);
      OneIsTaken(text[0], Spelling(text[1..]));
      NotEmpty(text[0]);
    }
  }

  lemma NotEmpty(c: Scalar)
    ensures Encode(c) != []
  {
  }

  /** The code point that the bytes of one character spell. */
  function Decode(s: seq<byte>): int
    requires CharLength(s) > 0
  {
    match CharLength(s)
    case 1 => s[0]
    case 2 => (s[0] as int - 0xc0) * 0x40 + (s[1] as int - 0x80)
    case 3 => (s[0] as int - 0xe0) * 0x1000 + (s[1] as int - 0x80) * 0x40 + (s[2] as int - 0x80)
    case _ =>
      (s[0] as int - 0xf0) * 0x4_0000 + (s[1] as int - 0x80) * 0x1000
      + (s[2] as int - 0x80) * 0x40 + (s[3] as int - 0x80)
  }

  lemma SixBits(high: nat, low: nat)
    requires low < 0x40
    ensures (high * 0x40 + low) / 0x40 == high && (high * 0x40 + low) % 0x40 == low
  {
  }

  lemma TwoSpell(a: byte, b: byte)
    requires 0xc2 <= a <= 0xdf && 0x80 <= b <= 0xbf
    ensures var c := (a as int - 0xc0) * 0x40 + (b as int - 0x80);
            0x80 <= c < 0x800 && Encode(c) == [a, b]
  {
    SixBits(a - 0xc0, b - 0x80);
  }

  lemma ThreeSpell(a: byte, b: byte, d: byte)
    requires 0xe0 <= a <= 0xef && 0x80 <= b <= 0xbf && 0x80 <= d <= 0xbf
    requires (a == 0xe0 ==> b >= 0xa0) && (a == 0xed ==> b <= 0x9f)
    ensures var c := (a as int - 0xe0) * 0x1000 + (b as int - 0x80) * 0x40 + (d as int - 0x80);
            0x800 <= c < 0x1_0000 && (c < 0xd800 || c >= 0xe000) && Encode(c) == [a, b, d]
  {
    var high := (a as int - 0xe0) * 0x40 + (b as int - 0x80);
    SixBits(a - 0xe0, b - 0x80);
    SixBits(high, d - 0x80);
  }

  lemma FourSpell(a: byte, b: byte, d: byte, e: byte)
    requires 0xf0 <= a <= 0xf4 && 0x80 <= b <= 0xbf && 0x80 <= d <= 0xbf && 0x80 <= e <= 0xbf
    requires (a == 0xf0 ==> b >= 0x90) && (a == 0xf4 ==> b <= 0x8f)
    ensures var c :=
              (a as int - 0xf0) * 0x4_0000 + (b as int - 0x80) * 0x1000 + (d as int - 0x80) * 0x40 + (e as int - 0x80);
            0x1_0000 <= c < 0x11_0000 && Encode(c) == [a, b, d, e]
  {
    var higher := (a as int - 0xf0) * 0x40 + (b as int - 0x80);
    var high := higher * 0x40 + (d as int - 0x80);
    SixBits(a - 0xf0, b - 0x80);
    SixBits(higher, d - 0x80);
    SixBits(high, e - 0x80);
    assert (high * 0x40 + (e as int - 0x80)) / 0x1000 == higher;
  }

  lemma OneIsSpelt(s: seq<byte>)
    requires CharLength(s) > 0
    ensures 0 <= Decode(s) < 0xd800 || 0xe000 <= Decode(s) < 0x11_0000
    ensures Encode(Decode(s)) == s[..CharLength(s)]
  {
    hide Encode;
    match CharLength(s)
    case 1 => OneSpells(s[0]);
    case 2 => TwoSpell(s[0], s[1]);
    case 3 => ThreeSpell(s[0], s[1], s[2]);
    case _ => FourSpell(s[0], s[1], s[2], s[3]);
  }

  lemma OneSpells(a: byte)
    requires a < 0x80
    ensures Encode(a) == [a]
  {
  }

  /** What a text was spelt from. */
  function Read(s: seq<byte>): (text: seq<Scalar>)
    requires Utf8(s)
  {
    if s == [] then []
    else
      OneIsSpelt(s);
      [Decode(s)] + Read(s[CharLength(s)..])
  }

  lemma {:induction false} Utf8IsSpelling(s: seq<byte>)
    requires Utf8(s)
    ensures Spelling(Read(s)) == s
    decreases |s|
  {
    hide CharLength, Encode, Decode;
    if s != [] {
      OneIsSpelt(s);
      Utf8IsSpelling(s[CharLength(s)..]);
      assert ([Decode(s)] + Read(s[CharLength(s)..]))[1..] == Read(s[CharLength(s)..]);
    }
  }

  /** Bytes are text exactly when some scalar values are spelt by them. */
  lemma TextExactly(s: seq<byte>)
    ensures Utf8(s) <==> exists text: seq<Scalar> :: Spelling(text) == s
  {
    hide Utf8, Spelling, Read;
    if Utf8(s) {
      Utf8IsSpelling(s);
    }
    if text: seq<Scalar> :| Spelling(text) == s {
      SpellingIsUtf8(text);
    }
  }
}

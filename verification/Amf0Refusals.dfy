/** What the AMF0 parser refuses, and what for: types it does not read, text that is not, and values cut short. */
module Amf0Refusals {
  import opened Wrappers
  import opened Bytes
  import opened Amf0
  import opened Amf0RoundTrip
  import opened Amf0Wire

  /** Where a marker begins no value that is read, what it is refused as. */
  function RefusedAs(marker: byte, at: nat): Option<Amf0Error> {
    match marker
    case 0x04 => Some(UnreadType("a movie clip", at))
    case 0x07 => Some(UnreadType("a reference", at))
    case 0x09 => Some(UnexpectedObjectEnd(at))
    case 0x0d => Some(UnreadType("an unsupported-type marker", at))
    case 0x0e => Some(UnreadType("a record set", at))
    case 0x0f => Some(UnreadType("an XML document", at))
    case 0x10 => Some(UnreadType("a typed object", at))
    case 0x11 => Some(UnreadType("a switch to AMF3", at))
    case _ => if marker > 0x11 then Some(UnknownMarker(marker, at)) else None
  }

  /** A value of a type that is not read is refused by name, or by its marker, and at the marker. */
  lemma MarkersRefused(marker: byte, after: seq<byte>, at: nat, depth: nat)
    requires RefusedAs(marker, at).Some?
    ensures ReadValue(Cursor([marker] + after, at), depth) == Err(RefusedAs(marker, at).value)
  {
    hide ReadValue;
    ScalarDispatch(marker, after, at, depth);
  }

  /** And no other marker is refused at all: each begins some value's bytes. */
  lemma OthersBeginValues(marker: byte) returns (w: seq<byte>, v: Value)
    requires RefusedAs(marker, 0).None?
    ensures w != [] && w[0] == marker && Encodes(w, v)
  {
    NoProperties([0, 0, 9]);
    Widths();
    match marker
    case 0x00 => w, v := [0] + BigEndian(0, 8), Number(0);
    case 0x01 => w, v := [1, 0], Boolean(false);
    case 0x02 => w, v := [2] + (BigEndian(0, 2) + []), String([]);
    case 0x03 => w, v := [3] + [0, 0, 9], Object([]);
    case 0x05 => w, v := [5], Null;
    case 0x06 => w, v := [6], Undefined;
    case 0x08 => w, v := [8, 0, 0, 0, 0] + [0, 0, 9], EcmaArray([]);
    case 0x0a =>
      w, v := [10] + (BigEndian(0, 4) + []), StrictArray([]);
      assert w[1..5] == BigEndian(0, 4) && w[5..] == [];
    case 0x0b =>
      w, v := [11] + (BigEndian(0, 8) + [0, 0]), Date(0);
      assert w[1..9] == BigEndian(0, 8);
    case 0x0c => w, v := [12] + (BigEndian(0, 4) + []), String([]);
  }

  /** Text that is not UTF-8 is refused where it begins, behind its marker and its count. */
  lemma BadTextRefused(text: seq<byte>, long: bool, after: seq<byte>, at: nat, depth: nat)
    requires !Utf8(text) && |text| < if long then 0x1_0000_0000 else 0x1_0000
    ensures var (marker, width) := if long then (12, 4) else (2, 2);
            ReadValue(Cursor([marker as byte] + (BigEndian(|text|, width) + (text + after)), at), depth)
              == Err(NotUtf8(at + 1 + width))
  {
    hide ReadValue, Utf8, BigEndian, ReadNumber, ReadBytes, ReadDate, Refuse;
    Widths();
    var width := if long then 4 else 2;
    ScalarDispatch(if long then 12 else 2, BigEndian(|text|, width) + (text + after), at, depth);
    NumberReads(at + 1, |text|, width, text + after);
    BytesRead(at + 1 + width, text, after);
  }

  lemma BadKeyRefused(key: seq<byte>, after: seq<byte>, at: nat, depth: nat)
    requires !Utf8(key) && 0 < |key| < 0x1_0000
    ensures ReadProperties(Cursor(BigEndian(|key|, 2) + (key + after), at), depth) == Err(NotUtf8(at + 2))
  {
    hide ReadValue, Utf8, BigEndian, ReadNumber, ReadBytes;
    Widths();
    NumberReads(at, |key|, 2, key + after);
    BytesRead(at + 2, key, after);
  }

  /** An empty key ends an object with a 9 behind it, and is refused with anything else. */
  lemma BadEndRefused(marker: byte, after: seq<byte>, at: nat, depth: nat)
    requires marker != 9
    ensures ReadProperties(Cursor([0, 0, marker] + after, at), depth) == Err(UnknownMarker(marker, at + 2))
  {
    hide ReadNumber;
    Widths();
    TwoBytes(0);
    assert [0, 0, marker] + after == BigEndian(0, 2) + ([marker] + after);
    NumberReads(at, 0, 2, [marker] + after);
    MarkerReads(at + 2, marker, after);
  }

  // ---------------------------------------------------------------- values cut short

  /** What is missing is said to be missing where its field begins, before the bytes run out, and by how much. */
  predicate Missing(e: Amf0Error, at: nat, have: nat, size: nat) {
    e.Truncated? && at <= e.offset <= at + have && 0 < e.needed <= size - have
  }

  lemma TooFewBytes(bytes: seq<byte>, count: nat, at: nat)
    requires |bytes| < count
    ensures ReadBytes(Cursor(bytes, at), count) == Err(Truncated(at, count - |bytes|))
    ensures ReadNumber(Cursor(bytes, at), count) == Err(Truncated(at, count - |bytes|))
  {
  }

  lemma CountOfTextCut(bytes: seq<byte>, width: nat, at: nat)
    requires |bytes| < width
    ensures ReadString(Cursor(bytes, at), width) == Err(Truncated(at, width - |bytes|))
  {
    hide ReadNumber, ReadText;
    TooFewBytes(bytes, width, at);
  }

  lemma PartOfText(length: nat, part: seq<byte>, width: nat, at: nat)
    requires |part| < length < Pow256(width)
    ensures ReadString(Cursor(BigEndian(length, width) + part, at), width)
         == Err(Truncated(at + width, length - |part|))
  {
    hide Utf8, BigEndian, ReadNumber, ReadBytes, Pow256;
    NumberReads(at, length, width, part);
    TooFewBytes(part, length, at + width);
  }

  lemma StringCut(text: Text, width: nat, k: nat, at: nat)
    requires |text| < Pow256(width) && k < width + |text|
    ensures var r := ReadString(Cursor((BigEndian(|text|, width) + text)[..k], at), width);
            r.Err? && Missing(r.error, at, k, width + |text|)
  {
    hide BigEndian, ReadString, Pow256;
    var w := BigEndian(|text|, width) + text;
    if k < width {
      CountOfTextCut(w[..k], width, at);
    } else {
      assert w[..k] == BigEndian(|text|, width) + text[..k - width];
      PartOfText(|text|, text[..k - width], width, at);
    }
  }

  lemma DateCut(w: seq<byte>, k: nat, at: nat)
    requires |w| == 10 && k < 10
    ensures var r := ReadDate(Cursor(w[..k], at));
            r.Err? && Missing(r.error, at, k, 10)
  {
    hide BigEndian, FromBigEndian, ReadNumber, ReadBytes;
    if k < 8 {
      TooFewBytes(w[..k], 8, at);
    } else {
      Widths();
      BigEndianOfValue(w[..8]);
      assert w[..k] == w[..8] + w[8..k];
      NumberReads(at, FromBigEndian(w[..8]), 8, w[8..k]);
      TooFewBytes(w[8..k], 2, at + 8);
    }
  }

  lemma ScalarCut(w: seq<byte>, v: Value, k: nat, at: nat, depth: nat)
    requires Encodes(w, v) && !Holder(v) && k < |w|
    ensures var r := ReadValue(Cursor(w[..k], at), depth);
            r.Err? && Missing(r.error, at, k, |w|)
  {
    hide Utf8, BigEndian, FromBigEndian, ReadDate, ReadString, Refuse, ReadNumber, ReadBytes, ReadNested, ReadItems;
    if k == 0 {
      TooFewBytes([], 1, at);
    } else {
      assert w[..k] == [w[0]] + w[1..][..k - 1];
      ScalarDispatch(w[0], w[1..][..k - 1], at, depth);
      match v
      case Number(_) => TooFewBytes(w[1..][..k - 1], 8, at + 1);
      case Boolean(_) => TooFewBytes(w[1..][..k - 1], 1, at + 1);
      case String(text) => StringCut(text, if w[0] == 2 then 2 else 4, k - 1, at + 1);
      case Date(_) => DateCut(w[1..], k - 1, at + 1);
    }
  }

  /** A value cut off anywhere is refused for what is missing from it, wherever in it that is. */
  lemma {:induction false} CutIsRefused(w: seq<byte>, v: Value, k: nat, at: nat, depth: nat)
    requires Encodes(w, v) && Fits(v, 32 - depth) && k < |w|
    ensures var r := ReadValue(Cursor(w[..k], at), depth);
            r.Err? && Missing(r.error, at, k, |w|)
    decreases v, 1
  {
    hide Utf8, BigEndian, FromBigEndian, ReadScalar, ReadNumber, ReadBytes, ReadProperties, ReadItems,
         EncodesProperties, EncodesValues, ReadValue;
    if !Holder(v) {
      ScalarCut(w, v, k, at, depth);
    } else if k == 0 {
      NothingIsTruncated(at, depth);
      assert w[..0] == [];
    } else {
      HolderCut(w, v, k, at, depth);
    }
  }

  /** A value that holds others, cut in its count or in what it holds. */
  lemma {:induction false} HolderCut(w: seq<byte>, v: Value, k: nat, at: nat, depth: nat)
    requires Encodes(w, v) && Fits(v, 32 - depth) && Holder(v) && 0 < k < |w|
    ensures var r := ReadValue(Cursor(w[..k], at), depth);
            r.Err? && Missing(r.error, at, k, |w|)
    decreases v, 0
  {
    hide Utf8, BigEndian, FromBigEndian, ReadScalar, ReadNumber, ReadBytes, ReadProperties, ReadItems,
         EncodesProperties, EncodesValues, ReadValue;
    match v
    case Object(properties) =>
      assert w[..k] == [3] + w[1..][..k - 1];
      ObjectDispatch(w[1..][..k - 1], at, depth);
      PropertiesCut(w[1..], properties, k - 1, at + 1, depth + 1);
    case EcmaArray(properties) =>
      CountThen(w, k, at, depth);
      if k >= 5 {
        AnyEcmaDispatch(w[1..5], w[5..][..k - 5], at, depth);
        PropertiesCut(w[5..], properties, k - 5, at + 5, depth + 1);
      }
    case StrictArray(values) =>
      CountThen(w, k, at, depth);
      if k >= 5 {
        StrictDispatch(|values|, w[5..][..k - 5], at, depth);
        ValuesCut(w[5..], values, k - 5, at + 5, depth + 1);
      }
  }

  lemma CountThen(w: seq<byte>, k: nat, at: nat, depth: nat)
    requires |w| >= 5 && (w[0] == 8 || w[0] == 10) && 0 < k <= |w|
    ensures k < 5 ==> ReadValue(Cursor(w[..k], at), depth) == Err(Truncated(at + 1, 5 - k))
    ensures k >= 5 ==> w[..k] == [w[0]] + (w[1..5] + w[5..][..k - 5])
  {
    hide ReadValue;
    if k < 5 {
      assert w[..k] == [w[0]] + w[1..k];
      CountCut(w[0], w[1..k], at, depth);
    }
  }

  lemma NothingIsTruncated(at: nat, depth: nat)
    ensures ReadValue(Cursor([], at), depth) == Err(Truncated(at, 1))
  {
    TooFewBytes([], 1, at);
  }

  lemma CountCut(marker: byte, bytes: seq<byte>, at: nat, depth: nat)
    requires (marker == 8 || marker == 10) && |bytes| < 4
    ensures ReadValue(Cursor([marker] + bytes, at), depth) == Err(Truncated(at + 1, 4 - |bytes|))
  {
    hide ReadNested, ReadItems, ReadScalar, ReadNumber;
    MarkerReads(at, marker, bytes);
    TooFewBytes(bytes, 4, at + 1);
  }

  lemma {:induction false} PropertiesCut(w: seq<byte>, properties: seq<Property>, k: nat, at: nat, depth: nat)
    requires EncodesProperties(w, properties) && PropertiesFit(properties, 32 - depth) && k < |w|
    ensures var r := ReadProperties(Cursor(w[..k], at), depth);
            r.Err? && Missing(r.error, at, k, |w|)
    decreases properties, 0
  {
    hide ReadValue, ReadProperties, Utf8, Fits, PutKey, Encodes, EncodesProperties;
    if properties == [] {
      NoProperties(w);
      EndCut(k, at, depth);
    } else {
      var p := properties[0];
      var key, value, rest := FirstProperty(w, properties);
      if k < |key| {
        assert w[..k] == key[..k];
        KeyCut(p.key, k, at, depth);
      } else {
        var cut := (value + rest)[..k - |key|];
        assert w[..k] == key + cut;
        KeyReads(p.key, cut, at, depth);
        if k < |key| + |value| {
          assert cut == value[..k - |key|];
          CutIsRefused(value, p.value, k - |key|, at + |key|, depth);
        } else {
          assert cut == value + rest[..k - |key| - |value|];
          EncodingReadsAt(value, p.value, rest[..k - |key| - |value|], at + |key|, depth);
          PropertiesCut(rest, properties[1..], k - |key| - |value|, at + |key| + |value|, depth);
        }
      }
    }
  }

  lemma EncodingReadsAt(w: seq<byte>, v: Value, suffix: seq<byte>, at: nat, depth: nat)
    requires Encodes(w, v) && Fits(v, 32 - depth)
    ensures ReadValue(Cursor(w + suffix, at), depth) == Ok((v, Cursor(suffix, at + |w|)))
  {
    hide ReadValue, Encodes;
    if depth <= 32 {
      EncodingReads(w, v, suffix, at, depth);
    } else {
      ScalarEncodingReads(w, v, suffix, at, depth);
    }
  }

  lemma EndCut(k: nat, at: nat, depth: nat)
    requires k < 3
    ensures var r := ReadProperties(Cursor([0, 0, 9][..k], at), depth);
            r.Err? && Missing(r.error, at, k, 3)
  {
    hide ReadNumber;
    if k < 2 {
      TooFewBytes([0, 0, 9][..k], 2, at);
    } else {
      Widths();
      TwoBytes(0);
      assert [0, 0, 9][..2] == BigEndian(0, 2) + [];
      NumberReads(at, 0, 2, []);
      TooFewBytes([], 1, at + 2);
    }
  }

  lemma KeyCut(key: Text, k: nat, at: nat, depth: nat)
    requires 0 < |key| < 0x1_0000 && k < 2 + |key|
    ensures var r := ReadProperties(Cursor(PutKey(key).value[..k], at), depth);
            r.Err? && Missing(r.error, at, k, 2 + |key|)
  {
    hide ReadNumber, ReadBytes, Utf8, BigEndian, ReadValue;
    Widths();
    var w := BigEndian(|key|, 2) + key;
    if k < 2 {
      TooFewBytes(w[..k], 2, at);
    } else {
      assert w[..k] == BigEndian(|key|, 2) + key[..k - 2];
      NumberReads(at, |key|, 2, key[..k - 2]);
      TooFewBytes(key[..k - 2], |key|, at + 2);
    }
  }

  lemma {:induction false} ValuesCut(w: seq<byte>, values: seq<Value>, k: nat, at: nat, depth: nat)
    requires EncodesValues(w, values) && ValuesFit(values, 32 - depth) && k < |w|
    ensures var r := ReadItems(Cursor(w[..k], at), depth, |values|);
            r.Err? && Missing(r.error, at, k, |w|)
    decreases values, 0
  {
    hide ReadValue, Fits, Encodes;
    var m :| 0 <= m <= |w| && Encodes(w[..m], values[0]) && EncodesValues(w[m..], values[1..]);
    if k < m {
      assert w[..k] == w[..m][..k];
      CutIsRefused(w[..m], values[0], k, at, depth);
    } else {
      assert w[..k] == w[..m] + w[m..][..k - m];
      EncodingReadsAt(w[..m], values[0], w[m..][..k - m], at, depth);
      ValuesCut(w[m..], values[1..], k - m, at + m, depth);
    }
  }
}

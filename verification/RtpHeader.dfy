/**
  * The fixed header of an RTP packet as a player reads it (section 5.1 of RFC 3550),
  * which is more particular about it than the relay's own reading is.
  */
module RtpHeader {
  import opened Wrappers
  import opened Bytes
  import opened Rtp

  /** What a player has been told to expect: whose packets they are, and of what. */
  datatype Source = Source(ssrc: u32, payloadType: PayloadType)

  function SourceOf(s: Stream): Source { Source(s.ssrc, s.payloadType) }

  function Pair(packet: seq<byte>, at: nat): u16
    requires at + 2 <= |packet|
  {
    0x100 * packet[at] as nat + packet[at + 1] as nat
  }

  function Word(packet: seq<byte>, at: nat): u32
    requires at + 4 <= |packet|
  {
    0x1_0000 * Pair(packet, at) as nat + Pair(packet, at + 2) as nat
  }

  /** Version 2, with no padding, no extension and no contributing sources. */
  predicate Plainest(first: byte) { first / 64 == 2 && first % 64 == 0 }

  /** A packet opened, if it is one that is expected. */
  function Open(source: Source, packet: seq<byte>): Option<(Header, seq<byte>)> {
    if |packet| < 12 || !Plainest(packet[0]) then None
    else
      var h := Header(packet[1] / 128 == 1, packet[1] % 128, Pair(packet, 2), Word(packet, 4), Word(packet, 8));
      if Source(h.ssrc, h.payloadType) != source then None else Some((h, packet[12..]))
  }

  /** The header byte by byte: which of them hold what, most significant first. */
  lemma HeaderBytes(h: Header)
    ensures WriteHeader(h) == [
      0x80, (if h.marker then 0x80 else 0x00) + h.payloadType,
      h.sequence / 0x100, h.sequence % 0x100,
      h.timestamp / 0x100_0000, h.timestamp / 0x1_0000 % 0x100, h.timestamp / 0x100 % 0x100, h.timestamp % 0x100,
      h.ssrc / 0x100_0000, h.ssrc / 0x1_0000 % 0x100, h.ssrc / 0x100 % 0x100, h.ssrc % 0x100]
  {
    hide BigEndian;
    TwoBytes(h.sequence);
    FourBytes(h.timestamp);
    FourBytes(h.ssrc);
  }

  lemma PairIs(packet: seq<byte>, at: nat, value: u16)
    requires at + 2 <= |packet| && packet[at] == value / 0x100 && packet[at + 1] == value % 0x100
    ensures Pair(packet, at) == value
  {
  }

  lemma WordIs(packet: seq<byte>, at: nat, value: u32)
    requires at + 4 <= |packet|
    requires packet[at] == value / 0x100_0000 && packet[at + 1] == value / 0x1_0000 % 0x100
    requires packet[at + 2] == value / 0x100 % 0x100 && packet[at + 3] == value % 0x100
    ensures Word(packet, at) == value
  {
    PairIs(packet, at, value / 0x1_0000);
    PairIs(packet, at + 2, value % 0x1_0000);
  }

  /** Every packet a stream makes is one its player opens, and opens as it was made. */
  lemma OpensAsMade(s: Stream, marker: bool, timestamp: u32, payload: seq<byte>)
    ensures Open(SourceOf(s), WriteHeader(s.Stamp(marker, timestamp)) + payload)
         == Some((s.Stamp(marker, timestamp), payload))
  {
    hide WriteHeader, Pair, Word;
    var h := s.Stamp(marker, timestamp);
    HeaderBytes(h);
    var packet := WriteHeader(h) + payload;
    assert packet[12..] == payload;
    PairIs(packet, 2, h.sequence);
    WordIs(packet, 4, h.timestamp);
    WordIs(packet, 8, h.ssrc);
  }

  /** What a player opens the relay would have read the same. */
  lemma OpenedIsParsed(source: Source, packet: seq<byte>)
    requires Open(source, packet).Some?
    ensures ParseHeader(packet) == Open(source, packet)
  {
    hide FromBigEndian;
    FromTwo(packet[2..4]);
    FromFour(packet[4..8]);
    FromFour(packet[8..12]);
  }
}

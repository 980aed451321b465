/** Interleaved frames on an RTSP connection (section 10.12 of RFC 2326). */
module Rtsp {
  import opened Wrappers
  import opened Bytes

  datatype RtspError = TooLong(limit: nat) | NotRtsp

  const DOLLAR := 0x24

  predicate Letter(b: byte) { 0x41 <= b <= 0x5a || 0x61 <= b <= 0x7a }

  /** A packet behind the four bytes that let it share a connection with requests. */
  function Interleave(channel: byte, packet: seq<byte>): Result<seq<byte>, RtspError> {
    if |packet| <= 0xffff then Ok([DOLLAR, channel] + BigEndian(|packet|, 2) + packet) else Err(TooLong(0xffff))
  }

  /** What is at the front of a connection's buffer. The text of a request is not read here. */
  datatype Incoming =
    | NeedMore
    | Interleaved(channel: byte, data: seq<byte>)
    | Request
    | Failed(error: RtspError)

  function ReadOne(buf: seq<byte>): (r: (Incoming, seq<byte>))
    ensures r.0.Interleaved? ==> |r.1| < |buf|
    ensures !r.0.Interleaved? ==> r.1 == buf
  {
    if buf == [] then (NeedMore, buf)
    else if buf[0] == DOLLAR then
      if |buf| < 4 then (NeedMore, buf)
      else
        var length := FromBigEndian(buf[2..4]);
        if |buf| < 4 + length then (NeedMore, buf)
        else (Interleaved(buf[1], buf[4..4 + length]), buf[4 + length..])
    else if Letter(buf[0]) then (Request, buf)
    else (Failed(NotRtsp), buf)
  }

  method Read(buf: Buffer) returns (incoming: Incoming)
    modifies buf
    ensures (incoming, buf.data) == ReadOne(old(buf.data))
  {
    hide FromBigEndian;
    var data := buf.data;
    if data == [] {
      return NeedMore;
    }
    if data[0] == DOLLAR {
      if |data| < 4 {
        return NeedMore;
      }
      var channel := data[1];
      var length := FromBigEndian(data[2..4]);
      if |data| < 4 + length {
        return NeedMore;
      }
      DropDrop(data, 4, length);
      DropTake(data, 4, length);
      buf.Advance(4);
      var front := buf.SplitTo(length);
      return Interleaved(channel, front);
    }
    return if Letter(data[0]) then Request else Failed(NotRtsp);
  }

  method PutInterleaved(out: Buffer, channel: byte, packet: seq<byte>) returns (r: Result<(), RtspError>)
    modifies out
    ensures match Interleave(channel, packet)
            case Ok(bytes) => r.Ok? && out.data == old(out.data) + bytes
            case Err(e) => r == Err(e) && out.data == old(out.data)
  {
    if |packet| > 0xffff {
      return Err(TooLong(0xffff));
    }
    out.Put([DOLLAR, channel] + BigEndian(|packet|, 2) + packet);
    return Ok(());
  }

  /** A frame written reads back, and leaves what is behind it. */
  lemma FrameReads(channel: byte, packet: seq<byte>, rest: seq<byte>)
    requires |packet| <= 0xffff
    ensures ReadOne(Interleave(channel, packet).value + rest) == (Interleaved(channel, packet), rest)
  {
    hide BigEndian, FromBigEndian;
    Widths();
    ValueOfBigEndian(|packet|, 2);
    var buf := [DOLLAR, channel] + BigEndian(|packet|, 2) + packet + rest;
    assert buf[2..4] == BigEndian(|packet|, 2);
    assert buf[4..4 + |packet|] == packet && buf[4 + |packet|..] == rest;
  }

  datatype Frame = Frame(channel: byte, data: seq<byte>)

  /** Every interleaved frame up to what is not one. */
  function ReadFrames(buf: seq<byte>): (seq<Frame>, seq<byte>)
    decreases |buf|
  {
    var (incoming, rest) := ReadOne(buf);
    if incoming.Interleaved? then
      var (frames, left) := ReadFrames(rest);
      ([Frame(incoming.channel, incoming.data)] + frames, left)
    else ([], buf)
  }

  /** Packets interleaved one after another. One too long is left out. */
  function InterleaveAll(channel: byte, packets: seq<seq<byte>>): seq<byte> {
    if packets == [] then []
    else (match Interleave(channel, packets[0]) case Ok(bytes) => bytes case Err(_) => [])
         + InterleaveAll(channel, packets[1..])
  }

  function FramesOf(channel: byte, packets: seq<seq<byte>>): seq<Frame> {
    seq(|packets|, i requires 0 <= i < |packets| => Frame(channel, packets[i]))
  }

  /** Packets interleaved one after another read back as they were, and then what is behind them. */
  lemma {:induction false} FramesThen(channel: byte, packets: seq<seq<byte>>, more: seq<byte>)
    requires forall p <- packets :: |p| <= 0xffff
    ensures var (frames, left) := ReadFrames(more);
            ReadFrames(InterleaveAll(channel, packets) + more) == (FramesOf(channel, packets) + frames, left)
    decreases |packets|
  {
    hide ReadOne, Interleave;
    if packets == [] {
      assert [] + more == more && FramesOf(channel, packets) + ReadFrames(more).0 == ReadFrames(more).0;
    } else {
      var first, rest := Interleave(channel, packets[0]), InterleaveAll(channel, packets[1..]);
      FitsInterleave(channel, packets[0]);
      Associative(first.value, rest, more);
      FrameReads(channel, packets[0], rest + more);
      FramesThen(channel, packets[1..], more);
      var frames := ReadFrames(more).0;
      assert InterleaveAll(channel, packets) == first.value + rest;
      assert FramesOf(channel, packets) == [Frame(channel, packets[0])] + FramesOf(channel, packets[1..]);
      Associative([Frame(channel, packets[0])], FramesOf(channel, packets[1..]), frames);
    }
  }

  lemma FramesRead(channel: byte, packets: seq<seq<byte>>)
    requires forall p <- packets :: |p| <= 0xffff
    ensures ReadFrames(InterleaveAll(channel, packets)) == (FramesOf(channel, packets), [])
  {
    hide ReadFrames, InterleaveAll;
    FramesThen(channel, packets, []);
    NothingReads();
    assert InterleaveAll(channel, packets) + [] == InterleaveAll(channel, packets);
    assert FramesOf(channel, packets) + [] == FramesOf(channel, packets);
  }

  /** A frame is refused only when its packet is longer than its two-byte count holds. */
  lemma FitsInterleave(channel: byte, packet: seq<byte>)
    ensures Interleave(channel, packet).Ok? <==> |packet| < Pow256(2)
  {
    Widths();
  }

  lemma NothingReads()
    ensures ReadFrames([]) == ([], [])
  {
  }

  // ---------------------------------------------------------------- what each front of a buffer is

  lemma TakenIsThere(buf: seq<byte>)
    requires ReadOne(buf).0.Interleaved?
    ensures var (Interleaved(channel, data), rest) := ReadOne(buf);
            |data| <= 0xffff && buf == [0x24, channel] + [|data| / 0x100, |data| % 0x100] + data + rest
  {
    hide FromBigEndian;
    var (incoming, rest) := ReadOne(buf);
    FromTwo(buf[2..4]);
    Digits(buf[2], buf[3]);
    assert buf == buf[..2] + buf[2..4] + incoming.data + rest;
  }

  /** A frame is taken exactly when it is all there: a dollar, its channel, its length in two bytes, and its data. */
  lemma TakenExactly(buf: seq<byte>, channel: byte, data: seq<byte>, rest: seq<byte>)
    ensures ReadOne(buf) == (Interleaved(channel, data), rest) <==>
      |data| <= 0xffff && buf == [0x24, channel] + [|data| / 0x100, |data| % 0x100] + data + rest
  {
    hide ReadOne;
    if |data| <= 0xffff && buf == [0x24, channel] + [|data| / 0x100, |data| % 0x100] + data + rest {
      TwoBytes(|data|);
      FrameReads(channel, data, rest);
    }
    if ReadOne(buf) == (Interleaved(channel, data), rest) {
      TakenIsThere(buf);
    }
  }

  /** What is not a frame: the start of one to wait for the rest of, a request to be read elsewhere, or neither. */
  lemma OthersExactly(buf: seq<byte>)
    ensures ReadOne(buf).0 == NeedMore <==>
      buf == [] || (buf[0] == 0x24 && (|buf| < 4 || |buf| < 4 + 0x100 * buf[2] as nat + buf[3] as nat))
    ensures ReadOne(buf).0 == Request <==>
      buf != [] && ('A' as int <= buf[0] <= 'Z' as int || 'a' as int <= buf[0] <= 'z' as int)
    ensures ReadOne(buf).0 == Failed(NotRtsp) <==>
      && buf != [] && buf[0] != 0x24
      && !('A' as int <= buf[0] <= 'Z' as int || 'a' as int <= buf[0] <= 'z' as int)
    ensures !ReadOne(buf).0.Interleaved? ==> ReadOne(buf).1 == buf
  {
    if |buf| >= 4 {
      FromTwo(buf[2..4]);
    }
  }

  /** More bytes behind do not change a frame that is all there. */
  lemma FrameStands(a: seq<byte>, b: seq<byte>)
    requires ReadOne(a).0.Interleaved?
    ensures ReadOne(a + b) == (ReadOne(a).0, ReadOne(a).1 + b)
  {
    hide ReadOne;
    var (incoming, rest) := ReadOne(a);
    TakenExactly(a, incoming.channel, incoming.data, rest);
    TakenExactly(a + b, incoming.channel, incoming.data, rest + b);
  }

  /** However a connection's bytes are cut up on the way, the frames read as they come are those of the whole. */
  lemma {:induction false} FramesInParts(a: seq<byte>, b: seq<byte>)
    ensures var (first, left) := ReadFrames(a);
            var (later, end) := ReadFrames(left + b);
            ReadFrames(a + b) == (first + later, end)
    decreases |a|
  {
    hide ReadOne;
    var (first, left) := ReadFrames(a);
    var (later, _) := ReadFrames(left + b);
    if ReadOne(a).0.Interleaved? {
      var (incoming, rest) := ReadOne(a);
      FrameStands(a, b);
      FramesInParts(rest, b);
      Associative([Frame(incoming.channel, incoming.data)], ReadFrames(rest).0, later);
    } else {
      assert first + later == later;
    }
  }
}

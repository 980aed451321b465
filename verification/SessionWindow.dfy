/** A publisher is never left a whole window without being told how much of what it sent has arrived. */
module SessionWindow {
  import opened Wrappers
  import opened Session
  import opened SessionRuns
  import Amf0
  import B = Bytes
  import Chunk
  import Clocks
  import H264
  import Rtp

  function BytesIn(turns: seq<Turn>): nat {
    if turns == [] then 0
    else
      var last := turns[|turns| - 1].event;
      BytesIn(turns[..|turns| - 1]) + if last.BytesRead? then last.bytes else 0
  }

  /** How much had arrived when an acknowledgement was last sent. */
  function Told(turns: seq<Turn>): nat {
    if turns == [] then 0
    else
      var last := turns[|turns| - 1];
      if last.event.BytesRead? && last.actions != [] then BytesIn(turns) else Told(turns[..|turns| - 1])
  }

  /** The number an acknowledgement states. */
  function Stated(actions: seq<Action>): Option<nat> {
    if |actions| == 1 && actions[0].Send? && actions[0].csid == 2 && |actions[0].message.payload| == 4
       && actions[0].message.kind.Acknowledgement? && actions[0].message.streamId == 0
    then Some(B.FromBigEndian(actions[0].message.payload)) else None
  }

  /**
    * A count of bytes is answered only once there is a window's worth the peer has not been told of, and then
    * with how many there have been, modulo 2^32.
    */
  predicate Honest(turns: seq<Turn>, i: nat)
    requires i < |turns|
  {
    turns[i].event.BytesRead? ==>
      if BytesIn(turns[..i + 1]) < Told(turns[..i]) + 2_500_000 then turns[i].actions == []
      else Stated(turns[i].actions) == Some(BytesIn(turns[..i + 1]) % 0x1_0000_0000)
  }

  ghost predicate Kept(l: Life) {
    && l.session.received == BytesIn(l.turns)
    && l.session.acknowledged == Told(l.turns) <= BytesIn(l.turns) < Told(l.turns) + WINDOW_SIZE
    && forall i :: 0 <= i < |l.turns| ==> Honest(l.turns, i)
  }

  lemma LowDigits(value: nat)
    ensures B.FromBigEndian(B.BigEndian(value, 4)) == value % 0x1_0000_0000
  {
    Truncated(value, 4);
    B.Widths();
  }

  lemma {:induction false} Truncated(value: nat, width: nat)
    ensures B.FromBigEndian(B.BigEndian(value, width)) == value % B.Pow256(width)
  {
    if width > 0 {
      Truncated(value / 256, width - 1);
      var s := B.BigEndian(value, width);
      assert s[..|s| - 1] == B.BigEndian(value / 256, width - 1);
      RemainderSplits(value, B.Pow256(width - 1));
    }
  }

  lemma RemainderSplits(value: nat, p: nat)
    requires p > 0
    ensures 256 * (value / 256 % p) + value % 256 == value % (256 * p)
  {
    var q, low := value / 256, value % 256;
    var k, r := q / p, q % p;
    assert value == 256 * q + low && q == k * p + r;
    assert value == k * (256 * p) + (256 * r + low);
    assert 256 * r + low < 256 * p;
    RemainderIs(value, 256 * p, k, 256 * r + low);
  }

  lemma RemainderIs(value: nat, d: nat, k: nat, r: nat)
    requires d > 0 && value == k * d + r && r < d
    ensures value % d == r
  {
    Rtp.QuotientBetween(value, d, k);
    assert value == value / d * d + value % d;
  }

  lemma OthersLeaveTheCount(s: SessionState, incoming: Incoming)
    requires Handle(s, incoming).Ok?
    ensures Handle(s, incoming).value.0.received == s.received
    ensures Handle(s, incoming).value.0.acknowledged == s.acknowledged
  {
    hide Command, VideoCame, AudioCame;
    CommandLeavesTheCount(s, incoming.message);
    MediaLeavesTheCount(s, incoming);
  }

  predicate SameCount(s: SessionState, answer: Answer) {
    answer.Ok? ==> answer.value.0.received == s.received && answer.value.0.acknowledged == s.acknowledged
  }

  lemma CommandLeavesTheCount(s: SessionState, message: Chunk.Message)
    ensures SameCount(s, Command(s, message))
  {
    hide Said, Status, Amf0.ReadAll, TrimSlashes, BeforeQuery, AppOf, TextAt, ConnectReplies, Reply, OnStatus;
  }

  lemma MediaLeavesTheCount(s: SessionState, incoming: Incoming)
    ensures SameCount(s, VideoCame(s, incoming)) && SameCount(s, AudioCame(s, incoming))
  {
    hide Settle, Clocks.At, H264.ParseConfig, H264.SplitLengthPrefixed;
    SettlingLeavesTheCount(s);
  }

  lemma SettlingLeavesTheCount(s: SessionState)
    ensures SameCount(s, Settle(s))
  {
  }

  lemma StepKeepsWindow(l: Life, e: Event)
    requires Kept(l)
    ensures Kept(Step(l, e))
  {
    hide Handle;
    if !l.over && SessionRuns.Take(l.session, e).Ok? {
      var (s', actions) := SessionRuns.Take(l.session, e).value;
      var turns := l.turns + [Turn(e, actions)];
      assert turns[..|l.turns|] == l.turns && turns[..|turns|] == turns;
      forall i | 0 <= i < |l.turns| ensures Honest(turns, i) {
        assert turns[..i + 1] == l.turns[..i + 1] && turns[..i] == l.turns[..i];
        assert Honest(l.turns, i);
      }
      match e
      case Message(incoming) => OthersLeaveTheCount(l.session, incoming);
      case BytesRead(_) => LowDigits(s'.received);
    }
  }

  /**
    * Over every run the peer has been told of all but less than a window of what it sent, each acknowledgement
    * stating truly, in its 32 bits, how much had arrived.
    */
  lemma {:induction false} WindowIsKept(events: seq<Event>)
    ensures Kept(Run(events))
    decreases |events|
  {
    hide Step, Kept;
    if events == [] {
      NothingReadYet();
    } else {
      WindowIsKept(events[..|events| - 1]);
      StepKeepsWindow(Run(events[..|events| - 1]), events[|events| - 1]);
    }
  }

  lemma NothingReadYet()
    ensures Kept(Life(Fresh, [], false))
  {
  }
}

/**
  * A whole publishing connection seen from the other end: everything the session
  * says, the peer can read.
  */
module Conversation {
  import opened Wrappers
  import opened Bytes
  import opened Chunk
  import opened ChunkRoundTrip
  import opened Session
  import ChunkRuns
  import ReplySizes
  import SessionRuns
  import Clocks
  import H264
  import Amf0

  type Op = ChunkRuns.Op

  /** What an action is to the writer. The rest are not said to the peer. */
  function OpOf(a: Action): seq<Op> {
    match a
    case Send(csid, message) => [ChunkRuns.Send(csid, message)]
    case ChangeChunkSize(size) => [ChunkRuns.Resize(size)]
    case _ => []
  }

  function OpsOf(actions: seq<Action>): seq<Op> {
    if actions == [] then [] else OpOf(actions[0]) + OpsOf(actions[1..])
  }

  /** The messages said, in order. */
  function Messages(actions: seq<Action>): seq<Message> {
    if actions == [] then []
    else (if actions[0].Send? then [actions[0].message] else []) + Messages(actions[1..])
  }

  lemma {:induction false} OpsAppend(a: seq<Action>, b: seq<Action>)
    ensures OpsOf(a + b) == OpsOf(a) + OpsOf(b)
    ensures Messages(a + b) == Messages(a) + Messages(b)
    decreases |a|
  {
    if a == [] {
      assert a + b == b;
    } else {
      assert (a + b)[1..] == a[1..] + b && (a + b)[0] == a[0];
      OpsAppend(a[1..], b);
      Associative(OpOf(a[0]), OpsOf(a[1..]), OpsOf(b));
      Associative(if a[0].Send? then [a[0].message] else [], Messages(a[1..]), Messages(b));
    }
  }

  // ---------------------------------------------------------------- the invariant

  /** Every message so far was at time 0, so no header ever went extended. */
  predicate Calm(w: WriterState) {
    forall c <- w.streams :: w.streams[c].timestamp == 0 && !w.streams[c].extended
  }

  /** Between actions: orderly so far, on the two chunk streams used, and the peer told of the size in use. */
  predicate InOrder(ops: seq<Op>) {
    && ChunkRuns.Orderly(ops) && ChunkRuns.NeverStutters(ops)
    && ChunkRuns.Csids(ops) <= {2, 3}
    && ChunkRuns.Run(ops).writer.chunkSize == ChunkRuns.Run(ops).announced
    && Calm(ChunkRuns.Run(ops).writer)
  }

  /** A message that only says something. */
  predicate Ordinary(csid: ChunkStreamId, message: Message) {
    && csid in {2, 3} && message.timestamp == 0
    && WellFormed(message) && !message.kind.SetChunkSize?
  }

  lemma RunStep(ops: seq<Op>, op: Op)
    ensures ChunkRuns.Run(ops + [op]) == ChunkRuns.Do(ChunkRuns.Run(ops), op)
  {
    hide ChunkRuns.Do;
    assert (ops + [op])[..|ops|] == ops;
  }

  lemma RunOn(ops: seq<Op>, op: Op)
    ensures ChunkRuns.Run(ops + [op]) == ChunkRuns.Do(ChunkRuns.Run(ops), op)
    ensures ChunkRuns.Orderly(ops + [op]) <==> ChunkRuns.Orderly(ops) && ChunkRuns.Timely(ChunkRuns.Run(ops), op)
    ensures ChunkRuns.NeverStutters(ops + [op])
       <==> ChunkRuns.NeverStutters(ops) && !ChunkRuns.StuttersAt(ChunkRuns.Run(ops), op)
    ensures ChunkRuns.Csids(ops + [op]) == ChunkRuns.Csids(ops) + if op.Send? then {op.csid} else {}
  {
    hide ChunkRuns.Do, ChunkRuns.Timely, ChunkRuns.StuttersAt;
    assert (ops + [op])[..|ops|] == ops;
    CsidsOn(ops, op);
  }

  lemma CsidsOn(ops: seq<Op>, op: Op)
    ensures ChunkRuns.Csids(ops + [op]) == ChunkRuns.Csids(ops) + if op.Send? then {op.csid} else {}
  {
    assert forall o :: o in ops + [op] <==> o in ops || o == op;
    var all := ops + [op];
    assert forall o <- ops :: o in all;
    assert op in all;
  }

  lemma StaysCalm(w: WriterState, csid: ChunkStreamId, message: Message)
    requires Calm(w) && message.timestamp == 0
    ensures Calm(Written(w, csid, message)) && !Stutters(w.Previous(csid), message)
  {
  }

  lemma SayKeepsOrder(ops: seq<Op>, csid: ChunkStreamId, message: Message)
    requires InOrder(ops) && Ordinary(csid, message)
    ensures InOrder(ops + [ChunkRuns.Send(csid, message)])
  {
    hide Carried, Stutters, Wire, ChunkRuns.Run, ChunkRuns.Orderly, ChunkRuns.NeverStutters, ChunkRuns.Csids, Calm;
    RunOn(ops, ChunkRuns.Send(csid, message));
    StaysCalm(ChunkRuns.Run(ops).writer, csid, message);
  }

  /** A chunk size announced, and then changed to: never early, never late. */
  lemma ChangeKeepsOrder(ops: seq<Op>, csid: ChunkStreamId, message: Message, size: nat)
    requires InOrder(ops) && csid in {2, 3} && message.timestamp == 0
    requires WellFormed(message) && message.kind.SetChunkSize? && StatedChunkSize(message) == Ok(size)
    requires 1 <= size <= MAX_CHUNK_SIZE
    ensures InOrder(ops + [ChunkRuns.Send(csid, message)] + [ChunkRuns.Resize(size)])
  {
    hide Carried, Stutters, Wire, ChunkRuns.Run, ChunkRuns.Orderly, ChunkRuns.NeverStutters, ChunkRuns.Csids,
         StatedChunkSize;
    var announced := ops + [ChunkRuns.Send(csid, message)];
    RunOn(ops, ChunkRuns.Send(csid, message));
    RunOn(announced, ChunkRuns.Resize(size));
    StaysCalm(ChunkRuns.Run(ops).writer, csid, message);
  }

  // ---------------------------------------------------------------- what a session says

  /** No reply is longer than a reader assembles. */
  predicate Modest(actions: seq<Action>) {
    forall a <- actions :: a.Send? ==> |a.message.payload| <= MAX_ASSEMBLED_LENGTH
  }

  predicate Chatter(a: Action) {
    match a
    case Send(csid, message) =>
      csid in {2, 3} && message.timestamp == 0
      && (message.kind.Acknowledgement? || message.kind.UserControl? || message.kind.WindowAckSize?
          || message.kind.SetPeerBandwidth? || message.kind.Amf0Command?)
    case ChangeChunkSize(_) => false
    case _ => true
  }

  lemma ChatterIsOrdinary(a: Action)
    requires Chatter(a) && a.Send? && |a.message.payload| <= MAX_ASSEMBLED_LENGTH
    ensures Ordinary(a.csid, a.message)
  {
  }

  lemma ChatterChangesNothing(a: Action)
    requires Chatter(a)
    ensures !a.ChangeChunkSize?
  {
  }

  lemma {:induction false} ChatterKeepsOrder(ops: seq<Op>, actions: seq<Action>)
    requires InOrder(ops) && Modest(actions) && forall a <- actions :: Chatter(a)
    ensures InOrder(ops + OpsOf(actions))
    decreases |actions|
  {
    hide InOrder, Chatter, Ordinary;
    if actions == [] {
      assert ops + [] == ops;
    } else {
      var a, rest := actions[0], actions[1..];
      assert a in actions && forall b <- rest :: b in actions;
      assert OpsOf(actions) == OpOf(a) + OpsOf(rest);
      Associative(ops, OpOf(a), OpsOf(rest));
      if a.Send? {
        ChatterIsOrdinary(a);
        SayKeepsOrder(ops, a.csid, a.message);
      } else {
        assert OpOf(a) == [] by { ChatterChangesNothing(a); }
        assert ops + OpOf(a) == ops;
      }
      ChatterKeepsOrder(ops + OpOf(a), rest);
    }
  }

  /** The four things said on the way to answering `connect`: two windows, the chunk size, and the answer. */
  lemma ConnectKeepsOrder(ops: seq<Op>, transaction: u64)
    requires InOrder(ops)
    ensures InOrder(ops + OpsOf(ConnectReplies(transaction)))
  {
    hide InOrder, OpsOf, ConnectReplies, Chatter;
    var all := ConnectReplies(transaction);
    ReplySizes.ConnectSizes(transaction);
    ConnectInThree(transaction);
    var first, middle, last := all[..2], all[2..4], all[4..];
    assert all == first + (middle + last);
    OpsAppend(first, middle + last);
    OpsAppend(middle, last);
    assert forall a <- first :: a in all;
    assert forall a <- last :: a in all;
    ChatterKeepsOrder(ops, first);
    TwoOps(middle[0], middle[1]);
    assert middle == [middle[0], middle[1]];
    assert OpsOf(middle) == [ChunkRuns.Send(CONTROL, middle[0].message)] + [ChunkRuns.Resize(CHUNK_SIZE)];
    ChangeKeepsOrder(ops + OpsOf(first), CONTROL, middle[0].message, CHUNK_SIZE);
    var ops2 := ops + OpsOf(first) + OpsOf(middle);
    Associative(ops + OpsOf(first), [ChunkRuns.Send(CONTROL, middle[0].message)], [ChunkRuns.Resize(CHUNK_SIZE)]);
    ChatterKeepsOrder(ops2, last);
    Associative(ops + OpsOf(first), OpsOf(middle), OpsOf(last));
    Associative(ops, OpsOf(first), OpsOf(middle) + OpsOf(last));
  }

  lemma ConnectInThree(transaction: u64)
    ensures var all := ConnectReplies(transaction);
            && |all| == 5
            && (forall a <- all[..2] :: Chatter(a))
            && all[2].Send? && all[2].csid == CONTROL && all[2].message.timestamp == 0
            && all[2].message.kind.SetChunkSize? && WellFormed(all[2].message)
            && StatedChunkSize(all[2].message) == Ok(CHUNK_SIZE)
            && all[3] == ChangeChunkSize(CHUNK_SIZE)
            && (forall a <- all[4..] :: Chatter(a))
  {
    hide Said, Status;
    Widths();
    ValueOfBigEndian(CHUNK_SIZE, 4);
  }

  lemma TwoOps(a: Action, b: Action)
    requires a.Send? && b.ChangeChunkSize?
    ensures OpsOf([a, b]) == [ChunkRuns.Send(a.csid, a.message), ChunkRuns.Resize(b.size)]
  {
    assert [a, b][1..] == [b] && [b][1..] == [];
    assert OpsOf([b]) == OpOf(b) + OpsOf([]) == OpOf(b);
  }

  lemma CommandKeepsOrder(ops: seq<Op>, s: SessionState, message: Message)
    requires InOrder(ops)
    ensures Command(s, message).Ok? && Modest(Command(s, message).value.1) ==>
      InOrder(ops + OpsOf(Command(s, message).value.1))
  {
    hide InOrder, Said, Status, Amf0.ReadAll, TrimSlashes, BeforeQuery, AppOf, TextAt, ConnectReplies, OpsOf;
    if Command(s, message).Ok? && Modest(Command(s, message).value.1) {
      var actions := Command(s, message).value.1;
      if forall a <- actions :: Chatter(a) {
        ChatterKeepsOrder(ops, actions);
      } else {
        var values := Amf0.ReadAll(message.payload).value;
        var stated := if |values| > 1 then values[1].AsNumber() else None;
        var transaction := if stated.Some? then stated.value else ZERO;
        ConnectKeepsOrder(ops, transaction);
      }
    }
  }

  lemma SettleIsChatter(s: SessionState)
    requires Settle(s).Ok?
    ensures forall a <- Settle(s).value.1 :: Chatter(a)
  {
  }

  lemma MediaIsChatter(s: SessionState, incoming: Incoming)
    ensures VideoCame(s, incoming).Ok? ==> forall a <- VideoCame(s, incoming).value.1 :: Chatter(a)
    ensures AudioCame(s, incoming).Ok? ==> forall a <- AudioCame(s, incoming).value.1 :: Chatter(a)
  {
    hide Settle, H264.SplitLengthPrefixed, H264.ParseConfig, Clocks.At;
    if Settle(s).Ok? {
      SettleIsChatter(s);
    }
  }

  lemma TurnKeepsOrder(ops: seq<Op>, s: SessionState, e: SessionRuns.Event)
    requires InOrder(ops) && SessionRuns.Take(s, e).Ok? && Modest(SessionRuns.Take(s, e).value.1)
    ensures InOrder(ops + OpsOf(SessionRuns.Take(s, e).value.1))
  {
    hide InOrder, Command, VideoCame, AudioCame, OpsOf;
    match e
    case BytesRead(bytes) => ChatterKeepsOrder(ops, Receive(s, bytes).1);
    case Message(incoming) =>
      match incoming.message.kind
      case Amf0Command => CommandKeepsOrder(ops, s, incoming.message);
      case Video => MediaIsChatter(s, incoming); ChatterKeepsOrder(ops, VideoCame(s, incoming).value.1);
      case Audio => MediaIsChatter(s, incoming); ChatterKeepsOrder(ops, AudioCame(s, incoming).value.1);
      case _ => ChatterKeepsOrder(ops, []);
  }

  lemma NothingInOrder()
    ensures InOrder([])
  {
  }

  lemma {:induction false} RunInOrder(events: seq<SessionRuns.Event>)
    requires Modest(SessionRuns.Actions(SessionRuns.Run(events).turns))
    ensures InOrder(OpsOf(SessionRuns.Actions(SessionRuns.Run(events).turns)))
    decreases |events|
  {
    hide InOrder, SessionRuns.Take, OpsOf;
    if events == [] {
      NothingOps();
      NothingInOrder();
    } else {
      var before, e := events[..|events| - 1], events[|events| - 1];
      var l, l' := SessionRuns.Run(before), SessionRuns.Run(events);
      if !l.over && SessionRuns.Take(l.session, e).Ok? {
        var actions := SessionRuns.Take(l.session, e).value.1;
        var said := SessionRuns.Actions(l.turns);
        assert l'.turns[..|l.turns|] == l.turns;
        assert SessionRuns.Actions(l'.turns) == said + actions;
        assert Modest(said) && Modest(actions) by {
          assert forall a <- said :: a in said + actions;
          assert forall a <- actions :: a in said + actions;
        }
        RunInOrder(before);
        OpsAppend(said, actions);
        TurnKeepsOrder(OpsOf(said), l.session, e);
      } else {
        RunInOrder(before);
      }
    }
  }

  lemma NothingOps()
    ensures OpsOf([]) == []
  {
  }

  lemma SaysOne(ops: seq<Op>, a: Action)
    ensures ChunkRuns.Run(ops + OpOf(a)).sent == ChunkRuns.Run(ops).sent + if a.Send? then [a.message] else []
  {
    hide Written, Wire, Announced, ChunkRuns.Run;
    if OpOf(a) == [] {
      assert ops + [] == ops && ChunkRuns.Run(ops).sent + [] == ChunkRuns.Run(ops).sent;
    } else {
      RunStep(ops, OpOf(a)[0]);
      assert OpOf(a) == [OpOf(a)[0]];
    }
  }

  lemma {:induction false} SentIsSaid(ops: seq<Op>, actions: seq<Action>)
    ensures ChunkRuns.Run(ops + OpsOf(actions)).sent == ChunkRuns.Run(ops).sent + Messages(actions)
    decreases |actions|
  {
    hide ChunkRuns.Run, OpOf;
    if actions == [] {
      assert ops + [] == ops;
    } else {
      var a, rest := actions[0], actions[1..];
      Associative(ops, OpOf(a), OpsOf(rest));
      SaysOne(ops, a);
      SentIsSaid(ops + OpOf(a), rest);
      Associative(ChunkRuns.Run(ops).sent, if a.Send? then [a.message] else [], Messages(rest));
    }
  }

  /** The bytes a connection has written, once the actions of a run have been applied in order. */
  function Output(actions: seq<Action>): ChunkRuns.Line { ChunkRuns.Run(OpsOf(actions)) }

  /**
    * Everything the server says is readable: after any run of messages handled and bytes received, up to the
    * first error or the end of the stream, a fresh peer reader makes of the bytes exactly the messages said.
    */
  lemma EverythingSaidIsReadable(events: seq<SessionRuns.Event>)
    requires Modest(SessionRuns.Actions(SessionRuns.Run(events).turns))
    ensures var actions := SessionRuns.Actions(SessionRuns.Run(events).turns);
            && ChunkRuns.Faithful(Output(actions))
            && Output(actions).sent == Messages(actions)
            && ReadAll(FreshReader, Output(actions).bytes).messages == Messages(actions)
            && ReadAll(FreshReader, Output(actions).bytes).rest == []
  {
    hide SessionRuns.Run, SessionRuns.Actions, ChunkRuns.Orderly, ChunkRuns.NeverStutters, ChunkRuns.Run, OpsOf,
         ReadAll, Messages, Calm;
    var actions := SessionRuns.Actions(SessionRuns.Run(events).turns);
    RunInOrder(events);
    var ops := OpsOf(actions);
    SmallerSet(ChunkRuns.Csids(ops), {2, 3});
    ChunkRuns.RunIsFaithful(ops);
    SaidFromNothing(actions);
  }

  lemma SaidFromNothing(actions: seq<Action>)
    ensures Output(actions).sent == Messages(actions)
  {
    SentIsSaid([], actions);
    assert [] + OpsOf(actions) == OpsOf(actions);
    assert ChunkRuns.Run([]).sent == [];
    assert [] + Messages(actions) == Messages(actions);
  }

  // ---------------------------------------------------------------- in place

  /** An action the writer does not refuse: a message its length field can state, a chunk size in range. */
  predicate Sayable(a: Action) {
    match a
    case Send(_, message) => |message.payload| <= MAX_MESSAGE_LENGTH
    case ChangeChunkSize(size) => 1 <= size <= MAX_CHUNK_SIZE
    case _ => true
  }

  /** Applies what a session wants said, in order, to a connection's writer and its output, up to a refusal. */
  method Apply(actions: seq<Action>, writer: Writer, out: Buffer, ghost before: seq<Op>)
    returns (r: Result<(), ChunkError>, ghost done: nat)
    requires writer.State() == ChunkRuns.Run(before).writer && out.data == ChunkRuns.Run(before).bytes
    modifies writer, out
    ensures done <= |actions| && forall a <- actions[..done] :: Sayable(a)
    ensures writer.State() == ChunkRuns.Run(before + OpsOf(actions[..done])).writer
    ensures out.data == ChunkRuns.Run(before + OpsOf(actions[..done])).bytes
    ensures r.Ok? <==> done == |actions|
    ensures r.Err? ==> !Sayable(actions[done])
  {
    hide Wire, Written, Announced, ChunkRuns.Run, OpsOf;
    done := 0;
    NothingOps();
    assert actions[..0] == [] && before + [] == before;
    for i := 0 to |actions|
      invariant done == i && forall a <- actions[..i] :: Sayable(a)
      invariant writer.State() == ChunkRuns.Run(before + OpsOf(actions[..i])).writer
      invariant out.data == ChunkRuns.Run(before + OpsOf(actions[..i])).bytes
    {
      var a := actions[i];
      OneMoreOp(actions, i, before);
      match a {
        case Send(csid, message) =>
          var wrote := writer.Write(out, csid, message);
          if wrote.Err? {
            return Err(wrote.error), done;
          }
        case ChangeChunkSize(size) =>
          var changed := writer.SetChunkSize(size);
          if changed.Err? {
            return Err(changed.error), done;
          }
        case _ =>
      }
      done := i + 1;
    }
    assert actions[..|actions|] == actions;
    return Ok(()), done;
  }

  lemma OneMoreOp(actions: seq<Action>, i: nat, before: seq<Op>)
    requires i < |actions|
    ensures actions[..i + 1] == actions[..i] + [actions[i]]
    ensures var ops := before + OpsOf(actions[..i]);
            ChunkRuns.Run(before + OpsOf(actions[..i + 1]))
              == if OpOf(actions[i]) == [] then ChunkRuns.Run(ops)
                 else ChunkRuns.Do(ChunkRuns.Run(ops), OpOf(actions[i])[0])
  {
    hide ChunkRuns.Run, ChunkRuns.Do;
    var a := actions[i];
    assert actions[..i + 1] == actions[..i] + [a];
    OpsAppend(actions[..i], [a]);
    assert OpsOf([a]) == OpOf(a) by { assert [a][1..] == []; assert OpOf(a) + [] == OpOf(a); }
    Associative(before, OpsOf(actions[..i]), OpOf(a));
    var ops := before + OpsOf(actions[..i]);
    if OpOf(a) == [] {
      assert ops + [] == ops;
    } else {
      RunStep(ops, OpOf(a)[0]);
      assert OpOf(a) == [OpOf(a)[0]];
    }
  }
}

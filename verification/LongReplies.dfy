/**
  * The one thing that can keep a peer from reading what a session says: a reply
  * longer than a reader assembles. Which requests draw one, and what becomes of it.
  */
module LongReplies {
  import opened Wrappers
  import opened Bytes
  import opened Chunk
  import opened ChunkRoundTrip
  import opened Session
  import opened Conversation
  import Amf0
  import Clocks
  import ChunkArrival
  import ChunkRuns
  import ChunkStutter
  import H264
  import Requests
  import ReplySizes
  import SessionRuns

  // ---------------------------------------------------------------- requests and replies

  /** Messages of at most some length. */
  predicate Within(events: seq<SessionRuns.Event>, limit: int) {
    forall e <- events :: e.Message? ==> |e.incoming.message.payload| <= limit
  }

  /** A reader delivers no message longer than it assembles. */
  lemma {:induction false} DeliveredWithin(r: ReaderState, buf: seq<byte>)
    requires r.Valid()
    ensures forall m <- ReadAll(r, buf).messages :: |m.payload| <= MAX_ASSEMBLED_LENGTH
    decreases |buf|
  {
    hide ReadBasicHeader, ReadState, Chunk.Apply;
    var o := ReadChunk(r, buf);
    if o.verdict.Absorbed? || o.verdict.Complete? {
      DeliveredWithin(o.reader, o.rest);
    }
  }

  /** One turn's replies are short, or not much longer than what they answer; and none but a command draws any. */
  lemma TurnIsBounded(s: SessionState, e: SessionRuns.Event, limit: nat)
    requires limit >= 190 && Within([e], limit - ReplySizes.MARGIN)
    ensures SessionRuns.Take(s, e).Ok? ==>
      forall a <- SessionRuns.Take(s, e).value.1 :: a.Send? ==> |a.message.payload| <= limit
  {
    hide Command, Settle, H264.SplitLengthPrefixed, H264.ParseConfig, Clocks.At, BigEndian;
    if e.Message? {
      assert e in [e];
      ReplySizes.RepliesAreBounded(s, e.incoming.message);
      if Settle(s).Ok? {
        SettleSaysNothing(s);
      }
    }
  }

  lemma SettleSaysNothing(s: SessionState)
    requires Settle(s).Ok?
    ensures forall a <- Settle(s).value.1 :: !a.Send?
  {
  }

  predicate Bounded(actions: seq<Action>, limit: nat) {
    forall a <- actions :: a.Send? ==> |a.message.payload| <= limit
  }

  lemma {:induction false} RunIsBounded(events: seq<SessionRuns.Event>, limit: nat)
    requires limit >= 190 && Within(events, limit - ReplySizes.MARGIN)
    ensures Bounded(SessionRuns.Actions(SessionRuns.Run(events).turns), limit)
    decreases |events|
  {
    hide SessionRuns.Take;
    if events != [] {
      var before, e := events[..|events| - 1], events[|events| - 1];
      assert forall b <- before :: b in events;
      RunIsBounded(before, limit);
      var l, l' := SessionRuns.Run(before), SessionRuns.Run(events);
      TurnIsBounded(l.session, e, limit);
      if !l.over && SessionRuns.Take(l.session, e).Ok? {
        assert l'.turns[..|l.turns|] == l.turns;
      }
    }
  }

  /** So requests of up to 8 MiB less a margin draw only replies that can be read. */
  lemma ModestRequestsDrawModestReplies(events: seq<SessionRuns.Event>)
    requires Within(events, MAX_ASSEMBLED_LENGTH - ReplySizes.MARGIN)
    ensures Modest(SessionRuns.Actions(SessionRuns.Run(events).turns))
  {
    RunIsBounded(events, MAX_ASSEMBLED_LENGTH);
  }

  // ---------------------------------------------------------------- too long to be read

  /** A message longer than a reader assembles is written as any other, and refused on the strength of its header. */
  lemma TooLongIsRefused(w: WriterState, r: ReaderState, csid: ChunkStreamId, message: Message, more: seq<byte>)
    requires InStep(w, r, w.chunkSize) && HasRoom(w, csid) && message.kind.Canonical()
    requires MAX_ASSEMBLED_LENGTH < |message.payload| <= MAX_MESSAGE_LENGTH
    requires !Stutters(w.Previous(csid), message)
    ensures ReadAll(r, Wire(w, csid, message) + more)
         == Reading(r, Wire(w, csid, message) + more, [],
                    Some(MessageTooLong(|message.payload|, MAX_ASSEMBLED_LENGTH)))
  {
    hide ReadBasicHeader, ReadState, FirstHeader, Cut, Mark, Stutters;
    var previous := w.Previous(csid);
    var (fmt, written) := Plan(previous, message);
    var header, cut := FirstHeader(fmt, written, csid, message), Cut(message.payload, w.chunkSize, Mark(csid, written));
    Associative(header, cut, more);
    RoomAgrees(w, r, csid);
    FirstHeaderReads(previous, csid, message, cut + more);
  }

  lemma {:induction false} MoreBytes(ops: seq<Op>, more: seq<Op>) returns (rest: seq<byte>)
    ensures ChunkRuns.Run(ops + more).bytes == ChunkRuns.Run(ops).bytes + rest
    decreases |more|
  {
    hide Wire, Written, Announced, ChunkRuns.Run;
    if more == [] {
      rest := [];
      assert ops + more == ops;
    } else {
      var before, op := more[..|more| - 1], more[|more| - 1];
      var earlier := MoreBytes(ops, before);
      RunStep(ops + before, op);
      assert ops + more == ops + before + [op];
      rest := earlier + if op.Send? then Wire(ChunkRuns.Run(ops + before).writer, op.csid, op.message) else [];
      if op.Send? {
        Associative(ChunkRuns.Run(ops).bytes, earlier, Wire(ChunkRuns.Run(ops + before).writer, op.csid, op.message));
      }
    }
  }

  /** Said in order up to a message that is too long: the peer reads what came before it, and refuses it. */
  lemma RefusedAt(actions: seq<Action>, k: nat)
    requires k < |actions| && InOrder(OpsOf(actions[..k]))
    requires Chatter(actions[k]) && actions[k].Send?
    requires MAX_ASSEMBLED_LENGTH < |actions[k].message.payload| <= MAX_MESSAGE_LENGTH
    ensures var reading := ReadAll(FreshReader, Output(actions).bytes);
            && reading.messages == Messages(actions[..k])
            && reading.error == Some(MessageTooLong(|actions[k].message.payload|, MAX_ASSEMBLED_LENGTH))
  {
    hide ReadAll, Wire, OpsOf, ChunkRuns.Run, ChunkRuns.Orderly, ChunkRuns.NeverStutters, ChunkRuns.Csids, Stutters,
         Messages, ChunkRuns.Mirror;
    var a, before, after := actions[k], actions[..k], actions[k + 1..];
    var ops := OpsOf(before);
    OpsSplit(actions, k);
    var rest := MoreBytes(ops + [ChunkRuns.Send(a.csid, a.message)], OpsOf(after));
    RunStep(ops, ChunkRuns.Send(a.csid, a.message));
    var l := ChunkRuns.Run(ops);
    var wire := Wire(l.writer, a.csid, a.message);
    Associative(l.bytes, wire, rest);
    SmallerSet(ChunkRuns.Csids(ops), {2, 3});
    ChunkRuns.RunReads(ops, wire + rest);
    SaidFromNothing(before);
    StaysCalm(l.writer, a.csid, a.message);
    RoomForTwo(ops, a.csid);
    TooLongIsRefused(l.writer, ChunkRuns.Mirror(l.writer, l.announced), a.csid, a.message, rest);
    assert l.sent + [] == l.sent;
  }

  lemma OpsSplit(actions: seq<Action>, k: nat)
    requires k < |actions| && actions[k].Send?
    ensures OpsOf(actions)
         == OpsOf(actions[..k]) + [ChunkRuns.Send(actions[k].csid, actions[k].message)] + OpsOf(actions[k + 1..])
  {
    var a, after := actions[k], actions[k + 1..];
    assert actions == actions[..k] + ([a] + after);
    OpsAppend(actions[..k], [a] + after);
    assert ([a] + after)[1..] == after;
    Associative(OpsOf(actions[..k]), OpOf(a), OpsOf(after));
  }

  lemma RoomForTwo(ops: seq<Op>, csid: ChunkStreamId)
    requires ChunkRuns.Csids(ops) <= {2, 3} && csid in {2, 3}
    ensures HasRoom(ChunkRuns.Run(ops).writer, csid)
  {
    hide ChunkRuns.Run, ChunkRuns.Csids;
    var used := ChunkRuns.Run(ops).writer.streams;
    ChunkRuns.RunUsesItsCsids(ops);
    SmallerSet(used.Keys, {2, 3});
    assert |used| == |used.Keys|;
  }

  /** Of a turn in which something is said too long, everything said is ordinary but for that. */
  lemma LongTurnIsChatter(s: SessionState, e: SessionRuns.Event)
    ensures SessionRuns.Take(s, e).Ok? && !Modest(SessionRuns.Take(s, e).value.1) ==>
      forall a <- SessionRuns.Take(s, e).value.1 :: Chatter(a)
  {
    hide Command, VideoCame, AudioCame;
    match e
    case BytesRead(_) =>
    case Message(incoming) =>
      match incoming.message.kind
      case Amf0Command => LongCommandIsChatter(s, incoming.message);
      case Video => MediaIsChatter(s, incoming);
      case Audio => MediaIsChatter(s, incoming);
      case _ =>
  }

  lemma LongCommandIsChatter(s: SessionState, message: Message)
    ensures Command(s, message).Ok? && !Modest(Command(s, message).value.1) ==>
      forall a <- Command(s, message).value.1 :: Chatter(a)
  {
    hide Said, Status, Amf0.ReadAll, TrimSlashes, BeforeQuery, AppOf, TextAt, ConnectReplies;
    if Command(s, message).Ok? {
      var values := Amf0.ReadAll(message.payload).value;
      var stated := if |values| > 1 then values[1].AsNumber() else None;
      ReplySizes.ConnectSizes(if stated.Some? then stated.value else ZERO);
    }
  }

  /** The first thing said that is too long, and all in order until then. */
  predicate TooLongAt(actions: seq<Action>, k: nat) {
    && k < |actions| && Modest(actions[..k]) && InOrder(OpsOf(actions[..k]))
    && Chatter(actions[k]) && actions[k].Send? && |actions[k].message.payload| > MAX_ASSEMBLED_LENGTH
  }

  lemma TooLongInTurn(said: seq<Action>, actions: seq<Action>) returns (k: nat)
    requires InOrder(OpsOf(said)) && Modest(said) && !Modest(actions) && forall a <- actions :: Chatter(a)
    ensures TooLongAt(said + actions, k)
  {
    hide InOrder, Chatter, OpsOf, Modest;
    var i := FirstIn(actions);
    k := |said| + i;
    assert (said + actions)[..k] == said + actions[..i];
    ModestBoth(said, actions[..i]);
    assert forall a <- actions[..i] :: a in actions;
    ChatterKeepsOrder(OpsOf(said), actions[..i]);
    OpsAppend(said, actions[..i]);
    assert actions[i] in actions;
  }

  lemma {:induction false} FirstTooLong(events: seq<SessionRuns.Event>) returns (k: nat)
    requires !Modest(SessionRuns.Actions(SessionRuns.Run(events).turns))
    ensures TooLongAt(SessionRuns.Actions(SessionRuns.Run(events).turns), k)
    decreases |events|
  {
    hide SessionRuns.Take, InOrder, Chatter, OpsOf, Modest;
    if events == [] {
      NothingIsModest();
      assert false;
    }
    var before, e := events[..|events| - 1], events[|events| - 1];
    var l, l' := SessionRuns.Run(before), SessionRuns.Run(events);
    var said, all := SessionRuns.Actions(l.turns), SessionRuns.Actions(l'.turns);
    if l.over || SessionRuns.Take(l.session, e).Err? {
      k := FirstTooLong(before);
    } else {
      var actions := SessionRuns.Take(l.session, e).value.1;
      assert l'.turns[..|l.turns|] == l.turns;
      assert all == said + actions;
      if Modest(said) {
        RunInOrder(before);
        ModestBoth(said, actions);
        LongTurnIsChatter(l.session, e);
        k := TooLongInTurn(said, actions);
      } else {
        k := FirstTooLong(before);
        StillTooLong(said, actions, k);
      }
    }
  }

  lemma StillTooLong(said: seq<Action>, more: seq<Action>, k: nat)
    requires TooLongAt(said, k)
    ensures TooLongAt(said + more, k)
  {
    hide InOrder, Chatter, OpsOf, Modest;
    assert (said + more)[..k] == said[..k];
  }

  lemma NothingIsModest()
    ensures Modest([])
  {
  }

  lemma ModestBoth(a: seq<Action>, b: seq<Action>)
    ensures Modest(a) && Modest(b) ==> Modest(a + b)
  {
  }

  lemma {:induction false} FirstIn(actions: seq<Action>) returns (i: nat)
    requires !Modest(actions)
    ensures i < |actions| && Modest(actions[..i])
    ensures actions[i].Send? && |actions[i].message.payload| > MAX_ASSEMBLED_LENGTH
    decreases |actions|
  {
    var n := |actions| - 1;
    if Modest(actions[..n]) {
      i := n;
      assert actions == actions[..n] + [actions[n]];
    } else {
      i := FirstIn(actions[..n]);
      assert actions[..n][..i] == actions[..i];
    }
  }

  /**
    * Everything the server says is readable exactly where no reply is longer than a reader assembles: for
    * every run on messages a reader could have delivered.
    */
  lemma ReadableExactly(events: seq<SessionRuns.Event>)
    requires Within(events, MAX_ASSEMBLED_LENGTH)
    ensures var actions := SessionRuns.Actions(SessionRuns.Run(events).turns);
            ChunkRuns.Faithful(Output(actions)) <==> Modest(actions)
  {
    hide SessionRuns.Run, SessionRuns.Actions, ReadAll, Output, OpsOf, InOrder, Chatter;
    var actions := SessionRuns.Actions(SessionRuns.Run(events).turns);
    if Modest(actions) {
      EverythingSaidIsReadable(events);
    } else {
      var k := FirstTooLong(events);
      RunIsBounded(events, MAX_ASSEMBLED_LENGTH + ReplySizes.MARGIN);
      assert actions[k] in actions;
      RefusedAt(actions, k);
    }
  }

  // ---------------------------------------------------------------- and it happens

  const LONG := MAX_ASSEMBLED_LENGTH - 113

  function LongKey(): (key: seq<byte>)
    ensures |key| == LONG
  {
    seq(LONG, _ => 0x61)
  }

  lemma {:induction false} ManyLetters(n: nat)
    ensures Amf0.Utf8(seq(n, _ => 0x61))
    decreases n
  {
    if n > 0 {
      ManyLetters(n - 1);
      assert seq(n, _ => 0x61)[1..] == seq(n - 1, _ => 0x61);
    }
  }

  lemma LongKeyIsPlain()
    ensures Requests.Spelt(LongKey()) && Requests.Plain(LongKey())
  {
    hide Amf0.Utf8;
    ManyLetters(LONG);
    assert LongKey() == seq(LONG, _ => 0x61);
  }

  function LongRequest(): SessionRuns.Event {
    SessionRuns.Message(Incoming(Requests.Request(Requests.PublishAs(LongKey())), Err(FlvError("")), Err(FlvError(""))))
  }

  lemma LongRequestSize()
    ensures |LongRequest().incoming.message.payload| == MAX_ASSEMBLED_LENGTH - 88
  {
    hide ReplySizes.Printed, Said, PUBLISH_TEXT, LongKey;
    ReplySizes.PublishIsSeven();
    ReplySizes.ScalarSizes(Amf0.String(PUBLISH_TEXT));
    ReplySizes.ScalarSizes(Amf0.Number(ONE));
    ReplySizes.ScalarSizes(Amf0.Null);
    ReplySizes.ScalarSizes(Amf0.String(LongKey()));
    ReplySizes.FourValues(Amf0.String(PUBLISH_TEXT), Amf0.Number(ONE), Amf0.Null, Amf0.String(LongKey()));
  }

  /** A request to publish that a reader delivers, and whose answer it would not: one byte too long. */
  lemma LongReplyIsRefused()
    ensures Within([LongRequest()], MAX_ASSEMBLED_LENGTH)
    ensures var actions := SessionRuns.Actions(SessionRuns.Run([LongRequest()]).turns);
            && !Modest(actions)
            && ReadAll(FreshReader, Output(actions).bytes).error
               == Some(MessageTooLong(MAX_ASSEMBLED_LENGTH + 1, MAX_ASSEMBLED_LENGTH))
  {
    hide ReadAll, Output, LongKey, LongRequest, SessionRuns.Run, SessionRuns.Actions, Modest, OneMessage, Chatter;
    LongRequestSize();
    var _ := LongRunSays();
    SecondIsTooLong(SessionRuns.Actions(SessionRuns.Run([LongRequest()]).turns));
  }

  lemma SecondIsTooLong(actions: seq<Action>)
    requires |actions| == 2 && OneMessage(actions[..1]) && actions[1].Send? && Chatter(actions[1])
    requires |actions[1].message.payload| == MAX_ASSEMBLED_LENGTH + 1
    ensures !Modest(actions)
    ensures ReadAll(FreshReader, Output(actions).bytes).error
         == Some(MessageTooLong(MAX_ASSEMBLED_LENGTH + 1, MAX_ASSEMBLED_LENGTH))
  {
    hide ReadAll, Output, OpsOf, InOrder;
    assert actions[1] in actions;
    var opening := actions[..1];
    NothingInOrder();
    ChatterKeepsOrder([], opening);
    assert [] + OpsOf(opening) == OpsOf(opening);
    RefusedAt(actions, 1);
  }

  predicate OneMessage(actions: seq<Action>) { |actions| == 1 && Chatter(actions[0]) && Modest(actions) }

  lemma OneTurn(e: SessionRuns.Event)
    ensures SessionRuns.Take(Fresh, e).Ok? ==>
      SessionRuns.Actions(SessionRuns.Run([e]).turns) == SessionRuns.Take(Fresh, e).value.1
  {
    hide SessionRuns.Take;
    assert [e][..0] == [];
    if SessionRuns.Take(Fresh, e).Ok? {
      var turns := [SessionRuns.Turn(e, SessionRuns.Take(Fresh, e).value.1)];
      assert SessionRuns.Run([e]).turns == [] + turns == turns;
      assert turns[..0] == [];
      assert SessionRuns.Actions(turns) == [] + turns[0].actions;
    }
  }

  function News(key: seq<byte>): Action
    requires |key| < 0x1_0000_0000
  {
    OnStatus(Status(PUBLISH_START_TEXT, PUBLISHING_TEXT, DETAILS_TEXT, Amf0.String(key)))
  }

  const OPENING := Say(CONTROL, UserControl, 0, BigEndian(0, 2) + BigEndian(PUBLISH_STREAM, 4))

  lemma LongRequestIsAnswered()
    ensures SessionRuns.Take(Fresh, LongRequest()).Ok?
    ensures SessionRuns.Take(Fresh, LongRequest()).value.1 == [OPENING, News(LongKey())]
  {
    hide Command, Said, LongKey, Status, BigEndian, Requests.PublishAs, OnStatus, SessionRuns.Take, Requests.Plain,
         Requests.Spelt;
    LongKeyIsPlain();
    CommandIsTaken(LongRequest());
    Requests.PublishIsAnswered(Fresh, LongKey());
  }

  lemma CommandIsTaken(e: SessionRuns.Event)
    requires e.Message? && e.incoming.message.kind.Amf0Command?
    ensures SessionRuns.Take(Fresh, e) == Command(Fresh, e.incoming.message)
  {
    hide Command;
  }

  lemma NewsIsLong()
    ensures var news := News(LongKey());
            news.Send? && Chatter(news) && |news.message.payload| == MAX_ASSEMBLED_LENGTH + 1
  {
    hide Said, LongKey, Status;
    ReplySizes.NewsSize(LongKey());
  }

  lemma LongRunSays() returns (news: Action)
    ensures var actions := SessionRuns.Actions(SessionRuns.Run([LongRequest()]).turns);
            && |actions| == 2 && OneMessage(actions[..1]) && actions[1] == news
            && news.Send? && Chatter(news) && |news.message.payload| == MAX_ASSEMBLED_LENGTH + 1
  {
    hide LongKey, LongRequest, News, SessionRuns.Run, SessionRuns.Actions, SessionRuns.Take;
    OneTurn(LongRequest());
    LongRequestIsAnswered();
    NewsIsLong();
    news := News(LongKey());
    assert [OPENING, news][..1] == [OPENING];
  }
}

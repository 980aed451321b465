/** What one call of `next` comes to, exactly, and that a reader of a stream that is over is told so. */
module Polling {
  import opened Unit
  import opened Delivery
  import opened Resync

  /** The first unit ahead of a reader, and still there, that opens a stream. */
  predicate FirstOpening(f: Feed, cursor: nat, i: nat) {
    && cursor <= i < |f.sent| <= i + 1024 && f.sent[i].OpensAStream()
    && forall j :: cursor <= j < i && |f.sent| <= j + 1024 ==> !f.sent[j].OpensAStream()
  }

  /** A reader that has missed units, whether or not it has been told yet: the last 1024 are all there is to have. */
  predicate MissedSome(r: Reader, f: Feed) { r.resyncing || r.cursor + 1024 < |f.sent| }

  /** How many units it is told it has missed. */
  function Passed(r: Reader, f: Feed): nat {
    if r.cursor + 1024 < |f.sent| then |f.sent| - 1024 - r.cursor else 0
  }

  predicate Gives(r: Reader, f: Feed) {
    if r.backlog != [] then true
    else if MissedSome(r, f) then OpeningAhead(f, r.cursor)
    else r.cursor < |f.sent|
  }

  lemma {:induction false} ResyncComesTo(r: Reader, f: Feed)
    requires r.resyncing && r.backlog == [] && r.cursor <= |f.sent|
    ensures var (r', outcome) := PollOn(r, f);
            && (outcome.Deliver? <==> OpeningAhead(f, r.cursor))
            && (outcome.End? <==> !OpeningAhead(f, r.cursor) && f.closed)
            && (outcome.Pending? <==> !OpeningAhead(f, r.cursor) && !f.closed)
            && (outcome.Deliver? ==>
                  r'.cursor > 0 && FirstOpening(f, r.cursor, r'.cursor - 1) && outcome.unit == f.sent[r'.cursor - 1])
            && (!outcome.Deliver? ==> r'.cursor == |f.sent|)
            && r'.backlog == [] && (r'.resyncing <==> outcome.Pending?)
            && r'.skipped == r.skipped + Passed(r, f)
    decreases |f.sent| - r.cursor
  {
    var (r1, outcome) := Poll(r, f);
    if outcome.Continue? {
      ResyncComesTo(r1, f);
      assert OpeningAhead(f, r.cursor) <==> OpeningAhead(f, r1.cursor);
    }
  }

  /**
    * A call gives a unit if the reader has one in hand; or if it has missed some, when one that opens a stream is
    * ahead and still there; or otherwise, when there is a unit at its place. If it gives none it tells the end of
    * a feed that is closed, and waits on one that is not.
    */
  lemma PollsExactly(r: Reader, f: Feed)
    requires r.cursor <= |f.sent| && (r.resyncing ==> r.backlog == [])
    ensures var outcome := PollOn(r, f).1;
            && (outcome.Deliver? <==> Gives(r, f))
            && (outcome.End? <==> !Gives(r, f) && f.closed)
            && (outcome.Pending? <==> !Gives(r, f) && !f.closed)
  {
    if r.backlog == [] && !r.resyncing && MissedSome(r, f) {
      var r1 := Poll(r, f).0;
      ResyncComesTo(r1, f);
      assert OpeningAhead(f, r.cursor) <==> OpeningAhead(f, r1.cursor);
    } else if r.resyncing {
      ResyncComesTo(r, f);
    }
  }

  /** Which unit it gives, where that leaves the reader, and what it has counted as missed. */
  lemma GivesTheRightUnit(r: Reader, f: Feed)
    requires r.cursor <= |f.sent| && (r.resyncing ==> r.backlog == []) && Gives(r, f)
    ensures var (r', outcome) := PollOn(r, f);
            && outcome.Deliver? && !r'.resyncing
            && if r.backlog != [] then
                 outcome.unit == r.backlog[0] && r' == r.(backlog := r.backlog[1..])
               else
                 && 0 < r'.cursor <= |f.sent| && outcome.unit == f.sent[r'.cursor - 1] && r'.backlog == []
                 && r'.skipped == r.skipped + Passed(r, f)
                 && if MissedSome(r, f) then FirstOpening(f, r.cursor, r'.cursor - 1) else r'.cursor == r.cursor + 1
  {
    PollsExactly(r, f);
    if r.backlog == [] && !r.resyncing && MissedSome(r, f) {
      ResyncComesTo(Poll(r, f).0, f);
    } else if r.resyncing {
      ResyncComesTo(r, f);
    }
  }

  // ---------------------------------------------------------------- the end

  function Receives(n: nat): seq<Event> { seq(n, _ => Receive) }

  /** How much there is for a reader to go through. */
  function Left(l: Life): nat
    requires l.reader.cursor <= |l.feed.sent|
  {
    |l.reader.backlog| + |l.feed.sent| - l.reader.cursor
  }

  lemma ReceiveGetsOn(l: Life)
    requires Sound(l) && l.feed.closed
    ensures var l' := Step(l, Receive);
            && l'.feed == l.feed && l'.reader.cursor <= |l'.feed.sent|
            && (l.ended ==> l'.ended)
            && (l'.ended || Left(l') < Left(l))
  {
    hide Ordered, DeliveredIs;
  }

  /** Once the publisher has gone, a reader that goes on receiving is told the end, after what there is left for it. */
  lemma {:induction false} EndIsReached(history: seq<Unit>, events: seq<Event>)
    requires Run(history, events).feed.closed
    ensures Sound(Run(history, events))
    ensures Run(history, events + Receives(Left(Run(history, events)) + 1)).ended
  {
    hide Run, Sound;
    RunIsSound(history, events);
    SoundIsWithin(Run(history, events));
    EndsWithin(history, events, Left(Run(history, events)) + 1);
  }

  lemma SoundIsWithin(l: Life)
    requires Sound(l)
    ensures l.reader.cursor <= |l.feed.sent|
  {
  }

  lemma {:induction false} EndsWithin(history: seq<Unit>, events: seq<Event>, n: nat)
    requires Run(history, events).feed.closed
    ensures var l, l' := Run(history, events), Run(history, events + Receives(n));
            && l.reader.cursor <= |l.feed.sent| && l'.reader.cursor <= |l'.feed.sent|
            && l'.feed == l.feed && (l'.ended || Left(l') + n <= Left(l))
    decreases n
  {
    hide Run, Step, Sound;
    RunIsSound(history, events);
    SoundIsWithin(Run(history, events));
    if n == 0 {
      assert events + Receives(0) == events;
    } else {
      EndsWithin(history, events, n - 1);
      var before := events + Receives(n - 1);
      assert events + Receives(n) == before + [Receive];
      RunOn(history, before, Receive);
      RunIsSound(history, before);
      ReceiveGetsOn(Run(history, before));
    }
  }
}

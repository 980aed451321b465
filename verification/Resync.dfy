/**
  * A reader that has fallen behind: when it is given units again, and what becomes
  * of it if it is not let wait.
  */
module Resync {
  import opened Unit
  import opened Cache
  import opened Delivery

  // ---------------------------------------------------------------- starting again

  /** There is a unit ahead of a reader, still there to be had, that opens a stream. */
  predicate OpeningAhead(f: Feed, cursor: nat) {
    exists i :: cursor <= i < |f.sent| <= i + 1024 && f.sent[i].OpensAStream()
  }

  /** A reader in `resync` is given a unit exactly when there is one ahead that opens a stream: `next` finds it. */
  lemma {:induction false} ResyncEndsExactly(r: Reader, f: Feed)
    requires r.resyncing && r.cursor <= |f.sent|
    ensures PollOn(r, f).1.Deliver? <==> OpeningAhead(f, r.cursor)
    ensures PollOn(r, f).1.Deliver? && r.backlog == [] ==> PollOn(r, f).1.unit.OpensAStream()
    decreases |f.sent| - r.cursor
  {
    var (r1, outcome) := Poll(r, f);
    if outcome.Continue? {
      ResyncEndsExactly(r1, f);
      assert OpeningAhead(f, r.cursor) <==> OpeningAhead(f, r1.cursor);
    }
  }

  /** What is at a reader's place when it receives is still there, and opens a stream. */
  predicate MeetsOpening(l: Life, e: Event) {
    && e.Receive? && l.feed.Oldest() <= l.reader.cursor < |l.feed.sent|
    && l.feed.sent[l.reader.cursor].OpensAStream()
  }

  /** Where in a run a reader first meets one. */
  predicate MeetsAt(history: seq<Unit>, events: seq<Event>, more: seq<Event>, k: nat) {
    k < |more| && MeetsOpening(Run(history, events + more[..k]), more[k])
  }

  predicate Waiting(l: Life, delivered: seq<Unit>) {
    && l.delivered == delivered && l.reader.backlog == []
    && (l.reader.resyncing || (l.ended && l.feed.closed && l.reader.cursor >= |l.feed.sent|))
  }

  lemma WaitsOrMeets(l: Life, e: Event)
    requires Waiting(l, l.delivered) && !e.Drop?
    ensures MeetsOpening(l, e) ==> Step(l, e).delivered == l.delivered + [l.feed.sent[l.reader.cursor]]
    ensures !MeetsOpening(l, e) ==> Waiting(Step(l, e), l.delivered)
  {
    if MeetsOpening(l, e) {
      assert [] + [l.feed.sent[l.reader.cursor]] == [l.feed.sent[l.reader.cursor]];
    }
  }

  lemma StepAddsToDelivered(l: Life, e: Event)
    ensures l.delivered <= Step(l, e).delivered
  {
  }

  /**
    * Over any run of pushes and receives a reader in `resync` is given another unit if and only if a unit that
    * opens a stream is still there when the reader reaches it; until then it is given none.
    */
  lemma {:induction false} ResumesWhenMet(history: seq<Unit>, events: seq<Event>, more: seq<Event>)
    requires Run(history, events).reader.resyncing && Run(history, events).reader.backlog == []
    requires forall e <- more :: !e.Drop?
    ensures var was, now := Run(history, events).delivered, Run(history, events + more).delivered;
            && was <= now
            && (was < now <==> exists k :: MeetsAt(history, events, more, k))
            && (was == now ==> Waiting(Run(history, events + more), was))
    decreases |more|
  {
    hide Step, Kept, MeetsOpening, Waiting;
    var was := Run(history, events).delivered;
    if more == [] {
      assert events + more == events;
      assert Waiting(Run(history, events), was) by { ResyncWaits(Run(history, events)); }
    } else {
      var n := |more| - 1;
      var before, e := more[..n], more[n];
      assert forall b <- before :: b in more;
      ResumesWhenMet(history, events, before);
      RunOn(history, events + before, e);
      assert events + more == events + before + [e];
      var l := Run(history, events + before);
      StepAddsToDelivered(l, e);
      MeetsBefore(history, events, more);
      if l.delivered == was {
        WaitsOrMeets(l, e);
        assert MeetsAt(history, events, more, n) <==> MeetsOpening(l, e);
      }
    }
  }

  lemma ResyncWaits(l: Life)
    requires l.reader.resyncing && l.reader.backlog == []
    ensures Waiting(l, l.delivered)
  {
  }

  lemma MeetsBefore(history: seq<Unit>, events: seq<Event>, more: seq<Event>)
    requires more != []
    ensures var n := |more| - 1;
            (exists k :: MeetsAt(history, events, more, k))
              <==> MeetsAt(history, events, more, n) || exists k :: MeetsAt(history, events, more[..n], k)
  {
    hide Run, MeetsOpening;
    var n := |more| - 1;
    forall k: nat | k < n ensures MeetsAt(history, events, more, k) <==> MeetsAt(history, events, more[..n], k) {
      assert more[..n][..k] == more[..k];
    }
  }

  /** Sound, and anything else that happens but a dropped call. */
  predicate SoundOnly(events: seq<Event>) { forall e <- events :: !e.Drop? && (e.Push? ==> e.unit.Frame?) }

  lemma {:induction false} OnlySoundIsSent(history: seq<Unit>, events: seq<Event>)
    requires SoundOnly(events) && forall u <- history :: u.Frame?
    ensures forall u <- Run(history, events).feed.sent :: u.Frame?
    decreases |events|
  {
    hide Kept;
    if events != [] {
      assert forall e <- events[..|events| - 1] :: e in events;
      OnlySoundIsSent(history, events[..|events| - 1]);
    }
  }

  /** A reader that falls behind on a stream of sound alone is given nothing more, however long it is received from. */
  lemma SoundAloneNeverResumes(history: seq<Unit>, events: seq<Event>, more: seq<Event>)
    requires SoundOnly(events + more) && forall u <- history :: u.Frame?
    requires Run(history, events).reader.resyncing
    ensures Run(history, events + more).delivered == Run(history, events).delivered
  {
    hide Run;
    RunIsSound(history, events);
    assert forall e <- more :: e in events + more;
    ResumesWhenMet(history, events, more);
    forall k: nat ensures !MeetsAt(history, events, more, k) {
      if k < |more| {
        var sofar := events + more[..k];
        assert forall e <- sofar :: e in events || e in more;
        assert forall e <- sofar :: e in events + more;
        OnlySoundIsSent(history, sofar);
        var l := Run(history, sofar);
        assert forall i :: 0 <= i < |l.feed.sent| ==> l.feed.sent[i] in l.feed.sent;
      }
    }
  }

  // ---------------------------------------------------------------- dropping `next`

  /**
    * Dropping a `next` that waits inside `resync` loses the one thing it remembers. Received again at once, the
    * reader goes on as it should exactly when it was not going to stray: when nothing has been passed over, or
    * nothing is there to be had yet, or what is there opens a stream.
    */
  lemma DroppedInResync(l: Life)
    requires Sound(l) && l.reader.resyncing && Startable(l.feed.sent, l.joined, l.picked)
    ensures var l' := Step(Step(l, Drop), Receive);
            && Ordered(l'.feed.sent, l'.joined, l'.picked)
            && (Startable(l'.feed.sent, l'.joined, l'.picked) <==>
                  || Reached(l) == l.reader.cursor
                  || !(l.feed.Oldest() <= l.reader.cursor < |l.feed.sent|)
                  || l.feed.sent[l.reader.cursor].OpensAStream())
  {
    hide DeliveredIs, Startable, Ordered, Poll;
    StepKeeps(l, Drop);
    StepKeeps(Step(l, Drop), Receive);
    StepResumes(l, Drop);
    StepResumes(Step(l, Drop), Receive);
  }

  function Pushes(unit: Unit, n: nat): seq<Event> { seq(n, _ => Push(unit)) }

  lemma {:induction false} ManyPushes(unit: Unit, n: nat)
    ensures Run([], Pushes(unit, n)) == Attach([]).(feed := Feed(seq(n, _ => unit), false))
    ensures Patient([], Pushes(unit, n))
    decreases n
  {
    hide Kept;
    if n > 0 {
      ManyPushes(unit, n - 1);
      assert Pushes(unit, n)[..n - 1] == Pushes(unit, n - 1);
      assert seq(n - 1, _ => unit) + [unit] == seq(n, _ => unit);
    } else {
      assert seq(0, _ => unit) == [];
    }
  }

  lemma RunOn(history: seq<Unit>, events: seq<Event>, e: Event)
    ensures Run(history, events + [e]) == Step(Run(history, events), e)
  {
    hide Step;
    assert (events + [e])[..|events|] == events;
  }

  lemma {:induction false} ManyReceives(history: seq<Unit>, events: seq<Event>, n: nat)
    requires var l := Run(history, events);
      && l.reader.resyncing && l.feed.Oldest() <= l.reader.cursor && l.reader.cursor + n <= |l.feed.sent|
      && forall u <- l.feed.sent :: !u.OpensAStream()
    ensures var l := Run(history, events);
            Run(history, events + seq(n, _ => Receive))
              == l.(reader := l.reader.(cursor := l.reader.cursor + n), discarded := l.discarded + n)
    decreases n
  {
    hide Kept, Step;
    if n == 0 {
      assert events + seq(0, _ => Receive) == events;
    } else {
      var before := events + seq(n - 1, _ => Receive);
      ManyReceives(history, events, n - 1);
      assert events + seq(n, _ => Receive) == before + [Receive];
      RunOn(history, before, Receive);
      DiscardsOne(Run(history, before));
    }
  }

  lemma DiscardsOne(l: Life)
    requires l.reader.resyncing && l.feed.Oldest() <= l.reader.cursor < |l.feed.sent|
    requires !l.feed.sent[l.reader.cursor].OpensAStream()
    ensures Step(l, Receive)
         == l.(reader := l.reader.(cursor := l.reader.cursor + 1), discarded := l.discarded + 1)
  {
  }

  /** A reader too slow for a run of units that open nothing, and what it does once it receives. */
  function FallsBehind(unit: Unit): seq<Event> { Pushes(unit, BACKLOG + 1) + [Receive] }

  /** It is told of the one it missed, is in `resync`, and has been given nothing. */
  lemma FellBehind(unit: Unit)
    requires !unit.OpensAStream()
    ensures Run([], FallsBehind(unit))
         == Life(Feed(seq(BACKLOG + 1, _ => unit), false), Reader([], 1, 1, true), [], 0, [], [], 0, false)
  {
    hide Kept;
    KeptIsAnEnd([]);
    ManyPushes(unit, BACKLOG + 1);
    RunOn([], Pushes(unit, BACKLOG + 1), Receive);
  }

  /** With sound, that is the last it hears of the stream. */
  lemma SoundAloneHappens(frame: Unit, more: seq<Event>)
    requires frame.Frame? && SoundOnly(more)
    ensures Run([], FallsBehind(frame)).reader.resyncing
    ensures Run([], FallsBehind(frame) + more).delivered == []
  {
    FellBehind(frame);
    assert SoundOnly(FallsBehind(frame) + more);
    SoundAloneNeverResumes([], FallsBehind(frame), more);
  }

  /**
    * The reader receives all there is, waits in `resync` with nothing there, and has its `next` dropped, as a
    * `select!` does when its socket has something. Then a unit is pushed.
    */
  function DroppedAsItWaits(unit: Unit): seq<Event> {
    FallsBehind(unit) + seq(BACKLOG, _ => Receive) + [Receive] + [Drop] + [Push(unit)] + [Receive]
  }

  lemma CaughtUpWaiting(unit: Unit)
    requires !unit.OpensAStream()
    ensures var events := FallsBehind(unit) + seq(BACKLOG, _ => Receive);
            var feed := Feed(seq(BACKLOG + 1, _ => unit), false);
            && Run([], events) == Life(feed, Reader([], BACKLOG + 1, 1, true), [], 0, [], [], BACKLOG, false)
            && Poll(Run([], events).reader, feed).1.Pending?
            && Run([], events + [Receive]) == Run([], events)
  {
    hide Run;
    var events := FallsBehind(unit) + seq(BACKLOG, _ => Receive);
    FellBehind(unit);
    ManyReceives([], FallsBehind(unit), BACKLOG);
    RunOn([], events, Receive);
  }

  /** And it happens: that unit is delivered, and what it follows on from never was. */
  lemma DroppedInResyncHappens(unit: Unit)
    requires !unit.OpensAStream()
    ensures var events := DroppedAsItWaits(unit);
            var l := Run([], events);
            && l.delivered == [unit] && l.picked == [BACKLOG + 1]
            && Ordered(l.feed.sent, 0, l.picked) && !Startable(l.feed.sent, 0, l.picked)
            && !NeverStrays([], events)
  {
    hide Run, NeverStrays, Startable, Ordered;
    var waiting := FallsBehind(unit) + seq(BACKLOG, _ => Receive) + [Receive];
    CaughtUpWaiting(unit);
    RunOn([], waiting, Drop);
    RunOn([], waiting + [Drop], Push(unit));
    RunOn([], waiting + [Drop] + [Push(unit)], Receive);
    var l := Run([], DroppedAsItWaits(unit));
    assert l.picked == [BACKLOG + 1] && l.feed.sent[BACKLOG + 1] == unit;
    ResumesExactly([], DroppedAsItWaits(unit));
    if Startable(l.feed.sent, 0, l.picked) {
      FirstPickResumes(l.feed.sent, l.picked);
    }
  }

  lemma FirstPickResumes(sent: seq<Unit>, picked: seq<nat>)
    requires Ordered(sent, 0, picked) && picked != [] && Startable(sent, 0, picked)
    ensures picked[0] == 0 || sent[picked[0]].OpensAStream()
  {
    assert Resumes(sent, 0, picked, 0);
  }
}

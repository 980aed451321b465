/**
  * What a reader of a path gets, over every interleaving of a publisher's pushes
  * with the reader's receives.
  *
  * The feed is the broadcast channel by its contract: each receiver has a place
  * in the run of everything sent, the last `BACKLOG` units are there to be had,
  * and a receiver further behind than that is told how many it missed.
  */
module Delivery {
  import opened Unit
  import opened Cache

  const BACKLOG := 1024

  datatype Feed = Feed(sent: seq<Unit>, closed: bool) {
    /** The oldest unit still there to be received. */
    function Oldest(): (n: nat)
      ensures n <= |sent|
    {
      if |sent| > BACKLOG then |sent| - BACKLOG else 0
    }
  }

  datatype Received = Got(unit: Unit) | Lagged(units: nat) | Closed | Empty

  /** One receive, and where it leaves the receiver. */
  function Recv(f: Feed, cursor: nat): (Received, nat) {
    if cursor < f.Oldest() then (Lagged(f.Oldest() - cursor), f.Oldest())
    else if cursor < |f.sent| then (Got(f.sent[cursor]), cursor + 1)
    else if f.closed then (Closed, cursor)
    else (Empty, cursor)
  }

  /** A reader: what it was given at first, its place in the feed, and whether `next` is waiting inside `resync`. */
  datatype Reader = Reader(backlog: seq<Unit>, cursor: nat, skipped: nat, resyncing: bool)

  datatype Outcome = Deliver(unit: Unit) | End | Pending | Continue

  /** What `next` does up to and including its next receive. */
  function Poll(r: Reader, f: Feed): (Reader, Outcome) {
    if !r.resyncing && r.backlog != [] then (r.(backlog := r.backlog[1..]), Deliver(r.backlog[0]))
    else
      var (received, cursor) := Recv(f, r.cursor);
      var r1 := r.(cursor := cursor);
      match received
      case Closed => (r1.(resyncing := false), End)
      case Empty => (r1, Pending)
      case Lagged(units) => (r1.(skipped := r1.skipped + units, resyncing := true), Continue)
      case Got(unit) =>
        if !r.resyncing then (r1, Deliver(unit))
        else if unit.OpensAStream() then
          var backlog := r1.backlog + [unit];
          (r1.(backlog := backlog[1..], resyncing := false), Deliver(backlog[0]))
        else (r1, Continue)
  }

  // ---------------------------------------------------------------- in place

  class Receiver {
    var backlog: seq<Unit>
    var cursor: nat
    var skipped: nat
    var resyncing: bool

    ghost function State(): Reader
      reads this
    {
      Reader(backlog, cursor, skipped, resyncing)
    }

    /** Attaches at the end of the feed, with what the cache holds to begin on. */
    constructor (snapshot: seq<Unit>, feed: Feed)
      ensures State() == Reader(snapshot, |feed.sent|, 0, false)
    {
      backlog, cursor, skipped, resyncing := snapshot, |feed.sent|, 0, false;
    }

    /** Runs `next` on what the feed holds until it has a unit, the end, or nothing more to go on. */
    method Next(feed: Feed) returns (outcome: Outcome)
      modifies this
      ensures !outcome.Continue? && (State(), outcome) == PollOn(old(State()), feed)
    {
      if !resyncing && backlog != [] {
        var unit := backlog[0];
        backlog := backlog[1..];
        return Deliver(unit);
      }
      while true
        invariant backlog == old(backlog) && (resyncing || backlog == [])
        invariant PollOn(State(), feed) == PollOn(old(State()), feed)
        decreases if cursor <= |feed.sent| then |feed.sent| - cursor else 0
      {
        var (received, place) := Recv(feed, cursor);
        cursor := place;
        match received
        case Closed =>
          resyncing := false;
          return End;
        case Empty =>
          return Pending;
        case Lagged(units) =>
          skipped := skipped + units;
          resyncing := true;
        case Got(unit) =>
          if !resyncing {
            return Deliver(unit);
          }
          if unit.OpensAStream() {
            backlog := backlog + [unit];
            var front := backlog[0];
            backlog := backlog[1..];
            resyncing := false;
            return Deliver(front);
          }
      }
    }
  }

  /** Polling a feed that does not change, until something comes of it. */
  function PollOn(r: Reader, f: Feed): (Reader, Outcome)
    decreases if r.cursor <= |f.sent| then |f.sent| - r.cursor else 0
  {
    var (r1, outcome) := Poll(r, f);
    if outcome.Continue? then PollOn(r1, f) else (r1, outcome)
  }

  // ---------------------------------------------------------------- runs

  /** What can happen: a unit is pushed, the publisher goes, the reader receives, or the caller drops its `next`. */
  datatype Event = Push(unit: Unit) | Close | Receive | Drop

  /** A reader's whole life: what it began on and where, and what it has had. */
  datatype Life = Life(
    feed: Feed,
    reader: Reader,
    snapshot: seq<Unit>,
    joined: nat,
    delivered: seq<Unit>,
    picked: seq<nat>,
    discarded: nat,
    ended: bool)

  /** A reader that attaches after a history of pushes. */
  function Attach(history: seq<Unit>): Life {
    Life(Feed(history, false), Reader(Kept(history), |history|, 0, false), Kept(history), |history|, [], [], 0, false)
  }

  function Step(l: Life, e: Event): Life {
    match e
    case Push(unit) => if l.feed.closed then l else l.(feed := l.feed.(sent := l.feed.sent + [unit]))
    case Close => l.(feed := l.feed.(closed := true))
    case Drop => l.(reader := l.reader.(resyncing := false))
    case Receive =>
      var (r, outcome) := Poll(l.reader, l.feed);
      var l1 := l.(reader := r);
      match outcome
      case Deliver(unit) =>
        var live := l.reader.resyncing || l.reader.backlog == [];
        l1.(delivered := l.delivered + [unit],
            picked := if live && l.reader.cursor < r.cursor then l.picked + [r.cursor - 1] else l.picked)
      case End => l1.(ended := true)
      case Pending => l1
      case Continue =>
        if r.skipped == l.reader.skipped then l1.(discarded := l.discarded + 1) else l1
  }

  function Run(history: seq<Unit>, events: seq<Event>): Life {
    if events == [] then Attach(history)
    else Step(Run(history, events[..|events| - 1]), events[|events| - 1])
  }

  /** No `next` is dropped while it waits inside `resync`. */
  predicate Patient(history: seq<Unit>, events: seq<Event>) {
    events == []
    || (Patient(history, events[..|events| - 1])
        && !(events[|events| - 1].Drop? && Run(history, events[..|events| - 1]).reader.resyncing))
  }

  // ---------------------------------------------------------------- the invariant

  /** The place just after the last live unit delivered. */
  function Reached(l: Life): nat {
    if l.picked == [] then l.joined else l.picked[|l.picked| - 1] + 1
  }

  /** Places in a feed, in order and none twice. */
  predicate Ordered(sent: seq<Unit>, joined: nat, picked: seq<nat>) {
    && (forall i :: 0 <= i < |picked| ==> joined <= picked[i] < |sent|)
    && (forall i, j :: 0 <= i < j < |picked| ==> picked[i] < picked[j])
  }

  /** A live unit is the one after the last, or opens a stream. */
  predicate Resumes(sent: seq<Unit>, joined: nat, picked: seq<nat>, i: nat)
    requires i < |picked| && picked[i] < |sent|
  {
    picked[i] == (if i == 0 then joined else picked[i - 1] + 1) || sent[picked[i]].OpensAStream()
  }

  /** Wherever a reader was passed over, it was started again where a reader can be. */
  predicate Startable(sent: seq<Unit>, joined: nat, picked: seq<nat>)
    requires Ordered(sent, joined, picked)
  {
    forall i :: 0 <= i < |picked| ==> Resumes(sent, joined, picked, i)
  }

  predicate DeliveredIs(l: Life) {
    && |l.picked| <= |l.delivered|
    && l.delivered[..|l.delivered| - |l.picked|] + l.reader.backlog == l.snapshot
    && (l.picked != [] ==> l.reader.backlog == [])
    && forall i {:trigger l.picked[i]} :: 0 <= i < |l.picked| ==>
         0 <= l.picked[i] < |l.feed.sent|
         && l.delivered[|l.delivered| - |l.picked| + i] == l.feed.sent[l.picked[i]]
  }

  predicate Sound(l: Life) {
    && l.joined <= Reached(l) <= l.reader.cursor <= |l.feed.sent|
    && Ordered(l.feed.sent, l.joined, l.picked)
    && DeliveredIs(l)
    && (l.reader.resyncing ==> l.reader.backlog == [])
    && l.reader.cursor - l.joined == |l.picked| + l.reader.skipped + l.discarded
    && (l.ended ==> l.feed.closed && l.reader.cursor == |l.feed.sent| && l.reader.backlog == [])
  }

  /**
    * Whether a reader has missed units and not had one that opens a stream since: so from when it is told of
    * the ones it missed until it receives such a unit. Dropping a call makes no difference.
    */
  predicate Behind(history: seq<Unit>, events: seq<Event>) {
    events != []
    && StillBehind(Run(history, events[..|events| - 1]), events[|events| - 1], Behind(history, events[..|events| - 1]))
  }

  predicate StillBehind(l: Life, e: Event, behind: bool) {
    if !e.Receive? || (!l.reader.resyncing && l.reader.backlog != []) then behind
    else match Recv(l.feed, l.reader.cursor).0
      case Lagged(_) => true
      case Got(unit) => behind && !unit.OpensAStream()
      case _ => behind
  }

  /** A reader that is behind is given a unit that opens nothing. */
  predicate Strays(l: Life, e: Event, behind: bool) {
    && e.Receive? && !l.reader.resyncing && l.reader.backlog == [] && behind
    && var received := Recv(l.feed, l.reader.cursor).0;
       received.Got? && !received.unit.OpensAStream()
  }

  predicate NeverStrays(history: seq<Unit>, events: seq<Event>) {
    events == []
    || (var before := events[..|events| - 1];
        NeverStrays(history, before) && !Strays(Run(history, before), events[|events| - 1], Behind(history, before)))
  }

  lemma AttachIsSound(history: seq<Unit>)
    ensures Sound(Attach(history))
  {
    hide Kept;
    assert [] + Kept(history) == Kept(history);
  }

  lemma PushKeeps(l: Life, unit: Unit)
    requires Sound(l)
    ensures Sound(Step(l, Push(unit)))
  {
  }

  /** A unit from the cache snapshot. */
  lemma SnapshotKeeps(l: Life)
    requires Sound(l) && !l.reader.resyncing && l.reader.backlog != []
    ensures Sound(Step(l, Receive))
  {
    var l' := Step(l, Receive);
    assert l.picked == [] && l'.picked == [];
    assert l.delivered + [l.reader.backlog[0]] + l.reader.backlog[1..] == l.delivered + l.reader.backlog;
    assert l'.delivered[..|l'.delivered|] == l'.delivered && l.delivered[..|l.delivered|] == l.delivered;
  }

  /** A live unit: the one at the reader's place. */
  function Took(l: Life): Life
    requires l.reader.cursor < |l.feed.sent|
  {
    l.(reader := l.reader.(cursor := l.reader.cursor + 1, resyncing := false),
       delivered := l.delivered + [l.feed.sent[l.reader.cursor]],
       picked := l.picked + [l.reader.cursor])
  }

  lemma LiveKeeps(l: Life)
    requires Sound(l) && l.reader.backlog == [] && !l.ended && l.reader.cursor < |l.feed.sent|
    ensures Sound(Took(l))
  {
    hide Ordered, DeliveredIs;
    TookIsOrdered(l);
    TookIsDelivered(l);
  }

  lemma TookIsOrdered(l: Life)
    requires Ordered(l.feed.sent, l.joined, l.picked) && l.joined <= Reached(l) <= l.reader.cursor < |l.feed.sent|
    ensures Ordered(l.feed.sent, l.joined, Took(l).picked)
  {
  }

  lemma TookIsDelivered(l: Life)
    requires DeliveredIs(l) && l.reader.backlog == [] && l.reader.cursor < |l.feed.sent|
    ensures DeliveredIs(Took(l))
  {
    var l' := Took(l);
    var n := |l.delivered| - |l.picked|;
    assert l'.delivered[..n] == l.delivered[..n];
    forall i {:trigger l'.picked[i]} | 0 <= i < |l'.picked|
      ensures 0 <= l'.picked[i] < |l'.feed.sent|
      ensures l'.delivered[n + i] == l'.feed.sent[l'.picked[i]]
    {
      if i < |l.picked| {
        assert l'.picked[i] == l.picked[i] && l'.delivered[n + i] == l.delivered[n + i];
      }
    }
  }

  /** What a receive is: the next unit of the snapshot, the live unit at the reader's place, or no unit. */
  lemma ReceiveIs(l: Life)
    requires Sound(l)
    ensures var l' := Step(l, Receive);
            && l'.feed == l.feed && l'.joined == l.joined && l'.snapshot == l.snapshot
            && if !l.reader.resyncing && l.reader.backlog != [] then l'.picked == l.picked
               else if l.feed.Oldest() <= l.reader.cursor < |l.feed.sent|
                       && (l.reader.resyncing ==> l.feed.sent[l.reader.cursor].OpensAStream())
               then !l.ended && l.reader.backlog == [] && l' == Took(l)
               else l'.picked == l.picked && l'.delivered == l.delivered && l'.reader.backlog == l.reader.backlog
  {
    hide Ordered, DeliveredIs;
    if l.reader.cursor < |l.feed.sent| {
      assert [] + [l.feed.sent[l.reader.cursor]] == [l.feed.sent[l.reader.cursor]];
    }
  }

  lemma ReceiveKeeps(l: Life)
    requires Sound(l)
    ensures Sound(Step(l, Receive))
  {
    hide Ordered, DeliveredIs;
    var l' := Step(l, Receive);
    ReceiveIs(l);
    if !l.reader.resyncing && l.reader.backlog != [] {
      SnapshotKeeps(l);
    } else if l.reader.cursor < |l.feed.sent| && l' == Took(l) {
      LiveKeeps(l);
    } else {
      SameDelivered(l, l');
    }
  }

  lemma SameDelivered(l: Life, l': Life)
    requires DeliveredIs(l) && l'.feed.sent == l.feed.sent && l'.delivered == l.delivered && l'.picked == l.picked
    requires l'.reader.backlog == l.reader.backlog && l'.snapshot == l.snapshot
    ensures DeliveredIs(l')
  {
  }

  lemma StepKeeps(l: Life, e: Event)
    requires Sound(l)
    ensures Sound(Step(l, e)) && Step(l, e).joined == l.joined && Step(l, e).snapshot == l.snapshot
  {
    hide Poll, Ordered, DeliveredIs;
    match e
    case Push(unit) => PushKeeps(l, unit);
    case Receive => ReceiveKeeps(l); ReceiveIs(l);
    case _ => SameDelivered(l, Step(l, e));
  }

  /** Every reader, whatever happens to it. */
  lemma {:induction false} RunIsSound(history: seq<Unit>, events: seq<Event>)
    ensures Sound(Run(history, events))
    ensures Run(history, events).joined == |history| && Run(history, events).snapshot == Kept(history)
    decreases |events|
  {
    hide Sound, Kept, Step;
    if events == [] {
      AttachIsSound(history);
    } else {
      var before := events[..|events| - 1];
      RunIsSound(history, before);
      StepKeeps(Run(history, before), events[|events| - 1]);
    }
  }

  // ---------------------------------------------------------------- what it comes to

  /** The live units at some places in the feed. */
  function Chosen(sent: seq<Unit>, picked: seq<nat>): seq<Unit>
    requires forall i :: 0 <= i < |picked| ==> picked[i] < |sent|
  {
    seq(|picked|, i requires 0 <= i < |picked| => sent[picked[i]])
  }

  /**
    * Delivery, whatever happens: what a reader has been given is the beginning of the cache as it joined, and
    * once all of that, later pushes in order and none twice.
    */
  lemma DeliveredInOrder(history: seq<Unit>, events: seq<Event>)
    ensures var l := Run(history, events);
            && Ordered(l.feed.sent, |history|, l.picked)
            && (if l.picked == [] then l.delivered <= Kept(history)
                else l.delivered == Kept(history) + Chosen(l.feed.sent, l.picked))
  {
    hide Run, Kept;
    var l := Run(history, events);
    RunIsSound(history, events);
    var n := |l.delivered| - |l.picked|;
    if l.picked != [] {
      assert l.delivered == l.delivered[..n] + l.delivered[n..];
      assert l.delivered[n..] == Chosen(l.feed.sent, l.picked);
      assert l.delivered[..n] + [] == l.delivered[..n];
    } else {
      assert l.delivered[..n] == l.delivered;
    }
  }

  /** A receive that gives a unit out of its place, opening nothing. */
  predicate Breaks(l: Life, e: Event) {
    && e.Receive? && !l.reader.resyncing && l.reader.backlog == []
    && l.feed.Oldest() <= l.reader.cursor < |l.feed.sent|
    && Reached(l) < l.reader.cursor && !l.feed.sent[l.reader.cursor].OpensAStream()
  }

  /** One step goes on as it should exactly when it does not break off. */
  lemma StepResumes(l: Life, e: Event)
    requires Sound(l) && Sound(Step(l, e))
    ensures var l' := Step(l, e);
            (Startable(l'.feed.sent, l'.joined, l'.picked)
             <==> Startable(l.feed.sent, l.joined, l.picked) && !Breaks(l, e))
  {
    hide DeliveredIs, Poll, Startable, Ordered;
    var l' := Step(l, e);
    match e
    case Receive =>
      ReceiveIs(l);
      if l.reader.cursor < |l.feed.sent| && l' == Took(l) {
        TookResumes(l);
      }
    case Push(unit) => MoreSent(l.feed.sent, [unit], l.joined, l.picked);
    case _ =>
  }

  /** What is pushed later does not change what was delivered. */
  lemma MoreSent(sent: seq<Unit>, more: seq<Unit>, joined: nat, picked: seq<nat>)
    requires Ordered(sent, joined, picked)
    ensures Ordered(sent + more, joined, picked)
    ensures Startable(sent + more, joined, picked) <==> Startable(sent, joined, picked)
  {
    forall i | 0 <= i < |picked|
      ensures Resumes(sent + more, joined, picked, i) <==> Resumes(sent, joined, picked, i)
    {
    }
  }

  lemma TookResumes(l: Life)
    requires Sound(l) && l.reader.backlog == [] && !l.ended && l.reader.cursor < |l.feed.sent|
    ensures Ordered(l.feed.sent, l.joined, Took(l).picked)
    ensures Startable(l.feed.sent, l.joined, Took(l).picked) <==>
      && Startable(l.feed.sent, l.joined, l.picked)
      && (l.reader.cursor == Reached(l) || l.feed.sent[l.reader.cursor].OpensAStream())
  {
    hide DeliveredIs;
    LiveKeeps(l);
    var picked, n := Took(l).picked, |l.picked|;
    forall i | 0 <= i < n
      ensures Resumes(l.feed.sent, l.joined, picked, i) <==> Resumes(l.feed.sent, l.joined, l.picked, i)
    {
      assert picked[i] == l.picked[i];
    }
    assert Startable(l.feed.sent, l.joined, picked) ==> Resumes(l.feed.sent, l.joined, picked, n);
  }

  /** Being behind is having a place past what has been reached, as it is for a reader in `resync`. */
  predicate BehindIs(l: Life, behind: bool) {
    (behind <==> Reached(l) < l.reader.cursor) && (l.reader.resyncing ==> behind)
  }

  lemma StepKeepsBehind(l: Life, e: Event, behind: bool)
    requires Sound(l) && BehindIs(l, behind)
    ensures Strays(l, e, behind) <==> Breaks(l, e)
    ensures !Breaks(l, e) ==> BehindIs(Step(l, e), StillBehind(l, e, behind))
  {
    hide Ordered, DeliveredIs;
    if e.Receive? {
      ReceiveIs(l);
    }
  }

  /**
    * And wherever units are passed over, what comes next opens a stream: in exactly the runs where no reader
    * that is behind is given a unit that opens nothing.
    */
  lemma {:induction false} ResumesExactly(history: seq<Unit>, events: seq<Event>)
    ensures var l := Run(history, events);
            && Ordered(l.feed.sent, |history|, l.picked)
            && (Startable(l.feed.sent, |history|, l.picked) <==> NeverStrays(history, events))
            && (NeverStrays(history, events) ==> BehindIs(l, Behind(history, events)))
    decreases |events|
  {
    hide Kept, Step, DeliveredIs, Strays, Breaks, StillBehind, BehindIs, Startable, Ordered;
    RunIsSound(history, events);
    if events != [] {
      var before, e := events[..|events| - 1], events[|events| - 1];
      ResumesExactly(history, before);
      RunIsSound(history, before);
      StepResumes(Run(history, before), e);
      if NeverStrays(history, before) {
        StepKeepsBehind(Run(history, before), e, Behind(history, before));
      }
    } else {
      NothingIsStartable(history);
      AttachedInPlace(history);
    }
  }

  lemma NothingIsStartable(history: seq<Unit>)
    ensures Startable(history, |history|, [])
  {
  }

  /** A reader that is not in `resync` is where it has got to. */
  predicate InPlace(l: Life) { !l.reader.resyncing && !l.ended ==> l.reader.cursor == Reached(l) }

  lemma StepStaysInPlace(l: Life, e: Event)
    requires Sound(l) && InPlace(l) && !(e.Drop? && l.reader.resyncing)
    ensures InPlace(Step(l, e)) && !Breaks(l, e)
  {
    hide Ordered, DeliveredIs;
    if e.Receive? {
      ReceiveIs(l);
    }
  }

  /** So it is enough that no `next` is dropped while it waits inside `resync`. */
  lemma {:induction false} PatienceIsEnough(history: seq<Unit>, events: seq<Event>)
    requires Patient(history, events)
    ensures NeverStrays(history, events) && InPlace(Run(history, events))
    decreases |events|
  {
    hide Kept, Sound, Step, Strays, Breaks, InPlace, BehindIs, Behind;
    if events != [] {
      var before, e := events[..|events| - 1], events[|events| - 1];
      PatienceIsEnough(history, before);
      RunIsSound(history, before);
      ResumesExactly(history, before);
      StepStaysInPlace(Run(history, before), e);
      StepKeepsBehind(Run(history, before), e, Behind(history, before));
    } else {
      AttachedInPlace(history);
    }
  }

  lemma AttachedInPlace(history: seq<Unit>)
    ensures InPlace(Attach(history)) && BehindIs(Attach(history), false)
  {
  }

  /** Units that have been overwritten before the reader was told of them. */
  function Lost(l: Life): int {
    if l.reader.cursor < l.feed.Oldest() then l.feed.Oldest() - l.reader.cursor else 0
  }

  /** Units there to be received. */
  function Queued(l: Life): int {
    |l.feed.sent| - if l.reader.cursor < l.feed.Oldest() then l.feed.Oldest() else l.reader.cursor
  }

  /** Conservation: every push since the reader joined is delivered, skipped, discarded, lost or queued, once. */
  lemma EveryPushIsAccountedFor(history: seq<Unit>, events: seq<Event>)
    ensures var l := Run(history, events);
            && |l.feed.sent| - |history| == |l.picked| + l.reader.skipped + l.discarded + Lost(l) + Queued(l)
            && 0 <= Lost(l) && 0 <= Queued(l) <= BACKLOG
  {
    hide Run, Kept, Ordered, DeliveredIs;
    RunIsSound(history, events);
  }

  /** The end is told only when there is nothing left to give. */
  lemma EndIsTheEnd(history: seq<Unit>, events: seq<Event>)
    ensures var l := Run(history, events);
            l.ended ==> l.feed.closed && Queued(l) == 0 && Lost(l) == 0 && l.reader.backlog == []
  {
    hide Run, Kept, Ordered, DeliveredIs;
    RunIsSound(history, events);
  }

  /** A reader that has skipped and discarded nothing has every push since it joined, up to where it is. */
  lemma KeepingUpMissesNothing(history: seq<Unit>, events: seq<Event>)
    requires var l := Run(history, events); l.reader.skipped == 0 && l.discarded == 0 && l.picked != []
    ensures var l := Run(history, events);
            && |history| + |l.picked| == l.reader.cursor <= |l.feed.sent|
            && l.delivered == Kept(history) + l.feed.sent[|history|..l.reader.cursor]
  {
    hide Run, Kept, DeliveredIs;
    var l := Run(history, events);
    RunIsSound(history, events);
    DeliveredInOrder(history, events);
    AtLeast(l.feed.sent, |history|, l.picked, 0);
    Contiguous(l.feed.sent, |history|, l.picked);
    assert Chosen(l.feed.sent, l.picked) == l.feed.sent[|history|..l.reader.cursor];
  }

  lemma {:induction false} AtLeast(sent: seq<Unit>, joined: nat, picked: seq<nat>, i: nat)
    requires Ordered(sent, joined, picked) && i < |picked|
    ensures picked[i] >= joined + i
    ensures picked[|picked| - 1] >= picked[i] + (|picked| - 1 - i)
    decreases |picked|
  {
    if |picked| > 1 {
      var before := picked[..|picked| - 1];
      assert Ordered(sent, joined, before);
      if i < |before| {
        AtLeast(sent, joined, before, i);
      } else {
        AtLeast(sent, joined, before, i - 1);
      }
    }
  }

  lemma Contiguous(sent: seq<Unit>, joined: nat, picked: seq<nat>)
    requires Ordered(sent, joined, picked) && picked != []
    requires picked[|picked| - 1] + 1 - joined <= |picked|
    ensures forall i :: 0 <= i < |picked| ==> picked[i] == joined + i
  {
    hide Ordered;
    forall i | 0 <= i < |picked| ensures picked[i] == joined + i {
      AtLeast(sent, joined, picked, i);
    }
  }
}

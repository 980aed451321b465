/**
  * Who hears what a publisher pushes, over every interleaving: as much as is pushed
  * while it is the publisher, and everyone who joined.
  */
module Audience {
  import opened Wrappers
  import opened Unit
  import opened Takeover
  import Cache

  /** A publisher whose source is the one at its path. */
  predicate InPlace(w: World, token: nat) {
    PhaseOf(w, token).Live? && Holds(w, PhaseOf(w, token).path, token)
  }

  /** What a publisher has pushed while it was in place. */
  function PushedBy(events: seq<Event>, token: nat): seq<Unit> {
    if events == [] then []
    else
      var before, last := events[..|events| - 1], events[|events| - 1];
      PushedBy(before, token)
      + if last.Push? && last.token == token && InPlace(Run(Empty, before), token) then [last.unit] else []
  }

  /** Everyone who attached to a path with a source at it, and what each was owed at that moment. */
  function Joined(events: seq<Event>): seq<Attached> {
    if events == [] then []
    else
      var before, last := events[..|events| - 1], events[|events| - 1];
      var w := Run(Empty, before);
      Joined(before)
      + if last.Attach? && last.path < |w.sources| && w.sources[last.path].Some? then
          var source := w.sources[last.path].value;
          var history := PushedBy(before, source.token);
          [Attached(source.token, source.description, |history|, Cache.Kept(history))]
        else []
  }

  lemma PushReaches(w: World, token: nat, unit: Unit)
    requires Sound(w)
    ensures var w' := Step(w, Push(token, unit));
            && |w'.feeds| == |w.feeds|
            && forall t: nat :: t < |w.feeds| ==>
                 UnitsIn(w'.feeds[t]) == UnitsIn(w.feeds[t]) + if t == token && InPlace(w, token) then [unit] else []
  {
    hide ReadersSound;
    var w' := Step(w, Push(token, unit));
    forall t: nat | t < |w.feeds|
      ensures UnitsIn(w'.feeds[t]) == UnitsIn(w.feeds[t]) + if t == token && InPlace(w, token) then [unit] else []
    {
    }
  }

  lemma OthersReachNobody(w: World, e: Event)
    requires Sound(w) && !e.Push?
    ensures w.feeds <= Step(w, e).feeds
    ensures forall t :: |w.feeds| <= t < |Step(w, e).feeds| ==> Step(w, e).feeds[t] == []
  {
    hide ReadersSound, PathsSound, SourcesSound;
  }

  /** A publisher's feed is everything it has pushed while it was in place, in order, and nothing else. */
  lemma {:induction false} FeedIsWhatWasPushed(events: seq<Event>, token: nat)
    ensures Sound(Run(Empty, events))
    ensures var w := Run(Empty, events);
            if token < |w.feeds| then UnitsIn(w.feeds[token]) == PushedBy(events, token)
            else PushedBy(events, token) == []
    decreases |events|
  {
    hide Sound, Step, InPlace, UnitsIn;
    if events == [] {
      RunKeepsEmpty();
    } else {
      var before, last := events[..|events| - 1], events[|events| - 1];
      var w := Run(Empty, before);
      FeedIsWhatWasPushed(before, token);
      StepKeeps(w, last);
      if last.Push? {
        PushReaches(w, last.token, last.unit);
        InPlaceHasFeed(w, last.token);
        assert token < |w.feeds| ==> UnitsIn(w.feeds[token]) + [] == UnitsIn(w.feeds[token]);
      } else {
        OthersReachNobody(w, last);
        assert PushedBy(before, token) + [] == PushedBy(before, token);
        NothingInNothing();
      }
    }
  }

  lemma RunKeepsEmpty()
    ensures Sound(Empty) && Run(Empty, []) == Empty
  {
  }

  lemma InPlaceHasFeed(w: World, token: nat)
    requires Sound(w)
    ensures InPlace(w, token) ==> token < |w.feeds|
  {
  }

  lemma NothingInNothing()
    ensures UnitsIn([]) == []
  {
  }

  lemma AttachJoins(w: World, path: nat)
    requires Sound(w)
    ensures Step(w, Attach(path)).readers
         == w.readers + if path < |w.sources| && w.sources[path].Some? then
                          var source := w.sources[path].value;
                          var history := UnitsIn(w.feeds[source.token]);
                          [Attached(source.token, source.description, |history|, Cache.Kept(history))]
                        else []
  {
    hide ReadersSound, Cache.Kept;
    assert w.readers + [] == w.readers;
  }

  lemma OnlyAttachJoins(w: World, e: Event)
    requires !e.Attach?
    ensures Step(w, e).readers == w.readers
  {
  }

  lemma SourceIsPublisher(w: World, path: nat)
    requires Sound(w) && path < |w.sources| && w.sources[path].Some?
    ensures w.sources[path].value.token < |w.feeds|
  {
    hide ReadersSound;
  }

  /** The readers are exactly those who attached where there was a source, with its description and its cache. */
  lemma {:induction false} ReadersAreWhoJoined(events: seq<Event>)
    ensures Run(Empty, events).readers == Joined(events)
    decreases |events|
  {
    hide Sound, Step, InPlace, UnitsIn, PushedBy, Cache.Kept;
    if events != [] {
      var before, last := events[..|events| - 1], events[|events| - 1];
      var w := Run(Empty, before);
      ReadersAreWhoJoined(before);
      FeedIsWhatWasPushed(before, 0);
      match last
      case Attach(path) =>
        AttachJoins(w, path);
        if path < |w.sources| && w.sources[path].Some? {
          SourceIsPublisher(w, path);
          FeedIsWhatWasPushed(before, w.sources[path].value.token);
        }
      case _ =>
        OnlyAttachJoins(w, last);
        assert Joined(before) + [] == Joined(before);
    }
  }

  /** And each has been sent exactly what its publisher has pushed since, no more and no less. */
  lemma SentSinceJoining(events: seq<Event>, r: Attached)
    requires r in Run(Empty, events).readers
    ensures var w := Run(Empty, events);
            && r.token < |w.feeds| && r.joined <= |w.feeds[r.token]| == |PushedBy(events, r.token)|
            && UnitsIn(SentTo(w, r)) == PushedBy(events, r.token)[r.joined..]
  {
    hide Run, PushedBy, Cache.Kept;
    var w := Run(Empty, events);
    FeedIsWhatWasPushed(events, r.token);
    assert ReaderSound(w, r);
    assert |UnitsIn(w.feeds[r.token])| == |w.feeds[r.token]|;
  }
}

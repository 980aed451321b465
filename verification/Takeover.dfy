/**
  * Paths by name, and what becomes of them as publishers take them over: every
  * interleaving of the steps that hold a lock, and the whole calls.
  *
  * A path is a place in an arena, since the handles that share one may outlive
  * the name it had. A publisher is its token.
  */
module Takeover {
  import opened Wrappers
  import opened Unit
  import opened Track
  import Cache

  datatype Source = Source(token: nat, description: Description)

  /** A unit in a feed, and which publisher's `push` put it there. */
  datatype Pushed = Pushed(unit: Unit, pusher: nat)

  /**
    * How far a publisher has come: it has a token, has found its path, has put its source there, has taken it
    * away again and has yet to remove the name, or is done.
    */
  datatype Phase = Allocated | Found(path: nat) | Live(path: nat) | Removing | Gone

  datatype Publisher = Publisher(name: string, description: Description, phase: Phase)

  /** A reader: whose feed it is on, from where, what it was told the stream is, and what it was given to begin on. */
  datatype Attached = Attached(token: nat, description: Description, joined: nat, backlog: seq<Unit>)

  /**
    * Everything there is. A publisher is among `ended` once the source it put somewhere has been dropped, which
    * closes its feed to readers and wakes it where it waits to be evicted.
    */
  datatype World = World(
    paths: map<string, nat>,
    sources: seq<Option<Source>>,
    publishers: seq<Publisher>,
    feeds: seq<seq<Pushed>>,
    readers: seq<Attached>,
    ended: set<nat>)

  const Empty := World(map[], [], [], [], [], {})

  function UnitsIn(feed: seq<Pushed>): seq<Unit> {
    seq(|feed|, i requires 0 <= i < |feed| => feed[i].unit)
  }

  /** The publishers ended when what is at a path is dropped. */
  function EndedAt(w: World, path: nat): set<nat>
    requires path < |w.sources|
  {
    match w.sources[path]
    case Some(source) => {source.token}
    case None => {}
  }

  /** One step that holds a lock, or none at all. `Attach` is to any path a reader may have looked up by then. */
  datatype Event =
    | Allocate(name: string, description: Description)
    | Find(token: nat)
    | Install(token: nat)
    | Push(token: nat, unit: Unit)
    | Evict(token: nat)
    | Remove(token: nat)
    | Attach(path: nat)

  predicate Holds(w: World, path: nat, token: nat) {
    path < |w.sources| && w.sources[path].Some? && w.sources[path].value.token == token
  }

  function SetPhase(w: World, token: nat, phase: Phase): World
    requires token < |w.publishers|
  {
    w.(publishers := w.publishers[token := w.publishers[token].(phase := phase)])
  }

  function DoFind(w: World, token: nat): World
    requires token < |w.publishers|
  {
    var name := w.publishers[token].name;
    if name in w.paths then SetPhase(w, token, Found(w.paths[name]))
    else
      SetPhase(w.(paths := w.paths[name := |w.sources|], sources := w.sources + [None]), token, Found(|w.sources|))
  }

  function DoInstall(w: World, token: nat, path: nat): World
    requires token < |w.publishers| && path < |w.sources|
  {
    var source := Source(token, w.publishers[token].description);
    SetPhase(w.(sources := w.sources[path := Some(source)], ended := w.ended + EndedAt(w, path)), token, Live(path))
  }

  function DoPush(w: World, token: nat, path: nat, unit: Unit): World
    requires path < |w.sources|
  {
    if Holds(w, path, token) && token < |w.feeds| then
      var to := w.sources[path].value.token;
      w.(feeds := w.feeds[to := w.feeds[to] + [Pushed(unit, token)]])
    else w
  }

  function DoEvict(w: World, token: nat, path: nat): World
    requires token < |w.publishers| && path < |w.sources|
  {
    if Holds(w, path, token) then
      SetPhase(w.(sources := w.sources[path := None], ended := w.ended + EndedAt(w, path)), token, Removing)
    else SetPhase(w, token, Gone)
  }

  function DoRemove(w: World, token: nat): World
    requires token < |w.publishers|
  {
    SetPhase(w.(paths := w.paths - {w.publishers[token].name}), token, Gone)
  }

  function DoAttach(w: World, path: nat): World
    requires path < |w.sources|
  {
    match w.sources[path]
    case Some(source) =>
      if source.token < |w.feeds| then
        var feed := w.feeds[source.token];
        w.(readers := w.readers
             + [Attached(source.token, source.description, |feed|, Cache.Kept(UnitsIn(feed)))])
      else w
    case None => w
  }

  function PhaseOf(w: World, token: nat): Phase {
    if token < |w.publishers| then w.publishers[token].phase else Gone
  }

  /** The path a publisher has found, if it is there. */
  function PathOf(w: World, token: nat): Option<nat> {
    match PhaseOf(w, token)
    case Found(path) => if path < |w.sources| then Some(path) else None
    case Live(path) => if path < |w.sources| then Some(path) else None
    case _ => None
  }

  /** A step that is not this publisher's to take yet, or any more, is no step. */
  function Step(w: World, e: Event): World {
    match e
    case Allocate(name, description) =>
      w.(publishers := w.publishers + [Publisher(name, description, Allocated)], feeds := w.feeds + [[]])
    case Attach(path) => if path < |w.sources| then DoAttach(w, path) else w
    case Find(token) => if PhaseOf(w, token).Allocated? then DoFind(w, token) else w
    case Install(token) =>
      if PhaseOf(w, token).Found? && PathOf(w, token).Some? then DoInstall(w, token, PathOf(w, token).value) else w
    case Push(token, unit) =>
      if PhaseOf(w, token).Live? && PathOf(w, token).Some? then DoPush(w, token, PathOf(w, token).value, unit) else w
    case Evict(token) =>
      if PhaseOf(w, token).Live? && PathOf(w, token).Some? then DoEvict(w, token, PathOf(w, token).value) else w
    case Remove(token) => if PhaseOf(w, token).Removing? then DoRemove(w, token) else w
  }

  function Run(w: World, events: seq<Event>): World
    decreases |events|
  {
    if events == [] then w else Step(Run(w, events[..|events| - 1]), events[|events| - 1])
  }

  // ---------------------------------------------------------------- what every step keeps

  predicate SourcesSound(w: World) {
    forall p :: 0 <= p < |w.sources| && w.sources[p].Some? ==>
      var source := w.sources[p].value;
      && source.token < |w.publishers|
      && w.publishers[source.token].phase == Live(p)
      && w.publishers[source.token].description == source.description
  }

  predicate PathsSound(w: World) {
    && (forall n <- w.paths :: w.paths[n] < |w.sources|)
    && (forall t :: 0 <= t < |w.publishers| ==>
          var phase := w.publishers[t].phase;
          phase.Found? || phase.Live? ==> phase.path < |w.sources|)
  }

  /** Every unit in a feed was pushed by the publisher whose feed it is. */
  predicate FeedsSound(w: World) {
    && |w.feeds| == |w.publishers|
    && forall t :: 0 <= t < |w.feeds| ==> forall p <- w.feeds[t] :: p.pusher == t
  }

  /** A reader holds the description of the publisher whose feed it is on, and began on what that had pushed. */
  predicate ReaderSound(w: World, r: Attached) {
    && r.token < |w.publishers| && r.token < |w.feeds|
    && r.description == w.publishers[r.token].description
    && r.joined <= |w.feeds[r.token]|
    && r.backlog == Cache.Kept(UnitsIn(w.feeds[r.token][..r.joined]))
  }

  predicate ReadersSound(w: World) { forall r <- w.readers :: ReaderSound(w, r) }

  predicate Sound(w: World) { SourcesSound(w) && PathsSound(w) && FeedsSound(w) && ReadersSound(w) }

  lemma StepKeeps(w: World, e: Event)
    requires Sound(w)
    ensures Sound(Step(w, e))
  {
    match e
    case Allocate(_, _) => AllocateKeeps(w, e);
    case Attach(_) => AttachKeeps(w, e);
    case Push(_, _) => PushKeeps(w, e);
    case _ => SourceStepKeeps(w, e);
  }

  lemma AllocateKeeps(w: World, e: Event)
    requires Sound(w) && e.Allocate?
    ensures Sound(Step(w, e))
  {
  }

  lemma AttachKeeps(w: World, e: Event)
    requires Sound(w) && e.Attach?
    ensures Sound(Step(w, e))
  {
    hide Cache.Kept, UnitsIn;
    var w' := Step(w, e);
    forall r <- w'.readers ensures ReaderSound(w', r) {
      if r in w.readers {
        assert ReaderSound(w, r);
      } else {
        assert w.feeds[r.token][..r.joined] == w.feeds[r.token];
      }
    }
  }

  lemma PushKeeps(w: World, e: Event)
    requires Sound(w) && e.Push?
    ensures Sound(Step(w, e))
  {
    hide Cache.Kept, UnitsIn;
    var w' := Step(w, e);
    forall r <- w'.readers ensures ReaderSound(w', r) {
      assert ReaderSound(w, r);
      assert w'.feeds[r.token][..r.joined] == w.feeds[r.token][..r.joined];
    }
  }

  lemma SourceStepKeeps(w: World, e: Event)
    requires Sound(w) && (e.Find? || e.Install? || e.Evict? || e.Remove?)
    ensures Sound(Step(w, e))
  {
    hide FeedsSound, ReadersSound;
    var w' := Step(w, e);
    assert FeedsSound(w') && ReadersSound(w') by { SourceStepLeavesReaders(w, e); }
  }

  lemma SourceStepLeavesReaders(w: World, e: Event)
    requires FeedsSound(w) && ReadersSound(w) && (e.Find? || e.Install? || e.Evict? || e.Remove?)
    ensures FeedsSound(Step(w, e)) && ReadersSound(Step(w, e))
  {
  }

  lemma {:induction false} RunKeeps(w: World, events: seq<Event>)
    requires Sound(w)
    ensures Sound(Run(w, events))
    decreases |events|
  {
    hide Sound, Step;
    if events != [] {
      RunKeeps(w, events[..|events| - 1]);
      StepKeeps(Run(w, events[..|events| - 1]), events[|events| - 1]);
    }
  }

  /** What a reader has been sent since it joined. */
  function SentTo(w: World, r: Attached): seq<Pushed>
    requires r.token < |w.feeds| && r.joined <= |w.feeds[r.token]|
  {
    w.feeds[r.token][r.joined..]
  }

  /**
    * Takeover is safe for readers: in every run of steps, however they interleave, a reader is only ever sent
    * units pushed by the publisher it attached to, begins on what that one's pushes had left in its cache, and
    * holds that one's description.
    */
  lemma ReadersAreNeverMovedAcross(events: seq<Event>)
    ensures var w := Run(Empty, events);
            forall r <- w.readers ::
              && r.token < |w.publishers| && r.token < |w.feeds| && r.joined <= |w.feeds[r.token]|
              && r.description == w.publishers[r.token].description
              && r.backlog == Cache.Kept(UnitsIn(w.feeds[r.token][..r.joined]))
              && forall p <- SentTo(w, r) :: p.pusher == r.token
  {
    hide Run, Cache.Kept, UnitsIn;
    RunKeeps(Empty, events);
    var w := Run(Empty, events);
    assert forall r <- w.readers :: ReaderSound(w, r);
  }

  /** A publisher that has had its source, and no longer has. */
  predicate Over(w: World, token: nat) {
    && token < |w.publishers|
    && var phase := w.publishers[token].phase;
       (phase.Live? && !Holds(w, phase.path, token)) || phase.Removing? || phase.Gone?
  }

  /** A displaced publisher's push or drop changes no source, no feed and no name. */
  lemma DisplacedIsHarmless(w: World, e: Event)
    requires Sound(w) && (e.Push? || e.Evict? || e.Remove?)
    requires Over(w, e.token) && w.publishers[e.token].phase.Live?
    ensures var w' := Step(w, e);
            && w'.sources == w.sources && w'.feeds == w.feeds && w'.paths == w.paths && w'.readers == w.readers
            && w'.ended == w.ended
  {
  }

  /** Whoever pushes or drops, only the source and the feed that are that publisher's own can change. */
  lemma OnlyOnesOwn(w: World, e: Event)
    requires Sound(w) && (e.Push? || e.Evict? || e.Remove?)
    ensures var w' := Step(w, e);
            && |w'.sources| == |w.sources| && |w'.feeds| == |w.feeds|
            && w.ended <= w'.ended <= w.ended + {e.token}
            && (forall p :: 0 <= p < |w.sources| && !Holds(w, p, e.token) ==> w'.sources[p] == w.sources[p])
            && (forall t :: 0 <= t < |w.feeds| && t != e.token ==> w'.feeds[t] == w.feeds[t])
  {
  }

  lemma OverStays(w: World, token: nat, e: Event)
    requires Sound(w) && Over(w, token)
    ensures Over(Step(w, e), token)
    ensures |Step(w, e).feeds| >= |w.feeds| && Step(w, e).feeds[token] == w.feeds[token]
  {
    hide ReadersSound;
  }

  /** Displacement is for good: nothing more ever goes down the feed, so its readers see it end where it was. */
  lemma {:induction false} DisplacedForGood(w: World, token: nat, events: seq<Event>)
    requires Sound(w) && Over(w, token)
    ensures Over(Run(w, events), token) && token < |Run(w, events).feeds|
    ensures Run(w, events).feeds[token] == w.feeds[token]
    decreases |events|
  {
    hide Sound, Step, Over;
    if events != [] {
      var before := events[..|events| - 1];
      DisplacedForGood(w, token, before);
      RunKeeps(w, before);
      OverStays(Run(w, before), token, events[|events| - 1]);
    } else {
      OverHasFeed(w, token);
    }
  }

  lemma OverHasFeed(w: World, token: nat)
    requires Sound(w) && Over(w, token)
    ensures token < |w.feeds|
  {
  }

  ghost predicate EndedSound(w: World) { forall t :: t in w.ended <==> Over(w, t) }

  lemma StepKeepsEnded(w: World, e: Event)
    requires Sound(w) && EndedSound(w)
    ensures EndedSound(Step(w, e))
  {
    hide FeedsSound, ReadersSound;
    var w' := Step(w, e);
    match e
    case Allocate(_, _) => assert forall t :: Over(w', t) <==> Over(w, t);
    case Attach(_) => assert forall t :: Over(w', t) <==> Over(w, t);
    case Push(_, _) => assert forall t :: Over(w', t) <==> Over(w, t);
    case _ => SourceStepEnds(w, e);
  }

  lemma SourceStepEnds(w: World, e: Event)
    requires Sound(w) && EndedSound(w) && (e.Find? || e.Install? || e.Evict? || e.Remove?)
    ensures EndedSound(Step(w, e))
  {
    hide FeedsSound, ReadersSound;
    var w' := Step(w, e);
    forall t ensures t in w'.ended <==> Over(w', t) {
      assert t in w.ended <==> Over(w, t);
    }
  }

  /**
    * In every interleaving a publisher's feed is closed to its readers, and it is woken, exactly when it is no
    * longer the publisher: displaced by another or dropped.
    */
  lemma {:induction false} EndedExactlyWhenOver(events: seq<Event>)
    ensures Sound(Run(Empty, events))
    ensures forall t :: t in Run(Empty, events).ended <==> Over(Run(Empty, events), t)
    decreases |events|
  {
    hide Sound, Step, Over;
    if events == [] {
      NobodyIsOver();
    } else {
      var before := events[..|events| - 1];
      EndedExactlyWhenOver(before);
      StepKeeps(Run(Empty, before), events[|events| - 1]);
      StepKeepsEnded(Run(Empty, before), events[|events| - 1]);
    }
  }

  lemma NobodyIsOver()
    ensures Sound(Empty) && forall t :: !Over(Empty, t)
  {
  }
}

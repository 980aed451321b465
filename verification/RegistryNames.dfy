/**
  * When a name leads to its publisher, over every interleaving of the steps: exactly
  * as long as nobody has removed the name since the publisher found its path.
  */
module RegistryNames {
  import opened Wrappers
  import opened Takeover
  import opened Track
  import RegistryCalls

  /** The path a publisher has found and may have put its source at. */
  function PlaceOf(w: World, token: nat): Option<nat> {
    match PhaseOf(w, token)
    case Found(path) => Some(path)
    case Live(path) => Some(path)
    case _ => None
  }

  /** A publisher part-way through being dropped takes a name away. */
  predicate Removes(w: World, e: Event, name: string) {
    e.Remove? && PhaseOf(w, e.token).Removing? && e.token < |w.publishers| && w.publishers[e.token].name == name
  }

  /** The name a publisher found its path by has been taken away from under it. */
  predicate NameLost(events: seq<Event>, token: nat) {
    events != []
    && var before := events[..|events| - 1];
       var w := Run(Empty, before);
       NameLost(before, token)
       || (PlaceOf(w, token).Some? && token < |w.publishers|
           && Removes(w, events[|events| - 1], w.publishers[token].name))
  }

  predicate LeadsTo(w: World, token: nat, path: nat) {
    token < |w.publishers| && w.publishers[token].name in w.paths && w.paths[w.publishers[token].name] == path
  }

  /** One publisher: has it found its path, does its name still lead there, and is it past finding it again. */
  predicate Named(w: World, token: nat, lost: bool) {
    && (PlaceOf(w, token).Some? ==> (LeadsTo(w, token, PlaceOf(w, token).value) <==> !lost))
    && (lost ==> token < |w.publishers| && !w.publishers[token].phase.Allocated?)
  }

  lemma StepNames(w: World, e: Event, token: nat, lost: bool)
    requires Sound(w) && Named(w, token, lost)
    ensures var now := lost || (PlaceOf(w, token).Some? && token < |w.publishers|
                                && Removes(w, e, w.publishers[token].name));
            Named(Step(w, e), token, now)
  {
    hide FeedsSound, ReadersSound, SourcesSound;
  }

  lemma {:induction false} RunNames(events: seq<Event>, token: nat)
    ensures Sound(Run(Empty, events)) && Named(Run(Empty, events), token, NameLost(events, token))
    decreases |events|
  {
    hide Sound, Step, Named, Removes, PlaceOf;
    if events == [] {
      EmptyIsNamed(token);
    } else {
      var before := events[..|events| - 1];
      RunNames(before, token);
      StepKeeps(Run(Empty, before), events[|events| - 1]);
      StepNames(Run(Empty, before), events[|events| - 1], token, NameLost(before, token));
    }
  }

  lemma EmptyIsNamed(token: nat)
    ensures Sound(Empty) && Named(Empty, token, false)
  {
  }

  /**
    * A publisher with the source of its path is what a lookup of its name finds if and only if no other has
    * removed the name since it found that path: not while it was taking the path over, and not after.
    */
  lemma FoundExactlyUnlessNameLost(events: seq<Event>, token: nat, path: nat)
    requires Holds(Run(Empty, events), path, token)
    ensures var w := Run(Empty, events);
            && token < |w.publishers|
            && (RegistryCalls.Current(w, w.publishers[token].name)
                  == Some(Source(token, w.publishers[token].description))
                <==> !NameLost(events, token))
  {
    hide Run, NameLost, FeedsSound, ReadersSound;
    RunNames(events, token);
  }

  // ---------------------------------------------------------------- and it happens

  /** One publisher, which is being dropped as another takes the name over. */
  function DroppedDuringPublish(name: string, first: Description, second: Description): seq<Event> {
    [Allocate(name, first), Find(0), Install(0), Evict(0), Allocate(name, second), Find(1), Install(1), Remove(0)]
  }

  lemma RunOn(events: seq<Event>, k: nat)
    requires k < |events|
    ensures Run(Empty, events[..k + 1]) == Step(Run(Empty, events[..k]), events[k])
  {
    hide Step;
    assert events[..k + 1][..k] == events[..k];
  }

  lemma NothingHappened()
    ensures Run(Empty, []) == Empty
  {
  }

  /** As the second comes: the first's source is gone, and its name is not. */
  lemma HalfDropped(name: string, first: Description, second: Description)
    ensures Run(Empty, DroppedDuringPublish(name, first, second)[..4])
         == World(map[name := 0], [None], [Publisher(name, first, Removing)], [[]], [], {0})
  {
    hide Run;
    var events := DroppedDuringPublish(name, first, second);
    NothingHappened();
    assert events[..0] == [];
    RunOn(events, 0);
    RunOn(events, 1);
    RunOn(events, 2);
    RunOn(events, 3);
  }

  lemma TakenOver(name: string, first: Description, second: Description)
    ensures Run(Empty, DroppedDuringPublish(name, first, second)[..7])
         == World(map[name := 0], [Some(Source(1, second))],
                  [Publisher(name, first, Removing), Publisher(name, second, Live(0))], [[], []], [], {0})
  {
    hide Run;
    var events := DroppedDuringPublish(name, first, second);
    HalfDropped(name, first, second);
    RunOn(events, 4);
    RunOn(events, 5);
    RunOn(events, 6);
  }

  /** The other has the path to itself, and nobody can find it. */
  lemma SecondPublisherIsLost(name: string, first: Description, second: Description)
    ensures var events := DroppedDuringPublish(name, first, second);
            var w := Run(Empty, events);
            && |w.publishers| == 2 && Holds(w, 0, 1) && w.publishers[1].phase.Live? && w.publishers[1].name == name
            && RegistryCalls.Current(w, name) == None && NameLost(events, 1)
  {
    hide Run, NameLost;
    var events := DroppedDuringPublish(name, first, second);
    TakenOver(name, first, second);
    RunOn(events, 7);
    assert events[..8] == events;
    FoundExactlyUnlessNameLost(events, 1, 0);
  }
}

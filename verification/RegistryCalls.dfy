/**
  * The registry's calls, each as one step: they keep a map from every name to its
  * latest publisher that has not been dropped. Broken up, they do not.
  */
module RegistryCalls {
  import opened Wrappers
  import opened Unit
  import opened Track
  import opened Takeover
  import Cache

  datatype Call =
    | Publish(name: string, description: Description)
    | PushUnit(token: nat, unit: Unit)
    | Drop(token: nat)
    | Read(name: string)

  function Do(w: World, c: Call): World {
    match c
    case Publish(name, description) =>
      var token := |w.publishers|;
      Step(Step(Step(w, Allocate(name, description)), Find(token)), Install(token))
    case PushUnit(token, unit) => Step(w, Push(token, unit))
    case Drop(token) => Step(Step(w, Evict(token)), Remove(token))
    case Read(name) => if name in w.paths then Step(w, Attach(w.paths[name])) else w
  }

  function Calls(calls: seq<Call>): World {
    if calls == [] then Empty else Do(Calls(calls[..|calls| - 1]), calls[|calls| - 1])
  }

  /** What a name is being published by, as a lookup finds it. */
  function Current(w: World, name: string): Option<Source> {
    if name in w.paths && w.paths[name] < |w.sources| then w.sources[w.paths[name]] else None
  }

  function Published(calls: seq<Call>): nat {
    if calls == [] then 0
    else Published(calls[..|calls| - 1]) + if calls[|calls| - 1].Publish? then 1 else 0
  }

  /** The latest publisher of a name, unless it has been dropped. */
  function Latest(calls: seq<Call>, name: string): Option<Source> {
    if calls == [] then None
    else
      var before := Latest(calls[..|calls| - 1], name);
      match calls[|calls| - 1]
      case Publish(n, description) =>
        if n == name then Some(Source(Published(calls[..|calls| - 1]), description)) else before
      case Drop(token) => if before.Some? && before.value.token == token then None else before
      case _ => before
  }

  /** Between calls, a name is there exactly when its path has a source, and no path is without a name. */
  predicate Settled(w: World) {
    && Sound(w)
    && (forall t :: 0 <= t < |w.publishers| ==> w.publishers[t].phase.Live? || w.publishers[t].phase.Gone?)
    && (forall n <- w.paths ::
          && w.paths[n] < |w.sources| && w.sources[w.paths[n]].Some?
          && w.sources[w.paths[n]].value.token < |w.publishers|
          && w.publishers[w.sources[w.paths[n]].value.token].name == n)
    && (forall p :: 0 <= p < |w.sources| && w.sources[p].Some? ==>
          && w.sources[p].value.token < |w.publishers|
          && var name := w.publishers[w.sources[p].value.token].name;
             name in w.paths && w.paths[name] == p)
  }

  lemma PublishSettles(w: World, c: Call)
    requires Settled(w) && c.Publish?
    ensures Settled(Do(w, c))
    ensures |Do(w, c).publishers| == |w.publishers| + 1
    ensures forall name ::
      Current(Do(w, c), name)
        == (if name == c.name then Some(Source(|w.publishers|, c.description)) else Current(w, name))
  {
    hide Sound, Step;
    var token := |w.publishers|;
    SoundThrice(w, Allocate(c.name, c.description), Find(token), Install(token));
    Installed(w, c);
  }

  lemma SoundThrice(w: World, a: Event, b: Event, c: Event)
    requires Sound(w)
    ensures Sound(Step(Step(Step(w, a), b), c))
  {
    hide Sound, Step;
    StepKeeps(w, a);
    StepKeeps(Step(w, a), b);
    StepKeeps(Step(Step(w, a), b), c);
  }

  /** Publishing puts the source at the name's path, or at a new one if it has none. */
  lemma Installed(w: World, c: Call)
    requires Settled(w) && c.Publish?
    ensures var path := if c.name in w.paths then w.paths[c.name] else |w.sources|;
            var sources := if c.name in w.paths then w.sources else w.sources + [None];
            Do(w, c) == World(w.paths[c.name := path],
                              sources[path := Some(Source(|w.publishers|, c.description))],
                              w.publishers + [Publisher(c.name, c.description, Live(path))],
                              w.feeds + [[]], w.readers, w.ended + EndedAt(w.(sources := sources), path))
  {
    hide FeedsSound, ReadersSound, SourcesSound;
    assert c.name in w.paths ==> w.paths[c.name := w.paths[c.name]] == w.paths;
  }

  lemma PathIsThere(w: World, name: string)
    requires Settled(w)
    ensures name in w.paths ==> w.paths[name] < |w.sources|
  {
  }

  lemma DropSettles(w: World, c: Call)
    requires Settled(w) && c.Drop?
    ensures Settled(Do(w, c))
    ensures |Do(w, c).publishers| == |w.publishers|
    ensures forall name ::
      Current(Do(w, c), name)
        == (if Current(w, name).Some? && Current(w, name).value.token == c.token then None else Current(w, name))
  {
    hide Sound, Step;
    SoundTwice(w, Evict(c.token), Remove(c.token));
    Dropped(w, c);
    if c.token < |w.publishers| {
      TokenIsOnItsPath(w, c.token);
    }
    forall name ensures Current(Do(w, c), name)
      == (if Current(w, name).Some? && Current(w, name).value.token == c.token then None else Current(w, name))
    {
      if name in w.paths && Holds(w, w.paths[name], c.token) {
        assert w.publishers[c.token].phase == Live(w.paths[name]);
      }
    }
  }

  predicate HasItsPath(w: World, token: nat) {
    PhaseOf(w, token).Live? && Holds(w, PhaseOf(w, token).path, token)
  }

  lemma EvictOwn(w: World, token: nat)
    requires HasItsPath(w, token)
    ensures Step(w, Evict(token))
         == SetPhase(w.(sources := w.sources[PhaseOf(w, token).path := None], ended := w.ended + {token}), token,
                     Removing)
  {
  }

  lemma EvictOther(w: World, token: nat)
    requires !HasItsPath(w, token)
    ensures var w' := Step(w, Evict(token));
            w' == w || (token < |w.publishers| && w' == SetPhase(w, token, Gone))
    ensures PhaseOf(w, token).Live? && PhaseOf(w, token).path < |w.sources| ==>
      Step(w, Evict(token)) == SetPhase(w, token, Gone)
  {
  }

  lemma RemoveOne(w: World, token: nat)
    ensures PhaseOf(w, token).Removing? ==>
      Step(w, Remove(token)) == SetPhase(w.(paths := w.paths - {w.publishers[token].name}), token, Gone)
    ensures !PhaseOf(w, token).Removing? ==> Step(w, Remove(token)) == w
  {
  }

  /** Dropping the publisher a path has takes its source and its name away; dropping any other only ends that one. */
  lemma Dropped(w: World, c: Call)
    requires Settled(w) && c.Drop?
    ensures var w' := Do(w, c);
            && |w'.publishers| == |w.publishers|
            && (forall t :: 0 <= t < |w.publishers| ==> w'.publishers[t].name == w.publishers[t].name)
            && (forall t :: 0 <= t < |w.publishers| && t != c.token ==> w'.publishers[t] == w.publishers[t])
            && (c.token < |w.publishers| ==> w'.publishers[c.token].phase.Gone?)
            && if c.token < |w.publishers| && w.publishers[c.token].phase.Live?
                  && Holds(w, w.publishers[c.token].phase.path, c.token)
               then w'.paths == w.paths - {w.publishers[c.token].name}
                    && w'.sources == w.sources[w.publishers[c.token].phase.path := None]
                    && w'.ended == w.ended + {c.token}
               else w'.paths == w.paths && w'.sources == w.sources && w'.ended == w.ended
  {
    hide FeedsSound, ReadersSound, SourcesSound, Step;
    if HasItsPath(w, c.token) {
      EvictOwn(w, c.token);
    } else {
      EvictOther(w, c.token);
    }
    RemoveOne(Step(w, Evict(c.token)), c.token);
  }

  /** A publisher's source is nowhere but on the path it has found. */
  lemma TokenIsOnItsPath(w: World, token: nat)
    requires Sound(w) && token < |w.publishers|
    ensures forall p :: Holds(w, p, token) ==> w.publishers[token].phase == Live(p)
  {
    hide FeedsSound, ReadersSound;
  }

  lemma SoundTwice(w: World, a: Event, b: Event)
    requires Sound(w)
    ensures Sound(Step(Step(w, a), b))
  {
    hide Sound, Step;
    StepKeeps(w, a);
    StepKeeps(Step(w, a), b);
  }

  lemma OthersSettle(w: World, c: Call)
    requires Settled(w) && (c.PushUnit? || c.Read?)
    ensures Settled(Do(w, c)) && |Do(w, c).publishers| == |w.publishers|
    ensures forall name :: Current(Do(w, c), name) == Current(w, name)
  {
    hide Sound, FeedsSound, ReadersSound;
    match c
    case PushUnit(token, unit) => StepKeeps(w, Push(token, unit));
    case Read(name) => if name in w.paths { StepKeeps(w, Attach(w.paths[name])); }
  }

  /**
    * With each call one step, the registry is a map from every name to its latest publisher not yet dropped:
    * what a lookup finds, or does not, is exactly that.
    */
  lemma {:induction false} CallsKeepTheLatest(calls: seq<Call>)
    ensures Settled(Calls(calls)) && |Calls(calls).publishers| == Published(calls)
    ensures forall name :: Current(Calls(calls), name) == Latest(calls, name)
    decreases |calls|
  {
    hide Settled, Do, Current;
    if calls == [] {
      EmptySettled();
    } else {
      var before, c := calls[..|calls| - 1], calls[|calls| - 1];
      CallsKeepTheLatest(before);
      match c
      case Publish(_, _) => PublishSettles(Calls(before), c);
      case Drop(_) => DropSettles(Calls(before), c);
      case _ => OthersSettle(Calls(before), c);
    }
  }

  lemma EmptySettled()
    ensures Settled(Empty) && forall name :: Current(Empty, name) == None
  {
  }

  // ---------------------------------------------------------------- broken up

  /**
    * A publisher is lost when it publishes while another on the name is part-way through being dropped, its
    * source gone and the name not yet removed: it is live and nobody can find it.
    */
  lemma PublishDuringDropIsLost(w: World, token: nat, description: Description)
    requires Settled(w) && token < |w.publishers| && w.publishers[token].phase.Live?
    requires Holds(w, w.publishers[token].phase.path, token)
    ensures var name, next := w.publishers[token].name, |w.publishers|;
            var w1 := Step(w, Evict(token));
            var w4 := Step(Step(Step(w1, Allocate(name, description)), Find(next)), Install(next));
            var w5 := Step(w4, Remove(token));
            && w5.publishers[next].phase.Live? && Holds(w5, w5.publishers[next].phase.path, next)
            && Current(w5, name) == None
  {
    hide Sound;
  }

  /** And so is one whose predecessor is dropped between its finding the path and its putting its source there. */
  lemma DropDuringPublishIsLost(w: World, token: nat, description: Description)
    requires Settled(w) && token < |w.publishers| && w.publishers[token].phase.Live?
    requires Holds(w, w.publishers[token].phase.path, token)
    ensures var name, next := w.publishers[token].name, |w.publishers|;
            var w2 := Step(Step(w, Allocate(name, description)), Find(next));
            var w4 := Step(Step(w2, Evict(token)), Remove(token));
            var w5 := Step(w4, Install(next));
            && w5.publishers[next].phase.Live? && Holds(w5, w5.publishers[next].phase.path, next)
            && Current(w5, name) == None
  {
    hide Sound;
  }

  // ---------------------------------------------------------------- in place

  class Registry {
    var paths: map<string, nat>
    var sources: seq<Option<Source>>
    var publishers: seq<Publisher>
    var feeds: seq<seq<Pushed>>
    var readers: seq<Attached>
    var ended: set<nat>
    var caches: seq<Cache.Cache>

    ghost function State(): World
      reads this
    {
      World(paths, sources, publishers, feeds, readers, ended)
    }

    /** Every publisher's cache is its own, and is what everything it has pushed leaves. */
    ghost predicate CachesHold()
      reads this, caches
    {
      && |caches| == |feeds| == |publishers|
      && (forall i, j :: 0 <= i < j < |caches| ==> caches[i] != caches[j])
      && forall i :: 0 <= i < |caches| ==> caches[i].Valid() && caches[i].history == UnitsIn(feeds[i])
    }

    ghost predicate Valid()
      reads this, caches
    {
      Settled(State()) && CachesHold()
    }

    constructor ()
      ensures State() == Empty && Valid()
    {
      paths, sources, publishers, feeds, readers, ended, caches := map[], [], [], [], [], {}, [];
      new;
      EmptySettled();
    }

    method SetPhase(token: nat, phase: Phase)
      requires token < |publishers|
      modifies `publishers
      ensures State() == Takeover.SetPhase(old(State()), token, phase)
    {
      publishers := publishers[token := publishers[token].(phase := phase)];
    }

    /** Takes over a name. Whoever had it is displaced: its feed closes, and it is told. */
    method Publish(name: string, description: Description) returns (token: nat)
      requires Valid()
      modifies this
      ensures State() == Do(old(State()), Call.Publish(name, description)) && Valid()
      ensures token == |old(State()).publishers|
      ensures Current(State(), name) == Some(Source(token, description))
    {
      hide Settled, Current, Do, Cache.Kept, UnitsIn;
      ghost var w, c := State(), Call.Publish(name, description);
      PublishSettles(w, c);
      Installed(w, c);
      PathIsThere(w, name);
      token := Register(Publisher(name, description, Allocated));
      var path := FindPath(name);
      SetPhase(token, Found(path));
      PutSource(path, Source(token, description));
      SetPhase(token, Live(path));
    }

    /** Counts a publisher in, with a cache of its own and nothing pushed. */
    method Register(publisher: Publisher) returns (token: nat)
      requires CachesHold()
      modifies `publishers, `feeds, `caches
      ensures token == |old(publishers)| && CachesHold()
      ensures publishers == old(publishers) + [publisher] && feeds == old(feeds) + [[]]
    {
      hide UnitsIn, Cache.Kept;
      token := |publishers|;
      var cache := new Cache.Cache();
      NothingIn();
      caches, publishers, feeds := caches + [cache], publishers + [publisher], feeds + [[]];
    }

    /** The path a name leads to, which is a new one if it leads nowhere. */
    method FindPath(name: string) returns (path: nat)
      requires name in paths ==> paths[name] < |sources|
      modifies `paths, `sources
      ensures path == (if name in old(paths) then old(paths)[name] else |old(sources)|) < |sources|
      ensures paths == old(paths)[name := path]
      ensures sources == if name in old(paths) then old(sources) else old(sources) + [None]
    {
      if name in paths {
        assert paths == paths[name := paths[name]];
        return paths[name];
      }
      path := |sources|;
      paths, sources := paths[name := path], sources + [None];
    }

    /** Puts a source at a path. The one that was there is dropped. */
    method PutSource(path: nat, source: Source)
      requires path < |sources|
      modifies `sources, `ended
      ensures sources == old(sources)[path := Some(source)]
      ensures ended == old(ended) + EndedAt(old(State()), path)
    {
      if sources[path].Some? {
        ended := ended + {sources[path].value.token};
      }
      sources := sources[path := Some(source)];
    }

    /** Hands a unit to every reader and to the cache, if this is still the publisher. */
    method PushUnit(token: nat, unit: Unit)
      requires Valid() && token < |publishers| && publishers[token].phase.Live?
      modifies this, caches
      ensures State() == Do(old(State()), Call.PushUnit(token, unit)) && Valid()
      ensures caches == old(caches) && publishers == old(publishers) && sources == old(sources)
      ensures var path := publishers[token].phase.path;
              if path < |sources| && sources[path].Some? && sources[path].value.token == token then
                && feeds == old(feeds)[token := old(feeds)[token] + [Pushed(unit, token)]]
                && caches[token].history == old(caches[token].history) + [unit]
              else feeds == old(feeds)
    {
      hide Settled, Cache.Kept, Sound, Current;
      OthersSettle(State(), Call.PushUnit(token, unit));
      PathIsFound(State(), token);
      var path := publishers[token].phase.path;
      if sources[path].None? {
        return;
      }
      if sources[path].value.token != token {
        return;
      }
      caches[token].Push(unit);
      PushedUnits(feeds[token], Pushed(unit, token));
      feeds := feeds[token := feeds[token] + [Pushed(unit, token)]];
    }

    /** Takes the stream down, if this is still the publisher. */
    method Drop(token: nat)
      requires Valid() && token < |publishers| && publishers[token].phase.Live?
      modifies this
      ensures State() == Do(old(State()), Call.Drop(token)) && Valid()
      ensures caches == old(caches) && feeds == old(feeds) && readers == old(readers)
      ensures var path := old(publishers)[token].phase.path;
              if path < |old(sources)| && old(sources)[path].Some? && old(sources)[path].value.token == token then
                && sources == old(sources)[path := None] && ended == old(ended) + {token}
                && paths == old(paths) - {old(publishers)[token].name}
              else sources == old(sources) && ended == old(ended) && paths == old(paths)
    {
      hide Settled, Cache.Kept, Sound, Current;
      DropSettles(State(), Call.Drop(token));
      PathIsFound(State(), token);
      var path := publishers[token].phase.path;
      if sources[path].Some? && sources[path].value.token == token {
        sources := sources[path := None];
        ended := ended + {token};
        SetPhase(token, Removing);
        paths := paths - {publishers[token].name};
      }
      SetPhase(token, Gone);
    }

    /** Attaches to whatever is being published to a name, with what its cache holds. */
    method Read(name: string) returns (r: Option<Attached>)
      requires Valid()
      modifies `readers
      ensures State() == Do(old(State()), Call.Read(name)) && Valid()
      ensures readers == old(readers) + if r.Some? then [r.value] else []
      ensures match Current(old(State()), name)
              case Some(source) =>
                && r.Some? && r.value.token == source.token < |feeds| && r.value.description == source.description
                && r.value.joined == |feeds[source.token]|
                && r.value.backlog == Cache.Kept(UnitsIn(feeds[source.token]))
              case None => r.None?
    {
      hide Settled, Cache.Kept, Sound;
      OthersSettle(State(), Call.Read(name));
      PathIsThere(State(), name);
      if name !in paths {
        return None;
      }
      var path := paths[name];
      if sources[path].None? {
        return None;
      }
      var source := sources[path].value;
      SourceHasFeed(State(), path);
      var reader := Attached(source.token, source.description, |feeds[source.token]|, caches[source.token].units);
      readers := readers + [reader];
      return Some(reader);
    }

    method Describe(name: string) returns (r: Option<Description>)
      requires Valid()
      ensures r == match Current(State(), name)
                   case Some(source) => Some(source.description)
                   case None => None
    {
      hide Settled;
      PathIsThere(State(), name);
      if name !in paths {
        return None;
      }
      var path := paths[name];
      return if sources[path].Some? then Some(sources[path].value.description) else None;
    }
  }

  lemma NothingIn()
    ensures UnitsIn([]) == []
  {
  }

  lemma PushedUnits(feed: seq<Pushed>, p: Pushed)
    ensures UnitsIn(feed + [p]) == UnitsIn(feed) + [p.unit]
  {
  }

  lemma PathIsFound(w: World, token: nat)
    requires Settled(w) && token < |w.publishers| && w.publishers[token].phase.Live?
    ensures w.publishers[token].phase.path < |w.sources| && |w.feeds| == |w.publishers|
  {
  }

  lemma SourceHasFeed(w: World, path: nat)
    requires Settled(w) && path < |w.sources| && w.sources[path].Some?
    ensures w.sources[path].value.token < |w.feeds| && |w.feeds| == |w.publishers|
  {
  }
}

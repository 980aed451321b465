/**
  * RTMP's 32-bit millisecond counter turned into a timeline that starts at zero,
  * and that timeline counted in an RTP clock.
  */
module Clocks {
  import opened Wrappers
  import opened Bytes
  import opened Rtp

  const ERA := 0x1_0000_0000
  const HALF := 0x8000_0000
  const U64 := 0x1_0000_0000_0000_0000

  function SaturatingAdd(a: u64, b: u64): u64 { if a + b < U64 then a + b else U64 - 1 }

  function SaturatingSub(a: u64, b: u64): u64 { if a >= b then a - b else 0 }

  datatype Clock = Clock(origin: Option<u32>, last: u32, wraps: nat)

  const Unset := Clock(None, 0, 0)

  /** What one reading of the counter makes of the clock, and the time it gives in milliseconds. */
  function At(c: Clock, timestamp: u32): (Clock, u64) {
    var origin := if c.origin.Some? then c.origin.value else timestamp;
    var wraps := if timestamp < c.last && c.last - timestamp > 0xffff_ffff / 2 then c.wraps + 1 else c.wraps;
    (Clock(Some(origin), timestamp, wraps),
     SaturatingSub(SaturatingAdd(wraps * ERA % U64, timestamp), origin))
  }

  class Timeline {
    var origin: Option<u32>
    var last: u32
    var wraps: nat

    ghost function State(): Clock
      reads this
    {
      Clock(origin, last, wraps)
    }

    constructor ()
      ensures State() == Unset
    {
      origin, last, wraps := None, 0, 0;
    }

    method Reading(timestamp: u32) returns (millis: u64)
      modifies this
      ensures (State(), millis) == At(old(State()), timestamp)
    {
      if origin.None? {
        origin := Some(timestamp);
      }
      if timestamp < last && last - timestamp > 0xffff_ffff / 2 {
        wraps := wraps + 1;
      }
      last := timestamp;
      millis := SaturatingSub(SaturatingAdd(wraps * ERA % U64, timestamp), origin.value);
    }
  }

  // ---------------------------------------------------------------- unwrapping

  /** The clock knows the true time: which era of the counter it is in, and where in it. */
  predicate Tracks(c: Clock, t: nat) {
    c.origin.Some? && c.last == t % ERA && c.wraps == t / ERA
  }

  /**
    * The steps that can be told from the counter alone: within an era, forward by anything or back by less
    * than half; into the next era, by at most half.
    */
  predicate Tellable(t: nat, t': nat) {
    || (t' / ERA == t / ERA && t - t' < HALF)
    || (t' / ERA == t / ERA + 1 && t' - t <= HALF)
  }

  /** A clock that tracks the time goes on tracking it exactly when the step can be told. */
  lemma TracksExactlyTellable(c: Clock, t: nat, t': nat)
    requires Tracks(c, t)
    ensures Tracks(At(c, t' % ERA).0, t') <==> Tellable(t, t')
  {
    assert t == t / ERA * ERA + t % ERA && t' == t' / ERA * ERA + t' % ERA;
  }

  /** The steps a publisher takes: forward by up to half an era, or back by less within one. */
  lemma PublishersStepsAreTellable(t: nat, t': nat)
    requires t <= t' <= t + HALF || (t' <= t < t' + HALF && t' / ERA == t / ERA)
    ensures Tellable(t, t')
  {
  }

  /** The clock after readings of the counter, and the times they gave. */
  function Readings(c: Clock, counter: seq<u32>): (Clock, seq<u64>) {
    if counter == [] then (c, [])
    else
      var (before, times) := Readings(c, counter[..|counter| - 1]);
      var (after, time) := At(before, counter[|counter| - 1]);
      (after, times + [time])
  }

  function Counter(ts: seq<nat>): (r: seq<u32>)
    ensures |r| == |ts|
  {
    seq(|ts|, i requires 0 <= i < |ts| => ts[i] % ERA)
  }

  predicate EveryStepTellable(ts: seq<nat>) {
    forall i {:trigger ts[i]} :: 0 < i < |ts| ==> Tellable(ts[i - 1], ts[i])
  }

  /** True times from a first one that the counter states directly. */
  predicate Genuine(ts: seq<nat>) {
    && (ts != [] ==> ts[0] < ERA)
    && (forall t <- ts :: t < U64)
    && EveryStepTellable(ts)
  }

  lemma {:induction false} CounterUnwraps(ts: seq<nat>)
    requires Genuine(ts)
    ensures var (c, times) := Readings(Unset, Counter(ts));
            && |times| == |ts|
            && (ts != [] ==> Tracks(c, ts[|ts| - 1]) && c.origin == Some(ts[0]))
            && forall i :: 0 <= i < |ts| ==> times[i] == if ts[i] >= ts[0] then ts[i] - ts[0] else 0
    decreases |ts|
  {
    hide At, Tracks, Tellable;
    if ts != [] {
      var before, t := ts[..|ts| - 1], ts[|ts| - 1];
      assert Counter(ts)[..|ts| - 1] == Counter(before);
      BeforeIsGenuine(ts);
      CounterUnwraps(before);
      if before == [] {
        FirstReading(t);
      } else {
        NextReading(Readings(Unset, Counter(before)).0, before[|before| - 1], t);
      }
    }
  }

  lemma BeforeIsGenuine(ts: seq<nat>)
    requires Genuine(ts) && ts != []
    ensures Genuine(ts[..|ts| - 1])
    ensures ts[|ts| - 1] < U64 && (|ts| > 1 ==> Tellable(ts[|ts| - 2], ts[|ts| - 1]))
  {
    hide Tellable;
    var before := ts[..|ts| - 1];
    assert forall u <- before :: u in ts;
    forall i {:trigger before[i]} | 0 < i < |before| ensures Tellable(before[i - 1], before[i]) {
      assert Tellable(ts[i - 1], ts[i]);
    }
    assert ts[|ts| - 1] in ts;
  }

  lemma FirstReading(t: nat)
    requires t < ERA
    ensures Tracks(At(Unset, t % ERA).0, t) && At(Unset, t % ERA).0.origin == Some(t) && At(Unset, t % ERA).1 == 0
  {
  }

  lemma NextReading(c: Clock, t: nat, t': nat)
    requires Tracks(c, t) && Tellable(t, t') && t' < U64
    ensures var (c', time) := At(c, t' % ERA);
            && Tracks(c', t') && c'.origin == c.origin
            && time == if t' >= c.origin.value then t' - c.origin.value else 0
  {
    TracksExactlyTellable(c, t, t');
    assert t' == t' / ERA * ERA + t' % ERA;
  }

  // ---------------------------------------------------------------- RTP's clock

  const NANOS := 1_000_000

  lemma CommonFactor(n: nat)
    ensures n * 1_000_000 / 1_000_000_000 == n / 1000
  {
  }

  /**
    * A time in milliseconds is the origin plus the whole clock ticks in it, modulo 2^32: less than one tick
    * off however long the stream has run, since nothing is carried from one timestamp to the next.
    */
  lemma MillisInTicks(s: Stream, millis: nat)
    ensures s.Timestamp(millis * NANOS) == (s.origin + millis * s.clockRate / 1000) % ERA
    ensures var ticks := millis * s.clockRate / 1000;
            1000 * ticks <= millis * s.clockRate < 1000 * (ticks + 1)
  {
    var n := millis * s.clockRate;
    assert millis * NANOS * s.clockRate == n * 1_000_000;
    CommonFactor(n);
  }

  /** For video there is nothing to round: 90 ticks a millisecond. */
  lemma VideoTicksAreExact(s: Stream, millis: nat)
    requires s.clockRate == 90_000
    ensures s.Timestamp(millis * NANOS) == (s.origin + 90 * millis) % ERA
  {
    MillisInTicks(s, millis);
    assert millis * 90_000 / 1000 == 90 * millis;
  }
}

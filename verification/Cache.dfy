/**
  * What a path keeps for readers that have not joined yet, as a function of
  * everything ever pushed to it.
  */
module Cache {
  import opened Wrappers
  import opened Bytes
  import opened Unit

  const CACHE_LIMIT := 8 * 1024 * 1024

  function Total(units: seq<Unit>): nat {
    if units == [] then 0 else units[0].Len() + Total(units[1..])
  }

  /** Where the last picture a stream can be started at is. */
  function LastOpening(history: seq<Unit>): (r: Option<nat>)
    ensures r.Some? ==> r.value < |history|
  {
    if history == [] then None
    else if history[|history| - 1].OpensAStream() then Some(|history| - 1)
    else LastOpening(history[..|history| - 1])
  }

  /** The longest end of a history that is not too much to keep. */
  function Trimmed(history: seq<Unit>): seq<Unit> {
    if Total(history) <= CACHE_LIMIT then history else Trimmed(history[1..])
  }

  /** The last group of pictures, whole or not at all; or with no pictures to cut at, as much sound as will go. */
  function Kept(history: seq<Unit>): seq<Unit> {
    match LastOpening(history)
    case Some(i) => if Total(history[i..]) <= CACHE_LIMIT then history[i..] else []
    case None => Trimmed(history)
  }

  /** The end of a history that a group of pictures is: from its opening picture on, or all of it. */
  function Group(history: seq<Unit>): seq<Unit> {
    match LastOpening(history)
    case Some(i) => history[i..]
    case None => history
  }

  class Cache {
    var units: seq<Unit>
    var bytes: nat
    var overflowed: bool
    var pictures: bool
    ghost var history: seq<Unit>

    ghost predicate Valid()
      reads this
    {
      && units == Kept(history)
      && bytes == Total(units)
      && (pictures <==> LastOpening(history).Some?)
      && (overflowed <==> pictures && Total(Group(history)) > CACHE_LIMIT)
    }

    constructor ()
      ensures Valid() && history == [] && units == []
    {
      units, bytes, overflowed, pictures := [], 0, false, false;
      history := [];
    }

    /** Adds a unit, dropping what there is then too much of. */
    method Push(unit: Unit)
      requires Valid()
      modifies this
      ensures Valid() && history == old(history) + [unit]
      ensures units == Kept(old(history) + [unit])
    {
      hide Kept, Trimmed, Total, LastOpening;
      ghost var before := history;
      history := history + [unit];
      PushedHistory(before, unit);
      if unit.OpensAStream() {
        units := [];
        bytes := 0;
        overflowed := false;
        pictures := true;
      }
      if overflowed {
        return;
      }
      TotalAppend(units, unit);
      units := units + [unit];
      bytes := bytes + unit.Len();
      while bytes > CACHE_LIMIT
        invariant history == before + [unit] && bytes == Total(units)
        invariant pictures ==> units == Group(history)
        invariant !pictures ==> Trimmed(units) == Kept(history)
        invariant pictures <==> LastOpening(history).Some?
        invariant !overflowed
        decreases |units|
      {
        if pictures {
          units := [];
          bytes := 0;
          overflowed := true;
          PicturesOverflow(history);
          return;
        }
        if units == [] {
          return;
        }
        OldestDropped(units);
        bytes := bytes - units[0].Len();
        units := units[1..];
      }
      PushSettles(history, units);
    }
  }

  lemma PushOpens(before: seq<Unit>, unit: Unit)
    requires unit.OpensAStream()
    ensures LastOpening(before + [unit]) == Some(|before|) && Group(before + [unit]) == [unit]
  {
  }

  lemma PushContinues(before: seq<Unit>, unit: Unit)
    requires !unit.OpensAStream()
    ensures LastOpening(before + [unit]) == LastOpening(before)
    ensures Group(before + [unit]) == Group(before) + [unit]
    ensures Total(Group(before + [unit])) == Total(Group(before)) + unit.Len()
  {
    hide Total;
    var after := before + [unit];
    assert after[..|before|] == before;
    TotalAppend(Group(before), unit);
    if LastOpening(before).Some? {
      var i := LastOpening(before).value;
      assert after[i..] == before[i..] + [unit];
    }
  }

  /** What a push makes of what is kept. */
  lemma PushedHistory(before: seq<Unit>, unit: Unit)
    ensures var after := before + [unit];
            && (unit.OpensAStream() ==> LastOpening(after).Some? && Group(after) == [unit])
            && (!unit.OpensAStream() ==> LastOpening(after) == LastOpening(before))
            && (LastOpening(after).Some? && !unit.OpensAStream() ==>
                  if Total(Group(before)) > CACHE_LIMIT
                  then Kept(after) == [] == Kept(before) && Total(Group(after)) > CACHE_LIMIT
                  else Kept(before) == Group(before) && Group(after) == Kept(before) + [unit])
            && (LastOpening(after).None? ==> Trimmed(Kept(before) + [unit]) == Kept(after))
            && Total([]) == 0 && [] + [unit] == [unit]
  {
    hide Trimmed, Total;
    NothingIsLittle();
    if unit.OpensAStream() {
      PushOpens(before, unit);
    } else {
      PushContinues(before, unit);
      TrimmedPush(before, unit);
    }
  }

  lemma PicturesOverflow(history: seq<Unit>)
    requires LastOpening(history).Some? && Total(Group(history)) > CACHE_LIMIT
    ensures Kept(history) == [] && Total([]) == 0
  {
  }

  lemma OldestDropped(units: seq<Unit>)
    requires Total(units) > CACHE_LIMIT && units != []
    ensures Trimmed(units[1..]) == Trimmed(units) && Total(units) == units[0].Len() + Total(units[1..])
  {
  }

  lemma PushSettles(history: seq<Unit>, units: seq<Unit>)
    requires Total(units) <= CACHE_LIMIT
    requires if LastOpening(history).Some? then units == Group(history) else Trimmed(units) == Kept(history)
    ensures units == Kept(history)
  {
  }

  // ---------------------------------------------------------------- what is kept

  lemma {:induction false} TotalAppend(units: seq<Unit>, unit: Unit)
    ensures Total(units + [unit]) == Total(units) + unit.Len()
    decreases |units|
  {
    if units == [] {
      assert [unit][1..] == [];
    } else {
      assert (units + [unit])[1..] == units[1..] + [unit];
      TotalAppend(units[1..], unit);
    }
  }

  /** Trimming as units come is trimming what came. */
  lemma {:induction false} TrimmedPush(history: seq<Unit>, unit: Unit)
    ensures Trimmed(Trimmed(history) + [unit]) == Trimmed(history + [unit])
    decreases |history|
  {
    hide Total;
    NothingIsLittle();
    if Total(history) > CACHE_LIMIT {
      TrimmedPush(history[1..], unit);
      TotalAppend(history, unit);
      assert (history + [unit])[1..] == history[1..] + [unit];
    }
  }

  /** It is an end of the history, it is not too much, and no longer end would do. */
  lemma {:induction false} TrimmedIsLongest(history: seq<Unit>)
    ensures exists k | 0 <= k <= |history| :: Trimmed(history) == history[k..]
    ensures Total(Trimmed(history)) <= CACHE_LIMIT
    ensures forall k :: 0 <= k <= |history| && Total(history[k..]) <= CACHE_LIMIT ==>
              |history| - k <= |Trimmed(history)|
    decreases |history|
  {
    hide Total;
    if Total(history) <= CACHE_LIMIT {
      assert history[0..] == history;
    } else {
      NothingIsLittle();
      TrimmedIsLongest(history[1..]);
      var k :| 0 <= k <= |history| - 1 && Trimmed(history[1..]) == history[1..][k..];
      DropDrop(history, 1, k);
      forall j | 0 <= j <= |history| && Total(history[j..]) <= CACHE_LIMIT
        ensures |history| - j <= |Trimmed(history)|
      {
        assert history[0..] == history;
        DropDrop(history, 1, j - 1);
      }
    }
  }

  lemma NothingIsLittle()
    ensures Total([]) == 0
  {
  }

  /** The last opening picture is one, and nothing after it is. */
  lemma {:induction false} LastOpeningIsLast(history: seq<Unit>)
    ensures match LastOpening(history)
            case Some(i) => history[i].OpensAStream() && forall j :: i < j < |history| ==> !history[j].OpensAStream()
            case None => forall j :: 0 <= j < |history| ==> !history[j].OpensAStream()
    decreases |history|
  {
    if history != [] && !history[|history| - 1].OpensAStream() {
      LastOpeningIsLast(history[..|history| - 1]);
    }
  }

  /** The coded bytes of units, end to end. */
  function Stored(units: seq<Unit>): seq<byte> {
    if units == [] then [] else CodedBytes(units[0]) + Stored(units[1..])
  }

  lemma {:induction false} TotalIsOfBytes(units: seq<Unit>)
    ensures Total(units) == |Stored(units)|
  {
    if units != [] {
      LenIsOfBytes(units[0]);
      TotalIsOfBytes(units[1..]);
    }
  }

  /**
    * A path with pictures keeps everything from the last one that opens a stream on, unless that is more than
    * eight mebibytes of coded bytes: then nothing.
    */
  lemma GroupIsKeptExactly(history: seq<Unit>, i: nat)
    requires i < |history| && history[i].OpensAStream()
    requires forall j :: i < j < |history| ==> !history[j].OpensAStream()
    ensures Kept(history) == if |Stored(history[i..])| <= 8_388_608 then history[i..] else []
  {
    hide Total, Trimmed, Stored, CodedBytes;
    LastOpeningIsLast(history);
    TotalIsOfBytes(history[i..]);
  }

  /** And one with none keeps the longest end that is no more than that. */
  lemma SoundIsKeptExactly(history: seq<Unit>, k: nat)
    requires forall unit <- history :: !unit.OpensAStream()
    requires k <= |history| && |Stored(history[k..])| <= 8_388_608
    requires k > 0 ==> |Stored(history[k - 1..])| > 8_388_608
    ensures Kept(history) == history[k..]
  {
    hide Trimmed, Stored, CodedBytes, Total;
    LastOpeningIsLast(history);
    TrimmedIsLongest(history);
    TotalIsOfBytes(history[k..]);
    if |Trimmed(history)| > |history| - k {
      LessIsLess(history, |history| - |Trimmed(history)|, k - 1);
      TotalIsOfBytes(history[k - 1..]);
      assert false;
    }
  }

  /** A longer end is no less to keep. */
  lemma {:induction false} LessIsLess(history: seq<Unit>, i: nat, j: nat)
    requires i <= j <= |history|
    ensures Total(history[j..]) <= Total(history[i..])
    decreases j - i
  {
    if i < j {
      LessIsLess(history, i + 1, j);
      assert history[i..][1..] == history[i + 1..];
    }
  }

  /**
    * What a joining reader is given: an unbroken run of units ending at the last one pushed, or nothing; never
    * more than the limit; and if the stream has pictures, beginning at one that opens a stream.
    */
  lemma KeptIsAnEnd(history: seq<Unit>)
    ensures Kept(history) == [] || exists k | 0 <= k < |history| :: Kept(history) == history[k..]
    ensures Total(Kept(history)) <= CACHE_LIMIT
    ensures LastOpening(history).Some? && Kept(history) != [] ==> Kept(history)[0].OpensAStream()
  {
    hide Total, Trimmed;
    NothingIsLittle();
    LastOpeningIsLast(history);
    TrimmedIsLongest(history);
  }
}

/** How `TrackerBase` feeds the levels of a book message into a side: `FillSide` for a
    snapshot, `UpdateSide` for a delta, and the timestamp helpers `MaxTs` and
    `MaxNonRepublishedTs`. */
module TrackerLevels {
  import opened Wrappers
  import opened Text
  import opened JsonParsing
  import opened ExactFloats
  import opened OrderbookSides

  /** The volume text a delta uses to delete a price level; compared as a string. */
  const ZeroVolume: string := "0.00000000"

  /** A side after a run of levels, and whether every level went in. A level whose price or
      volume text `long.Parse` rejects, or a snapshot price already present, throws: the side
      then stays as it was before that level and the rest of the levels are not looked at. */
  datatype Applied = Applied(side: Side, completed: bool)

  /** The level's price parses and equals `q` under the comparer. */
  predicate PriceIs(t: LevelTuple, q: ExactFloat)
  {
    Parse(t.priceLevel).Success? && Compare(Parse(t.priceLevel).value, q) == 0
  }

  /** One step of `FillSide`: `side.Add(new ExactFloat(price), new ExactFloat(volume))`. */
  function AddLevel(t: LevelTuple, side: Side): (r: Applied)
    requires Sorted(side)
    ensures Sorted(r.side)
    ensures !r.completed ==> r.side == side
  {
    var price := Parse(t.priceLevel);
    var volume := Parse(t.volume);
    if price.Failure? || volume.Failure? then Applied(side, false)
    else
      match Add(side, price.value, volume.value)
      case None => Applied(side, false)
      case Some(s) => Applied(s, true)
  }

  /** What `FillSide` leaves in `side` after adding the levels in order. */
  function FillSpec(levels: seq<LevelTuple>, side: Side): (r: Applied)
    requires Sorted(side)
    ensures Sorted(r.side)
    decreases |levels|
  {
    if levels == [] then Applied(side, true)
    else
      var a := AddLevel(levels[0], side);
      if !a.completed then a else FillSpec(levels[1..], a.side)
  }

  /** `FillSide`: the foreach loop over the levels. */
  method FillSide(levels: seq<LevelTuple>, side: Side) returns (r: Applied)
    requires Sorted(side)
    ensures r == FillSpec(levels, side)
  {
    var cur := side;
    var i := 0;
    while i < |levels|
      invariant 0 <= i <= |levels|
      invariant Sorted(cur)
      invariant FillSpec(levels[i..], cur) == FillSpec(levels, side)
    {
      assert levels[i..][1..] == levels[i + 1..];
      var a := AddLevel(levels[i], cur);
      if !a.completed {
        return a;
      }
      cur := a.side;
      i := i + 1;
    }
    return Applied(cur, true);
  }

  /** One step of `UpdateSide`: a volume other than the zero text sets the price level,
      the zero text removes it. */
  function ApplyLevel(t: LevelTuple, side: Side): (r: Applied)
    requires Sorted(side)
    ensures Sorted(r.side)
    ensures !r.completed ==> r.side == side
  {
    if t.volume != ZeroVolume then
      var price := Parse(t.priceLevel);
      var volume := Parse(t.volume);
      if price.Failure? || volume.Failure? then Applied(side, false)
      else Applied(SetValue(side, price.value, volume.value), true)
    else
      var price := Parse(t.priceLevel);
      if price.Failure? then Applied(side, false)
      else Applied(Remove(side, price.value), true)
  }

  /** What `UpdateSide` leaves in `side` after applying the levels in order. */
  function UpdateSpec(levels: seq<LevelTuple>, side: Side): (r: Applied)
    requires Sorted(side)
    ensures Sorted(r.side)
    decreases |levels|
  {
    if levels == [] then Applied(side, true)
    else
      var a := ApplyLevel(levels[0], side);
      if !a.completed then a else UpdateSpec(levels[1..], a.side)
  }

  /** `UpdateSide`: the foreach loop over the levels. */
  method UpdateSide(levels: seq<LevelTuple>, side: Side) returns (r: Applied)
    requires Sorted(side)
    ensures r == UpdateSpec(levels, side)
  {
    var cur := side;
    var i := 0;
    while i < |levels|
      invariant 0 <= i <= |levels|
      invariant Sorted(cur)
      invariant UpdateSpec(levels[i..], cur) == UpdateSpec(levels, side)
    {
      assert levels[i..][1..] == levels[i + 1..];
      var a := ApplyLevel(levels[i], cur);
      if !a.completed {
        return a;
      }
      cur := a.side;
      i := i + 1;
    }
    return Applied(cur, true);
  }

  // ---------------------------------------------------------------------------------------
  // The delta rule: the last level naming a price decides it, the others are untouched

  /** A level naming another price leaves what `q` reads. */
  lemma ApplyLevelOther(t: LevelTuple, side: Side, q: ExactFloat)
    requires Sorted(side) && ApplyLevel(t, side).completed && !PriceIs(t, q)
    ensures Lookup(ApplyLevel(t, side).side, q) == Lookup(side, q)
  {
    var p := Parse(t.priceLevel).value;
    CompareAntisymmetric(q, p);
    if t.volume != ZeroVolume {
      LookupSetValue(side, p, Parse(t.volume).value, q);
    } else {
      LookupRemove(side, p, q);
    }
  }

  /** A level naming `q` decides what it reads: absent for the zero text, else its volume. */
  lemma ApplyLevelSame(t: LevelTuple, side: Side, q: ExactFloat)
    requires Sorted(side) && ApplyLevel(t, side).completed && PriceIs(t, q)
    ensures t.volume != ZeroVolume ==> Parse(t.volume).Success?
    ensures Lookup(ApplyLevel(t, side).side, q)
            == if t.volume == ZeroVolume then None else Some(Parse(t.volume).value)
  {
    var p := Parse(t.priceLevel).value;
    CompareAntisymmetric(q, p);
    if t.volume != ZeroVolume {
      LookupSetValue(side, p, Parse(t.volume).value, q);
    } else {
      LookupRemove(side, p, q);
    }
  }

  /** A delta that names no price equal to `q` leaves what `q` reads. */
  lemma {:induction false} UpdateUntouched(levels: seq<LevelTuple>, side: Side, q: ExactFloat)
    requires Sorted(side) && UpdateSpec(levels, side).completed
    requires forall k :: 0 <= k < |levels| ==> !PriceIs(levels[k], q)
    ensures Lookup(UpdateSpec(levels, side).side, q) == Lookup(side, q)
    decreases |levels|
  {
    if levels != [] {
      var a := ApplyLevel(levels[0], side);
      ApplyLevelOther(levels[0], side, q);
      assert forall k :: 0 <= k < |levels[1..]| ==> levels[1..][k] == levels[k + 1];
      UpdateUntouched(levels[1..], a.side, q);
    }
  }

  /** The last level of a delta naming `q` decides it: the zero text deletes the price,
      any other volume is what the price then reads. */
  lemma {:induction false} UpdateLastLevelWins(levels: seq<LevelTuple>, side: Side, q: ExactFloat, j: int)
    requires Sorted(side) && UpdateSpec(levels, side).completed
    requires 0 <= j < |levels| && PriceIs(levels[j], q)
    requires forall k :: j < k < |levels| ==> !PriceIs(levels[k], q)
    ensures levels[j].volume != ZeroVolume ==> Parse(levels[j].volume).Success?
    ensures Lookup(UpdateSpec(levels, side).side, q)
            == if levels[j].volume == ZeroVolume then None else Some(Parse(levels[j].volume).value)
    decreases |levels|
  {
    var a := ApplyLevel(levels[0], side);
    assert forall k :: 0 <= k < |levels[1..]| ==> levels[1..][k] == levels[k + 1];
    if j == 0 {
      ApplyLevelSame(levels[0], side, q);
      UpdateUntouched(levels[1..], a.side, q);
    } else {
      UpdateLastLevelWins(levels[1..], a.side, q, j - 1);
    }
  }

  // ---------------------------------------------------------------------------------------
  // A snapshot fills an empty side with exactly its levels

  /** Filling never changes a key that is already present. */
  lemma {:induction false} FillKeepsPresent(levels: seq<LevelTuple>, side: Side, q: ExactFloat)
    requires Sorted(side) && FillSpec(levels, side).completed && Lookup(side, q).Some?
    ensures Lookup(FillSpec(levels, side).side, q) == Lookup(side, q)
    decreases |levels|
  {
    if levels != [] {
      var t := levels[0];
      var a := AddLevel(t, side);
      var p := Parse(t.priceLevel).value;
      assert Compare(q, p) != 0 by { AbsentIsOther(side, p, q); }
      LookupAdd(side, p, Parse(t.volume).value, q);
      FillKeepsPresent(levels[1..], a.side, q);
    }
  }

  /** A key absent from a side differs from every key present in it. */
  lemma AbsentIsOther(side: Side, p: ExactFloat, q: ExactFloat)
    requires Lookup(side, p).None? && Lookup(side, q).Some?
    ensures Compare(q, p) != 0
  {
    if Compare(q, p) == 0 {
      FindCongruent(side, q, p);
    }
  }

  /** A fill that reaches a level naming a key already present throws. */
  lemma {:induction false} FillNamingPresentFaults(levels: seq<LevelTuple>, side: Side, q: ExactFloat, k: int)
    requires Sorted(side) && Lookup(side, q).Some?
    requires 0 <= k < |levels| && PriceIs(levels[k], q)
    ensures !FillSpec(levels, side).completed
    decreases |levels|
  {
    var t := levels[0];
    var a := AddLevel(t, side);
    var p := Parse(t.priceLevel);
    if k == 0 {
      FindCongruent(side, p.value, q);
    } else if a.completed {
      assert Compare(q, p.value) != 0 by { AbsentIsOther(side, p.value, q); }
      LookupAdd(side, p.value, Parse(t.volume).value, q);
      assert levels[1..][k - 1] == levels[k];
      FillNamingPresentFaults(levels[1..], a.side, q, k - 1);
    }
  }

  /** Filling leaves a key that no level names as it was. */
  lemma {:induction false} FillUntouched(levels: seq<LevelTuple>, side: Side, q: ExactFloat)
    requires Sorted(side) && FillSpec(levels, side).completed
    requires forall k :: 0 <= k < |levels| ==> !PriceIs(levels[k], q)
    ensures Lookup(FillSpec(levels, side).side, q) == Lookup(side, q)
    decreases |levels|
  {
    if levels != [] {
      var t := levels[0];
      var p := Parse(t.priceLevel).value;
      CompareAntisymmetric(p, q);
      LookupAdd(side, p, Parse(t.volume).value, q);
      assert forall k :: 0 <= k < |levels[1..]| ==> levels[1..][k] == levels[k + 1];
      FillUntouched(levels[1..], AddLevel(t, side).side, q);
    }
  }

  /** Every level of a completed fill reads back its own volume. */
  lemma {:induction false} FillSets(levels: seq<LevelTuple>, side: Side, q: ExactFloat, j: int)
    requires Sorted(side) && FillSpec(levels, side).completed
    requires 0 <= j < |levels| && PriceIs(levels[j], q)
    ensures Parse(levels[j].volume).Success?
    ensures Lookup(FillSpec(levels, side).side, q) == Some(Parse(levels[j].volume).value)
    decreases |levels|
  {
    var t := levels[0];
    var a := AddLevel(t, side);
    assert forall k :: 0 <= k < |levels[1..]| ==> levels[1..][k] == levels[k + 1];
    if j == 0 {
      var p := Parse(t.priceLevel).value;
      CompareAntisymmetric(p, q);
      LookupAdd(side, p, Parse(t.volume).value, q);
      FillKeepsPresent(levels[1..], a.side, q);
    } else {
      FillSets(levels[1..], a.side, q, j - 1);
    }
  }

  /** A completed fill adds one entry per level. */
  lemma {:induction false} FillSize(levels: seq<LevelTuple>, side: Side)
    requires Sorted(side) && FillSpec(levels, side).completed
    ensures |FillSpec(levels, side).side| == |side| + |levels|
    decreases |levels|
  {
    if levels != [] {
      FillSize(levels[1..], AddLevel(levels[0], side).side);
    }
  }

  /** Two levels with the same price make the fill throw. */
  lemma {:induction false} RepeatedPriceFaults(levels: seq<LevelTuple>, side: Side, j: int, k: int)
    requires Sorted(side) && 0 <= j < k < |levels|
    requires Parse(levels[j].priceLevel).Success? && PriceIs(levels[k], Parse(levels[j].priceLevel).value)
    ensures !FillSpec(levels, side).completed
    decreases j
  {
    var t := levels[0];
    var a := AddLevel(t, side);
    var rest := levels[1..];
    assert rest[k - 1] == levels[k];
    if a.completed {
      assert FillSpec(levels, side) == FillSpec(rest, a.side);
      if j == 0 {
        var q := Parse(t.priceLevel).value;
        CompareReflexive(q);
        LookupAdd(side, q, Parse(t.volume).value, q);
        FillNamingPresentFaults(rest, a.side, q, k - 1);
      } else {
        assert rest[j - 1] == levels[j];
        var p := Parse(rest[j - 1].priceLevel);
        assert p.Success? && PriceIs(rest[k - 1], p.value);
        RepeatedPriceFaults(rest, a.side, j - 1, k - 1);
      }
    }
  }

  // ---------------------------------------------------------------------------------------
  // Timestamps

  /** `levels.Max(x => x.Timestamp)` under ordinal order: null (`None`) for no levels. */
  function MaxTimestamp(levels: seq<LevelTuple>): (r: Option<string>)
    ensures r.None? <==> levels == []
    ensures r.Some? ==> exists j :: 0 <= j < |levels| && levels[j].timestamp == r.value
    ensures r.Some? ==> forall j :: 0 <= j < |levels| ==> OrdinalCompare(levels[j].timestamp, r.value) <= 0
  {
    if levels == [] then None
    else
      var n := |levels| - 1;
      var prefix := MaxTimestamp(levels[..n]);
      assert forall j :: 0 <= j < n ==> levels[..n][j] == levels[j];
      if prefix.None? then Some(levels[n].timestamp)
      else
        var m := OrdinalMax(prefix.value, levels[n].timestamp);
        assert forall j :: 0 <= j < n ==> OrdinalCompare(levels[j].timestamp, m) <= 0 by {
          forall j | 0 <= j < n ensures OrdinalCompare(levels[j].timestamp, m) <= 0 {
            OrdinalCompareTransitive(levels[j].timestamp, prefix.value, m);
          }
        }
        Some(m)
  }

  /** The levels that are not republications (`UpdateType != "r"`), in order. */
  function NonRepublished(levels: seq<LevelTuple>): (r: seq<LevelTuple>)
    ensures forall t :: t in r <==> t in levels && t.updateType != "r"
  {
    if levels == [] then []
    else if levels[0].updateType != "r" then [levels[0]] + NonRepublished(levels[1..])
    else NonRepublished(levels[1..])
  }

  /** `MaxNonRepublishedTs`. */
  function MaxNonRepublished(levels: seq<LevelTuple>): (r: Option<string>)
    ensures r.None? <==> forall t :: t in levels ==> t.updateType == "r"
    ensures r.Some? ==> exists t :: t in levels && t.updateType != "r" && t.timestamp == r.value
    ensures r.Some? ==> forall t :: t in levels && t.updateType != "r" ==> OrdinalCompare(t.timestamp, r.value) <= 0
  {
    var kept := NonRepublished(levels);
    var r := MaxTimestamp(kept);
    assert forall t :: t in kept <==> exists j :: 0 <= j < |kept| && kept[j] == t;
    r
  }

  /** `string.Compare(a, b, StringComparison.Ordinal)` where `None` is a null reference,
      which orders before every string. */
  function CompareNullable(a: Option<string>, b: Option<string>): (r: int)
    ensures -1 <= r <= 1
  {
    match (a, b)
    case (None, None) => 0
    case (None, Some(_)) => -1
    case (Some(_), None) => 1
    case (Some(x), Some(y)) => OrdinalCompare(x, y)
  }

  /** The timestamp after a delta whose two sides have the given newest non-republished
      timestamps: the test `!= string.Empty` holds for a null, a null candidate loses to the
      current timestamp, and the greater one is kept. */
  function NextTimestamp(current: string, maxAsk: Option<string>, maxBid: Option<string>): (r: string)
    ensures r == current || Some(r) == maxAsk || Some(r) == maxBid
  {
    if !(maxAsk != Some("") || maxBid != Some("")) then current
    else
      var candidate := if CompareNullable(maxAsk, maxBid) >= 0 then maxAsk else maxBid;
      match candidate
      case None => current
      case Some(c) => if OrdinalCompare(c, current) >= 0 then c else current
  }

  /** The new timestamp is the ordinal maximum of the current one and both candidates, so it
      never decreases. */
  lemma NextTimestampIsMax(current: string, maxAsk: Option<string>, maxBid: Option<string>)
    ensures OrdinalCompare(current, NextTimestamp(current, maxAsk, maxBid)) <= 0
    ensures maxAsk.Some? ==> OrdinalCompare(maxAsk.value, NextTimestamp(current, maxAsk, maxBid)) <= 0
    ensures maxBid.Some? ==> OrdinalCompare(maxBid.value, NextTimestamp(current, maxAsk, maxBid)) <= 0
  {
    var r := NextTimestamp(current, maxAsk, maxBid);
    if !(maxAsk != Some("") || maxBid != Some("")) {
      EmptyLeast(current);
    } else {
      var candidate := if CompareNullable(maxAsk, maxBid) >= 0 then maxAsk else maxBid;
      if maxAsk.Some? && maxBid.Some? {
        OrdinalCompareAntisymmetric(maxAsk.value, maxBid.value);
      }
      if candidate.Some? {
        var c := candidate.value;
        OrdinalCompareAntisymmetric(c, current);
        if maxAsk.Some? { OrdinalCompareTransitive(maxAsk.value, c, r); }
        if maxBid.Some? { OrdinalCompareTransitive(maxBid.value, c, r); }
      }
    }
  }

  /** The order `string.Compare` gives: the empty string is the least. */
  lemma EmptyLeast(s: string)
    ensures OrdinalCompare("", s) <= 0
  {
  }

  // ---------------------------------------------------------------------------------------
  // Trimming to the subscription depth

  /** The side `TrimDepth` leaves: at most `depth` entries, taken from the low end for the
      asks (`trimHighest`) and from the high end for the bids. */
  function Trimmed(s: Side, depth: nat, trimHighest: bool): (r: Side)
    ensures |r| == if |s| <= depth then |s| else depth
  {
    if |s| <= depth then s else if trimHighest then s[..depth] else s[|s| - depth..]
  }

  /** Trimming keeps the sort order, keeps only entries of the side, and every entry it drops
      is worse (a higher ask, a lower bid) than every entry it keeps. */
  lemma TrimKeepsBest(s: Side, depth: nat, trimHighest: bool)
    requires Sorted(s)
    ensures Sorted(Trimmed(s, depth, trimHighest))
    ensures forall x :: x in Trimmed(s, depth, trimHighest) ==> x in s
    ensures forall i, j :: (0 <= i < |Trimmed(s, depth, trimHighest)| && 0 <= j < |s|
              && s[j] !in Trimmed(s, depth, trimHighest)) ==>
              (if trimHighest then Compare(Trimmed(s, depth, trimHighest)[i].price, s[j].price) == -1
               else Compare(s[j].price, Trimmed(s, depth, trimHighest)[i].price) == -1)
  {
    var r := Trimmed(s, depth, trimHighest);
    if |s| > depth {
      var off := if trimHighest then 0 else |s| - depth;
      assert forall i :: 0 <= i < |r| ==> r[i] == s[off + i];
      assert forall j :: off <= j < off + depth ==> s[j] in r by {
        forall j | off <= j < off + depth ensures s[j] in r {
          assert s[j] == r[j - off];
        }
      }
    }
  }

  /** Trimming keeps the sort order. */
  lemma TrimmedSorted(s: Side, depth: nat, trimHighest: bool)
    requires Sorted(s)
    ensures Sorted(Trimmed(s, depth, trimHighest))
  {
    TrimKeepsBest(s, depth, trimHighest);
  }

  /** Trimming only forgets keys: a key still present reads the volume it read before. */
  lemma TrimmedReadsAsBefore(s: Side, depth: nat, trimHighest: bool, q: ExactFloat)
    requires Sorted(s) && Lookup(Trimmed(s, depth, trimHighest), q).Some?
    ensures Lookup(Trimmed(s, depth, trimHighest), q) == Lookup(s, q)
  {
    var t := Trimmed(s, depth, trimHighest);
    TrimKeepsBest(s, depth, trimHighest);
    var i := Find(t, q);
    assert t[i] in s;
    var k :| 0 <= k < |s| && s[k] == t[i];
    FindUnique(s, q, k);
  }

  /** `side.Remove(side.ElementAt(i).Key)`: in a sorted side, exactly the entry at `i` goes. */
  lemma RemoveAtIndex(s: Side, i: int)
    requires Sorted(s) && 0 <= i < |s|
    ensures Remove(s, s[i].price) == s[..i] + s[i + 1..]
  {
    FindUnique(s, s[i].price, i);
  }

  /** `TrimDepth`: remove the last entry, or the first, until `depth` remain. */
  method TrimDepth(side: Side, depth: nat, trimHighest: bool) returns (r: Side)
    requires Sorted(side)
    ensures r == Trimmed(side, depth, trimHighest)
  {
    r := side;
    var currentDepth := |side|;
    if currentDepth <= depth {
      return;
    }
    if trimHighest {
      var i := currentDepth - 1;
      while i >= depth
        invariant depth - 1 <= i < currentDepth
        invariant r == side[..i + 1]
        invariant Sorted(r)
        decreases i
      {
        RemoveAtIndex(r, i);
        assert r[..i] + r[i + 1..] == side[..i];
        r := Remove(r, r[i].price);
        i := i - 1;
      }
    } else {
      var i := 0;
      while i < currentDepth - depth
        invariant 0 <= i <= currentDepth - depth
        invariant r == side[i..]
        invariant Sorted(r)
      {
        RemoveAtIndex(r, 0);
        assert r[..0] + r[1..] == side[i + 1..];
        r := Remove(r, r[0].price);
        i := i + 1;
      }
    }
  }
}

/** One side of a local order book: the `SortedDictionary<ExactFloat, ExactFloat>` keyed by
    `ExactFloatComparer`, held as its entries in ascending key order. */
module OrderbookSides {
  import opened Wrappers
  import opened ExactFloats

  /** One dictionary entry: a price level and the volume resting at it. */
  datatype Entry = Entry(price: ExactFloat, volume: ExactFloat)

  /** The entries as the dictionary enumerates them. */
  type Side = seq<Entry>

  /** Strictly ascending under the comparer, so no two entries share a key. */
  predicate Sorted(s: Side)
  {
    forall i, j :: 0 <= i < j < |s| ==> Compare(s[i].price, s[j].price) == -1
  }

  /** The comparer is the order of the rational values, for every pair at once. */
  lemma CompareIsValueOrderAll()
    ensures forall x, y {:trigger Compare(x, y)} :: Compare(x, y) == CompareReal(Value(x), Value(y))
  {
    forall x, y ensures Compare(x, y) == CompareReal(Value(x), Value(y)) {
      CompareIsValueOrder(x, y);
    }
  }

  /** The position of an entry whose key the comparer finds equal to `k`, or -1. */
  function Find(s: Side, k: ExactFloat): (r: int)
    ensures -1 <= r < |s|
    ensures r >= 0 ==> Compare(s[r].price, k) == 0
    ensures r == -1 <==> forall i :: 0 <= i < |s| ==> Compare(s[i].price, k) != 0
  {
    if s == [] then -1
    else if Compare(s[0].price, k) == 0 then 0
    else
      var r := Find(s[1..], k);
      assert forall i :: 0 < i < |s| ==> s[i] == s[1..][i - 1];
      if r == -1 then -1 else r + 1
  }

  /** `Find` gives the first such position: no entry before it compares equal. */
  lemma {:induction false} FindFirst(s: Side, k: ExactFloat)
    ensures Find(s, k) >= 0 ==> forall i :: 0 <= i < Find(s, k) ==> Compare(s[i].price, k) != 0
  {
    if s != [] && Compare(s[0].price, k) != 0 {
      FindFirst(s[1..], k);
      assert forall i :: 0 < i < |s| ==> s[i] == s[1..][i - 1];
    }
  }

  /** In a sorted side every key sits at exactly one position. */
  lemma FindUnique(s: Side, k: ExactFloat, i: int)
    requires Sorted(s) && 0 <= i < |s| && Compare(s[i].price, k) == 0
    ensures Find(s, k) == i
  {
    CompareIsValueOrderAll();
    assert forall a, b :: 0 <= a < b < |s| ==> Value(s[a].price) < Value(s[b].price);
  }

  /** Keys the comparer finds equal are found at the same position. */
  lemma {:induction false} FindCongruent(s: Side, p: ExactFloat, q: ExactFloat)
    requires Compare(p, q) == 0
    ensures Find(s, p) == Find(s, q)
  {
    if s != [] {
      CompareIsValueOrder(s[0].price, p);
      CompareIsValueOrder(s[0].price, q);
      CompareIsValueOrder(p, q);
      FindCongruent(s[1..], p, q);
    }
  }

  /** `TryGetValue`: the volume stored under a key equal to `k`. */
  function Lookup(s: Side, k: ExactFloat): (r: Option<ExactFloat>)
    ensures r.None? <==> forall i :: 0 <= i < |s| ==> Compare(s[i].price, k) != 0
    ensures r.Some? ==> exists i :: 0 <= i < |s| && Compare(s[i].price, k) == 0 && s[i].volume == r.value
  {
    var i := Find(s, k);
    if i >= 0 then Some(s[i].volume) else None
  }

  /** Inserting a key not yet present at its place in the order. */
  function Insert(s: Side, e: Entry): (r: Side)
    requires Sorted(s) && Find(s, e.price) == -1
    ensures Sorted(r) && |r| == |s| + 1
    ensures forall x :: x in r <==> x in s || x == e
  {
    CompareIsValueOrderAll();
    if s == [] then [e]
    else if Compare(e.price, s[0].price) == -1 then [e] + s
    else
      assert Find(s[1..], e.price) == -1;
      var t := Insert(s[1..], e);
      assert forall x :: x in s[1..] ==> Compare(s[0].price, x.price) == -1;
      [s[0]] + t
  }

  /** `side.Add(key, value)`: `None` where the dictionary throws because the key is present. */
  function Add(s: Side, k: ExactFloat, v: ExactFloat): (r: Option<Side>)
    requires Sorted(s)
    ensures r.None? <==> Lookup(s, k).Some?
    ensures r.Some? ==> Sorted(r.value) && |r.value| == |s| + 1
  {
    if Find(s, k) >= 0 then None else Some(Insert(s, Entry(k, v)))
  }

  /** `side[key] = value`: a present key keeps the key object it was stored with and takes the new
      volume; an absent key is inserted. */
  function SetValue(s: Side, k: ExactFloat, v: ExactFloat): (r: Side)
    requires Sorted(s)
    ensures Sorted(r)
    ensures Lookup(s, k).Some? ==> |r| == |s| && forall i :: 0 <= i < |s| ==> r[i].price == s[i].price
    ensures Lookup(s, k).None? ==> |r| == |s| + 1
  {
    var i := Find(s, k);
    if i >= 0 then s[i := Entry(s[i].price, v)] else Insert(s, Entry(k, v))
  }

  /** `side.Remove(key)`: the entry with an equal key, if any, is dropped. */
  function Remove(s: Side, k: ExactFloat): (r: Side)
    requires Sorted(s)
    ensures Sorted(r)
    ensures Lookup(s, k).Some? ==> |r| == |s| - 1
    ensures Lookup(s, k).None? ==> r == s
  {
    var i := Find(s, k);
    if i >= 0 then s[..i] + s[i + 1..] else s
  }

  /** After an insertion, the new key reads back its volume and every other key reads as before. */
  lemma LookupInsert(s: Side, e: Entry, q: ExactFloat)
    requires Sorted(s) && Find(s, e.price) == -1
    ensures Lookup(Insert(s, e), q) == if Compare(q, e.price) == 0 then Some(e.volume) else Lookup(s, q)
  {
    CompareIsValueOrderAll();
    var r := Insert(s, e);
    if Compare(q, e.price) == 0 {
      assert e in r;
      var j :| 0 <= j < |r| && r[j] == e;
      FindUnique(r, q, j);
    } else if Lookup(s, q).Some? {
      var i := Find(s, q);
      assert s[i] in r;
      var j :| 0 <= j < |r| && r[j] == s[i];
      FindUnique(r, q, j);
    } else {
      forall j | 0 <= j < |r| ensures Compare(r[j].price, q) != 0 {
        assert r[j] in s || r[j] == e;
      }
    }
  }

  /** `side[k] = v` is a map update: `k` reads `v` afterwards and every other key is untouched. */
  lemma LookupSetValue(s: Side, k: ExactFloat, v: ExactFloat, q: ExactFloat)
    requires Sorted(s)
    ensures Lookup(SetValue(s, k, v), q) == if Compare(q, k) == 0 then Some(v) else Lookup(s, q)
  {
    CompareIsValueOrderAll();
    var i := Find(s, k);
    if i >= 0 {
      var r := SetValue(s, k, v);
      if Compare(q, k) == 0 {
        FindUnique(r, q, i);
      } else if Lookup(s, q).Some? {
        var j := Find(s, q);
        assert j != i;
        FindUnique(r, q, j);
      } else {
        assert forall j :: 0 <= j < |r| ==> r[j].price == s[j].price;
      }
    } else {
      LookupInsert(s, Entry(k, v), q);
    }
  }

  /** `side.Remove(k)` is a map removal: `k` is absent afterwards and every other key is untouched. */
  lemma LookupRemove(s: Side, k: ExactFloat, q: ExactFloat)
    requires Sorted(s)
    ensures Lookup(Remove(s, k), q) == if Compare(q, k) == 0 then None else Lookup(s, q)
  {
    var i := Find(s, k);
    SameKeyAsFound(s, k, q);
    if i < 0 {
      assert Remove(s, k) == s;
    } else if Compare(q, k) == 0 {
      RemovedKeyAbsent(s, i, q);
    } else {
      RemoveKeepsOthers(s, i, q);
    }
  }

  /** A key equal to `k` is equal to the entry found for `k`, and is absent where `k` is. */
  lemma SameKeyAsFound(s: Side, k: ExactFloat, q: ExactFloat)
    ensures Find(s, k) >= 0 ==> (Compare(q, k) == 0 <==> Compare(s[Find(s, k)].price, q) == 0)
    ensures Find(s, k) < 0 && Compare(q, k) == 0 ==> Lookup(s, q).None?
  {
    var i := Find(s, k);
    if i >= 0 {
      CompareIsValueOrder(s[i].price, k);
      CompareIsValueOrder(q, k);
      CompareIsValueOrder(s[i].price, q);
    } else if Compare(q, k) == 0 {
      forall j | 0 <= j < |s| ensures Compare(s[j].price, q) != 0 {
        CompareIsValueOrder(s[j].price, k);
        CompareIsValueOrder(q, k);
        CompareIsValueOrder(s[j].price, q);
      }
    }
  }

  /** Dropping the entry at `i` leaves no entry whose key equals that entry's. */
  lemma RemovedKeyAbsent(s: Side, i: int, q: ExactFloat)
    requires Sorted(s) && 0 <= i < |s| && Compare(s[i].price, q) == 0
    ensures Lookup(s[..i] + s[i + 1..], q).None?
  {
    CompareIsValueOrderAll();
    var r := s[..i] + s[i + 1..];
    forall j | 0 <= j < |r| ensures Compare(r[j].price, q) != 0 {
      if j < i {
        assert r[j] == s[j];
        assert Compare(s[j].price, s[i].price) == -1;
      } else {
        assert r[j] == s[j + 1];
        assert Compare(s[i].price, s[j + 1].price) == -1;
      }
    }
  }

  /** Dropping one entry of a sorted side leaves it sorted. */
  lemma RemoveAtSorted(s: Side, i: int)
    requires Sorted(s) && 0 <= i < |s|
    ensures Sorted(s[..i] + s[i + 1..])
  {
    var r := s[..i] + s[i + 1..];
    assert forall j :: 0 <= j < |r| ==> r[j] == s[if j < i then j else j + 1];
  }

  /** Dropping the entry at `i` keeps what every key not equal to it reads. */
  lemma RemoveKeepsOthers(s: Side, i: int, q: ExactFloat)
    requires Sorted(s) && 0 <= i < |s| && Compare(s[i].price, q) != 0
    ensures Sorted(s[..i] + s[i + 1..])
    ensures Lookup(s[..i] + s[i + 1..], q) == Lookup(s, q)
  {
    var r := s[..i] + s[i + 1..];
    RemoveAtSorted(s, i);
    var j := Find(s, q);
    if j >= 0 {
      var k := if j < i then j else j - 1;
      assert r[k] == s[j];
      FindUnique(r, q, k);
    } else {
      forall m | 0 <= m < |r| ensures Compare(r[m].price, q) != 0 {
        assert r[m] == s[if m < i then m else m + 1];
      }
      assert Find(r, q) == -1;
    }
  }

  /** `side.Add(k, v)` on an absent key is a map insertion. */
  lemma LookupAdd(s: Side, k: ExactFloat, v: ExactFloat, q: ExactFloat)
    requires Sorted(s) && Add(s, k, v).Some?
    ensures Lookup(Add(s, k, v).value, q) == if Compare(q, k) == 0 then Some(v) else Lookup(s, q)
  {
    LookupInsert(s, Entry(k, v), q);
  }
}

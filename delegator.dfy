/** `SyncDictDelegator`: one tracker per pair, created on the pair's first snapshot, fed every
    book of its pair, dropped on unsubscribe; unknown pairs and checksum mismatches turn into
    snapshot requests. */
module GlobalTrackerImplementations {
  import opened JsonParsing
  import opened OrderbookTracking

  /** A second update of the same key overrides the first. */
  lemma UpdateTwice<K, V>(m: map<K, V>, k: K, a: V, b: V)
    ensures m[k := a][k := b] == m[k := b]
  {
  }

  class SyncDictDelegator {
    const depth: nat
    var trackers: map<string, Tracker>
    /** Every `RaiseSnapshotRequest` so far, in order. */
    var snapshotRequests: seq<string>

    /** The trackers' objects. */
    function Trackers(): set<Tracker>
      reads this`trackers
    {
      set p | p in trackers :: trackers[p]
    }

    /** Each tracker was built by the factory for its own pair and is itself valid; trackers of
        different pairs are therefore different objects. */
    predicate Valid()
      reads this`trackers, Trackers()
    {
      forall p :: p in trackers ==>
        trackers[p].name == p && trackers[p].depth == depth && trackers[p].Valid()
    }

    /** What each tracked pair's tracker holds. */
    function Books(): map<string, TrackerState>
      reads this`trackers, Trackers()
    {
      map p | p in trackers :: trackers[p].state
    }

    constructor(depth: nat)
      ensures this.depth == depth
      ensures Valid() && trackers == map[] && snapshotRequests == []
    {
      this.depth := depth;
      trackers := map[];
      snapshotRequests := [];
    }

    /** `GetOrAddTracker`: the pair's tracker, built by the factory (with the mismatch relay
        attached) when the pair has none. */
    method GetOrAddTracker(book: Book) returns (tracker: Tracker)
      requires Valid()
      modifies this
      ensures Valid() && book.pair in trackers && tracker == trackers[book.pair]
      ensures trackers == old(trackers)[book.pair := tracker]
      ensures book.pair in old(trackers) ==> tracker == old(trackers)[book.pair]
      ensures book.pair !in old(trackers) ==> fresh(tracker) && tracker.state == InitialState()
      ensures Books() == old(Books())[book.pair := tracker.state]
      ensures snapshotRequests == old(snapshotRequests)
    {
      var pair := book.pair;
      if pair in trackers {
        return trackers[pair];
      }
      tracker := new Tracker(pair, depth);
      trackers := trackers[pair := tracker];
    }

    /** `NewSnapshot`: the pair's tracker, new if need be, takes the snapshot; no other
        tracker changes. `ok` is false where the tracker throws, which the call passes on. */
    method NewSnapshot(book: Book) returns (ok: bool)
      requires Valid()
      modifies this, Trackers()
      ensures Valid()
      ensures var step := SnapshotStep(if book.pair in old(Books()) then old(Books())[book.pair] else InitialState(), book);
        Books() == old(Books())[book.pair := step.state] && (ok <==> step.outcome != Faulted)
      ensures snapshotRequests == old(snapshotRequests)
    {
      ghost var before := Books();
      var tracker := GetOrAddTracker(book);
      ghost var start := tracker.state;
      assert start == if book.pair in before then before[book.pair] else InitialState();
      label added:
      var outcome := tracker.NewSnapshot(book);
      ok := outcome != Faulted;
      OnlyOneTrackerChanged@added(book.pair);
      UpdateTwice(before, book.pair, start, tracker.state);
    }

    /** `NewUpdate`: an unknown pair requests a snapshot; a known pair's tracker takes the
        delta, and a checksum mismatch it raises is relayed as a snapshot request for the pair.
        `ok` is false where the tracker throws, which the call passes on. */
    method NewUpdate(book: Book) returns (ok: bool)
      requires Valid()
      modifies this`snapshotRequests, Trackers()
      ensures Valid()
      ensures book.pair !in old(trackers) ==>
        Books() == old(Books()) && snapshotRequests == old(snapshotRequests) + [book.pair] && ok
      ensures book.pair in old(trackers) ==>
        var step := UpdateStep(old(Books())[book.pair], book, book.pair, depth);
        Books() == old(Books())[book.pair := step.state]
        && snapshotRequests == old(snapshotRequests) + (if step.outcome == Mismatched then [book.pair] else [])
        && (ok <==> step.outcome != Faulted)
      ensures trackers.Keys == old(trackers.Keys)
    {
      var pair := book.pair;
      if pair !in trackers {
        snapshotRequests := snapshotRequests + [pair];
        return true;
      }
      ghost var step := UpdateStep(old(Books())[pair], book, pair, depth);
      var outcome := ForwardUpdate(book);
      ghost var after := Books();
      assert after == old(Books())[pair := step.state] && outcome == step.outcome;
      if outcome == Mismatched {
        snapshotRequests := snapshotRequests + [pair];
      }
      assert Books() == after;
      ok := outcome != Faulted;
    }

    /** `tracker.NewUpdate(book)` on the tracker of a known pair; no other tracker changes. */
    method ForwardUpdate(book: Book) returns (outcome: Outcome)
      requires Valid() && book.pair in trackers
      modifies Trackers()
      ensures Valid()
      ensures var step := UpdateStep(old(Books())[book.pair], book, book.pair, depth);
        Books() == old(Books())[book.pair := step.state] && outcome == step.outcome
    {
      ghost var before := Books();
      var tracker := trackers[book.pair];
      assert tracker.state == before[book.pair];
      label found:
      outcome := tracker.NewUpdate(book);
      OnlyOneTrackerChanged@found(book.pair);
      UpdateTwice(before, book.pair, before[book.pair], tracker.state);
    }

    /** When only the pair's tracker changed, only the pair's book changed. */
    twostate lemma OnlyOneTrackerChanged(pair: string)
      requires old(Valid()) && pair in old(trackers)
      requires trackers == old(trackers) && trackers[pair].Valid()
      requires forall p :: p in trackers && p != pair ==> unchanged(trackers[p])
      ensures Valid()
      ensures Books() == old(Books())[pair := trackers[pair].state]
    {
      assert forall p :: p in trackers && p != pair ==> trackers[p].state == old(trackers[p].state);
    }

    /** `NewUnsubscribe`: the pair's tracker, if any, is dropped with its relay. */
    method NewUnsubscribe(pair: string)
      requires Valid()
      modifies this
      ensures Valid()
      ensures Books() == old(Books()) - {pair} && pair !in trackers
      ensures trackers.Keys == old(trackers.Keys) - {pair}
      ensures snapshotRequests == old(snapshotRequests)
    {
      if pair !in trackers {
        return;
      }
      trackers := trackers - {pair};
    }
  }
}

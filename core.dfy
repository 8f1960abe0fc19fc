/** The connection's subscription bookkeeping: the set of pairs the user wants, one cancellation
    source per pair for the background loops that keep resending a (un)subscription request,
    and the routing of every message the exchange sends. */
module Core {
  import opened Wrappers
  import opened Text
  import opened JsonTree
  import opened JsonParsing

  // ---------------------------------------------------------------------------------------
  // SimpleConcurrentHashset

  /** `SimpleConcurrentHashset`: a set behind a lock; the lock is not modelled. */
  class SimpleConcurrentHashset<T(==)> {
    var items: set<T>

    constructor()
      ensures items == {}
    {
      items := {};
    }

    /** `HashSet.Add`: true exactly when the item was not yet there. */
    method Add(item: T) returns (added: bool)
      modifies this
      ensures added <==> item !in old(items)
      ensures items == old(items) + {item}
    {
      added := item !in items;
      items := items + {item};
    }

    /** `HashSet.Remove`: true exactly when the item was there. */
    method Remove(item: T) returns (removed: bool)
      modifies this
      ensures removed <==> item in old(items)
      ensures items == old(items) - {item}
    {
      removed := item in items;
      items := items - {item};
    }

    /** A copy of the contents, unaffected by later changes to the set. */
    method ShallowCopy() returns (copy: set<T>)
      ensures copy == items
    {
      copy := items;
    }

    method Contains(item: T) returns (present: bool)
      ensures present <==> item in items
    {
      present := item in items;
    }

    method Clear()
      modifies this
      ensures items == {}
    {
      items := {};
    }
  }

  // ---------------------------------------------------------------------------------------
  // The connection's state and what each event does to it

  const SubscriptionStatusEvent: string := "\"event\":\"subscriptionStatus\""
  const SystemStatusEvent: string := "\"event\":\"systemStatus\""
  const HeartBeatEvent: string := "{\"event\":\"heartbeat\"}"

  datatype SubscriptionEvent = Subscribe | Unsubscribe

  /** `Task.Run(() => _subEvent_loop(subEvent, src.Token))`: a loop resending the request for
      `pair` until cancellation source `source` is cancelled. */
  datatype LoopStarted = LoopStarted(event: SubscriptionEvent, pair: string, depth: int, source: nat)

  /** A call the connection makes on its `IGlobalTracker`. */
  datatype TrackerCall = NewSnapshotCall(book: Book) | NewUpdateCall(book: Book) | NewUnsubscribeCall(pair: string)

  /** The fields `Status` and `Pair` of a deserialised subscriptionStatus message. */
  datatype SubscriptionStatus = SubscriptionStatus(status: string, pair: string)

  /** The library deserialisers the routing calls: `None` (or `false`) where they throw or
      return null. */
  datatype Deserializers = Deserializers(parseJson: string -> Option<Json>,
                                         systemStatus: string -> bool,
                                         subscriptionStatus: string -> Option<SubscriptionStatus>)

  /** The desired set, the registry from pair to cancellation source, whether each source was
      cancelled (sources are numbered in creation order), and the loops and tracker calls so far. */
  datatype Connection = Connection(desired: set<string>, registry: map<string, nat>, cancelled: seq<bool>,
                                   loops: seq<LoopStarted>, trackerCalls: seq<TrackerCall>)

  /** Every registered and every looping source exists, and no two pairs share a source. */
  predicate RegistryValid(c: Connection)
  {
    (forall p :: p in c.registry ==> c.registry[p] < |c.cancelled|)
    && (forall p, q :: p in c.registry && q in c.registry && p != q ==> c.registry[p] != c.registry[q])
    && (forall i :: 0 <= i < |c.loops| ==> c.loops[i].source < |c.cancelled|)
  }

  /** `_runSubscriptionEventLoop`: `GetOrAdd` the pair's source, then start a loop on it. */
  function StartLoop(c: Connection, event: SubscriptionEvent, pair: string, depth: int): (r: Connection)
    ensures pair in r.registry && r.loops == c.loops + [LoopStarted(event, pair, depth, r.registry[pair])]
    ensures r.desired == c.desired && r.trackerCalls == c.trackerCalls
    ensures forall p :: p in c.registry ==> p in r.registry
  {
    if pair in c.registry then c.(loops := c.loops + [LoopStarted(event, pair, depth, c.registry[pair])])
    else
      var source := |c.cancelled|;
      c.(registry := c.registry[pair := source], cancelled := c.cancelled + [false],
         loops := c.loops + [LoopStarted(event, pair, depth, source)])
  }

  /** `_subEvent`: change the desired set, and start a loop only when it changed. */
  function SubscriptionChange(c: Connection, event: SubscriptionEvent, name: string, depth: int): (r: Connection)
    ensures (name in r.desired <==> event == Subscribe) && r.desired - {name} == c.desired - {name}
    ensures r.trackerCalls == c.trackerCalls
    ensures |c.loops| <= |r.loops| <= |c.loops| + 1 && r.loops[..|c.loops|] == c.loops
  {
    var changed := if event == Subscribe then name !in c.desired else name in c.desired;
    var d := if event == Subscribe then c.desired + {name} else c.desired - {name};
    var c' := c.(desired := d);
    if changed then StartLoop(c', event, name, depth) else c'
  }

  /** The reconnection handler over the copy of the desired set, in the order `order`. */
  function StartLoops(c: Connection, order: seq<string>, depth: int): Connection
    decreases |order|
  {
    if order == [] then c else StartLoops(StartLoop(c, Subscribe, order[0], depth), order[1..], depth)
  }

  /** A subscriptionStatus with status "subscribed": the pair's source, if any, is removed
      from the registry and cancelled. */
  function Subscribed(c: Connection, pair: string): (r: Connection)
    requires RegistryValid(c)
    ensures pair !in r.registry
    ensures forall p :: p in c.registry && p != pair ==> p in r.registry && r.registry[p] == c.registry[p]
  {
    if pair in c.registry then
      c.(registry := c.registry - {pair}, cancelled := c.cancelled[c.registry[pair] := true])
    else c
  }

  /** Every source whose number is in `ids` is cancelled. */
  function CancelAll(cancelled: seq<bool>, ids: set<nat>): (r: seq<bool>)
  {
    seq(|cancelled|, i requires 0 <= i < |cancelled| => cancelled[i] || i in ids)
  }

  /** Cancelling one more source extends the set of cancelled numbers by it. */
  lemma CancelOne(cancelled: seq<bool>, ids: set<nat>, source: nat)
    requires source < |cancelled|
    ensures CancelAll(cancelled, ids)[source := true] == CancelAll(cancelled, ids + {source})
  {
  }

  /** `Stop`: the desired set is emptied and every registered source cancelled, none removed. */
  function StopSpec(c: Connection): (r: Connection)
    ensures r.desired == {} && r.registry == c.registry && |r.cancelled| == |c.cancelled|
    ensures forall i :: 0 <= i < |c.cancelled| && c.cancelled[i] ==> r.cancelled[i]
  {
    c.(desired := {}, cancelled := CancelAll(c.cancelled, c.registry.Values))
  }

  /** How a message is classified, first match wins. */
  datatype MessageKind = BookMessage | SystemStatusMessage | SubscriptionStatusMessage | Ignored | Unexpected

  function Classify(msg: string): (r: MessageKind)
    ensures r == BookMessage <==> StartsWith(msg, "[")
    ensures r == Unexpected ==> msg != HeartBeatEvent && msg != "close"
  {
    if StartsWith(msg, "[") then BookMessage
    else if Contains(msg, SystemStatusEvent) then SystemStatusMessage
    else if Contains(msg, SubscriptionStatusEvent) then SubscriptionStatusMessage
    else if msg == HeartBeatEvent || msg == "close" then Ignored
    else Unexpected
  }

  /** A decoded book: an update goes to the tracker, a snapshot too when the pair is desired,
      and an unwanted snapshot starts an unsubscribe loop and tells the tracker to forget it. */
  function RouteBook(c: Connection, book: Book, depth: int): (r: Connection)
    ensures |r.trackerCalls| == |c.trackerCalls| + 1 && r.trackerCalls[..|c.trackerCalls|] == c.trackerCalls
    ensures r.desired == c.desired
  {
    if book.update then c.(trackerCalls := c.trackerCalls + [NewUpdateCall(book)])
    else if book.pair in c.desired then c.(trackerCalls := c.trackerCalls + [NewSnapshotCall(book)])
    else
      var c' := StartLoop(c, Unsubscribe, book.pair, depth);
      c'.(trackerCalls := c'.trackerCalls + [NewUnsubscribeCall(book.pair)])
  }

  /** The `MessageReceived` handler: the new state, and `false` where it throws. */
  function Receive(c: Connection, d: Deserializers, msg: string, depth: int): (r: (Connection, bool))
    requires RegistryValid(c)
    ensures r.1 && Classify(msg) == BookMessage ==> |r.0.trackerCalls| == |c.trackerCalls| + 1
    ensures Classify(msg) != BookMessage ==> r.0.loops == c.loops && r.0.trackerCalls == c.trackerCalls
  {
    match Classify(msg)
    case BookMessage =>
      (match d.parseJson(msg)
       case None => (c, false)
       case Some(json) =>
         match DecodeBook(json)
         case Failure(_) => (c, false)
         case Success(book) => (RouteBook(c, book, depth), true))
    case SystemStatusMessage => (c, d.systemStatus(msg))
    case SubscriptionStatusMessage =>
      (match d.subscriptionStatus(msg)
       case None => (c, false)
       case Some(s) => if s.status != "subscribed" then (c, true) else (Subscribed(c, s.pair), true))
    case Ignored => (c, true)
    case Unexpected => (c, false)
  }

  // ---------------------------------------------------------------------------------------
  // Properties of the bookkeeping

  /** A loop for a pair reuses the source the pair already has, whatever the kind of request
      and even when that source was cancelled; only a pair without one gets a new source. */
  lemma StartLoopSource(c: Connection, event: SubscriptionEvent, pair: string, depth: int)
    requires RegistryValid(c)
    ensures var r := StartLoop(c, event, pair, depth);
      RegistryValid(r)
      && (pair in c.registry ==> r.registry == c.registry && r.cancelled == c.cancelled
                                 && r.loops[|c.loops|].source == c.registry[pair])
      && (pair !in c.registry ==> r.registry == c.registry[pair := |c.cancelled|]
                                  && r.cancelled == c.cancelled + [false] && !r.cancelled[r.loops[|c.loops|].source])
  {
    var r := StartLoop(c, event, pair, depth);
    if pair !in c.registry {
      assert forall i :: 0 <= i < |c.loops| ==> r.loops[i] == c.loops[i];
    } else {
      assert forall i :: 0 <= i < |c.loops| ==> r.loops[i] == c.loops[i];
    }
  }

  /** `Subscribe` adds the pair and `Unsubscribe` removes it; a loop starts exactly when the
      desired set changed. */
  lemma SubEventChanges(c: Connection, event: SubscriptionEvent, name: string, depth: int)
    requires RegistryValid(c)
    ensures var r := SubscriptionChange(c, event, name, depth);
      RegistryValid(r) && r.trackerCalls == c.trackerCalls
      && r.desired == (if event == Subscribe then c.desired + {name} else c.desired - {name})
    ensures var r := SubscriptionChange(c, event, name, depth);
      (r.desired != c.desired ==> r.loops == c.loops + [LoopStarted(event, name, depth, r.registry[name])])
      && (r.desired == c.desired ==> r == c)
  {
    var c' := c.(desired := if event == Subscribe then c.desired + {name} else c.desired - {name});
    StartLoopSource(c', event, name, depth);
    if event == Subscribe && name !in c.desired {
      assert name in c'.desired;
    }
    if event == Unsubscribe && name in c.desired {
      assert name !in c'.desired;
    }
  }

  /** Asking twice for the same thing starts nothing the second time. */
  lemma SubEventIdempotent(c: Connection, event: SubscriptionEvent, name: string, depth: int)
    requires RegistryValid(c)
    ensures SubscriptionChange(SubscriptionChange(c, event, name, depth), event, name, depth) == SubscriptionChange(c, event, name, depth)
  {
    SubEventChanges(c, event, name, depth);
    var r := SubscriptionChange(c, event, name, depth);
    SubEventChanges(r, event, name, depth);
    assert event == Subscribe ==> name in r.desired;
    assert event == Unsubscribe ==> name !in r.desired;
  }

  /** Reconnecting starts one subscribe loop per pair of the copy, in its order, and changes
      neither the desired set nor the tracker. */
  lemma {:induction false} StartLoopsEach(c: Connection, order: seq<string>, depth: int)
    requires RegistryValid(c)
    ensures var r := StartLoops(c, order, depth);
      RegistryValid(r) && r.desired == c.desired && r.trackerCalls == c.trackerCalls
      && |r.loops| == |c.loops| + |order| && r.loops[..|c.loops|] == c.loops
    ensures var r := StartLoops(c, order, depth);
      forall i :: |c.loops| <= i < |r.loops| ==> r.loops[i].event == Subscribe && r.loops[i].pair == order[i - |c.loops|]
    decreases |order|
  {
    if order != [] {
      var c1 := StartLoop(c, Subscribe, order[0], depth);
      StartLoopSource(c, Subscribe, order[0], depth);
      StartLoopsEach(c1, order[1..], depth);
      var r := StartLoops(c1, order[1..], depth);
      assert r.loops[..|c1.loops|] == c1.loops;
      assert r.loops[..|c.loops|] == r.loops[..|c1.loops|][..|c.loops|];
      assert r.loops[|c.loops|] == c1.loops[|c.loops|];
      assert r == StartLoops(c, order, depth);
      forall i | |c.loops| <= i < |r.loops|
        ensures r.loops[i].event == Subscribe && r.loops[i].pair == order[i - |c.loops|]
      {
        if i == |c.loops| {
          assert c1.loops[|c.loops|] == LoopStarted(Subscribe, order[0], depth, c1.registry[order[0]]);
        } else {
          assert order[1..][i - |c1.loops|] == order[i - |c.loops|];
        }
      }
    }
  }

  /** After reconnecting every pair of the copy has a registered source, and none was dropped. */
  lemma {:induction false} StartLoopsRegisters(c: Connection, order: seq<string>, depth: int)
    ensures var r := StartLoops(c, order, depth);
      (forall p :: p in c.registry ==> p in r.registry) && forall p :: p in order ==> p in r.registry
    decreases |order|
  {
    if order != [] {
      StartLoopsRegisters(StartLoop(c, Subscribe, order[0], depth), order[1..], depth);
    }
  }

  /** A "subscribed" confirmation ends the pair's loops: its source is cancelled and leaves the
      registry, so the next request for the pair gets a fresh source; nothing else changes. */
  lemma SubscribedCancels(c: Connection, pair: string)
    requires RegistryValid(c)
    ensures var r := Subscribed(c, pair);
      RegistryValid(r) && pair !in r.registry && r.desired == c.desired
      && r.loops == c.loops && r.trackerCalls == c.trackerCalls && |r.cancelled| == |c.cancelled|
    ensures var r := Subscribed(c, pair);
      pair in c.registry ==>
        (r.cancelled[c.registry[pair]]
         && forall i :: 0 <= i < |c.cancelled| && i != c.registry[pair] ==> r.cancelled[i] == c.cancelled[i])
    ensures pair !in c.registry ==> Subscribed(c, pair) == c
  {
  }

  /** `Stop` empties the desired set and cancels every registered source, keeping them all
      registered. */
  lemma StopCancelsAll(c: Connection)
    requires RegistryValid(c)
    ensures var r := StopSpec(c);
      RegistryValid(r) && r.desired == {} && r.registry == c.registry
      && r.loops == c.loops && r.trackerCalls == c.trackerCalls
    ensures var r := StopSpec(c);
      (forall p :: p in c.registry ==> r.cancelled[c.registry[p]])
      && forall i :: 0 <= i < |c.cancelled| && (forall p :: p in c.registry ==> c.registry[p] != i) ==>
           r.cancelled[i] == c.cancelled[i]
  {
    var r := StopSpec(c);
    forall p | p in c.registry ensures r.cancelled[c.registry[p]] {
      assert c.registry[p] in c.registry.Values;
    }
  }

  /** The order of the checks: a book wins over everything, system status over subscription
      status, and only the exact heartbeat or "close" text is ignored. */
  lemma ClassifyOrder(msg: string)
    ensures StartsWith(msg, "[") ==> Classify(msg) == BookMessage
    ensures !StartsWith(msg, "[") && Contains(msg, SystemStatusEvent) ==> Classify(msg) == SystemStatusMessage
    ensures Classify(msg) == SubscriptionStatusMessage <==>
      !StartsWith(msg, "[") && !Contains(msg, SystemStatusEvent) && Contains(msg, SubscriptionStatusEvent)
    ensures Classify(msg) == Ignored ==> msg == HeartBeatEvent || msg == "close"
    ensures Classify(HeartBeatEvent) == Ignored && Classify("close") == Ignored
  {
    assert HeartBeatEvent[..1][0] == '{' && "close"[..1][0] == 'c';
    NotContained(HeartBeatEvent, SystemStatusEvent);
    NotContained(HeartBeatEvent, SubscriptionStatusEvent);
    NotContained("close", SystemStatusEvent);
    NotContained("close", SubscriptionStatusEvent);
  }

  lemma NotContained(s: string, sub: string)
    requires |s| < |sub|
    ensures !Contains(s, sub)
  {
  }

  /** What a message does, by kind: a book is routed, a status or an ignored message changes
      nothing except a "subscribed" confirmation, and an unexpected or undecodable message
      throws with nothing changed. */
  lemma ReceiveEffect(c: Connection, d: Deserializers, msg: string, depth: int)
    requires RegistryValid(c)
    ensures RegistryValid(Receive(c, d, msg, depth).0)
    ensures !Receive(c, d, msg, depth).1 ==> Receive(c, d, msg, depth).0 == c
    ensures Classify(msg) == Unexpected ==> Receive(c, d, msg, depth) == (c, false)
    ensures Classify(msg) == Ignored || Classify(msg) == SystemStatusMessage ==> Receive(c, d, msg, depth).0 == c
    ensures Classify(msg) != BookMessage ==> Receive(c, d, msg, depth).0.trackerCalls == c.trackerCalls
    ensures Receive(c, d, msg, depth).0.desired == c.desired
  {
    if Classify(msg) == BookMessage && d.parseJson(msg).Some? {
      var book := DecodeBook(d.parseJson(msg).value);
      if book.Success? && !book.value.update && book.value.pair !in c.desired {
        StartLoopSource(c, Unsubscribe, book.value.pair, depth);
      }
    }
    if Classify(msg) == SubscriptionStatusMessage && d.subscriptionStatus(msg).Some? {
      SubscribedCancels(c, d.subscriptionStatus(msg).value.pair);
    }
  }

  /** Book routing: one tracker call per book; a snapshot reaches `NewSnapshot` only for a
      desired pair, and an unwanted snapshot starts an unsubscribe loop and a `NewUnsubscribe`
      instead. */
  /** A decoded book message is routed: the new state is `RouteBook` of the old, and nothing throws. */
  lemma ReceiveBook(c: Connection, d: Deserializers, msg: string, depth: int)
    requires RegistryValid(c)
    ensures Classify(msg) == BookMessage && d.parseJson(msg).Some? && DecodeBook(d.parseJson(msg).value).Success? ==>
      Receive(c, d, msg, depth) == (RouteBook(c, DecodeBook(d.parseJson(msg).value).value, depth), true)
  {
  }

  /** A status message: a deserialised subscriptionStatus "subscribed" applies `Subscribed` to its
      pair, any other subscriptionStatus leaves the state as it was, and a systemStatus changes
      nothing and throws exactly when it does not deserialise. */
  lemma ReceiveStatus(c: Connection, d: Deserializers, msg: string, depth: int)
    requires RegistryValid(c)
    ensures Classify(msg) == SubscriptionStatusMessage && d.subscriptionStatus(msg).Some? ==>
      var st := d.subscriptionStatus(msg).value;
      Receive(c, d, msg, depth) == (if st.status == "subscribed" then Subscribed(c, st.pair) else c, true)
    ensures Classify(msg) == SubscriptionStatusMessage && d.subscriptionStatus(msg).None? ==>
      Receive(c, d, msg, depth) == (c, false)
    ensures Classify(msg) == SystemStatusMessage ==> Receive(c, d, msg, depth) == (c, d.systemStatus(msg))
  {
  }

  lemma RouteBookCalls(c: Connection, book: Book, depth: int)
    ensures var r := RouteBook(c, book, depth);
      |r.trackerCalls| == |c.trackerCalls| + 1 && r.trackerCalls[..|c.trackerCalls|] == c.trackerCalls
      && r.desired == c.desired
    ensures var call := RouteBook(c, book, depth).trackerCalls[|c.trackerCalls|];
      (call == NewUpdateCall(book) <==> book.update)
      && (call == NewSnapshotCall(book) <==> !book.update && book.pair in c.desired)
      && (call == NewUnsubscribeCall(book.pair) <==> !book.update && book.pair !in c.desired)
    ensures var r := RouteBook(c, book, depth);
      !book.update && book.pair !in c.desired ==>
        |r.loops| == |c.loops| + 1 && r.loops[|c.loops|].event == Unsubscribe && r.loops[|c.loops|].pair == book.pair
    ensures book.update || book.pair in c.desired ==> RouteBook(c, book, depth).loops == c.loops
  {
    var r := RouteBook(c, book, depth);
    assert r.trackerCalls[..|c.trackerCalls|] == c.trackerCalls;
  }

  // ---------------------------------------------------------------------------------------
  // KrakenConnection

  /** `KrakenConnection`: the websocket, the JSON library and the `IGlobalTracker` are outside
      the model; the loops it starts and the tracker calls it makes are logged. */
  class KrakenConnection {
    const depth: int
    const deserializers: Deserializers
    const desiredSubscriptions: SimpleConcurrentHashset<string>
    var registry: map<string, nat>
    var cancelled: seq<bool>
    var loops: seq<LoopStarted>
    var trackerCalls: seq<TrackerCall>

    predicate Valid()
      reads this, desiredSubscriptions
    {
      RegistryValid(State())
    }

    function State(): Connection
      reads this, desiredSubscriptions
    {
      Connection(desiredSubscriptions.items, registry, cancelled, loops, trackerCalls)
    }

    constructor(depth: int, deserializers: Deserializers)
      ensures this.depth == depth && this.deserializers == deserializers
      ensures Valid() && State() == Connection({}, map[], [], [], [])
      ensures fresh(desiredSubscriptions)
    {
      this.depth := depth;
      this.deserializers := deserializers;
      desiredSubscriptions := new SimpleConcurrentHashset();
      registry := map[];
      cancelled := [];
      loops := [];
      trackerCalls := [];
    }

    method RunSubscriptionEventLoop(event: SubscriptionEvent, pair: string)
      requires Valid()
      modifies this
      ensures Valid()
      ensures State() == StartLoop(old(State()), event, pair, depth)
    {
      StartLoopSource(State(), event, pair, depth);
      var source: nat;
      if pair in registry {
        source := registry[pair];
      } else {
        source := |cancelled|;
        cancelled := cancelled + [false];
        registry := registry[pair := source];
      }
      loops := loops + [LoopStarted(event, pair, depth, source)];
    }

    method SubEvent(event: SubscriptionEvent, name: string)
      requires Valid()
      modifies this, desiredSubscriptions
      ensures Valid()
      ensures State() == SubscriptionChange(old(State()), event, name, depth)
    {
      SubEventChanges(State(), event, name, depth);
      var somethingChanged;
      if event == SubscriptionEvent.Subscribe {
        somethingChanged := desiredSubscriptions.Add(name);
      } else {
        somethingChanged := desiredSubscriptions.Remove(name);
      }
      if somethingChanged {
        RunSubscriptionEventLoop(event, name);
      }
    }

    method Subscribe(name: string)
      requires Valid()
      modifies this, desiredSubscriptions
      ensures Valid()
      ensures State() == SubscriptionChange(old(State()), SubscriptionEvent.Subscribe, name, depth)
    {
      SubEvent(SubscriptionEvent.Subscribe, name);
    }

    method Unsubscribe(name: string)
      requires Valid()
      modifies this, desiredSubscriptions
      ensures Valid()
      ensures State() == SubscriptionChange(old(State()), SubscriptionEvent.Unsubscribe, name, depth)
    {
      SubEvent(SubscriptionEvent.Unsubscribe, name);
    }

    /** The tracker's `RaiseSnapshotRequest` handler. */
    method OnSnapshotRequested(pair: string)
      requires Valid()
      modifies this
      ensures Valid()
      ensures State() == StartLoop(old(State()), SubscriptionEvent.Subscribe, pair, depth)
    {
      RunSubscriptionEventLoop(SubscriptionEvent.Subscribe, pair);
    }

    /** The `ReconnectionHappened` handler: one subscribe loop per pair of a copy of the desired
        set, in the copy's enumeration order `order`. */
    method OnReconnection() returns (ghost order: seq<string>)
      requires Valid()
      modifies this
      ensures Valid()
      ensures |order| == |old(desiredSubscriptions.items)|
      ensures forall p :: p in order <==> p in old(desiredSubscriptions.items)
      ensures State() == StartLoops(old(State()), order, depth)
    {
      var copy := desiredSubscriptions.ShallowCopy();
      ghost var start := State();
      order := [];
      ghost var seen: set<string> := {};
      while copy != {}
        invariant Valid()
        invariant desiredSubscriptions.items == start.desired
        invariant seen !! copy && seen + copy == start.desired
        invariant |order| == |seen| && forall p :: p in order <==> p in seen
        invariant State() == StartLoops(start, order, depth)
        decreases |copy|
      {
        var name :| name in copy;
        StartLoopsAppend(start, order, name, depth);
        RunSubscriptionEventLoop(SubscriptionEvent.Subscribe, name);
        order := order + [name];
        seen := seen + {name};
        copy := copy - {name};
      }
    }

    /** `Stop`: the websocket's own `Stop` is outside the model. */
    method Stop()
      requires Valid()
      modifies this, desiredSubscriptions
      ensures Valid()
      ensures State() == StopSpec(old(State()))
    {
      StopCancelsAll(State());
      desiredSubscriptions.Clear();
      CancelSources();
    }

    /** The loop of `Stop` over the registered sources: each one is cancelled. */
    method CancelSources()
      requires forall p :: p in registry ==> registry[p] < |cancelled|
      modifies this`cancelled
      ensures cancelled == CancelAll(old(cancelled), registry.Values)
    {
      var sources := registry.Values;
      while sources != {}
        invariant sources <= registry.Values
        invariant cancelled == CancelAll(old(cancelled), registry.Values - sources)
        decreases |sources|
      {
        var source :| source in sources;
        assert source < |cancelled|;
        CancelOne(old(cancelled), registry.Values - sources, source);
        assert registry.Values - (sources - {source}) == (registry.Values - sources) + {source};
        cancelled := cancelled[source := true];
        sources := sources - {source};
      }
    }

    /** The `MessageReceived` handler; `ok` is false where it throws. */
    method MessageReceived(msg: string) returns (ok: bool)
      requires Valid()
      modifies this
      ensures Valid()
      ensures (State(), ok) == Receive(old(State()), deserializers, msg, depth)
    {
      ReceiveEffect(State(), deserializers, msg, depth);
      if StartsWith(msg, "[") {
        var json := deserializers.parseJson(msg);
        if json.None? {
          return false;
        }
        var book := DecodeBook(json.value);
        if book.Failure? {
          return false;
        }
        var b := book.value;
        if b.update {
          trackerCalls := trackerCalls + [NewUpdateCall(b)];
        } else {
          var desired := desiredSubscriptions.Contains(b.pair);
          if desired {
            trackerCalls := trackerCalls + [NewSnapshotCall(b)];
          } else {
            RunSubscriptionEventLoop(SubscriptionEvent.Unsubscribe, b.pair);
            trackerCalls := trackerCalls + [NewUnsubscribeCall(b.pair)];
          }
        }
        return true;
      } else if Contains(msg, SystemStatusEvent) {
        return deserializers.systemStatus(msg);
      } else if Contains(msg, SubscriptionStatusEvent) {
        var status := deserializers.subscriptionStatus(msg);
        if status.None? {
          return false;
        }
        if status.value.status != "subscribed" {
          return true;
        }
        var pair := status.value.pair;
        if pair in registry {
          var source := registry[pair];
          registry := registry - {pair};
          cancelled := cancelled[source := true];
        }
        return true;
      } else if msg == HeartBeatEvent || msg == "close" {
        return true;
      } else {
        return false;
      }
    }
  }

  /** One more pair at the end of the order starts one more loop at the end. */
  lemma {:induction false} StartLoopsAppend(c: Connection, order: seq<string>, name: string, depth: int)
    ensures StartLoops(c, order + [name], depth) == StartLoop(StartLoops(c, order, depth), Subscribe, name, depth)
    decreases |order|
  {
    if order != [] {
      assert (order + [name])[1..] == order[1..] + [name];
      StartLoopsAppend(StartLoop(c, Subscribe, order[0], depth), order[1..], name, depth);
    } else {
      assert [name][1..] == [];
    }
  }
}

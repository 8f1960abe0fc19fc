/** The book messages of the order-book channel: level tuples, level lists and the book record,
    with the structural decoder that tells a snapshot from a delta by the keys present. */
module JsonParsing {
  import opened Wrappers
  import opened Numbers
  import opened JsonTree

  /** One order-book level, or an update to one: four strings, the last "" or "r". */
  datatype LevelTuple = LevelTuple(priceLevel: string, volume: string, timestamp: string, updateType: string)

  /** The levels of one side of a message, in wire order. */
  datatype Levels = Levels(tuples: seq<LevelTuple>)

  /** A snapshot (`update` false) or a delta (`update` true) for one pair. Built directly, this is
      the positional record constructor, which stores every argument unchanged. */
  datatype Book = Book(channelId: uint64, channelName: string, pair: string, asks: Levels, bids: Levels,
                       checksum: string, update: bool)

  /** The `LevelTuple` constructor: three or four strings, the fourth one the update type. */
  function NewLevelTuple(update: seq<string>): (r: Result<LevelTuple>)
    ensures r.Success? <==> 3 <= |update| <= 4
    ensures r.Success? ==> r.value.priceLevel == update[0] && r.value.volume == update[1]
                           && r.value.timestamp == update[2]
    ensures r.Success? ==> r.value.updateType == if |update| == 3 then "" else update[3]
  {
    var count := |update|;
    if count < 3 || 4 < count then Failure("invalid length of argument")
    else if count == 3 then Success(LevelTuple(update[0], update[1], update[2], ""))
    else Success(LevelTuple(update[0], update[1], update[2], update[3]))
  }

  /** The strings a level is written as on the wire: without the fourth when it is empty. */
  function LevelTupleElements(t: LevelTuple): seq<string>
  {
    if t.updateType == "" then [t.priceLevel, t.volume, t.timestamp]
    else [t.priceLevel, t.volume, t.timestamp, t.updateType]
  }

  lemma LevelTupleRoundTrip(t: LevelTuple)
    ensures NewLevelTuple(LevelTupleElements(t)) == Success(t)
  {
  }

  /** The only list `NewLevelTuple` accepts and that does not print back the same is a
      four-element list whose fourth element is empty. */
  lemma LevelTupleElementsRoundTrip(update: seq<string>)
    requires NewLevelTuple(update).Success?
    ensures LevelTupleElements(NewLevelTuple(update).value) == update <==> !(|update| == 4 && update[3] == "")
  {
  }

  /** `Enumerable.SequenceEqual` on level tuples, element by element. */
  function SequenceEqual(xs: seq<LevelTuple>, ys: seq<LevelTuple>): (r: bool)
    ensures r <==> xs == ys
  {
    if xs == [] || ys == [] then xs == ys
    else if xs[0] != ys[0] then false
    else
      var r := SequenceEqual(xs[1..], ys[1..]);
      assert xs == [xs[0]] + xs[1..] && ys == [ys[0]] + ys[1..];
      r
  }

  /** `Levels.Equals(Levels?)`: false for null, otherwise element-wise equality of the tuples. */
  function LevelsEquals(self: Levels, other: Option<Levels>): (r: bool)
    ensures r <==> other.Some? && |self.tuples| == |other.value.tuples|
                   && forall i :: 0 <= i < |self.tuples| ==> self.tuples[i] == other.value.tuples[i]
  {
    if other.None? then false
    else
      var r := SequenceEqual(self.tuples, other.value.tuples);
      assert r <== (|self.tuples| == |other.value.tuples|
                    && forall i :: 0 <= i < |self.tuples| ==> self.tuples[i] == other.value.tuples[i]);
      r
  }

  lemma LevelsEqualsReflexive(x: Levels)
    ensures LevelsEquals(x, Some(x))
  {
  }

  lemma LevelsEqualsSymmetric(x: Levels, y: Levels)
    ensures LevelsEquals(x, Some(y)) == LevelsEquals(y, Some(x))
  {
  }

  /** `JsonSerializer.Deserialize<List<string>>` of one element: an array of strings. */
  function DecodeStrings(elements: seq<Json>): (r: Result<seq<string>>)
    ensures r.Success? <==> forall i :: 0 <= i < |elements| ==> elements[i].JString?
    ensures r.Success? ==> |r.value| == |elements|
                           && forall i :: 0 <= i < |elements| ==> r.value[i] == elements[i].s
  {
    if elements == [] then Success([])
    else if !elements[0].JString? then Failure("level element is not a string")
    else
      var rest :- DecodeStrings(elements[1..]);
      Success([elements[0].s] + rest)
  }

  /** One element of a side: a JSON array of strings, then the `LevelTuple` constructor. */
  function DecodeLevel(json: Json): (r: Result<LevelTuple>)
    ensures r.Success? <==> json.JArray? && 3 <= |json.elements| <= 4
                            && forall i :: 0 <= i < |json.elements| ==> json.elements[i].JString?
    ensures r.Success? ==> r.value.priceLevel == json.elements[0].s && r.value.volume == json.elements[1].s
                           && r.value.timestamp == json.elements[2].s
    ensures r.Success? ==> r.value.updateType == if |json.elements| == 3 then "" else json.elements[3].s
  {
    if !json.JArray? then Failure("level is not an array")
    else
      var strings :- DecodeStrings(json.elements);
      NewLevelTuple(strings)
  }

  /** `EnumerateArray().Select(...)`: every element decoded, in order. */
  function DecodeLevelList(elements: seq<Json>): (r: Result<seq<LevelTuple>>)
    ensures r.Success? ==> |r.value| == |elements|
    ensures r.Success? ==> forall i :: 0 <= i < |elements| ==> DecodeLevel(elements[i]) == Success(r.value[i])
  {
    if elements == [] then Success([])
    else
      var first :- DecodeLevel(elements[0]);
      var rest :- DecodeLevelList(elements[1..]);
      Success([first] + rest)
  }

  /** `EnumerateArray` throws unless the side is an array. */
  function DecodeLevels(side: Json): (r: Result<seq<LevelTuple>>)
    ensures r.Success? ==> side.JArray? && |r.value| == |side.elements|
    ensures r.Success? ==> forall i :: 0 <= i < |side.elements| ==> DecodeLevel(side.elements[i]) == Success(r.value[i])
  {
    if side.JArray? then DecodeLevelList(side.elements) else Failure("side is not an array")
  }

  /** Element `i` of the document, or `null` when there is none. */
  function At(json: Json, i: nat): Json
  {
    if json.JArray? && i < |json.elements| then json.elements[i] else JNull
  }

  /** What the decoder found for one side: a delta key, a snapshot key, and the levels under it. */
  datatype SideKeys = SideKeys(isUpdate: bool, isSnapshot: bool, levels: Option<Json>)
  {
    predicate Present() { isUpdate || isSnapshot }
  }

  /** Asks: "a" in the first object marks a delta; failing that, "as" marks a snapshot. */
  function FindAsks(j1: Json): (r: Result<SideKeys>)
    ensures r.Success? <==> j1.JObject?
    ensures r.Success? ==> r.value.isUpdate == HasProperty(j1, "a")
    ensures r.Success? ==> r.value.isSnapshot == (!HasProperty(j1, "a") && HasProperty(j1, "as"))
    ensures r.Success? ==> (r.value.Present() <==> r.value.levels.Some?)
  {
    var a :- TryGetProperty(j1, "a");
    if a.Some? then Success(SideKeys(true, false, a))
    else
      var snap := LastProperty(j1.properties, "as");
      Success(SideKeys(false, snap.Some?, snap))
  }

  /** Bids: after an ask delta followed by an object, "b" is looked up in that object; otherwise
      in the first object unless it held an ask snapshot. Failing that, "bs" in the first object. */
  function FindBids(json: Json, j1: Json, asks: SideKeys): (r: Result<SideKeys>)
    requires j1.JObject?
    ensures r.Success? ==> (r.value.Present() <==> r.value.levels.Some?)
    ensures r.Success? ==> !(r.value.isUpdate && r.value.isSnapshot)
  {
    var j2 :- if asks.isUpdate then (var j :- Index(json, 2); Success(Some(j))) else Success(None);
    var j2IsObject := j2.Some? && j2.value.JObject?;
    var b := if j2IsObject then LastProperty(j2.value.properties, "b")
             else if !asks.isSnapshot then LastProperty(j1.properties, "b")
             else None;
    if b.Some? then Success(SideKeys(true, false, b))
    else
      var snap := LastProperty(j1.properties, "bs");
      Success(SideKeys(false, snap.Some?, snap))
  }

  /** The checksum: empty for a snapshot, from the second object when both sides are deltas,
      from the first object otherwise. */
  function ReadChecksum(json: Json, j1: Json, asks: SideKeys, bids: SideKeys): (r: Result<string>)
    ensures asks.isSnapshot || bids.isSnapshot ==> r == Success("")
    ensures r.Success? && !asks.isSnapshot && !bids.isSnapshot ==>
      var holder := if asks.isUpdate && bids.isUpdate then At(json, 2) else j1;
      holder.JObject? && LastProperty(holder.properties, "c") == Some(JString(r.value))
  {
    if asks.isSnapshot || bids.isSnapshot then Success("")
    else if asks.isUpdate && bids.isUpdate then (var j2 :- Index(json, 2); GetStringProperty(j2, "c"))
    else GetStringProperty(j1, "c")
  }

  /** The levels of a side that is present; none for an absent side. */
  function ReadLevels(side: SideKeys): (r: Result<seq<LevelTuple>>)
    requires side.Present() <==> side.levels.Some?
    ensures !side.Present() ==> r == Success([])
    ensures r.Success? && side.Present() ==>
      side.levels.value.JArray? && |r.value| == |side.levels.value.elements|
  {
    if side.Present() then DecodeLevels(side.levels.value) else Success([])
  }

  /** The `Book(string)` constructor on the parsed document. */
  function DecodeBook(json: Json): (r: Result<Book>)
    ensures r.Success? ==> json.JArray? && 4 <= |json.elements| && json.elements[1].JObject?
    ensures r.Success? && !HasProperty(json.elements[1], "a") && HasProperty(json.elements[1], "as") ==>
      r.value.checksum == "" && !r.value.update
  {
    var j0 :- Index(json, 0);
    var okChId :- TryGetUInt64(j0);
    if okChId.None? then Failure("channel id") else
    var j1 :- Index(json, 1);
    var asks :- FindAsks(j1);
    var bids :- FindBids(json, j1, asks);
    var checksum :- ReadChecksum(json, j1, asks, bids);
    var askLevels :- ReadLevels(asks);
    var bidLevels :- ReadLevels(bids);
    var shift := if asks.isUpdate && bids.isUpdate then 1 else 0;
    var nameJson :- Index(json, 2 + shift);
    var channelName :- GetString(nameJson);
    var pairJson :- Index(json, 3 + shift);
    var pair :- GetString(pairJson);
    Success(Book(okChId.value, channelName, pair, Levels(askLevels), Levels(bidLevels), checksum,
                 asks.isUpdate || bids.isUpdate))
  }

  // ---------------------------------------------------------------------------------------
  // The wire form, as the feed writes it, and the round trip through the decoder.

  function LevelJson(t: LevelTuple): Json
  {
    var strings := LevelTupleElements(t);
    JArray(seq(|strings|, i requires 0 <= i < |strings| => JString(strings[i])))
  }

  function LevelListJson(ts: seq<LevelTuple>): seq<Json>
  {
    if ts == [] then [] else [LevelJson(ts[0])] + LevelListJson(ts[1..])
  }

  /** A snapshot carries "as" and "bs" in one object; a delta carries "a" and/or "b" with the
      checksum "c" beside the last side present, a second object when both sides are present. */
  function EncodeBook(book: Book): Json
  {
    var id := JNumber(NatToString(book.channelId as nat));
    var asks := JArray(LevelListJson(book.asks.tuples));
    var bids := JArray(LevelListJson(book.bids.tuples));
    var name := JString(book.channelName);
    var pair := JString(book.pair);
    var c := JString(book.checksum);
    if !book.update then JArray([id, JObject([("as", asks), ("bs", bids)]), name, pair])
    else if book.bids.tuples == [] then JArray([id, JObject([("a", asks), ("c", c)]), name, pair])
    else if book.asks.tuples == [] then JArray([id, JObject([("b", bids), ("c", c)]), name, pair])
    else JArray([id, JObject([("a", asks)]), JObject([("b", bids), ("c", c)]), name, pair])
  }

  lemma DecodeLevelRoundTrip(t: LevelTuple)
    ensures DecodeLevel(LevelJson(t)) == Success(t)
  {
    var strings := LevelTupleElements(t);
    var elements := LevelJson(t).elements;
    assert DecodeStrings(elements).Success?;
    assert DecodeStrings(elements).value == strings;
    LevelTupleRoundTrip(t);
  }

  lemma {:induction false} DecodeLevelListRoundTrip(ts: seq<LevelTuple>)
    ensures DecodeLevelList(LevelListJson(ts)) == Success(ts)
  {
    if ts != [] {
      DecodeLevelRoundTrip(ts[0]);
      DecodeLevelListRoundTrip(ts[1..]);
      assert LevelListJson(ts)[1..] == LevelListJson(ts[1..]);
      assert [ts[0]] + ts[1..] == ts;
    }
  }

  /** The stages of the decoder on a document of the feed's shape. */
  lemma DecodeStages(json: Json, j1: Json, ak: SideKeys, bk: SideKeys, book: Book)
    requires Index(json, 0) == Success(JNumber(NatToString(book.channelId as nat)))
    requires Index(json, 1) == Success(j1)
    requires FindAsks(j1) == Success(ak)
    requires j1.JObject? && FindBids(json, j1, ak) == Success(bk)
    requires ReadChecksum(json, j1, ak, bk) == Success(book.checksum)
    requires ak.Present() <==> ak.levels.Some?
    requires bk.Present() <==> bk.levels.Some?
    requires ReadLevels(ak) == Success(book.asks.tuples) && ReadLevels(bk) == Success(book.bids.tuples)
    requires var shift := if ak.isUpdate && bk.isUpdate then 1 else 0;
             At(json, 2 + shift) == JString(book.channelName) && At(json, 3 + shift) == JString(book.pair)
             && json.JArray? && 3 + shift < |json.elements|
    requires book.update == (ak.isUpdate || bk.isUpdate)
    ensures DecodeBook(json) == Success(book)
  {
    TryGetUInt64Literal(book.channelId);
  }

  lemma DecodeEncodeSnapshot(book: Book)
    requires !book.update && book.checksum == ""
    ensures DecodeBook(EncodeBook(book)) == Success(book)
  {
    DecodeLevelListRoundTrip(book.asks.tuples);
    DecodeLevelListRoundTrip(book.bids.tuples);
    var json := EncodeBook(book);
    var asks := JArray(LevelListJson(book.asks.tuples));
    var bids := JArray(LevelListJson(book.bids.tuples));
    var props := [("as", asks), ("bs", bids)];
    var j1 := JObject(props);
    assert props[..1] == [("as", asks)];
    assert LastIndex(props, "as") == 0;
    assert LastProperty(props, "a") == None;
    assert LastProperty(props, "as") == Some(asks);
    assert LastProperty(props, "b") == None;
    assert LastProperty(props, "bs") == Some(bids);
    var ak := SideKeys(false, true, Some(asks));
    var bk := SideKeys(false, true, Some(bids));
    assert FindAsks(j1) == Success(ak);
    assert FindBids(json, j1, ak) == Success(bk);
    DecodeStages(json, j1, ak, bk, book);
  }

  lemma DecodeEncodeAskDelta(book: Book)
    requires book.update && book.bids.tuples == []
    ensures DecodeBook(EncodeBook(book)) == Success(book)
  {
    DecodeLevelListRoundTrip(book.asks.tuples);
    var json := EncodeBook(book);
    var asks := JArray(LevelListJson(book.asks.tuples));
    var c := JString(book.checksum);
    var props := [("a", asks), ("c", c)];
    var j1 := JObject(props);
    assert props[..1] == [("a", asks)];
    assert LastIndex(props, "a") == 0;
    assert LastProperty(props, "a") == Some(asks);
    assert LastProperty(props, "b") == None;
    assert LastProperty(props, "bs") == None;
    assert LastProperty(props, "c") == Some(c);
    var ak := SideKeys(true, false, Some(asks));
    var bk := SideKeys(false, false, None);
    assert FindAsks(j1) == Success(ak);
    assert FindBids(json, j1, ak) == Success(bk);
    DecodeStages(json, j1, ak, bk, book);
  }

  lemma DecodeEncodeBidDelta(book: Book)
    requires book.update && book.asks.tuples == [] && book.bids.tuples != []
    ensures DecodeBook(EncodeBook(book)) == Success(book)
  {
    DecodeLevelListRoundTrip(book.bids.tuples);
    var json := EncodeBook(book);
    var bids := JArray(LevelListJson(book.bids.tuples));
    var c := JString(book.checksum);
    var props := [("b", bids), ("c", c)];
    var j1 := JObject(props);
    assert props[..1] == [("b", bids)];
    assert LastIndex(props, "b") == 0;
    assert LastProperty(props, "a") == None;
    assert LastProperty(props, "as") == None;
    assert LastProperty(props, "b") == Some(bids);
    assert LastProperty(props, "c") == Some(c);
    var ak := SideKeys(false, false, None);
    var bk := SideKeys(true, false, Some(bids));
    assert FindAsks(j1) == Success(ak);
    assert FindBids(json, j1, ak) == Success(bk);
    DecodeStages(json, j1, ak, bk, book);
  }

  /** The keys the decoder finds in the two-object delta form. */
  lemma BothDeltaKeys(book: Book)
    requires book.update && book.asks.tuples != [] && book.bids.tuples != []
    ensures var json := EncodeBook(book);
      var ak := SideKeys(true, false, Some(JArray(LevelListJson(book.asks.tuples))));
      var bk := SideKeys(true, false, Some(JArray(LevelListJson(book.bids.tuples))));
      FindAsks(At(json, 1)) == Success(ak) && FindBids(json, At(json, 1), ak) == Success(bk)
      && ReadChecksum(json, At(json, 1), ak, bk) == Success(book.checksum)
  {
    var json := EncodeBook(book);
    var asks := JArray(LevelListJson(book.asks.tuples));
    var bids := JArray(LevelListJson(book.bids.tuples));
    var c := JString(book.checksum);
    var first := [("a", asks)];
    var second := [("b", bids), ("c", c)];
    var j1 := JObject(first);
    assert At(json, 1) == j1;
    assert second[..1] == [("b", bids)];
    assert LastIndex(second, "b") == 0;
    assert LastProperty(first, "a") == Some(asks);
    assert LastProperty(second, "b") == Some(bids);
    assert LastProperty(second, "c") == Some(c);
    var ak := SideKeys(true, false, Some(asks));
    var bk := SideKeys(true, false, Some(bids));
    var j2 := JObject(second);
    assert Index(json, 2) == Success(j2);
    assert FindAsks(j1) == Success(ak);
    assert FindBids(json, j1, ak) == Success(bk);
    assert GetStringProperty(j2, "c") == Success(book.checksum);
  }

  lemma DecodeEncodeBothDelta(book: Book)
    requires book.update && book.asks.tuples != [] && book.bids.tuples != []
    ensures DecodeBook(EncodeBook(book)) == Success(book)
  {
    DecodeLevelListRoundTrip(book.asks.tuples);
    DecodeLevelListRoundTrip(book.bids.tuples);
    BothDeltaKeys(book);
    var json := EncodeBook(book);
    var ak := SideKeys(true, false, Some(JArray(LevelListJson(book.asks.tuples))));
    var bk := SideKeys(true, false, Some(JArray(LevelListJson(book.bids.tuples))));
    DecodeStages(json, At(json, 1), ak, bk, book);
  }

  /** Decoding the wire form of any book gives it back, so the structural disambiguation
      recovers the snapshot/delta flag, both sides, the checksum, the channel name and the pair
      for each of the four message shapes. */
  lemma DecodeEncodeBook(book: Book)
    requires !book.update ==> book.checksum == ""
    ensures DecodeBook(EncodeBook(book)) == Success(book)
  {
    if !book.update { DecodeEncodeSnapshot(book); }
    else if book.bids.tuples == [] { DecodeEncodeAskDelta(book); }
    else if book.asks.tuples == [] { DecodeEncodeBidDelta(book); }
    else { DecodeEncodeBothDelta(book); }
  }

  // ---------------------------------------------------------------------------------------
  // What the decoder does on any document, stated through key presence.

  /** The bids are a delta: "b" in the second object when the first has "a" and is followed by
      an object; otherwise "b" in the first object, unless that object is an ask snapshot. */
  predicate BidsDeltaFound(json: Json)
  {
    if HasProperty(At(json, 1), "a") && At(json, 2).JObject? then HasProperty(At(json, 2), "b")
    else (HasProperty(At(json, 1), "a") || !HasProperty(At(json, 1), "as")) && HasProperty(At(json, 1), "b")
  }

  predicate AsksSnapshotFound(json: Json)
  {
    !HasProperty(At(json, 1), "a") && HasProperty(At(json, 1), "as")
  }

  predicate BidsSnapshotFound(json: Json)
  {
    !BidsDeltaFound(json) && HasProperty(At(json, 1), "bs")
  }

  /** Bid detection, stated through key presence. */
  lemma FindBidsFound(json: Json)
    requires At(json, 1).JObject?
    requires FindBids(json, At(json, 1), FindAsks(At(json, 1)).value).Success?
    ensures var bids := FindBids(json, At(json, 1), FindAsks(At(json, 1)).value).value;
      bids.isUpdate == BidsDeltaFound(json) && bids.isSnapshot == BidsSnapshotFound(json)
  {
    var j1 := At(json, 1);
    var asks := FindAsks(j1).value;
    if asks.isUpdate {
      assert Index(json, 2).Success?;
      assert At(json, 2) == Index(json, 2).value;
    }
  }

  /** The stages a successful decode went through, in terms of the document. */
  lemma DecodeStagesOf(json: Json)
    requires DecodeBook(json).Success?
    ensures At(json, 1).JObject? && FindAsks(At(json, 1)).Success?
    ensures var j1 := At(json, 1);
      var asks := FindAsks(j1).value;
      var bids := FindBids(json, j1, asks);
      var book := DecodeBook(json).value;
      var shift := if asks.isUpdate && bids.value.isUpdate then 1 else 0;
      && bids.Success?
      && ReadChecksum(json, j1, asks, bids.value) == Success(book.checksum)
      && At(json, 2 + shift) == JString(book.channelName) && At(json, 3 + shift) == JString(book.pair)
      && book.update == (asks.isUpdate || bids.value.isUpdate)
      && book.asks.tuples == ReadLevels(asks).value && book.bids.tuples == ReadLevels(bids.value).value
  {
    var j1 := At(json, 1);
    assert Index(json, 1) == Success(j1);
    var asks := FindAsks(j1);
    assert asks.Success?;
    var bids := FindBids(json, j1, asks.value);
    assert bids.Success?;
    var checksum := ReadChecksum(json, j1, asks.value, bids.value);
    assert checksum.Success?;
    var shift := if asks.value.isUpdate && bids.value.isUpdate then 1 else 0;
    assert Index(json, 2 + shift).Success? && Index(json, 3 + shift).Success?;
  }

  /** A decoded message is a delta exactly when an ask delta or a bid delta was found. */
  lemma DecodedUpdateFlag(json: Json)
    requires DecodeBook(json).Success?
    ensures DecodeBook(json).value.update <==> HasProperty(At(json, 1), "a") || BidsDeltaFound(json)
  {
    DecodeStagesOf(json);
    FindBidsFound(json);
  }

  /** A message holding an ask or a bid snapshot gets the empty checksum. */
  lemma SnapshotChecksumEmpty(json: Json)
    requires DecodeBook(json).Success?
    requires AsksSnapshotFound(json) || BidsSnapshotFound(json)
    ensures DecodeBook(json).value.checksum == ""
  {
    DecodeStagesOf(json);
    FindBidsFound(json);
  }

  /** With deltas on both sides the checksum is "c" of the second object, and the channel name
      and the pair sit one position later. */
  lemma BothDeltaPositions(json: Json)
    requires DecodeBook(json).Success?
    requires HasProperty(At(json, 1), "a") && BidsDeltaFound(json)
    ensures var book := DecodeBook(json).value;
      && HasProperty(At(json, 2), "c")
      && book.checksum == LastProperty(At(json, 2).properties, "c").value.s
      && At(json, 3) == JString(book.channelName) && At(json, 4) == JString(book.pair)
  {
    DecodeStagesOf(json);
    FindBidsFound(json);
    assert At(json, 2) == Index(json, 2).value;
  }

  /** Otherwise the channel name and the pair are the third and fourth elements, and a delta
      takes its checksum from "c" of the first object. */
  lemma SingleObjectPositions(json: Json)
    requires DecodeBook(json).Success?
    requires !(HasProperty(At(json, 1), "a") && BidsDeltaFound(json))
    ensures var book := DecodeBook(json).value;
      && At(json, 2) == JString(book.channelName) && At(json, 3) == JString(book.pair)
      && (!AsksSnapshotFound(json) && !BidsSnapshotFound(json) ==>
            HasProperty(At(json, 1), "c") && book.checksum == LastProperty(At(json, 1).properties, "c").value.s)
  {
    DecodeStagesOf(json);
    FindBidsFound(json);
  }

  /** A document whose first element is not an unsigned 64-bit integer is rejected. */
  lemma BadChannelIdRejected(json: Json)
    requires !(TryGetUInt64(At(json, 0)).Success? && TryGetUInt64(At(json, 0)).value.Some?)
    ensures DecodeBook(json).Failure?
  {
  }

  /** A delta whose checksum holder has no string "c" is rejected. */
  lemma DeltaWithoutChecksumRejected(json: Json)
    requires !AsksSnapshotFound(json) && !BidsSnapshotFound(json)
    requires var holder := if HasProperty(At(json, 1), "a") && BidsDeltaFound(json) then At(json, 2) else At(json, 1);
             GetStringProperty(holder, "c").Failure?
    ensures DecodeBook(json).Failure?
  {
  }

  /** A side the message does not carry decodes as no levels. */
  lemma AbsentSideIsEmpty(json: Json)
    requires DecodeBook(json).Success?
    ensures !HasProperty(At(json, 1), "a") && !HasProperty(At(json, 1), "as") ==> DecodeBook(json).value.asks.tuples == []
    ensures !BidsDeltaFound(json) && !HasProperty(At(json, 1), "bs") ==> DecodeBook(json).value.bids.tuples == []
  {
    DecodeStagesOf(json);
    FindBidsFound(json);
  }

  /** Both deltas in one object, followed by the channel name, cannot be decoded: the checksum
      is then looked up in the third element, which is a string. */
  lemma CombinedDeltaObjectRejected(id: Json, asks: Json, bids: Json, c: Json, name: string, pair: string)
    ensures DecodeBook(JArray([id, JObject([("a", asks), ("b", bids), ("c", c)]), JString(name), JString(pair)])).Failure?
  {
    var props := [("a", asks), ("b", bids), ("c", c)];
    assert LastIndex(props, "a") == 0;
    assert LastIndex(props, "b") == 1;
  }
}

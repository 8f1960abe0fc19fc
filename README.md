# Kraken order-book tracking, modelled in Dafny

This project models the core of a client for the order-book channel of Kraken's WebSocket API
(version 1). The client keeps a local copy of one order book per trading pair:

- **Book-message decoder** (`JsonParsing`). It turns the parsed JSON array of a book message into a
  `Book` record. From the keys present (`"a"`, `"as"`, `"b"`, `"bs"`, `"c"`) it tells a snapshot from
  a delta, and it finds the checksum, the channel name and the pair at the positions that message
  shape puts them.
- **Exact decimals and their comparer** (`ExactFloats`). A price or volume text becomes an integer
  and a decimal exponent, and two of them are compared by lining up their exponents. The comparer is
  proved to order exactly as the rational values do.
- **Order-book side** (`OrderbookSides`). The `SortedDictionary<ExactFloat, ExactFloat>` keyed by the
  comparer becomes a strictly ascending sequence of entries. It has map-semantics lemmas for `Add`,
  the indexer, `Remove` and `TryGetValue`.
- **Per-pair tracker** (`TrackerLevels`, `OrderbookTracking`). A snapshot replaces both sides. A delta
  applies the zero-volume rule, moves the timestamp forward, trims each side to the subscription
  depth from its worst end, and compares the CRC-32 of the checksum pre-image with the checksum the
  message carries. On a mismatch the tracker halts until the next snapshot. Books the tracker publishes
  and mismatch events it raises are kept as logs.
- **Multi-pair dispatcher** (`GlobalTrackerImplementations.SyncDictDelegator`). A map from pair to
  tracker, with trackers created lazily on a pair's first snapshot. Unknown pairs and checksum
  mismatches are relayed as snapshot requests.
- **Subscription lifecycle** (`Core`). The desired set (`SimpleConcurrentHashset`) and a registry from
  pair to cancellation source for the background loops that resend (un)subscription requests. The
  routing of every incoming message, the reconnection handler and `Stop` are modelled too.

How the model is built:

- **What is left pure.** Code the source writes as expressions stays pure Dafny: the decoder, the
  comparer and the checksum are functions with lemmas.
- **What becomes imperative.** Code that loops or mutates is imperative Dafny: `IntPow`, `FillSide`,
  `UpdateSide` and `TrimDepth` are methods with `while` loops. `TrackerBase`, `SyncDictDelegator`,
  `SimpleConcurrentHashset` and `KrakenConnection` are classes whose methods update their fields.
- **How the methods are specified.** Each class method is tied to a specification function:
  `Tracker.NewUpdate` ensures `Step(state, outcome) == UpdateStep(old(state), book, name, depth)`.
  What the source promises is then proved as lemmas about those functions.
- **How the tracker's fields are held.** `TrackerBase`'s fields `_initialized`, `_askSide`, `_bidSide`
  and `Timestamp` form one `TrackerState` record, stored in the class's single mutable field
  `state`, together with the logs of published books and raised mismatches. Each method assigns
  updated copies of that record, one field at a time.
- **Where the positional `Book` constructor is.** It is the datatype constructor `JsonParsing.Book`; it
  stores every argument unchanged.

One behaviour of the source is easy to misread, and the model follows it.

- The stored exponent is `Length - IndexOf('.')`. That is one more than the number of fractional
  digits, 0 for a point at index 0, and `Length + 1` for text without a point.
- The extra factor of ten is shared by all texts that have a point after at least one digit, so
  comparisons between them stay exact (`ExactFloats.CompareDecimals`).
- Text without a point is divided by 10^(length + 1): "123" gets exponent 4 and reads as 0.0123
  (`ExactFloats.NoPointQuirk`).
- Kraken always sends prices and volumes with a point, so the feed never exercises this.

## Model

| member | source | states |
|---|---|---|
| JsonParsing.NewLevelTuple | src/JsonParsing/JsonParsing.cs:28-42 | succeeds exactly for 3 or 4 strings; price, volume and timestamp are elements 0-2; the update type is "" for 3 elements, element 3 otherwise |
| JsonParsing.LevelTupleRoundTrip | src/JsonParsing/JsonParsing.cs:28-42 | every level tuple is rebuilt from its wire strings |
| JsonParsing.LevelTupleElementsRoundTrip | src/JsonParsing/JsonParsing.cs:35-41 | an accepted list prints back unchanged unless it has four elements with an empty fourth |
| JsonParsing.SequenceEqual | src/JsonParsing/JsonParsing.cs:58 | `SequenceEqual` is true exactly when the tuple sequences are equal |
| JsonParsing.LevelsEquals | src/JsonParsing/JsonParsing.cs:55-59 | false for null, otherwise true exactly when the lengths match and every tuple is equal |
| JsonParsing.LevelsEqualsReflexive | src/JsonParsing/JsonParsing.cs:55-59 | every `Levels` equals itself |
| JsonParsing.LevelsEqualsSymmetric | src/JsonParsing/JsonParsing.cs:55-59 | equality does not depend on the order of the operands |
| JsonParsing.DecodeStrings | src/JsonParsing/JsonParsing.cs:139 | a level decodes only when every element is a string, and keeps them in order |
| JsonParsing.DecodeLevel | src/JsonParsing/JsonParsing.cs:139-141 | a level decodes exactly when it is an array of 3 or 4 strings; price, volume and timestamp are elements 0-2, the update type element 3 or "" |
| JsonParsing.DecodeLevelList | src/JsonParsing/JsonParsing.cs:136-149 | a decoded side has one tuple per element, each the decode of its element |
| JsonParsing.DecodeLevels | src/JsonParsing/JsonParsing.cs:136-149 | a side decodes only when it is an array, with one tuple per element, each the decode of its element |
| JsonParsing.FindAsks | src/JsonParsing/JsonParsing.cs:108-113 | json[1] must be an object; an ask delta is "a", an ask snapshot is "as" without "a" |
| JsonParsing.FindBids | src/JsonParsing/JsonParsing.cs:116-124 | a side is never both delta and snapshot, and has levels exactly when present |
| JsonParsing.FindBidsFound | src/JsonParsing/JsonParsing.cs:116-124 | a bid delta is "b" in json[2] when json[1] had "a" and json[2] is an object, else "b" in json[1] unless it held "as"; a bid snapshot is "bs" in json[1] otherwise |
| JsonParsing.ReadChecksum | src/JsonParsing/JsonParsing.cs:128-134 | "" when either side is a snapshot; otherwise the string under the last "c" of json[2] when both sides are deltas, of json[1] when not |
| JsonParsing.ReadLevels | src/JsonParsing/JsonParsing.cs:136-149 | an absent side has no levels; a present one decodes only from an array, one tuple per element |
| JsonParsing.DecodeBook | src/JsonParsing/JsonParsing.cs:101-161 | a decoded message is an array of at least four elements whose json[1] is an object; an "as" without "a" makes a snapshot with checksum "" |
| JsonParsing.DecodeStagesOf | src/JsonParsing/JsonParsing.cs:101-161 | a decoded book's checksum, channel name, pair and update flag come from the stages at the shifted positions |
| JsonParsing.DecodedUpdateFlag | src/JsonParsing/JsonParsing.cs:108-160 | `Update` is true exactly when json[1] has "a" or a bid delta was found |
| JsonParsing.SnapshotChecksumEmpty | src/JsonParsing/JsonParsing.cs:129-130 | a message with an ask or a bid snapshot gets checksum "" |
| JsonParsing.BothDeltaPositions | src/JsonParsing/JsonParsing.cs:128-152 | with deltas on both sides the checksum is json[2]["c"], the channel name json[3] and the pair json[4] |
| JsonParsing.SingleObjectPositions | src/JsonParsing/JsonParsing.cs:128-152 | otherwise the channel name is json[2] and the pair json[3], and a delta's checksum is json[1]["c"] |
| JsonParsing.BadChannelIdRejected | src/JsonParsing/JsonParsing.cs:105-106 | a json[0] that is not an unsigned 64-bit integer fails |
| JsonParsing.DeltaWithoutChecksumRejected | src/JsonParsing/JsonParsing.cs:131-134 | a delta fails when its checksum holder (json[2] when both sides are deltas, else json[1]) has no string "c" |
| JsonParsing.AbsentSideIsEmpty | src/JsonParsing/JsonParsing.cs:136-149 | a side the message does not carry decodes as no levels |
| JsonParsing.CombinedDeltaObjectRejected | src/JsonParsing/JsonParsing.cs:116-132 | "a" and "b" in a single object followed by the channel name fail: the checksum is looked up in a string |
| JsonParsing.DecodeLevelRoundTrip | src/JsonParsing/JsonParsing.cs:136-141 | the wire form of a level decodes to that level |
| JsonParsing.DecodeLevelListRoundTrip | src/JsonParsing/JsonParsing.cs:136-149 | the wire form of a level list decodes to that list |
| JsonParsing.DecodeStages | src/JsonParsing/JsonParsing.cs:101-161 | stages that each succeed compose into the decoded book |
| JsonParsing.DecodeEncodeSnapshot | src/JsonParsing/JsonParsing.cs:101-161 | a snapshot message ("as" and "bs") decodes to its book |
| JsonParsing.DecodeEncodeAskDelta | src/JsonParsing/JsonParsing.cs:101-161 | an ask-only delta decodes to its book |
| JsonParsing.DecodeEncodeBidDelta | src/JsonParsing/JsonParsing.cs:101-161 | a bid-only delta decodes to its book |
| JsonParsing.DecodeEncodeBothDelta | src/JsonParsing/JsonParsing.cs:101-161 | a two-object delta decodes to its book |
| JsonParsing.DecodeEncodeBook | src/JsonParsing/JsonParsing.cs:86-161 | every book (a snapshot with checksum "") is recovered from its wire form: flag, sides, checksum, channel name and pair |
| JsonTree.Index | src/JsonParsing/JsonParsing.cs:105 | `json[i]` succeeds exactly on an array longer than `i` |
| JsonTree.LastIndex | src/JsonParsing/JsonParsing.cs:108 | -1 exactly when no property has the key; otherwise a position holding the key with none after it |
| JsonTree.LastProperty | src/JsonParsing/JsonParsing.cs:108 | absent exactly when no property has the key; otherwise the last property with the key |
| JsonTree.TryGetProperty | src/JsonParsing/JsonParsing.cs:108-123 | throws on a non-object, otherwise yields the last property with the key |
| JsonTree.GetString | src/JsonParsing/JsonParsing.cs:151-152 | only a JSON string yields a string |
| JsonTree.GetStringProperty | src/JsonParsing/JsonParsing.cs:132-133 | succeeds exactly when the key is present with a string value |
| JsonTree.TryGetUInt64 | src/JsonParsing/JsonParsing.cs:105 | throws on a non-number; a value only for a decimal integer literal, which is its value |
| JsonTree.TryGetUInt64Literal | src/JsonParsing/JsonParsing.cs:105 | the printed form of any unsigned 64-bit integer reads back as it |
| Text.IndexOf | src/OrderbookTracking/OrderbookTracking.cs:38 | -1 exactly when the character is absent, otherwise its first position |
| Text.RemoveAll | src/OrderbookTracking/OrderbookTracking.cs:44 | no point is left, and text without one is unchanged |
| Text.RemoveAllLength | src/OrderbookTracking/OrderbookTracking.cs:44 | exactly the points are dropped: the length shrinks by their count |
| Text.StartsWith | src/Core/Core.cs:174 | true exactly when the prefix is no longer than the text and matches it character by character |
| Text.Contains | src/Core/Core.cs:196-202 | true exactly when the text occurs at some position |
| Text.OrdinalCompare | src/OrderbookTracking/OrderbookTracking.cs:217-221 | the result is -1, 0 or 1, and 0 exactly for equal strings |
| Text.OrdinalCompareAntisymmetric | src/OrderbookTracking/OrderbookTracking.cs:217-221 | swapping the operands negates the result |
| Text.OrdinalCompareTransitive | src/OrderbookTracking/OrderbookTracking.cs:217-221 | ordinal order is transitive |
| Text.OrdinalMax | src/OrderbookTracking/OrderbookTracking.cs:137-139 | the result is one of the two and not below either |
| Numbers.NatToString | src/OrderbookTracking/OrderbookTracking.cs:186 | `ToString()` of a natural number is nonempty decimal digits denoting it, with no leading zero |
| Numbers.IntToString | src/OrderbookTracking/OrderbookTracking.cs:186 | a leading '-' exactly for negative numbers, digits only otherwise |
| Numbers.ParseLong | src/OrderbookTracking/OrderbookTracking.cs:44 | `long.Parse` succeeds exactly on an optional sign followed by digits |
| Numbers.ParseLongIntToString | src/OrderbookTracking/OrderbookTracking.cs:44 | parsing a printed integer gives it back |
| Numbers.DigitsValueLeadingZero | src/OrderbookTracking/OrderbookTracking.cs:44 | leading zeros do not change the parsed value |
| ExactFloats.ExponentOf | src/OrderbookTracking/OrderbookTracking.cs:38-43 | the exponent is one more than the digits after the point, and length + 1 without a point |
| ExactFloats.Parse | src/OrderbookTracking/OrderbookTracking.cs:36-45 | succeeds exactly when the text with its points removed is an integer; exponent 0 for a point at index 0 |
| ExactFloats.IntPow | src/OrderbookTracking/OrderbookTracking.cs:19-31 | exponentiation by squaring returns `x^pow` for every `pow >= 0` |
| ExactFloats.CompareInt | src/OrderbookTracking/OrderbookTracking.cs:59-64 | `CompareTo`: -1, 0, 1 exactly for less, equal, greater |
| ExactFloats.Compare | src/OrderbookTracking/OrderbookTracking.cs:52-69 | the result is the sign of `x.Integer*10^ey - y.Integer*10^ex`, that is of the aligned integers |
| ExactFloats.CompareIsValueOrder | src/OrderbookTracking/OrderbookTracking.cs:48-69 | the comparer is -1, 0, 1 exactly when the rational values are <, =, > |
| ExactFloats.CompareReflexive | src/OrderbookTracking/OrderbookTracking.cs:52-69 | every value compares equal to itself |
| ExactFloats.CompareAntisymmetric | src/OrderbookTracking/OrderbookTracking.cs:52-69 | swapping the operands negates the result |
| ExactFloats.CompareTransitive | src/OrderbookTracking/OrderbookTracking.cs:52-69 | the comparer is transitive, strictly when either step is strict |
| ExactFloats.ParseDecimal | src/OrderbookTracking/OrderbookTracking.cs:36-45 | `i.f` parses to all its digits with exponent `|f| + 1` |
| ExactFloats.ValueDecimal | src/OrderbookTracking/OrderbookTracking.cs:36-45 | the parsed value of `i.f` is a tenth of the decimal it denotes |
| ExactFloats.CompareDecimals | src/OrderbookTracking.Tests/OrderbookTrackingTests.cs:19-56 | decimal texts compare as the decimals they denote, which covers every row of the comparer's test table |
| ExactFloats.CompareReal | src/OrderbookTracking.Tests/OrderbookTrackingTests.cs:19-49 | the expected table value: -1, 0, 1 for <, =, > |
| ExactFloats.ParseLeadingZero | src/OrderbookTracking.Tests/OrderbookTrackingTests.cs:20-21 | a leading zero gives the same `ExactFloat` |
| ExactFloats.ParseTrailingZero | src/OrderbookTracking.Tests/OrderbookTrackingTests.cs:22-23 | a trailing fractional zero compares equal |
| ExactFloats.ParseNoPoint | src/OrderbookTracking/OrderbookTracking.cs:38-44 | text without a point is all integer, with exponent length + 1 |
| ExactFloats.NoPointQuirk | src/OrderbookTracking/OrderbookTracking.cs:43 | "123" parses to (123, 4) and orders below "1.0" |
| OrderbookSides.CompareIsValueOrderAll | src/OrderbookTracking/OrderbookTracking.cs:52-69 | the comparer is the value order for all pairs at once |
| OrderbookSides.Find | src/OrderbookTracking/OrderbookTracking.cs:13 | a position whose key compares equal, or -1 exactly when there is none |
| OrderbookSides.FindFirst | src/OrderbookTracking/OrderbookTracking.cs:13 | the position found is the first: no key before it compares equal |
| OrderbookSides.FindUnique | src/OrderbookTracking/OrderbookTracking.cs:13 | in a sorted side every key sits at exactly one position |
| OrderbookSides.FindCongruent | src/OrderbookTracking/OrderbookTracking.cs:13 | keys that compare equal are found at the same position |
| OrderbookSides.Lookup | src/OrderbookTracking/OrderbookTracking.cs:13 | `TryGetValue` is absent exactly when no key compares equal, otherwise it yields that entry's volume |
| OrderbookSides.Insert | src/OrderbookTracking/OrderbookTracking.cs:119 | inserting an absent key keeps the side sorted, adds one entry and keeps all others |
| OrderbookSides.Add | src/OrderbookTracking/OrderbookTracking.cs:119 | `Add` throws exactly when the key is present, otherwise grows the side by one, sorted |
| OrderbookSides.SetValue | src/OrderbookTracking/OrderbookTracking.cs:152 | the indexer keeps the keys of a present entry and inserts an absent one, sorted |
| OrderbookSides.Remove | src/OrderbookTracking/OrderbookTracking.cs:153 | `Remove` drops one entry for a present key and changes nothing otherwise |
| OrderbookSides.LookupInsert | src/OrderbookTracking/OrderbookTracking.cs:119 | after an insertion the new key reads its volume and every other key reads as before |
| OrderbookSides.LookupSetValue | src/OrderbookTracking/OrderbookTracking.cs:152 | `side[k] = v` is a map update |
| OrderbookSides.LookupRemove | src/OrderbookTracking/OrderbookTracking.cs:153 | `side.Remove(k)` is a map removal |
| OrderbookSides.LookupAdd | src/OrderbookTracking/OrderbookTracking.cs:119 | a successful `Add` is a map insertion |
| OrderbookSides.RemovedKeyAbsent | src/OrderbookTracking/OrderbookTracking.cs:153 | dropping an entry leaves no key equal to it |
| OrderbookSides.RemoveAtSorted | src/OrderbookTracking/OrderbookTracking.cs:153 | dropping one entry of a sorted side keeps it sorted |
| OrderbookSides.RemoveKeepsOthers | src/OrderbookTracking/OrderbookTracking.cs:153 | dropping an entry keeps the order and what every other key reads |
| TrackerLevels.AddLevel | src/OrderbookTracking/OrderbookTracking.cs:119 | one snapshot level keeps the side sorted, and a fault leaves it unchanged |
| TrackerLevels.FillSpec | src/OrderbookTracking/OrderbookTracking.cs:115-121 | adding the levels in order keeps the side sorted, whether or not a level faults |
| TrackerLevels.FillSide | src/OrderbookTracking/OrderbookTracking.cs:115-121 | the loop computes the fold of `AddLevel` over the levels, stopping at the first fault |
| TrackerLevels.ApplyLevel | src/OrderbookTracking/OrderbookTracking.cs:151-153 | one delta level keeps the side sorted, and a fault leaves it unchanged |
| TrackerLevels.UpdateSpec | src/OrderbookTracking/OrderbookTracking.cs:147-155 | applying the levels in order keeps the side sorted, whether or not a level faults |
| TrackerLevels.UpdateSide | src/OrderbookTracking/OrderbookTracking.cs:147-155 | the loop computes the fold of `ApplyLevel` over the levels, stopping at the first fault |
| TrackerLevels.ApplyLevelOther | src/OrderbookTracking/OrderbookTracking.cs:151-153 | a level leaves every other price untouched |
| TrackerLevels.ApplyLevelSame | src/OrderbookTracking/OrderbookTracking.cs:151-153 | volume text exactly "0.00000000" removes the price, any other volume sets it |
| TrackerLevels.UpdateUntouched | src/OrderbookTracking/OrderbookTracking.cs:147-155 | a price no level names reads as before |
| TrackerLevels.UpdateLastLevelWins | src/OrderbookTracking/OrderbookTracking.cs:147-155 | a price reads what its last level says: absent for the zero text, else that volume |
| TrackerLevels.FillKeepsPresent | src/OrderbookTracking/OrderbookTracking.cs:115-121 | a completed fill keeps what present keys read |
| TrackerLevels.FillNamingPresentFaults | src/OrderbookTracking/OrderbookTracking.cs:119 | a level naming a present price makes the fill throw |
| TrackerLevels.FillUntouched | src/OrderbookTracking/OrderbookTracking.cs:115-121 | a completed fill keeps prices no level names |
| TrackerLevels.FillSets | src/OrderbookTracking/OrderbookTracking.cs:115-121 | after a completed fill each named price reads its level's volume |
| TrackerLevels.FillSize | src/OrderbookTracking/OrderbookTracking.cs:115-121 | a completed fill adds exactly one entry per level |
| TrackerLevels.RepeatedPriceFaults | src/OrderbookTracking/OrderbookTracking.cs:119 | a snapshot naming a price twice throws |
| TrackerLevels.MaxTimestamp | src/OrderbookTracking/OrderbookTracking.cs:124-125 | null exactly for no levels, otherwise a level's timestamp not below any other |
| TrackerLevels.NonRepublished | src/OrderbookTracking/OrderbookTracking.cs:159 | exactly the levels whose update type is not "r" |
| TrackerLevels.MaxNonRepublished | src/OrderbookTracking/OrderbookTracking.cs:158-159 | null exactly when every level is "r", otherwise the newest non-"r" timestamp |
| TrackerLevels.CompareNullable | src/OrderbookTracking/OrderbookTracking.cs:217 | the nullable string comparison yields -1, 0 or 1 |
| TrackerLevels.NextTimestamp | src/OrderbookTracking/OrderbookTracking.cs:215-224 | the new timestamp is the old one or one of the two maxima |
| TrackerLevels.NextTimestampIsMax | src/OrderbookTracking/OrderbookTracking.cs:215-224 | the new timestamp is not below the old one nor below either maximum present |
| TrackerLevels.Trimmed | src/OrderbookTracking/OrderbookTracking.cs:163-181 | a trimmed side has `min(count, Depth)` entries |
| TrackerLevels.TrimKeepsBest | src/OrderbookTracking/OrderbookTracking.cs:163-181 | trimming keeps the order and only entries of the side; every dropped ask is above and every dropped bid below each kept one |
| TrackerLevels.TrimmedSorted | src/OrderbookTracking/OrderbookTracking.cs:163-181 | trimming keeps the order |
| TrackerLevels.TrimmedReadsAsBefore | src/OrderbookTracking/OrderbookTracking.cs:163-181 | every key kept reads the volume it read before |
| TrackerLevels.RemoveAtIndex | src/OrderbookTracking/OrderbookTracking.cs:171-178 | `Remove(ElementAt(i).Key)` drops exactly position `i` |
| TrackerLevels.TrimDepth | src/OrderbookTracking/OrderbookTracking.cs:163-181 | the removal loops compute the trimmed side |
| OrderbookTracking.Take | src/OrderbookTracking/OrderbookTracking.cs:192 | `Take(n)` is the first `min(count, n)` entries |
| OrderbookTracking.TakeLast | src/OrderbookTracking/OrderbookTracking.cs:192 | `TakeLast(n)` is the last `min(count, n)` entries |
| OrderbookTracking.Reverse | src/OrderbookTracking/OrderbookTracking.cs:192 | reversing keeps the number of entries |
| OrderbookTracking.ReverseIndex | src/OrderbookTracking/OrderbookTracking.cs:192 | position `i` of the reversed side holds the entry at `count - 1 - i` |
| OrderbookTracking.AsciiBytes | src/OrderbookTracking/OrderbookTracking.cs:202 | one byte per character |
| OrderbookTracking.AsciiBytesIndex | src/OrderbookTracking/OrderbookTracking.cs:202 | each byte is its character's code, '?' for characters outside ASCII |
| OrderbookTracking.EntryText | src/OrderbookTracking/OrderbookTracking.cs:184-187 | the text of an entry holds only digits and '-' |
| OrderbookTracking.CheckSumSide | src/OrderbookTracking/OrderbookTracking.cs:190-195 | the text of a side holds only digits and '-' |
| OrderbookTracking.CheckSumSideBestFirst | src/OrderbookTracking/OrderbookTracking.cs:190-195 | the text is that of the `min(count, 10)` lowest asks ascending, or of the highest bids from the top down |
| OrderbookTracking.ChecksumPreimage | src/OrderbookTracking/OrderbookTracking.cs:198-202 | the pre-image holds only digits and '-' |
| OrderbookTracking.Crc32 | src/OrderbookTracking/OrderbookTracking.cs:203 | the CRC is a 32-bit unsigned value, below 2^32 |
| OrderbookTracking.XorBelow | src/OrderbookTracking/OrderbookTracking.cs:203 | exclusive or of two k-bit numbers has at most k bits |
| OrderbookTracking.CrcShiftBelow | src/OrderbookTracking/OrderbookTracking.cs:203 | shifting a 32-bit register keeps it below 2^32 |
| OrderbookTracking.CrcRunBelow | src/OrderbookTracking/OrderbookTracking.cs:203 | feeding bytes to a 32-bit register keeps it below 2^32 |
| OrderbookTracking.Checksum | src/OrderbookTracking/OrderbookTracking.cs:198-204 | nonempty decimal digits with no leading zero, denoting the CRC-32 of the ASCII pre-image |
| OrderbookTracking.IntToStringChars | src/OrderbookTracking/OrderbookTracking.cs:184-187 | a printed integer holds only digits and '-' |
| OrderbookTracking.EntriesTextChars | src/OrderbookTracking/OrderbookTracking.cs:190-195 | the text of a run of entries holds only digits and '-' |
| OrderbookTracking.PreimageIsAscii | src/OrderbookTracking/OrderbookTracking.cs:198-202 | the ASCII encoding hands the CRC exactly the pre-image's characters |
| OrderbookTracking.ChecksumTopTen | src/OrderbookTracking/OrderbookTracking.cs:190-204 | asks beyond the ten lowest and bids below the ten highest do not affect the checksum |
| OrderbookTracking.InitialState | src/OrderbookTracking/OrderbookTracking.cs:92-105 | a new tracker is uninitialized, with empty sorted sides and timestamp "0" |
| OrderbookTracking.SnapshotStep | src/OrderbookTracking/OrderbookTracking.cs:128-144 | a snapshot keeps both sides sorted and either publishes or faults |
| OrderbookTracking.UpdateStep | src/OrderbookTracking/OrderbookTracking.cs:207-240 | a delta keeps both sides sorted |
| OrderbookTracking.FinishUpdate | src/OrderbookTracking/OrderbookTracking.cs:213-239 | finishing a delta keeps both sides sorted |
| OrderbookTracking.FilledExactly | src/OrderbookTracking/OrderbookTracking.cs:115-134 | a side filled from nothing holds exactly the named prices, each with its level's volume |
| OrderbookTracking.SnapshotOutcome | src/OrderbookTracking/OrderbookTracking.cs:128-144 | a snapshot publishes exactly when both sides fill and neither is empty; a fault changes only the sides |
| OrderbookTracking.SnapshotReplacesSides | src/OrderbookTracking/OrderbookTracking.cs:128-144 | a published snapshot replaces both sides, untrimmed, by exactly its levels, initializes and publishes once |
| OrderbookTracking.SnapshotTimestamp | src/OrderbookTracking/OrderbookTracking.cs:135-139 | the snapshot timestamp is a level's timestamp not below any level of either side |
| OrderbookTracking.UpdateOutcome | src/OrderbookTracking/OrderbookTracking.cs:207-240 | skipped (with nothing changed) exactly before a snapshot; faulted exactly when a side faults; published or mismatched by the checksum |
| OrderbookTracking.AppliedUpdate | src/OrderbookTracking/OrderbookTracking.cs:211-212 | an applied delta is finished from the sides the levels left |
| OrderbookTracking.FinishUpdateForm | src/OrderbookTracking/OrderbookTracking.cs:226-239 | after trimming, a checksum mismatch uninitializes and logs one mismatch; a match publishes the trimmed sides at the new timestamp |
| OrderbookTracking.FinishedSides | src/OrderbookTracking/OrderbookTracking.cs:213-227 | finishing trims asks from the top and bids from the bottom, and moves the timestamp |
| OrderbookTracking.UpdateTrims | src/OrderbookTracking/OrderbookTracking.cs:226-227 | after a delta each side is the trimmed result, at most `Depth` long, and kept keys read what the delta left |
| OrderbookTracking.UpdateTimestamp | src/OrderbookTracking/OrderbookTracking.cs:213-224 | the timestamp never decreases, is not below any non-"r" level, and only-"r" deltas leave it unchanged |
| OrderbookTracking.UpdateChecksum | src/OrderbookTracking/OrderbookTracking.cs:229-239 | a publish carries the checksum it matched; a mismatch uninitializes, raises one (name, expected, actual) event and publishes nothing |
| OrderbookTracking.MismatchHalts | src/OrderbookTracking/OrderbookTracking.cs:210-233 | after a mismatch the next delta is skipped with nothing changed |
| OrderbookTracking.Tracker.constructor | src/OrderbookTracking/OrderbookTracking.cs:101-105 | the tracker starts in the initial state |
| OrderbookTracking.Tracker.PublishBook | src/OrderbookTracking/OrderbookTracking.cs:112 | appends one publication of the current timestamp and sides, nothing else |
| OrderbookTracking.Tracker.NewSnapshot | src/OrderbookTracking/OrderbookTracking.cs:128-144 | the new state and outcome are `SnapshotStep` of the old state |
| OrderbookTracking.Tracker.NewUpdate | src/OrderbookTracking/OrderbookTracking.cs:207-240 | the new state and outcome are `UpdateStep` of the old state |
| OrderbookTracking.Tracker.FinishNewUpdate | src/OrderbookTracking/OrderbookTracking.cs:213-239 | the new state and outcome are `FinishUpdate` of the applied sides |
| GlobalTrackerImplementations.SyncDictDelegator.constructor | src/OrderbookTracking/OrderbookTracking.cs:253-259 | no trackers, no requests |
| GlobalTrackerImplementations.SyncDictDelegator.GetOrAddTracker | src/OrderbookTracking/OrderbookTracking.cs:268-276 | the pair's tracker, or one fresh initial tracker added for it, and no other change |
| GlobalTrackerImplementations.SyncDictDelegator.NewSnapshot | src/OrderbookTracking/OrderbookTracking.cs:279-283 | only the pair's book changes, by `SnapshotStep` from its old or the initial state; `ok` is false exactly when the tracker throws |
| GlobalTrackerImplementations.SyncDictDelegator.NewUpdate | src/OrderbookTracking/OrderbookTracking.cs:262-297 | an unknown pair raises one request and changes no book; a known pair's book moves by `UpdateStep`, a mismatch raises one request for it, and `ok` is false exactly when the tracker throws |
| GlobalTrackerImplementations.SyncDictDelegator.ForwardUpdate | src/OrderbookTracking/OrderbookTracking.cs:286-297 | a known pair's tracker takes the delta by `UpdateStep`; no other book changes |
| GlobalTrackerImplementations.SyncDictDelegator.NewUnsubscribe | src/OrderbookTracking/OrderbookTracking.cs:300-306 | the pair's tracker is gone, the others stay |
| GlobalTrackerImplementations.SyncDictDelegator.OnlyOneTrackerChanged | src/OrderbookTracking/OrderbookTracking.cs:279-297 | when only the pair's tracker changed, only the pair's book changed |
| Core.SimpleConcurrentHashset.constructor | src/Core/Core.cs:17 | the set starts empty |
| Core.SimpleConcurrentHashset.Add | src/Core/Core.cs:19-25 | true exactly when the item was absent; afterwards it is present |
| Core.SimpleConcurrentHashset.Remove | src/Core/Core.cs:27-33 | true exactly when the item was present; afterwards it is absent |
| Core.SimpleConcurrentHashset.ShallowCopy | src/Core/Core.cs:35-41 | the copy equals the current contents |
| Core.SimpleConcurrentHashset.Contains | src/Core/Core.cs:43-49 | true exactly when the item is present |
| Core.SimpleConcurrentHashset.Clear | src/Core/Core.cs:51-57 | the set is empty |
| Core.StartLoop | src/Core/Core.cs:255-260 | starts one loop on the pair's registered source and changes neither the desired set nor the tracker |
| Core.StartLoopSource | src/Core/Core.cs:257-258 | an existing source is reused for either kind of request, even when cancelled; only a pair without one gets a fresh, uncancelled source |
| Core.SubEventChanges | src/Core/Core.cs:263-272 | `Subscribe` adds and `Unsubscribe` removes the pair; a loop starts exactly when the set changed |
| Core.SubscriptionChange | src/Core/Core.cs:263-272 | `Subscribe` puts the pair in the desired set and `Unsubscribe` takes it out, other pairs stay; no tracker call; at most one loop is started |
| Core.SubEventIdempotent | src/Core/Core.cs:263-284 | repeating a `Subscribe` or an `Unsubscribe` starts nothing and changes nothing |
| Core.StartLoopsEach | src/Core/Core.cs:156-163 | reconnection starts one subscribe loop per pair of the copy, in its order, and changes neither the desired set nor the tracker |
| Core.StartLoopsRegisters | src/Core/Core.cs:156-163 | after `StartLoops` every pair of the copy has a registered source, and no source is dropped |
| Core.SubscribedCancels | src/Core/Core.cs:206-209 | a "subscribed" status removes the pair's source and cancels it, changing no other source; without a source nothing changes |
| Core.Subscribed | src/Core/Core.cs:206-209 | the pair loses its source; every other pair keeps its own |
| Core.StopCancelsAll | src/Core/Core.cs:287-293 | `Stop` empties the desired set and cancels every registered source, removing none |
| Core.StopSpec | src/Core/Core.cs:287-293 | the desired set is empty, the registry unchanged, and no cancellation is undone |
| Core.ClassifyOrder | src/Core/Core.cs:174-225 | "[" wins, then systemStatus, then subscriptionStatus; only the heartbeat literal and "close" are ignored |
| Core.Classify | src/Core/Core.cs:174-225 | a book message exactly when the text starts with "["; the heartbeat literal and "close" are never unexpected |
| Core.ReceiveEffect | src/Core/Core.cs:169-232 | the registry stays valid; a throw changes nothing; unexpected text throws; only book messages call the tracker; the desired set never changes |
| Core.ReceiveBook | src/Core/Core.cs:174-193 | a book message that parses and decodes becomes `RouteBook` of the old state, without a throw |
| Core.ReceiveStatus | src/Core/Core.cs:195-210 | a "subscribed" status applies `Subscribed` to its pair, any other status leaves the state unchanged, an undeserialisable one throws; a systemStatus changes nothing |
| Core.Receive | src/Core/Core.cs:169-232 | a book that decodes makes exactly one tracker call; any other kind of message starts no loop and calls no tracker |
| Core.RouteBookCalls | src/Core/Core.cs:174-194 | one tracker call per book: updates to `NewUpdate`, desired snapshots to `NewSnapshot`, other snapshots to an unsubscribe loop and `NewUnsubscribe` |
| Core.RouteBook | src/Core/Core.cs:174-194 | exactly one tracker call is appended and the desired set is unchanged |
| Core.KrakenConnection.constructor | src/Core/Core.cs:140-151 | empty desired set, registry and logs |
| Core.KrakenConnection.RunSubscriptionEventLoop | src/Core/Core.cs:255-260 | the new state is `StartLoop` of the old |
| Core.KrakenConnection.SubEvent | src/Core/Core.cs:263-272 | the new state is `SubscriptionChange` of the old |
| Core.KrakenConnection.Subscribe | src/Core/Core.cs:275-278 | a subscribe request through `SubscriptionChange` |
| Core.KrakenConnection.Unsubscribe | src/Core/Core.cs:281-284 | an unsubscribe request through `SubscriptionChange` |
| Core.KrakenConnection.OnSnapshotRequested | src/Core/Core.cs:152-153 | a tracker's snapshot request starts one subscribe loop |
| Core.KrakenConnection.OnReconnection | src/Core/Core.cs:156-163 | one subscribe loop per pair of the copy of the desired set, in the copy's order |
| Core.KrakenConnection.Stop | src/Core/Core.cs:287-296 | the new state is `StopSpec` of the old |
| Core.KrakenConnection.CancelSources | src/Core/Core.cs:290-293 | the loop cancels every registered source and changes no other cancellation flag: the result is `CancelAll` over the registry |
| Core.KrakenConnection.MessageReceived | src/Core/Core.cs:169-232 | the new state and whether it throws are `Receive` of the old state and the message |
| Core.StartLoopsAppend | src/Core/Core.cs:159-162 | one more pair in the copy starts one more loop at the end |

## Left out

- The websocket wrapper (`src/Websocket`), the command-line program (`src/Cli`), `Run` and the result
  of the websocket's own `Stop` are I/O. `Console.WriteLine` is not modelled either.
- The loops themselves (`_subEvent_loop`): `Task.Run`, `Task.Delay`, the token checks and the repeated
  `Send` are timing and concurrency. Each loop is a `LoopStarted` event naming its source, and
  cancellation is a flag on the source.
- The locks of `SimpleConcurrentHashset` and the concurrency of the `ConcurrentDictionary` are not
  modelled; both are sequential.
- JSON text is not parsed, and `SubscriptionEventMsg` is not serialised. The decoder starts from a
  parsed tree. The connection takes the three deserialisers as function parameters.
- Core.KrakenConnection.MessageReceived: the message is tested with an ordinal `StartsWith`, where
  `string.StartsWith(string)` is culture-sensitive.
- Core.KrakenConnection.MessageReceived: its `IGlobalTracker` is a log of calls. Exceptions thrown
  inside the tracker, and a subscriptionStatus without a pair (`TryRemove(null)` throws), are not modelled.
- Numbers.ParseLong: `long.Parse` also accepts surrounding whitespace and rejects values outside 64
  bits. Neither is modelled; integers are unbounded.
- ExactFloats.IntPow: 32-bit overflow is not modelled. A negative exponent, on which the loop never
  ends, is excluded by the precondition; the comparer passes only non-negative exponents.
- ExactFloats.Compare: overflow in the `long` multiplications is not modelled.
- TrackerLevels.MaxTimestamp: ordinal order stands in for the culture-sensitive default string
  comparer of `Max`, and so does TrackerLevels.MaxNonRepublished.
- JsonParsing.DecodeStrings: a JSON `null` inside a level is a decode failure here, so the model
  rejects books the source accepts. In the source it becomes a null string. A null timestamp or
  update type never fails: `Max` skips nulls and `null != "r"`. A null price or volume fails only
  when a tracker parses it, and an unwanted snapshot never reaches a tracker.
- Strings are sequences of Unicode scalar values, Dafny's `char`; .NET strings are UTF-16 code units.
  No culture or normalisation is modelled.
- Text.OrdinalCompare: compares Unicode scalar values, so a character above U+FFFF sorts after
  U+E000-U+FFFF, where .NET's ordinal comparison puts its surrogate pair before them. Lone
  surrogates cannot be represented. The same holds for Text.OrdinalMax, TrackerLevels.MaxTimestamp
  and TrackerLevels.NextTimestamp.
- OrderbookTracking.Tracker.PublishBook: a publication is a copy of the sides. `OnBookAvailable`
  receives the live dictionaries, so aliasing through them is not modelled.
- OrderbookTracking.Tracker.constructor: the depth is a natural number. With a negative `Depth` the
  ask loop of `TrimDepth` empties the asks and then calls `ElementAt(-1)`, which throws: `NewUpdate`
  faults with the bids untrimmed and no checksum compared. That case is not modelled.
- GlobalTrackerImplementations.SyncDictDelegator.GetOrAddTracker: the generic factory always builds
  a `Tracker`. Which subclass, and what its `OnBookAvailable` does, is not modelled.
- The dispatcher and the connection are modelled separately. They are not wired through the
  snapshot-request event, whose handler is `Core.KrakenConnection.OnSnapshotRequested`.
- OrderbookTracking.Crc32 is the standard reflected IEEE 802.3 CRC-32 that the Force.Crc32 library
  computes. No lemma depends on its bits, and the checksums in the test fixtures are not evaluated.
- The `default` branch of the comparer's switch cannot be reached, because `CompareTo` on integers
  returns -1, 0 or 1.

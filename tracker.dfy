/** `TrackerBase`: the local copy of one pair's order book, rebuilt from snapshots, moved
    forward by deltas, trimmed to the subscription depth and checked against the checksum
    every delta carries. */
module OrderbookTracking {
  import opened Wrappers
  import opened Numbers
  import opened Text
  import opened JsonParsing
  import opened ExactFloats
  import opened OrderbookSides
  import opened TrackerLevels

  newtype byte = x: int | 0 <= x < 256

  // ---------------------------------------------------------------------------------------
  // The checksum

  /** `ExactFloatToChecksumString` of the key, then of the value: each stored integer in
      decimal, so the point and any leading zeros are gone. */
  function EntryText(e: Entry): (r: string)
    ensures forall i :: 0 <= i < |r| ==> IsSignOrDigit(r[i])
  {
    var a := IntToString(e.price.integer);
    var b := IntToString(e.volume.integer);
    IntToStringChars(e.price.integer);
    IntToStringChars(e.volume.integer);
    SignsAndDigitsConcat(a, b);
    a + b
  }

  /** `SelectMany` over the entries, joined without a separator. */
  function EntriesText(es: seq<Entry>): string
  {
    if es == [] then "" else EntryText(es[0]) + EntriesText(es[1..])
  }

  /** `Take(n)`: the first `n` entries, or all of them. */
  function Take(s: Side, n: nat): (r: Side)
    ensures |r| == if |s| <= n then |s| else n
    ensures r == s[..|r|]
  {
    if |s| <= n then s else s[..n]
  }

  /** `TakeLast(n)`: the last `n` entries, or all of them. */
  function TakeLast(s: Side, n: nat): (r: Side)
    ensures |r| == if |s| <= n then |s| else n
    ensures r == s[|s| - |r|..]
  {
    if |s| <= n then s else s[|s| - n..]
  }

  /** `Reverse()`. */
  function Reverse(s: Side): (r: Side)
    ensures |r| == |s|
  {
    if s == [] then [] else Reverse(s[1..]) + [s[0]]
  }

  /** Position `i` of the reversed side holds the entry at `|s| - 1 - i`. */
  lemma {:induction false} ReverseIndex(s: Side)
    ensures forall i :: 0 <= i < |s| ==> Reverse(s)[i] == s[|s| - 1 - i]
  {
    if s != [] {
      ReverseIndex(s[1..]);
      assert Reverse(s) == Reverse(s[1..]) + [s[0]];
    }
  }

  /** `CheckSumSide`: the ten best levels of a side, best first: the lowest asks ascending,
      the highest bids descending. */
  function CheckSumSide(side: Side, useHighest: bool): (r: string)
    ensures forall i :: 0 <= i < |r| ==> IsSignOrDigit(r[i])
  {
    var values := if useHighest then Reverse(TakeLast(side, 10)) else Take(side, 10);
    EntriesTextChars(values);
    EntriesText(values)
  }

  /** The text handed to the CRC: the asks' part, then the bids' part. */
  function ChecksumPreimage(asks: Side, bids: Side): (r: string)
    ensures forall i :: 0 <= i < |r| ==> IsSignOrDigit(r[i])
  {
    var a := CheckSumSide(asks, false);
    var b := CheckSumSide(bids, true);
    SignsAndDigitsConcat(a, b);
    a + b
  }

  /** The ten best levels, spelled out: the first `min(count, 10)` asks in ascending order, and for
      bids the entries at `count - 1`, `count - 2`, ... down the highest `min(count, 10)`. */
  lemma CheckSumSideBestFirst(side: Side, useHighest: bool)
    ensures var k := if |side| <= 10 then |side| else 10;
      CheckSumSide(side, useHighest)
      == EntriesText(if useHighest then seq(k, i requires 0 <= i < k => side[|side| - 1 - i]) else side[..k])
  {
    var k := if |side| <= 10 then |side| else 10;
    if useHighest {
      var top := TakeLast(side, 10);
      ReverseIndex(top);
      assert Reverse(top) == seq(k, i requires 0 <= i < k => side[|side| - 1 - i]);
    }
  }

  /** `Encoding.ASCII.GetBytes`: a character outside ASCII becomes `'?'`. */
  function AsciiBytes(s: string): (r: seq<byte>)
    ensures |r| == |s|
  {
    if s == [] then [] else [if s[0] as int < 128 then s[0] as int as byte else '?' as int as byte] + AsciiBytes(s[1..])
  }

  /** One byte per character: the character's code when it is ASCII, `'?'` otherwise. */
  lemma {:induction false} AsciiBytesIndex(s: string)
    ensures forall i :: 0 <= i < |s| ==>
      AsciiBytes(s)[i] as int == if s[i] as int < 128 then s[i] as int else '?' as int
  {
    if s != [] {
      AsciiBytesIndex(s[1..]);
      assert forall i :: 1 <= i < |s| ==> AsciiBytes(s)[i] == AsciiBytes(s[1..])[i - 1];
    }
  }

  /** `Crc32Algorithm.Compute`: the CRC-32 of IEEE 802.3 (reflected polynomial 0xEDB88320,
      register preset to all ones, result complemented). The register is held as a natural
      number; its bits are the binary digits. */
  function Crc32(bytes: seq<byte>): (r: nat)
    ensures r < UInt32Range
  {
    CrcRunBelow(AllOnes, bytes);
    UInt32RangeIsPow();
    XorBelow(CrcRun(AllOnes, bytes), AllOnes, 32);
    Xor(CrcRun(AllOnes, bytes), AllOnes)
  }

  /** The values a `uint` holds are those below this bound. */
  const UInt32Range: nat := 0x1_0000_0000

  const AllOnes: nat := 0xFFFF_FFFF
  const CrcPolynomial: nat := 0xEDB8_8320
  const BitsPerByte: nat := 8

  /** Bitwise exclusive or of two natural numbers. */
  function Xor(a: nat, b: nat): nat
    decreases a + b
  {
    if a == 0 && b == 0 then 0 else (if a % 2 == b % 2 then 0 else 1) + 2 * Xor(a / 2, b / 2)
  }

  /** The register after feeding it the bytes, least significant bit first. */
  function CrcRun(crc: nat, bytes: seq<byte>): nat
    decreases |bytes|
  {
    if bytes == [] then crc else CrcRun(CrcShift(Xor(crc, bytes[0] as nat), BitsPerByte), bytes[1..])
  }

  /** `n` shifts of the register, each folding in the polynomial when the bit shifted out is 1. */
  function CrcShift(crc: nat, n: nat): nat
    decreases n
  {
    if n == 0 then crc
    else CrcShift(if crc % 2 == 1 then Xor(crc / 2, CrcPolynomial) else crc / 2, n - 1)
  }

  /** Exclusive or of two `k`-bit numbers has at most `k` bits. */
  lemma {:induction false} XorBelow(a: nat, b: nat, k: nat)
    requires a < Pow(2, k) && b < Pow(2, k)
    ensures Xor(a, b) < Pow(2, k)
    decreases k
  {
    if k > 0 && !(a == 0 && b == 0) {
      XorBelow(a / 2, b / 2, k - 1);
    }
  }

  /** `UInt32Range` is two to the 32nd. */
  lemma UInt32RangeIsPow()
    ensures Pow(2, 32) == UInt32Range
  {
    assert Pow(2, 4) == 16;
    PowAdd(2, 4, 4);
    PowAdd(2, 8, 8);
    PowAdd(2, 16, 16);
  }

  /** Shifting a 32-bit register keeps it 32 bits wide. */
  lemma {:induction false} CrcShiftBelow(crc: nat, n: nat)
    requires crc < UInt32Range
    ensures CrcShift(crc, n) < UInt32Range
    decreases n
  {
    UInt32RangeIsPow();
    if n > 0 {
      XorBelow(crc / 2, CrcPolynomial, 32);
      CrcShiftBelow(if crc % 2 == 1 then Xor(crc / 2, CrcPolynomial) else crc / 2, n - 1);
    }
  }

  /** Feeding bytes to a 32-bit register keeps it 32 bits wide. */
  lemma {:induction false} CrcRunBelow(crc: nat, bytes: seq<byte>)
    requires crc < UInt32Range
    ensures CrcRun(crc, bytes) < UInt32Range
    decreases |bytes|
  {
    UInt32RangeIsPow();
    if bytes != [] {
      XorBelow(crc, bytes[0] as nat, 32);
      CrcShiftBelow(Xor(crc, bytes[0] as nat), BitsPerByte);
      CrcRunBelow(CrcShift(Xor(crc, bytes[0] as nat), BitsPerByte), bytes[1..]);
    }
  }

  /** `Checksum()`: the CRC-32 of the ASCII pre-image, in decimal. */
  function Checksum(asks: Side, bids: Side): (r: string)
    ensures |r| > 0 && AllDigits(r) && (r[0] == '0' ==> |r| == 1)
    ensures DigitsValue(r) == Crc32(AsciiBytes(ChecksumPreimage(asks, bids)))
  {
    var bytes := AsciiBytes(ChecksumPreimage(asks, bids));
    NatToString(Crc32(bytes))
  }

  predicate IsSignOrDigit(c: char) { IsDigit(c) || c == '-' }

  /** Two texts of digits and minus signs make one when joined. */
  lemma SignsAndDigitsConcat(a: string, b: string)
    requires forall i :: 0 <= i < |a| ==> IsSignOrDigit(a[i])
    requires forall i :: 0 <= i < |b| ==> IsSignOrDigit(b[i])
    ensures forall i :: 0 <= i < |a + b| ==> IsSignOrDigit((a + b)[i])
  {
    assert forall i :: |a| <= i < |a + b| ==> (a + b)[i] == b[i - |a|];
  }

  lemma IntToStringChars(n: int)
    ensures forall i :: 0 <= i < |IntToString(n)| ==> IsSignOrDigit(IntToString(n)[i])
  {
    if n < 0 {
      var digits := NatToString(-n);
      assert IntToString(n) == "-" + digits;
      assert forall i :: 1 <= i < |IntToString(n)| ==> IntToString(n)[i] == digits[i - 1];
    }
  }

  lemma {:induction false} EntriesTextChars(es: seq<Entry>)
    ensures forall i :: 0 <= i < |EntriesText(es)| ==> IsSignOrDigit(EntriesText(es)[i])
  {
    if es != [] {
      EntriesTextChars(es[1..]);
      var a := EntryText(es[0]);
      var c := EntriesText(es[1..]);
      assert EntriesText(es) == a + c;
      SignsAndDigitsConcat(a, c);
    }
  }

  /** Text made of digits and minus signs is ASCII: its bytes are its characters. */
  lemma SignsAndDigitsAreAscii(p: string)
    requires forall i :: 0 <= i < |p| ==> IsSignOrDigit(p[i])
    ensures forall i :: 0 <= i < |p| ==> AsciiBytes(p)[i] as int == p[i] as int
  {
    AsciiBytesIndex(p);
  }

  /** The pre-image is made of digits and minus signs only, so the ASCII encoding hands the CRC
      exactly its characters: nothing is replaced by `'?'`. */
  lemma PreimageIsAscii(asks: Side, bids: Side)
    ensures var p := ChecksumPreimage(asks, bids);
      forall i :: 0 <= i < |p| ==> AsciiBytes(p)[i] as int == p[i] as int
  {
    SignsAndDigitsAreAscii(ChecksumPreimage(asks, bids));
  }

  /** Levels beyond the ten best do not enter the checksum: appending worse asks (above the
      ten lowest) or worse bids (below the ten highest) leaves it unchanged. */
  lemma ChecksumTopTen(asks: Side, worseAsks: Side, worseBids: Side, bids: Side)
    requires |asks| >= 10 && |bids| >= 10
    ensures Checksum(asks + worseAsks, worseBids + bids) == Checksum(asks, bids)
  {
    assert Take(asks + worseAsks, 10) == Take(asks, 10) by {
      assert (asks + worseAsks)[..10] == asks[..10];
    }
    assert TakeLast(worseBids + bids, 10) == TakeLast(bids, 10) by {
      var w := worseBids + bids;
      assert w[|w| - 10..] == bids[|bids| - 10..];
    }
  }

  // ---------------------------------------------------------------------------------------
  // The state machine

  /** The event a tracker raises on a checksum mismatch. */
  datatype ChecksumMismatch = ChecksumMismatch(name: string, expectedChecksum: string, actualChecksum: string)

  /** One call of `OnBookAvailable`: the timestamp and both sides as they were at that moment. */
  datatype Publication = Publication(timestamp: string, askSide: Side, bidSide: Side)

  /** The tracker's fields, with the books it published and the mismatches it raised as logs. */
  datatype TrackerState = TrackerState(initialized: bool, askSide: Side, bidSide: Side, timestamp: string,
                                       published: seq<Publication>, mismatches: seq<ChecksumMismatch>)

  /** How a call ended: a book published, a delta skipped (no snapshot yet), a checksum
      mismatch raised, or an exception thrown from inside the tracker. */
  datatype Outcome = Published | Skipped | Mismatched | Faulted

  datatype Step = Step(state: TrackerState, outcome: Outcome)

  predicate ValidState(st: TrackerState)
  {
    Sorted(st.askSide) && Sorted(st.bidSide)
  }

  /** A tracker as constructed: not initialized, empty sides, timestamp "0". */
  function InitialState(): (st: TrackerState)
    ensures ValidState(st)
  {
    TrackerState(false, [], [], "0", [], [])
  }

  /** `NewSnapshot`: both sides are replaced by fresh ones filled from the levels, then the
      timestamp becomes the greater of the newest ask and the newest bid, the tracker is
      initialized, and the book is published. A side with no levels has no newest timestamp,
      which throws after the sides were replaced. */
  function SnapshotStep(st: TrackerState, book: Book): (r: Step)
    ensures ValidState(r.state)
    ensures r.outcome == Published || r.outcome == Faulted
  {
    var asks := FillSpec(book.asks.tuples, []);
    if !asks.completed then Step(st.(askSide := asks.side, bidSide := []), Faulted)
    else
      var bids := FillSpec(book.bids.tuples, []);
      var filled := st.(askSide := asks.side, bidSide := bids.side);
      if !bids.completed then Step(filled, Faulted)
      else
        var maxAsk := MaxTimestamp(book.asks.tuples);
        var maxBid := MaxTimestamp(book.bids.tuples);
        if maxAsk.None? || maxBid.None? then Step(filled, Faulted)
        else
          var ts := OrdinalMax(maxAsk.value, maxBid.value);
          Step(filled.(initialized := true, timestamp := ts,
                       published := st.published + [Publication(ts, asks.side, bids.side)]), Published)
  }

  /** `NewUpdate`: skipped before a snapshot; otherwise apply both sides, move the timestamp,
      trim, and compare the checksum. */
  function UpdateStep(st: TrackerState, book: Book, name: string, depth: nat): (r: Step)
    requires ValidState(st)
    ensures ValidState(r.state)
  {
    if !st.initialized then Step(st, Skipped)
    else
      var asks := UpdateSpec(book.asks.tuples, st.askSide);
      if !asks.completed then Step(st.(askSide := asks.side), Faulted)
      else
        var bids := UpdateSpec(book.bids.tuples, st.bidSide);
        if !bids.completed then Step(st.(askSide := asks.side, bidSide := bids.side), Faulted)
        else FinishUpdate(st, book, asks.side, bids.side, name, depth)
  }

  /** The part of `NewUpdate` after both sides were applied. */
  function FinishUpdate(st: TrackerState, book: Book, asks: Side, bids: Side,
                        name: string, depth: nat): (r: Step)
    requires Sorted(asks) && Sorted(bids)
    ensures ValidState(r.state)
  {
    var ts := NextTimestamp(st.timestamp, MaxNonRepublished(book.asks.tuples), MaxNonRepublished(book.bids.tuples));
    var a := Trimmed(asks, depth, true);
    var b := Trimmed(bids, depth, false);
    TrimmedSorted(asks, depth, true);
    TrimmedSorted(bids, depth, false);
    var actual := Checksum(a, b);
    var moved := st.(askSide := a, bidSide := b, timestamp := ts);
    if book.checksum != actual then
      Step(moved.(initialized := false, mismatches := st.mismatches + [ChecksumMismatch(name, book.checksum, actual)]),
           Mismatched)
    else Step(moved.(published := st.published + [Publication(ts, a, b)]), Published)
  }

  // ---------------------------------------------------------------------------------------
  // What a step does

  /** A side filled from nothing holds exactly the named prices: one entry per level, each
      named price reading its level's volume, every other price absent. */
  lemma FilledExactly(levels: seq<LevelTuple>, q: ExactFloat)
    requires FillSpec(levels, []).completed
    ensures |FillSpec(levels, []).side| == |levels|
    ensures Lookup(FillSpec(levels, []).side, q).Some? <==> exists j :: 0 <= j < |levels| && PriceIs(levels[j], q)
    ensures forall j :: 0 <= j < |levels| && PriceIs(levels[j], q) ==>
              Parse(levels[j].volume).Success? && Lookup(FillSpec(levels, []).side, q) == Some(Parse(levels[j].volume).value)
  {
    FillSize(levels, []);
    forall j | 0 <= j < |levels| && PriceIs(levels[j], q)
      ensures Parse(levels[j].volume).Success? && Lookup(FillSpec(levels, []).side, q) == Some(Parse(levels[j].volume).value)
    {
      FillSets(levels, [], q, j);
    }
    if forall k :: 0 <= k < |levels| ==> !PriceIs(levels[k], q) {
      FillUntouched(levels, [], q);
    }
  }

  /** A snapshot publishes exactly when both sides fill without a fault and neither is empty;
      a faulted snapshot changes only the sides. */
  lemma SnapshotOutcome(st: TrackerState, book: Book)
    ensures var r := SnapshotStep(st, book);
      r.outcome == Published <==>
        FillSpec(book.asks.tuples, []).completed && FillSpec(book.bids.tuples, []).completed
        && |book.asks.tuples| > 0 && |book.bids.tuples| > 0
    ensures var r := SnapshotStep(st, book);
      r.outcome == Faulted ==>
        r.state.initialized == st.initialized && r.state.timestamp == st.timestamp
        && r.state.published == st.published && r.state.mismatches == st.mismatches
  {
  }

  /** A published snapshot replaces both sides by exactly the levels it carries, initializes
      the tracker and publishes the book once. */
  lemma SnapshotReplacesSides(st: TrackerState, book: Book, q: ExactFloat)
    requires SnapshotStep(st, book).outcome == Published
    ensures var r := SnapshotStep(st, book).state;
      r.initialized && r.mismatches == st.mismatches
      && r.published == st.published + [Publication(r.timestamp, r.askSide, r.bidSide)]
    ensures var r := SnapshotStep(st, book).state;
      |r.askSide| == |book.asks.tuples| && |r.bidSide| == |book.bids.tuples|
    ensures var r := SnapshotStep(st, book).state;
      (Lookup(r.askSide, q).Some? <==> exists j :: 0 <= j < |book.asks.tuples| && PriceIs(book.asks.tuples[j], q))
      && (Lookup(r.bidSide, q).Some? <==> exists j :: 0 <= j < |book.bids.tuples| && PriceIs(book.bids.tuples[j], q))
    ensures var r := SnapshotStep(st, book).state;
      forall j :: 0 <= j < |book.asks.tuples| && PriceIs(book.asks.tuples[j], q) ==>
        Parse(book.asks.tuples[j].volume).Success? && Lookup(r.askSide, q) == Some(Parse(book.asks.tuples[j].volume).value)
    ensures var r := SnapshotStep(st, book).state;
      forall j :: 0 <= j < |book.bids.tuples| && PriceIs(book.bids.tuples[j], q) ==>
        Parse(book.bids.tuples[j].volume).Success? && Lookup(r.bidSide, q) == Some(Parse(book.bids.tuples[j].volume).value)
  {
    FilledExactly(book.asks.tuples, q);
    FilledExactly(book.bids.tuples, q);
  }

  /** A published snapshot's timestamp is the newest timestamp among all its levels. */
  lemma SnapshotTimestamp(st: TrackerState, book: Book)
    requires SnapshotStep(st, book).outcome == Published
    ensures var ts := SnapshotStep(st, book).state.timestamp;
      (exists j :: 0 <= j < |book.asks.tuples| && book.asks.tuples[j].timestamp == ts)
      || (exists j :: 0 <= j < |book.bids.tuples| && book.bids.tuples[j].timestamp == ts)
    ensures var ts := SnapshotStep(st, book).state.timestamp;
      (forall j :: 0 <= j < |book.asks.tuples| ==> OrdinalCompare(book.asks.tuples[j].timestamp, ts) <= 0)
      && (forall j :: 0 <= j < |book.bids.tuples| ==> OrdinalCompare(book.bids.tuples[j].timestamp, ts) <= 0)
  {
    var a := MaxTimestamp(book.asks.tuples).value;
    var b := MaxTimestamp(book.bids.tuples).value;
    var ts := OrdinalMax(a, b);
    assert SnapshotStep(st, book).state.timestamp == ts;
    forall j | 0 <= j < |book.asks.tuples| ensures OrdinalCompare(book.asks.tuples[j].timestamp, ts) <= 0 {
      OrdinalCompareTransitive(book.asks.tuples[j].timestamp, a, ts);
    }
    forall j | 0 <= j < |book.bids.tuples| ensures OrdinalCompare(book.bids.tuples[j].timestamp, ts) <= 0 {
      OrdinalCompareTransitive(book.bids.tuples[j].timestamp, b, ts);
    }
  }

  /** Which way a delta goes: skipped before a snapshot, faulted when a side faults, otherwise
      published when the checksum it carries matches and a mismatch when it does not. */
  lemma UpdateOutcome(st: TrackerState, book: Book, name: string, depth: nat)
    requires ValidState(st)
    ensures var r := UpdateStep(st, book, name, depth);
      (r.outcome == Skipped <==> !st.initialized)
      && (r.outcome == Skipped ==> r.state == st)
    ensures var r := UpdateStep(st, book, name, depth);
      r.outcome == Faulted <==>
        st.initialized && !(UpdateSpec(book.asks.tuples, st.askSide).completed
          && UpdateSpec(book.bids.tuples, st.bidSide).completed)
    ensures var r := UpdateStep(st, book, name, depth);
      r.outcome == Faulted ==>
        r.state.initialized && r.state.timestamp == st.timestamp
        && r.state.published == st.published && r.state.mismatches == st.mismatches
    ensures var r := UpdateStep(st, book, name, depth);
      r.outcome == Published <==> Applies(st, book) && book.checksum == Checksum(r.state.askSide, r.state.bidSide)
    ensures var r := UpdateStep(st, book, name, depth);
      r.outcome == Mismatched <==> Applies(st, book) && book.checksum != Checksum(r.state.askSide, r.state.bidSide)
  {
  }

  /** The tracker is initialized and both sides of the delta apply without a fault. */
  predicate Applies(st: TrackerState, book: Book)
    requires ValidState(st)
  {
    st.initialized && UpdateSpec(book.asks.tuples, st.askSide).completed
    && UpdateSpec(book.bids.tuples, st.bidSide).completed
  }

  /** An applied delta is finished from the sides the levels left. */
  lemma AppliedUpdate(st: TrackerState, book: Book, name: string, depth: nat)
    requires ValidState(st) && Applies(st, book)
    ensures UpdateStep(st, book, name, depth)
            == FinishUpdate(st, book, UpdateSpec(book.asks.tuples, st.askSide).side,
                            UpdateSpec(book.bids.tuples, st.bidSide).side, name, depth)
  {
  }

  /** Finishing trims both sides and moves the timestamp, whatever the checksum says. */
  lemma FinishedSides(st: TrackerState, book: Book, asks: Side, bids: Side, name: string, depth: nat)
    requires Sorted(asks) && Sorted(bids)
    ensures var r := FinishUpdate(st, book, asks, bids, name, depth).state;
      r.askSide == Trimmed(asks, depth, true) && r.bidSide == Trimmed(bids, depth, false)
      && r.timestamp == NextTimestamp(st.timestamp, MaxNonRepublished(book.asks.tuples), MaxNonRepublished(book.bids.tuples))
  {
  }

  /** `FinishUpdate` spelled out per checksum outcome, for the method that implements it. */
  lemma FinishUpdateForm(st: TrackerState, book: Book, asks: Side, bids: Side, name: string, depth: nat)
    requires Sorted(asks) && Sorted(bids)
    ensures var a := Trimmed(asks, depth, true);
      var b := Trimmed(bids, depth, false);
      var ts := NextTimestamp(st.timestamp, MaxNonRepublished(book.asks.tuples), MaxNonRepublished(book.bids.tuples));
      var actual := Checksum(a, b);
      FinishUpdate(st, book, asks, bids, name, depth)
        == if book.checksum != actual
           then Step(TrackerState(false, a, b, ts, st.published,
                                  st.mismatches + [ChecksumMismatch(name, book.checksum, actual)]), Mismatched)
           else Step(TrackerState(st.initialized, a, b, ts, st.published + [Publication(ts, a, b)], st.mismatches),
                     Published)
  {
  }

  /** An applied delta leaves each side as the levels left it, trimmed to the depth: at most
      `depth` entries, the best ones kept, and every key kept reading what the delta left. */
  lemma UpdateTrims(st: TrackerState, book: Book, name: string, depth: nat, q: ExactFloat)
    requires ValidState(st) && Applies(st, book)
    ensures var r := UpdateStep(st, book, name, depth).state;
      r.askSide == Trimmed(UpdateSpec(book.asks.tuples, st.askSide).side, depth, true)
      && r.bidSide == Trimmed(UpdateSpec(book.bids.tuples, st.bidSide).side, depth, false)
    ensures var r := UpdateStep(st, book, name, depth).state;
      |r.askSide| <= depth && |r.bidSide| <= depth
    ensures var r := UpdateStep(st, book, name, depth).state;
      (Lookup(r.askSide, q).Some? ==> Lookup(r.askSide, q) == Lookup(UpdateSpec(book.asks.tuples, st.askSide).side, q))
      && (Lookup(r.bidSide, q).Some? ==> Lookup(r.bidSide, q) == Lookup(UpdateSpec(book.bids.tuples, st.bidSide).side, q))
  {
    var asks := UpdateSpec(book.asks.tuples, st.askSide).side;
    var bids := UpdateSpec(book.bids.tuples, st.bidSide).side;
    AppliedUpdate(st, book, name, depth);
    FinishedSides(st, book, asks, bids, name, depth);
    if Lookup(Trimmed(asks, depth, true), q).Some? {
      TrimmedReadsAsBefore(asks, depth, true, q);
    }
    if Lookup(Trimmed(bids, depth, false), q).Some? {
      TrimmedReadsAsBefore(bids, depth, false, q);
    }
  }

  /** A delta never moves the timestamp backwards; once applied, the timestamp is at least
      every timestamp of a level that is not a republication, and a delta of republications
      only leaves it where it was. */
  lemma UpdateTimestamp(st: TrackerState, book: Book, name: string, depth: nat)
    requires ValidState(st)
    ensures OrdinalCompare(st.timestamp, UpdateStep(st, book, name, depth).state.timestamp) <= 0
    ensures var ts := UpdateStep(st, book, name, depth).state.timestamp;
      Applies(st, book) ==>
        (forall t :: t in book.asks.tuples && t.updateType != "r" ==> OrdinalCompare(t.timestamp, ts) <= 0)
        && (forall t :: t in book.bids.tuples && t.updateType != "r" ==> OrdinalCompare(t.timestamp, ts) <= 0)
    ensures (forall t :: t in book.asks.tuples + book.bids.tuples ==> t.updateType == "r") ==>
      UpdateStep(st, book, name, depth).state.timestamp == st.timestamp
  {
    var r := UpdateStep(st, book, name, depth);
    if Applies(st, book) {
      var ma := MaxNonRepublished(book.asks.tuples);
      var mb := MaxNonRepublished(book.bids.tuples);
      var ts := NextTimestamp(st.timestamp, ma, mb);
      assert r.state.timestamp == ts;
      NextTimestampIsMax(st.timestamp, ma, mb);
      forall t | t in book.asks.tuples && t.updateType != "r" ensures OrdinalCompare(t.timestamp, ts) <= 0 {
        OrdinalCompareTransitive(t.timestamp, ma.value, ts);
      }
      forall t | t in book.bids.tuples && t.updateType != "r" ensures OrdinalCompare(t.timestamp, ts) <= 0 {
        OrdinalCompareTransitive(t.timestamp, mb.value, ts);
      }
      if forall t :: t in book.asks.tuples + book.bids.tuples ==> t.updateType == "r" {
        assert forall t :: t in book.asks.tuples ==> t in book.asks.tuples + book.bids.tuples;
        assert forall t :: t in book.bids.tuples ==> t in book.asks.tuples + book.bids.tuples;
      }
    }
  }

  /** A published delta carries exactly the checksum of the book it publishes; a mismatch
      halts tracking, raises one event naming the expected and the computed checksum, and
      publishes nothing. */
  lemma UpdateChecksum(st: TrackerState, book: Book, name: string, depth: nat)
    requires ValidState(st) && Applies(st, book)
    ensures var r := UpdateStep(st, book, name, depth); var actual := Checksum(r.state.askSide, r.state.bidSide);
      r.outcome == Published ==>
        book.checksum == actual && r.state.initialized && r.state.mismatches == st.mismatches
        && r.state.published == st.published + [Publication(r.state.timestamp, r.state.askSide, r.state.bidSide)]
    ensures var r := UpdateStep(st, book, name, depth); var actual := Checksum(r.state.askSide, r.state.bidSide);
      r.outcome == Mismatched ==>
        book.checksum != actual && !r.state.initialized && r.state.published == st.published
        && r.state.mismatches == st.mismatches + [ChecksumMismatch(name, book.checksum, actual)]
  {
  }

  /** After a mismatch the tracker is halted: the next delta is skipped and changes nothing,
      and so is every one after it, until a snapshot initializes the tracker again. */
  lemma MismatchHalts(st: TrackerState, book: Book, next: Book, name: string, depth: nat)
    requires ValidState(st) && UpdateStep(st, book, name, depth).outcome == Mismatched
    ensures !UpdateStep(st, book, name, depth).state.initialized
    ensures var halted := UpdateStep(st, book, name, depth).state;
      UpdateStep(halted, next, name, depth) == Step(halted, Skipped)
  {
    UpdateOutcome(st, book, name, depth);
    UpdateChecksum(st, book, name, depth);
  }

  // ---------------------------------------------------------------------------------------
  // The tracker object

  class Tracker {
    const name: string
    const depth: nat
    /** `_initialized`, `_askSide`, `_bidSide` and `Timestamp`, with the books published and
        the mismatches raised so far. */
    var state: TrackerState

    /** Both sides are in comparer order. */
    predicate Valid()
      reads this
    {
      ValidState(state)
    }

    constructor(name: string, depth: nat)
      ensures this.name == name && this.depth == depth
      ensures Valid() && state == InitialState()
    {
      this.name := name;
      this.depth := depth;
      state := TrackerState(false, [], [], "0", [], []);
    }

    /** `PublishBook`. */
    method PublishBook()
      modifies this
      ensures state == old(state).(published := old(state).published
                                     + [Publication(old(state).timestamp, old(state).askSide, old(state).bidSide)])
    {
      state := state.(published := state.published + [Publication(state.timestamp, state.askSide, state.bidSide)]);
    }

    method NewSnapshot(book: Book) returns (outcome: Outcome)
      requires Valid()
      modifies this
      ensures Valid()
      ensures Step(state, outcome) == SnapshotStep(old(state), book)
    {
      state := state.(askSide := [], bidSide := []);
      var asks := FillSide(book.asks.tuples, state.askSide);
      state := state.(askSide := asks.side);
      if !asks.completed {
        return Faulted;
      }
      var bids := FillSide(book.bids.tuples, state.bidSide);
      state := state.(bidSide := bids.side);
      if !bids.completed {
        return Faulted;
      }
      var maxAskTs := MaxTimestamp(book.asks.tuples);
      var maxBidTs := MaxTimestamp(book.bids.tuples);
      if maxAskTs.None? || maxBidTs.None? {
        return Faulted;
      }
      var ts := if OrdinalCompare(maxAskTs.value, maxBidTs.value) >= 0 then maxAskTs.value else maxBidTs.value;
      state := state.(timestamp := ts, initialized := true);
      PublishBook();
      return Published;
    }

    method NewUpdate(book: Book) returns (outcome: Outcome)
      requires Valid()
      modifies this
      ensures Valid()
      ensures Step(state, outcome) == UpdateStep(old(state), book, name, depth)
    {
      if !state.initialized {
        return Skipped;
      }
      var asks := UpdateSide(book.asks.tuples, state.askSide);
      state := state.(askSide := asks.side);
      if !asks.completed {
        return Faulted;
      }
      var bids := UpdateSide(book.bids.tuples, state.bidSide);
      state := state.(bidSide := bids.side);
      if !bids.completed {
        return Faulted;
      }
      outcome := FinishNewUpdate(book);
    }

    /** The part of `NewUpdate` after both sides were applied: timestamp, trimming, checksum. */
    method FinishNewUpdate(book: Book) returns (outcome: Outcome)
      requires Valid()
      modifies this
      ensures Valid()
      ensures Step(state, outcome)
              == FinishUpdate(old(state), book, old(state).askSide, old(state).bidSide, name, depth)
    {
      var ts := NextTimestamp(state.timestamp, MaxNonRepublished(book.asks.tuples), MaxNonRepublished(book.bids.tuples));
      var a := TrimDepth(state.askSide, depth, true);
      var b := TrimDepth(state.bidSide, depth, false);
      FinishUpdateForm(state, book, state.askSide, state.bidSide, name, depth);
      TrimmedSorted(state.askSide, depth, true);
      TrimmedSorted(state.bidSide, depth, false);
      state := state.(timestamp := ts, askSide := a, bidSide := b);
      var actualChecksum := Checksum(state.askSide, state.bidSide);
      if book.checksum != actualChecksum {
        state := state.(initialized := false,
                        mismatches := state.mismatches + [ChecksumMismatch(name, book.checksum, actualChecksum)]);
        return Mismatched;
      }
      PublishBook();
      return Published;
    }
  }
}

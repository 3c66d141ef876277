/**
 * The state of a capture as a value: its chunks, cursors, rotation, Prune and Clear, and the flat log
 * that every read must agree with (capture.go, capture_range.go).
 */
module CaptureStore {
  import opened Wrappers
  import opened Frames
  import opened CaptureChunk

  datatype Error = InvalidRecord | CursorOutOfRange

  datatype Cursor = Cursor(generation: nat, chunk: nat, record: nat)

  const ZERO_CURSOR: Cursor := Cursor(0, 0, 0)

  const INITIAL_PAYLOAD_CAPACITY: nat := 8388608
  const INITIAL_RECORD_CAPACITY: nat := INITIAL_PAYLOAD_CAPACITY / 64
  const MINIMUM_PAYLOAD_CAPACITY: nat := INITIAL_PAYLOAD_CAPACITY / 16
  const MINIMUM_RECORD_CAPACITY: nat := INITIAL_RECORD_CAPACITY / 16

  datatype Store = Store(
    generation: nat,
    chunks: seq<Chunk>,
    pruneSeam: Cursor,
    length: nat,
    latest: map<FrameKey, FrameEvent>,
    latestStates: map<nat, Event>)

  // ---- The flat log ----------------------------------------------------------------------

  ghost predicate AllValid(chunks: seq<Chunk>) {
    forall i :: 0 <= i < |chunks| ==> ValidChunk(chunks[i])
  }

  ghost function Log(chunks: seq<Chunk>): (log: seq<Item>)
    requires AllValid(chunks)
  {
    if chunks == [] then [] else Log(chunks[..|chunks| - 1]) + Items(chunks[|chunks| - 1])
  }

  function Count(chunks: seq<Chunk>): nat {
    if chunks == [] then 0 else Count(chunks[..|chunks| - 1]) + |chunks[|chunks| - 1].records|
  }

  lemma {:induction false} LogLength(chunks: seq<Chunk>)
    requires AllValid(chunks)
    ensures |Log(chunks)| == Count(chunks)
  {
    if chunks != [] {
      LogLength(chunks[..|chunks| - 1]);
    }
  }

  lemma {:induction false} CountConcat(left: seq<Chunk>, right: seq<Chunk>)
    ensures Count(left + right) == Count(left) + Count(right)
  {
    if right == [] {
      assert left + right == left;
    } else {
      assert (left + right)[..|left + right| - 1] == left + right[..|right| - 1];
      CountConcat(left, right[..|right| - 1]);
    }
  }

  lemma {:induction false} CountSplit(chunks: seq<Chunk>, k: nat)
    requires k <= |chunks|
    ensures Count(chunks) == Count(chunks[..k]) + Count(chunks[k..])
  {
    assert chunks == chunks[..k] + chunks[k..];
    CountConcat(chunks[..k], chunks[k..]);
  }

  lemma {:induction false} CountNext(chunks: seq<Chunk>, k: nat)
    requires k < |chunks|
    ensures Count(chunks[..k + 1]) == Count(chunks[..k]) + |chunks[k].records| <= Count(chunks)
  {
    assert chunks[..k + 1][..k] == chunks[..k];
    CountSplit(chunks, k + 1);
  }

  lemma {:induction false} CountMonotone(chunks: seq<Chunk>, j: nat, k: nat)
    requires j <= k <= |chunks|
    ensures Count(chunks[..j]) <= Count(chunks[..k]) <= Count(chunks)
  {
    CountSplit(chunks[..k], j);
    assert chunks[..k][..j] == chunks[..j];
    CountSplit(chunks, k);
  }

  /** The number of log items at or before a placed position. */
  function Position(chunks: seq<Chunk>, chunk: nat, boundary: int): nat
    requires chunk < |chunks| && -1 <= boundary
  {
    var n := |chunks[chunk].records|;
    Count(chunks[..chunk]) + if boundary + 1 < n then boundary + 1 else n
  }

  lemma {:induction false} LogConcat(left: seq<Chunk>, right: seq<Chunk>)
    requires AllValid(left) && AllValid(right)
    ensures AllValid(left + right) && Log(left + right) == Log(left) + Log(right)
  {
    hide ValidChunk;
    hide Items;
    if right == [] {
      assert left + right == left;
    } else {
      var rest := right[..|right| - 1];
      assert (left + right)[..|left + right| - 1] == left + rest;
      LogConcat(left, rest);
    }
  }

  lemma {:induction false} LogSplit(chunks: seq<Chunk>, k: nat)
    requires AllValid(chunks) && k <= |chunks|
    ensures AllValid(chunks[..k]) && AllValid(chunks[k..]) && Log(chunks) == Log(chunks[..k]) + Log(chunks[k..])
  {
    hide ValidChunk;
    hide Log;
    hide Items;
    assert chunks == chunks[..k] + chunks[k..];
    LogConcat(chunks[..k], chunks[k..]);
  }

  lemma LogOne(c: Chunk)
    requires ValidChunk(c)
    ensures AllValid([c]) && Log([c]) == Items(c)
  {
    assert [c][..0] == [];
    assert Log([c]) == Log([]) + Items(c);
  }

  lemma {:induction false} PositionWithin(chunks: seq<Chunk>, chunk: nat, boundary: int)
    requires chunk < |chunks| && -1 <= boundary
    ensures Position(chunks, chunk, boundary) <= Count(chunks)
  {
    CountNext(chunks, chunk);
  }

  // ---- Validity --------------------------------------------------------------------------

  ghost predicate Consecutive(chunks: seq<Chunk>) {
    && (forall i :: 0 <= i < |chunks| ==> chunks[i].sequence == chunks[0].sequence + i)
    && (|chunks| > 1 ==> forall i :: 0 <= i < |chunks| ==> |chunks[i].records| > 0)
  }

  // The seam is the last discarded record: it names the chunk just before the first retained one.
  ghost predicate ValidSeam(s: Store)
    requires |s.chunks| > 0
  {
    s.pruneSeam != ZERO_CURSOR ==>
      s.pruneSeam.generation == s.generation && s.pruneSeam.chunk + 1 == s.chunks[0].sequence && |s.chunks[0].records| > 0
  }

  ghost predicate ValidStore(s: Store) {
    && s.generation > 0 && |s.chunks| > 0
    && AllValid(s.chunks) && Consecutive(s.chunks) && ValidSeam(s)
    && s.length == Count(s.chunks)
  }

  // ---- Cursors ---------------------------------------------------------------------------

  function LocateCursor(cursor: Cursor, generation: nat, chunks: seq<Chunk>, pruneSeam: Cursor): (r: Result<(nat, int), Error>)
    requires |chunks| > 0
    ensures r.Ok? ==> r.value.0 < |chunks| && -1 <= r.value.1
  {
    if cursor == ZERO_CURSOR then Ok((0, -1))
    else if cursor.generation != generation then Err(CursorOutOfRange)
    else
      var index := cursor.chunk - chunks[0].sequence;
      if index < 0 || index >= |chunks| then
        if cursor == pruneSeam then Ok((0, -1)) else Err(CursorOutOfRange)
      else Ok((index, cursor.record))
  }

  function Locate(s: Store, cursor: Cursor): (r: Result<(nat, int), Error>)
    requires |s.chunks| > 0
    ensures r.Ok? ==> r.value.0 < |s.chunks| && -1 <= r.value.1
  {
    LocateCursor(cursor, s.generation, s.chunks, s.pruneSeam)
  }

  function NewestCursor(cursor: Cursor, generation: nat, chunks: seq<Chunk>): Cursor {
    if chunks == [] then cursor
    else
      var last := chunks[|chunks| - 1];
      if |last.records| > 0 then Cursor(generation, last.sequence, |last.records| - 1)
      else NewestCursor(cursor, generation, chunks[..|chunks| - 1])
  }

  function End(s: Store): Cursor {
    NewestCursor(ZERO_CURSOR, s.generation, s.chunks)
  }

  ghost predicate NamesRecord(s: Store, cursor: Cursor)
    requires |s.chunks| > 0
  {
    && cursor != ZERO_CURSOR && cursor.generation == s.generation
    && var index := cursor.chunk - s.chunks[0].sequence;
    0 <= index < |s.chunks| && cursor.record < |s.chunks[index].records|
  }

  /** How many items of the flat log a cursor stands behind, for a cursor that places. */
  function Behind(s: Store, cursor: Cursor): nat
    requires |s.chunks| > 0 && Locate(s, cursor).Ok?
  {
    var (chunk, boundary) := Locate(s, cursor).value;
    Position(s.chunks, chunk, boundary)
  }

  /** End stands behind everything retained. */
  lemma EndIsBehindAll(s: Store)
    requires ValidStore(s)
    ensures Locate(s, End(s)).Ok? && Behind(s, End(s)) == Count(s.chunks)
  {
    var n := |s.chunks|;
    if |s.chunks[n - 1].records| == 0 {
      assert n == 1 && s.chunks[..0] == [];
      assert NewestCursor(ZERO_CURSOR, s.generation, s.chunks[..0]) == ZERO_CURSOR;
      assert NewestCursor(ZERO_CURSOR, s.generation, s.chunks) == NewestCursor(ZERO_CURSOR, s.generation, s.chunks[..n - 1]);
    }
    CountNext(s.chunks, n - 1);
    assert s.chunks[..n] == s.chunks;
  }

  // ---- Append ----------------------------------------------------------------------------

  /** replacementCapacities. With at most 64 payload bytes a record, it never divides by zero. */
  function ReplacementCapacities(records: nat, payloadBytes: nat): (r: (nat, nat))
    requires 0 < records && payloadBytes <= 64 * records
    ensures MINIMUM_RECORD_CAPACITY <= r.0 <= INITIAL_RECORD_CAPACITY
    ensures MINIMUM_PAYLOAD_CAPACITY <= r.1 <= INITIAL_PAYLOAD_CAPACITY
    ensures r.0 == INITIAL_RECORD_CAPACITY
  {
    if payloadBytes * INITIAL_RECORD_CAPACITY >= records * INITIAL_PAYLOAD_CAPACITY then
      FullRatio(records, payloadBytes);
      var recordCapacity := records * INITIAL_PAYLOAD_CAPACITY / payloadBytes;
      (if recordCapacity > MINIMUM_RECORD_CAPACITY then recordCapacity else MINIMUM_RECORD_CAPACITY, INITIAL_PAYLOAD_CAPACITY)
    else
      PartialRatio(records, payloadBytes);
      var payloadCapacity := payloadBytes * INITIAL_RECORD_CAPACITY / records;
      (INITIAL_RECORD_CAPACITY, if payloadCapacity > MINIMUM_PAYLOAD_CAPACITY then payloadCapacity else MINIMUM_PAYLOAD_CAPACITY)
  }

  lemma FullRatio(records: nat, payloadBytes: nat)
    requires 0 < records && payloadBytes <= 64 * records
    requires payloadBytes * INITIAL_RECORD_CAPACITY >= records * INITIAL_PAYLOAD_CAPACITY
    ensures payloadBytes > 0 && records * INITIAL_PAYLOAD_CAPACITY / payloadBytes == INITIAL_RECORD_CAPACITY
  {
    assert payloadBytes == 64 * records;
    assert records * INITIAL_PAYLOAD_CAPACITY == payloadBytes * INITIAL_RECORD_CAPACITY;
    ExactQuotient(payloadBytes, INITIAL_RECORD_CAPACITY);
  }

  /** The payload capacity of a new chunk is in proportion to what the old one held, rounded down, above its minimum. */
  lemma PayloadIsProportional(records: nat, payloadBytes: nat)
    requires 0 < records && payloadBytes <= 64 * records
    ensures var capacity := ReplacementCapacities(records, payloadBytes).1;
      && (capacity > MINIMUM_PAYLOAD_CAPACITY ==> capacity * records <= payloadBytes * INITIAL_RECORD_CAPACITY)
      && payloadBytes * INITIAL_RECORD_CAPACITY < (capacity + 1) * records
  {
    var (total, capacity) := (payloadBytes * INITIAL_RECORD_CAPACITY, ReplacementCapacities(records, payloadBytes).1);
    if total < records * INITIAL_PAYLOAD_CAPACITY {
      var quotient := total / records;
      assert quotient * records <= total < (quotient + 1) * records;
      assert (quotient + 1) * records <= (capacity + 1) * records;
    } else {
      FullRatio(records, payloadBytes);
      assert payloadBytes == 64 * records && capacity * records == total;
    }
  }

  lemma ExactQuotient(divisor: nat, quotient: nat)
    requires divisor > 0
    ensures divisor * quotient / divisor == quotient
  {
    QuotientIsUnique(divisor * quotient, divisor, quotient);
  }

  lemma QuotientIsUnique(dividend: nat, divisor: nat, quotient: nat)
    requires divisor > 0 && divisor * quotient <= dividend < divisor * quotient + divisor
    ensures dividend / divisor == quotient
  {
    var (q, r) := (dividend / divisor, dividend % divisor);
    assert dividend == divisor * q + r;
    if q < quotient {
      ProductMonotone(divisor, q + 1, quotient);
    } else if q > quotient {
      ProductMonotone(divisor, quotient + 1, q);
    }
  }

  lemma ProductMonotone(factor: nat, left: nat, right: nat)
    requires left <= right
    ensures factor * left <= factor * right
  {
  }

  lemma PartialRatio(records: nat, payloadBytes: nat)
    requires 0 < records && payloadBytes <= 64 * records
    ensures payloadBytes * INITIAL_RECORD_CAPACITY / records <= INITIAL_PAYLOAD_CAPACITY
  {
    var (q, r) := (payloadBytes * INITIAL_RECORD_CAPACITY / records, payloadBytes * INITIAL_RECORD_CAPACITY % records);
    assert payloadBytes * INITIAL_RECORD_CAPACITY == records * q + r;
    if q > INITIAL_PAYLOAD_CAPACITY {
      ProductMonotone(records, INITIAL_PAYLOAD_CAPACITY + 1, q);
    }
  }

  predicate UsableCapacities(recordCapacity: nat, payloadCapacity: nat) {
    && MINIMUM_RECORD_CAPACITY <= recordCapacity <= INITIAL_RECORD_CAPACITY
    && MINIMUM_PAYLOAD_CAPACITY <= payloadCapacity <= INITIAL_PAYLOAD_CAPACITY
  }

  function ActiveChunk(s: Store): Chunk
    requires |s.chunks| > 0
  {
    s.chunks[|s.chunks| - 1]
  }

  // rotate, then the append itself. The capacities of a new chunk depend on when the next chunk was prepared.
  ghost predicate AppendStep(s: Store, t: Store, item: Item, cursor: Cursor)
    requires |s.chunks| > 0
  {
    var active := ActiveChunk(s);
    && (if Fits(active, PayloadLength(item)) then
          t.chunks == s.chunks[..|s.chunks| - 1] + [Appended(active, item)]
        else
          exists recordCapacity, payloadCapacity :: UsableCapacities(recordCapacity, payloadCapacity) &&
            t.chunks == s.chunks + [Appended(NewChunk(active.sequence + 1, recordCapacity, payloadCapacity), item)])
    && t.generation == s.generation && t.pruneSeam == s.pruneSeam && t.length == s.length + 1
    && t.latest == (if item.FrameItem? then s.latest[item.frame.Key() := item.frame] else s.latest)
    && t.latestStates == (if item.EventItem? && item.event.kind.EventControllerState? then s.latestStates[item.event.bus := item.event]
                          else s.latestStates)
    && cursor == End(t)
  }

  lemma {:induction false} NewChunkFits(sequence: nat, recordCapacity: nat, payloadCapacity: nat, item: Item)
    requires UsableCapacities(recordCapacity, payloadCapacity) && ValidItem(item)
    ensures var c := NewChunk(sequence, recordCapacity, payloadCapacity);
      ValidChunk(c) && Fits(c, PayloadLength(item)) && Items(c) == []
  {
    NewChunkIsValid(sequence, recordCapacity, payloadCapacity);
  }

  // The chunk list with its last chunk replaced, or with one chunk more.
  lemma ReplaceLast(chunks: seq<Chunk>, last: Chunk, item: Item)
    requires |chunks| > 0 && AllValid(chunks) && Consecutive(chunks)
    requires ValidChunk(last) && last.sequence == chunks[|chunks| - 1].sequence
    requires Items(last) == Items(chunks[|chunks| - 1]) + [item]
    ensures var after := chunks[..|chunks| - 1] + [last];
      AllValid(after) && Consecutive(after) && Log(after) == Log(chunks) + [item] && Count(after) == Count(chunks) + 1
  {
    hide ValidChunk;
    var after := chunks[..|chunks| - 1] + [last];
    assert after[..|chunks| - 1] == chunks[..|chunks| - 1];
    LogLength(after);
    LogLength(chunks);
  }

  lemma AddLast(chunks: seq<Chunk>, last: Chunk, item: Item)
    requires |chunks| > 0 && AllValid(chunks) && Consecutive(chunks) && |chunks[|chunks| - 1].records| > 0
    requires ValidChunk(last) && last.sequence == chunks[|chunks| - 1].sequence + 1 && Items(last) == [item]
    ensures var after := chunks + [last];
      AllValid(after) && Consecutive(after) && Log(after) == Log(chunks) + [item] && Count(after) == Count(chunks) + 1
  {
    hide ValidChunk;
    var after := chunks + [last];
    assert after[..|chunks|] == chunks;
    LogLength(after);
    LogLength(chunks);
  }

  /** Every append adds exactly its item at the end of the flat log, rotated or not. */
  lemma AppendKeeps(s: Store, t: Store, item: Item, cursor: Cursor)
    requires ValidStore(s) && ValidItem(item) && AppendStep(s, t, item, cursor)
    ensures ValidStore(t) && Log(t.chunks) == Log(s.chunks) + [item]
    ensures cursor == Cursor(t.generation, ActiveChunk(t).sequence, |ActiveChunk(t).records| - 1)
  {
    hide ValidChunk;
    hide Items;
    hide Appended;
    hide Log;
    hide Count;
    var active := ActiveChunk(s);
    if Fits(active, PayloadLength(item)) {
      AppendKeepsValid(active, item);
      AppendGrows(active, item);
      ReplaceLast(s.chunks, Appended(active, item), item);
    } else {
      var recordCapacity, payloadCapacity :| UsableCapacities(recordCapacity, payloadCapacity) &&
        t.chunks == s.chunks + [Appended(NewChunk(active.sequence + 1, recordCapacity, payloadCapacity), item)];
      var blank := NewChunk(active.sequence + 1, recordCapacity, payloadCapacity);
      NewChunkFits(active.sequence + 1, recordCapacity, payloadCapacity, item);
      AppendKeepsValid(blank, item);
      AppendGrows(blank, item);
      FullIsNotEmpty(active, item);
      AddLast(s.chunks, Appended(blank, item), item);
    }
  }

  lemma AppendGrows(c: Chunk, item: Item)
    ensures Appended(c, item).sequence == c.sequence && |Appended(c, item).records| == |c.records| + 1
  {
  }

  lemma FullIsNotEmpty(c: Chunk, item: Item)
    requires ValidChunk(c) && ValidItem(item) && !Fits(c, PayloadLength(item))
    ensures |c.records| > 0
  {
  }

  // ---- Prune -----------------------------------------------------------------------------

  /** The earliest placement of a nonempty list of cursors; the first one that cannot be placed fails them all. */
  function EarliestPlacement(s: Store, cursors: seq<Cursor>): (r: Result<(nat, int), Error>)
    requires |s.chunks| > 0 && |cursors| > 0
    ensures r.Ok? ==> r.value.0 < |s.chunks| && -1 <= r.value.1
  {
    if |cursors| == 1 then Locate(s, cursors[0])
    else
      var earlier :- EarliestPlacement(s, cursors[..|cursors| - 1]);
      var last :- Locate(s, cursors[|cursors| - 1]);
      Ok(if last.0 < earlier.0 || (last.0 == earlier.0 && last.1 < earlier.1) then last else earlier)
  }

  function DiscardCount(s: Store, chunk: nat, boundary: int): (discard: nat)
    requires chunk < |s.chunks|
    ensures discard < |s.chunks|
  {
    if chunk < |s.chunks| - 1 && boundary == |s.chunks[chunk].records| - 1 then chunk + 1 else chunk
  }

  ghost function Discarded(s: Store, discard: nat): (t: Store)
    requires ValidStore(s) && discard < |s.chunks|
  {
    if discard == 0 then s
    else
      var last := s.chunks[discard - 1];
      s.(chunks := s.chunks[discard..],
         length := Count(s.chunks[discard..]),
         pruneSeam := Cursor(s.generation, last.sequence, |last.records| - 1))
  }

  ghost function Pruned(s: Store, cursors: seq<Cursor>): (r: Result<Store, Error>)
    requires ValidStore(s)
  {
    if cursors == [] then Ok(s)
    else
      var (chunk, boundary) :- EarliestPlacement(s, cursors);
      Ok(Discarded(s, DiscardCount(s, chunk, boundary)))
  }

  lemma DiscardedKeeps(s: Store, discard: nat)
    requires ValidStore(s) && discard < |s.chunks|
    ensures var t := Discarded(s, discard);
      && ValidStore(t) && ActiveChunk(t) == ActiveChunk(s)
      && s.length == Count(s.chunks[..discard]) + t.length && s.length == |Log(s.chunks)|
      && Log(t.chunks) == Log(s.chunks)[s.length - t.length..]
  {
    hide ValidChunk;
    LogSplit(s.chunks, discard);
    CountSplit(s.chunks, discard);
    LogLength(s.chunks);
    LogLength(s.chunks[..discard]);
    assert s.chunks[0..] == s.chunks;
  }

  lemma {:induction false} EarliestIsEarliest(s: Store, cursors: seq<Cursor>, k: nat)
    requires |s.chunks| > 0 && k < |cursors| && EarliestPlacement(s, cursors).Ok?
    ensures Locate(s, cursors[k]).Ok?
    ensures var (earliest, place) := (EarliestPlacement(s, cursors).value, Locate(s, cursors[k]).value);
      earliest.0 < place.0 || (earliest.0 == place.0 && earliest.1 <= place.1)
  {
    if |cursors| > 1 && k < |cursors| - 1 {
      EarliestIsEarliest(s, cursors[..|cursors| - 1], k);
    }
  }

  lemma {:induction false} EarliestFails(s: Store, cursors: seq<Cursor>)
    requires |s.chunks| > 0 && |cursors| > 0
    ensures EarliestPlacement(s, cursors).Err? <==> exists k :: 0 <= k < |cursors| && Locate(s, cursors[k]).Err?
  {
    if |cursors| > 1 {
      var rest := cursors[..|cursors| - 1];
      EarliestFails(s, rest);
      if k :| 0 <= k < |rest| && Locate(s, rest[k]).Err? {
        assert Locate(s, cursors[k]).Err?;
      }
    } else if k :| 0 <= k < |cursors| && Locate(s, cursors[k]).Err? {
      assert k == 0;
    }
  }

  lemma PositionMonotone(chunks: seq<Chunk>, first: nat, firstBoundary: int, second: nat, secondBoundary: int)
    requires first < |chunks| && second < |chunks| && -1 <= firstBoundary && -1 <= secondBoundary
    requires first < second || (first == second && firstBoundary <= secondBoundary)
    ensures Position(chunks, first, firstBoundary) <= Position(chunks, second, secondBoundary)
  {
    if first < second {
      CountNext(chunks, first);
      CountMonotone(chunks, first + 1, second);
    }
  }

  /**
   * A successful Prune discards a prefix of the flat log that lies at or before every given cursor, and
   * never the active chunk; it keeps the stored count right; one cursor that cannot be placed makes it fail.
   */
  lemma PruneIsSafe(s: Store, cursors: seq<Cursor>)
    requires ValidStore(s)
    ensures Pruned(s, cursors).Err? <==> exists k :: 0 <= k < |cursors| && Locate(s, cursors[k]).Err?
    ensures Pruned(s, cursors).Ok? ==>
      var t := Pruned(s, cursors).value;
      && ValidStore(t) && t.generation == s.generation && ActiveChunk(t) == ActiveChunk(s) && t.length <= s.length
      && s.length == |Log(s.chunks)| && Log(t.chunks) == Log(s.chunks)[s.length - t.length..]
      && forall k :: 0 <= k < |cursors| ==> Locate(s, cursors[k]).Ok? && s.length - t.length <= Behind(s, cursors[k])
  {
    hide ValidChunk;
    hide Log;
    LogLength(s.chunks);
    if cursors != [] {
      EarliestFails(s, cursors);
      if EarliestPlacement(s, cursors).Ok? {
        var (chunk, boundary) := EarliestPlacement(s, cursors).value;
        DiscardedKeeps(s, DiscardCount(s, chunk, boundary));
        forall k | 0 <= k < |cursors|
          ensures Locate(s, cursors[k]).Ok?
          ensures Count(s.chunks[..DiscardCount(s, chunk, boundary)]) <= Behind(s, cursors[k])
        {
          DiscardIsBehind(s, cursors, k);
        }
      }
    }
  }

  /** A cursor that a caller can hold: zero, the seam, or one that names a record of the store. */
  ghost predicate Held(s: Store, cursor: Cursor)
    requires |s.chunks| > 0
  {
    cursor == ZERO_CURSOR || cursor == s.pruneSeam || NamesRecord(s, cursor)
  }

  /** Some cursor stands inside the first chunk of t, before its last record, and so needs that chunk. */
  ghost predicate NeedsFirst(s: Store, t: Store, cursors: seq<Cursor>)
    requires |s.chunks| > 0 && |t.chunks| > 0
  {
    exists k :: 0 <= k < |cursors| && Locate(s, cursors[k]).Ok? && Behind(s, cursors[k]) - (s.length - t.length) < |t.chunks[0].records|
  }

  lemma {:induction false} EarliestIsOne(s: Store, cursors: seq<Cursor>) returns (k: nat)
    requires |s.chunks| > 0 && |cursors| > 0 && EarliestPlacement(s, cursors).Ok?
    ensures k < |cursors| && Locate(s, cursors[k]) == EarliestPlacement(s, cursors)
  {
    k := |cursors| - 1;
    if k > 0 && Locate(s, cursors[k]) != EarliestPlacement(s, cursors) {
      k := EarliestIsOne(s, cursors[..k]);
    }
  }

  // Which chunk an earliest place inside its chunk leaves first.
  lemma PlaceNeedsFirst(s: Store, chunk: nat, boundary: int)
    requires ValidStore(s) && chunk < |s.chunks| && -1 <= boundary < |s.chunks[chunk].records|
    ensures var t := Discarded(s, DiscardCount(s, chunk, boundary));
      && |t.chunks| > 0
      && (|t.chunks| > 1 ==> Position(s.chunks, chunk, boundary) - (s.length - t.length) < |t.chunks[0].records|)
  {
    hide ValidChunk;
    hide Count;
    var discard := DiscardCount(s, chunk, boundary);
    DiscardedKeeps(s, discard);
    CountNext(s.chunks, chunk);
  }

  lemma HeldPlace(s: Store, cursor: Cursor)
    requires ValidStore(s) && Held(s, cursor) && Locate(s, cursor).Ok?
    ensures var (chunk, boundary) := Locate(s, cursor).value; boundary < |s.chunks[chunk].records|
  {
    hide ValidChunk;
    hide Count;
  }

  /**
   * A successful Prune keeps no chunk it could do without: it leaves one chunk only, or the first one it leaves
   * holds records that some given cursor has not passed.
   */
  lemma PruneIsMaximal(s: Store, cursors: seq<Cursor>)
    requires ValidStore(s) && cursors != [] && (forall k :: 0 <= k < |cursors| ==> Held(s, cursors[k])) && Pruned(s, cursors).Ok?
    ensures var t := Pruned(s, cursors).value;
      |t.chunks| == 1 || (|t.chunks| > 1 && NeedsFirst(s, t, cursors))
  {
    hide ValidStore;
    hide Position;
    hide Discarded;
    hide DiscardCount;
    hide Held;
    var k := EarliestIsOne(s, cursors);
    HeldPlace(s, cursors[k]);
    var (chunk, boundary) := EarliestPlacement(s, cursors).value;
    PlaceNeedsFirst(s, chunk, boundary);
  }

  lemma {:induction false} DiscardIsBehind(s: Store, cursors: seq<Cursor>, k: nat)
    requires |s.chunks| > 0 && k < |cursors| && EarliestPlacement(s, cursors).Ok?
    ensures Locate(s, cursors[k]).Ok?
    ensures var (chunk, boundary) := EarliestPlacement(s, cursors).value;
      Count(s.chunks[..DiscardCount(s, chunk, boundary)]) <= Behind(s, cursors[k])
  {
    var (chunk, boundary) := EarliestPlacement(s, cursors).value;
    EarliestIsEarliest(s, cursors, k);
    var (placed, placedBoundary) := Locate(s, cursors[k]).value;
    PositionMonotone(s.chunks, chunk, boundary, placed, placedBoundary);
    CountNext(s.chunks, chunk);
  }

  // ---- Clear -----------------------------------------------------------------------------

  // A fresh generation over one empty chunk: the prepared one, or a new one of the active chunk's capacities.
  ghost predicate ClearStep(s: Store, t: Store, epoch: nat)
  {
    && t.generation == epoch
    && t.pruneSeam == ZERO_CURSOR && t.length == 0 && t.latest == map[] && t.latestStates == map[]
    && exists recordCapacity, payloadCapacity :: UsableCapacities(recordCapacity, payloadCapacity) &&
         t.chunks == [NewChunk(0, recordCapacity, payloadCapacity)]
  }

  lemma ClearKeeps(s: Store, t: Store, epoch: nat)
    requires epoch > 0 && ClearStep(s, t, epoch)
    ensures ValidStore(t) && Log(t.chunks) == []
  {
    assert Count([]) == 0;
    var recordCapacity, payloadCapacity :| UsableCapacities(recordCapacity, payloadCapacity) &&
      t.chunks == [NewChunk(0, recordCapacity, payloadCapacity)];
    NewChunkIsValid(0, recordCapacity, payloadCapacity);
    LogOne(t.chunks[0]);
    LogLength(t.chunks);
  }

  // ---- What a read returns ---------------------------------------------------------------

  /** The order-preserving filter of the log after a cursor. */
  ghost function SeriesAfter(s: Store, cursor: Cursor, series: Series): seq<Item>
    requires ValidStore(s) && Locate(s, cursor).Ok?
  {
    LogLength(s.chunks);
    PositionWithin(s.chunks, Locate(s, cursor).value.0, Locate(s, cursor).value.1);
    Filter(Log(s.chunks)[Behind(s, cursor)..], series)
  }
}

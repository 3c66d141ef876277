/**
 * The capture itself, updated in place (capture.go): chunks that grow, the rotation to a prepared next
 * chunk, Prune and Clear. Each method is one critical section of the capture mutex and is proved against
 * the steps of the store; reads run on the views frozen by their critical section.
 */
module CaptureLog {
  import opened Wrappers
  import opened Frames
  import opened CaptureChunk
  import opened CaptureStore
  import opened CaptureReads

  class ChunkStorage {
    var sequence: nat
    var keys: seq<FrameKey>
    var keyStates: map<FrameKey, KeyState>
    var eventStates: map<nat, EventState>
    var records: seq<Record>
    var payload: seq<byte>
    const recordCapacity: nat
    const payloadCapacity: nat

    constructor (recordCapacity: nat, payloadCapacity: nat)
      ensures View() == NewChunk(0, recordCapacity, payloadCapacity)
    {
      sequence, keys, keyStates, eventStates, records, payload := 0, [], map[], map[], [], [];
      this.recordCapacity, this.payloadCapacity := recordCapacity, payloadCapacity;
    }

    function View(): Chunk
      reads this
    {
      Chunk(sequence, keys, keyStates, eventStates, records, payload, recordCapacity, payloadCapacity)
    }

    method AppendFrame(event: FrameEvent)
      modifies this
      ensures View() == AppendedFrame(old(View()), event)
    {
      var key := event.Key();
      var keyState;
      if key in keyStates {
        keyState := keyStates[key];
      } else {
        keyState := KeyState(|keys|, NO_RECORD, 0);
        keys := keys + [key];
      }
      var payloadOffset := |payload|;
      payload := payload + event.frame.data;
      var recordIndex := |records|;
      records := records +
        [FrameRecord(event.timestamp, payloadOffset, keyState.index, keyState.lastRecord, event.frame.dlc, event.frame.flags)];
      keyStates := keyStates[key := KeyState(keyState.index, recordIndex, keyState.count + 1)];
    }

    method AppendEvent(event: Event)
      modifies this
      ensures View() == AppendedEvent(old(View()), event)
    {
      var eventState := EventState(NO_RECORD, 0);
      if event.bus in eventStates {
        eventState := eventStates[event.bus];
      }
      var recordIndex := |records|;
      records := records + [EventRecord(event.timestamp, event.bus, eventState.lastRecord, event.kind, event.details)];
      eventStates := eventStates[event.bus := EventState(recordIndex, eventState.count + 1)];
    }
  }

  ghost predicate Blank(c: Chunk) {
    UsableCapacities(c.recordCapacity, c.payloadCapacity) && c == NewChunk(0, c.recordCapacity, c.payloadCapacity)
  }

  /** The chunk objects as values, oldest first. */
  function ViewsOf(chunks: seq<ChunkStorage>): (views: seq<Chunk>)
    reads chunks
    ensures |views| == |chunks|
  {
    seq(|chunks|, i requires 0 <= i < |chunks| reads chunks => chunks[i].View())
  }

  lemma ViewsSplit(chunks: seq<ChunkStorage>)
    requires |chunks| > 0
    ensures ViewsOf(chunks) == ViewsOf(chunks[..|chunks| - 1]) + [chunks[|chunks| - 1].View()]
    ensures ViewsOf(chunks)[..|chunks| - 1] == ViewsOf(chunks[..|chunks| - 1])
  {
  }

  class Capture {
    var generation: nat
    var chunks: seq<ChunkStorage>
    var active: ChunkStorage
    var next: ChunkStorage?
    var allocatingNext: bool
    var latest: map<FrameKey, FrameEvent>
    var latestStates: map<nat, Event>
    var length: nat
    var pruneSeam: Cursor

    // `epoch` is the value drawn from the counter shared by all captures.
    constructor (epoch: nat)
      requires epoch > 0
      ensures Valid() && State() == Store(epoch, [NewChunk(0, INITIAL_RECORD_CAPACITY, INITIAL_PAYLOAD_CAPACITY)], ZERO_CURSOR, 0, map[], map[])
      ensures Log(State().chunks) == []
      ensures fresh(active) && fresh(next)
    {
      var first := new ChunkStorage(INITIAL_RECORD_CAPACITY, INITIAL_PAYLOAD_CAPACITY);
      var spare := new ChunkStorage(INITIAL_RECORD_CAPACITY, INITIAL_PAYLOAD_CAPACITY);
      generation, chunks, active, next, allocatingNext := epoch, [first], first, spare, false;
      latest, latestStates, length, pruneSeam := map[], map[], 0, ZERO_CURSOR;
      new;
      assert Views() == [first.View()];
      BlankStore(State());
    }

    function Views(): seq<Chunk>
      reads this, chunks
    {
      ViewsOf(chunks)
    }

    function State(): Store
      reads this, chunks
    {
      Store(generation, Views(), pruneSeam, length, latest, latestStates)
    }

    ghost predicate Shape()
      reads this, next
    {
      && |chunks| > 0 && active == chunks[|chunks| - 1]
      && active !in chunks[..|chunks| - 1]
      && (next != null ==> next !in chunks && Blank(next.View()))
      && UsableCapacities(active.recordCapacity, active.payloadCapacity)
    }

    ghost predicate Valid()
      reads this, chunks, next
    {
      Shape() && ValidStore(State())
    }

    /** Takes the prepared chunk, or a new one, as the chunk with the given sequence. */
    method TakeNext(recordCapacity: nat, payloadCapacity: nat, sequence: nat) returns (c: ChunkStorage)
      requires UsableCapacities(recordCapacity, payloadCapacity) && (next != null ==> Blank(next.View()))
      modifies this`next, next
      ensures next == null && (c == old(next) || fresh(c))
      ensures UsableCapacities(c.recordCapacity, c.payloadCapacity)
      ensures c.View() == NewChunk(sequence, c.recordCapacity, c.payloadCapacity)
    {
      if next == null {
        next := new ChunkStorage(recordCapacity, payloadCapacity);
      }
      next.sequence := sequence;
      c := next;
      next := null;
    }

    /** rotate: afterwards the active chunk can take the payload; it is the same chunk if it could before. */
    method Rotate(payloadLength: nat)
      requires Shape() && ValidStore(State()) && payloadLength <= 64
      modifies this, next
      ensures Shape() && (next == null || next == old(next))
      ensures if Fits(old(active.View()), payloadLength) then
                chunks == old(chunks) && Views() == old(Views())
              else
                && chunks == old(chunks) + [active] && (active == old(next) || fresh(active))
                && Views() == old(Views()) + [NewChunk(old(active.sequence) + 1, active.recordCapacity, active.payloadCapacity)]
      ensures generation == old(generation) && length == old(length) && pruneSeam == old(pruneSeam)
      ensures latest == old(latest) && latestStates == old(latestStates)
    {
      hide ViewsOf;
      hide ValidStore;
      hide ReplacementCapacities;
      hide UsableCapacities;
      hide NewChunk;
      ViewsSplit(chunks);
      ActiveBounds(State(), payloadLength);
      var payloadFits := |active.payload| + payloadLength <= active.payloadCapacity;
      var recordFits := |active.records| < active.recordCapacity;
      if payloadFits && recordFits {
        return;
      }
      Replace();
    }

    method Replace()
      requires Shape() && 0 < |active.records| && |active.payload| <= 64 * |active.records|
      modifies this, next
      ensures Shape() && next == null
      ensures chunks == old(chunks) + [active] && (active == old(next) || fresh(active))
      ensures Views() == old(Views()) + [NewChunk(old(active.sequence) + 1, active.recordCapacity, active.payloadCapacity)]
      ensures generation == old(generation) && length == old(length) && pruneSeam == old(pruneSeam)
      ensures latest == old(latest) && latestStates == old(latestStates)
    {
      hide ViewsOf;
      hide ReplacementCapacities;
      hide NewChunk;
      var (recordCapacity, payloadCapacity) := ReplacementCapacities(|active.records|, |active.payload|);
      var c := TakeNext(recordCapacity, payloadCapacity, active.sequence + 1);
      assert ViewsOf(chunks) == old(ViewsOf(chunks));
      active := c;
      chunks := chunks + [c];
      ViewsSplit(chunks);
      assert chunks[..|chunks| - 1] == old(chunks);
      PrepareNext();
    }

    // prepareNextLocked: at most one allocation is under way, and none while a next chunk is ready.
    method PrepareNext()
      modifies this`allocatingNext
      ensures allocatingNext == (old(allocatingNext) || next == null)
    {
      if next != null || allocatingNext {
        return;
      }
      allocatingNext := true;
    }

    /** The part of appendFrame after the rotation. */
    method StoreFrame(event: FrameEvent)
      requires Shape() && ValidChunk(active.View()) && event.Valid()
      modifies active, this`latest, this`length
      ensures Views() == old(Views())[..|chunks| - 1] + [Appended(old(active.View()), FrameItem(event))]
      ensures latest == old(latest)[event.Key() := event] && length == old(length) + 1
      ensures Shape()
    {
      hide ViewsOf;
      hide ValidChunk;
      hide AppendedFrame;
      hide ItemAt;
      hide Readable;
      ViewsSplit(chunks);
      StoredReads(active.View(), FrameItem(event));
      active.AppendFrame(event);
      var recordIndex := |active.records| - 1;
      var stored := ItemAt(active.View(), recordIndex);
      latest := latest[event.Key() := stored.frame];
      length := length + 1;
      ViewsSplit(chunks);
    }

    /** appendFrame, one critical section: the rotation, the record, the key state, latest and length. */
    method Append(event: FrameEvent) returns (r: Result<(), Error>)
      requires Valid()
      modifies this, active, next
      ensures Valid() && (next == null || next == old(next))
      ensures chunks == old(chunks) || (chunks == old(chunks) + [active] && (active == old(next) || fresh(active)))
      ensures r.Ok? <==> event.Valid()
      ensures r.Err? ==> State() == old(State()) && chunks == old(chunks)
      ensures r.Ok? ==> AppendStep(old(State()), State(), FrameItem(event), End(State()))
      ensures r.Ok? ==> Log(Views()) == Log(old(Views())) + [FrameItem(event)]
    {
      hide ValidStore;
      hide Log;
      hide ViewsOf;
      hide ValidChunk;
      hide Appended;
      hide AppendStep;
      hide Fits;
      if !event.Valid() {
        return Err(InvalidRecord);
      }
      ViewsSplit(chunks);
      Rotate(|event.frame.data|);
      ViewsSplit(chunks);
      ActiveIsAppendable(old(State()), active.View(), FrameItem(event));
      ghost var rotated := active.View();
      StoreFrame(event);
      MadeAppendStep(old(State()), State(), rotated, FrameItem(event));
      r := Ok(());
    }

    /** The part of appendEvent after the rotation. */
    method StoreEvent(event: Event)
      requires Shape() && ValidChunk(active.View()) && event.Valid()
      modifies active, this`latestStates, this`length
      ensures Views() == old(Views())[..|chunks| - 1] + [Appended(old(active.View()), EventItem(event))]
      ensures length == old(length) + 1
      ensures latestStates == if event.kind.EventControllerState? then old(latestStates)[event.bus := event] else old(latestStates)
      ensures Shape()
    {
      hide ViewsOf;
      hide ValidChunk;
      hide AppendedEvent;
      hide ItemAt;
      hide Readable;
      ViewsSplit(chunks);
      StoredReads(active.View(), EventItem(event));
      active.AppendEvent(event);
      var recordIndex := |active.records| - 1;
      if event.kind.EventControllerState? {
        latestStates := latestStates[event.bus := ItemAt(active.View(), recordIndex).event];
      }
      length := length + 1;
      ViewsSplit(chunks);
    }

    /** appendEvent, one critical section. */
    method AppendEvent(event: Event) returns (r: Result<(), Error>)
      requires Valid()
      modifies this, active, next
      ensures Valid() && (next == null || next == old(next))
      ensures chunks == old(chunks) || (chunks == old(chunks) + [active] && (active == old(next) || fresh(active)))
      ensures r.Ok? <==> event.Valid()
      ensures r.Err? ==> State() == old(State()) && chunks == old(chunks)
      ensures r.Ok? ==> AppendStep(old(State()), State(), EventItem(event), End(State()))
      ensures r.Ok? ==> Log(Views()) == Log(old(Views())) + [EventItem(event)]
    {
      hide ValidStore;
      hide Log;
      hide ViewsOf;
      hide ValidChunk;
      hide Appended;
      hide AppendStep;
      hide Fits;
      if !event.Valid() {
        return Err(InvalidRecord);
      }
      ViewsSplit(chunks);
      Rotate(0);
      ViewsSplit(chunks);
      ActiveIsAppendable(old(State()), active.View(), EventItem(event));
      ghost var rotated := active.View();
      StoreEvent(event);
      MadeAppendStep(old(State()), State(), rotated, EventItem(event));
      r := Ok(());
    }

    /** The background allocation finishing, at any later time: it changes nothing a reader can see. */
    method NextPrepared(recordCapacity: nat, payloadCapacity: nat)
      requires Valid() && UsableCapacities(recordCapacity, payloadCapacity)
      modifies this`next, this`allocatingNext
      ensures Valid() && State() == old(State()) && chunks == old(chunks) && next != null && !allocatingNext
      ensures next == old(next) || fresh(next)
    {
      if next == null {
        next := new ChunkStorage(recordCapacity, payloadCapacity);
      }
      allocatingNext := false;
      assert Views() == old(Views());
    }

    /** endLocked. */
    method EndCursor() returns (cursor: Cursor)
      requires Valid()
      ensures cursor == End(State())
    {
      cursor := Newest(ZERO_CURSOR, generation, Views());
    }

    // The placement loop of Prune.
    method PlaceAll(cursors: seq<Cursor>) returns (r: Result<(nat, int), Error>)
      requires Shape() && |cursors| > 0
      ensures r == EarliestPlacement(State(), cursors)
    {
      hide ViewsOf;
      hide LocateCursor;
      var chunk: nat, boundary := 0, -1;
      for i := 0 to |cursors|
        invariant i > 0 ==> EarliestPlacement(State(), cursors[..i]) == Ok((chunk, boundary))
      {
        EarliestStep(State(), cursors, i);
        var placed := LocateCursor(cursors[i], generation, Views(), pruneSeam);
        if placed.Err? {
          return Err(placed.error);
        }
        if i == 0 || placed.value.0 < chunk || (placed.value.0 == chunk && placed.value.1 < boundary) {
          chunk, boundary := placed.value.0, placed.value.1;
        }
      }
      assert cursors[..|cursors|] == cursors;
      r := Ok((chunk, boundary));
    }

    method SubtractDiscarded(discarded: seq<Chunk>)
      requires Count(discarded) <= length
      modifies this`length
      ensures length == old(length) - Count(discarded)
    {
      assert Count([]) == 0 && discarded[..0] == [] && discarded[..|discarded|] == discarded;
      hide Count;
      for i := 0 to |discarded|
        invariant length == old(length) - Count(discarded[..i])
      {
        CountNext(discarded, i);
        length := length - |discarded[i].records|;
      }
    }

    // The discarding part of Prune.
    method Discard(discard: nat)
      requires Valid() && discard < |chunks|
      modifies this`chunks, this`length, this`pruneSeam
      ensures Valid() && State() == Discarded(old(State()), discard) && chunks == old(chunks)[discard..]
    {
      hide ViewsOf;
      hide ValidStore;
      hide Count;
      hide Log;
      hide Blank;
      hide UsableCapacities;
      if discard == 0 {
        return;
      }
      DiscardedKeeps(State(), discard);
      SeamIsNewest(State(), discard);
      var discarded := Views()[..discard];
      pruneSeam := Newest(pruneSeam, generation, discarded);
      SubtractDiscarded(discarded);
      ViewsDrop(chunks, discard);
      assert chunks[discard..][..|chunks| - discard - 1] == chunks[discard..|chunks| - 1];
      chunks := chunks[discard..];
    }

    /** Prune: places every cursor, then drops whole sealed chunks ending at or before the earliest of them. */
    method Prune(cursors: seq<Cursor>) returns (r: Result<(), Error>)
      requires Valid()
      modifies this`chunks, this`length, this`pruneSeam
      ensures Valid()
      ensures match Pruned(old(State()), cursors) {
                case Ok(t) => r.Ok? && State() == t
                case Err(_) => r.Err? && State() == old(State()) && chunks == old(chunks)
              }
      // no chunk is kept that every cursor has passed
      ensures r.Ok? && cursors != [] && (forall k :: 0 <= k < |cursors| ==> Held(old(State()), cursors[k])) ==>
        |chunks| == 1 || NeedsFirst(old(State()), State(), cursors)
    {
      hide ViewsOf;
      hide ValidStore;
      hide Discarded;
      hide EarliestPlacement;
      hide Held;
      hide NeedsFirst;
      ghost var before := State();
      if |cursors| == 0 {
        return Ok(());
      }
      var placed := PlaceAll(cursors);
      if placed.Err? {
        return Err(placed.error);
      }
      var discard := placed.value.0;
      ViewAt(chunks, discard);
      if discard < |chunks| - 1 && placed.value.1 == |chunks[discard].records| - 1 {
        discard := discard + 1;
      }
      Discard(discard);
      if forall k :: 0 <= k < |cursors| ==> Held(before, cursors[k]) {
        PruneIsMaximal(before, cursors);
      }
      r := Ok(());
    }

    /** Clear: a new generation over one empty chunk; `epoch` is drawn from the shared counter. */
    method Clear(epoch: nat)
      requires Valid() && epoch > generation
      modifies this
      ensures Valid() && ClearStep(old(State()), State(), epoch) && Log(Views()) == []
      ensures active == old(next) || fresh(active)
      ensures next == null && chunks == [active]
    {
      hide ValidStore;
      hide Log;
      var spare := next;
      if spare == null {
        spare := new ChunkStorage(active.recordCapacity, active.payloadCapacity);
      }
      generation := epoch;
      next := null;
      active := spare;
      chunks := [spare];
      latest := map[];
      latestStates := map[];
      length := 0;
      pruneSeam := ZERO_CURSOR;
      PrepareNext();
      assert Views() == [spare.View()];
      BlankStore(State());
    }

    /** SeriesSince and BusEventsSince: the chain walk over the views frozen by the snapshot. */
    method SeriesSince(series: Series, cursor: Cursor) returns (r: Result<(seq<Item>, Cursor), Error>)
      requires Valid()
      ensures r.Ok? <==> Locate(State(), cursor).Ok?
      ensures r.Ok? ==> r.value.0 == SeriesAfter(State(), cursor, series)
      ensures r.Ok? ==> Locate(State(), r.value.1).Ok? && Behind(State(), r.value.1) == length
    {
      r := ReadSince(State(), series, cursor);
    }

    /** SeriesBetween and BusEventsBetween: the same snapshot, scanned record by record. */
    method SeriesBetween(series: Series, start: Cursor, end: Cursor) returns (r: Result<seq<Item>, Error>)
      requires Valid()
      ensures r.Ok? <==> RangePlaces(State(), start, end)
      ensures r.Ok? ==> r.value == SeriesWithin(State(), start, end, series)
    {
      r := ScanRange(State(), series, start, end);
    }
  }

  // All sealed chunks hold records, so the seam is the last record of the last discarded chunk.
  lemma SeamIsNewest(s: Store, discard: nat)
    requires ValidStore(s) && 0 < discard < |s.chunks|
    ensures NewestCursor(s.pruneSeam, s.generation, s.chunks[..discard]) ==
      Cursor(s.generation, s.chunks[discard - 1].sequence, |s.chunks[discard - 1].records| - 1)
    ensures s.length == Count(s.chunks)
  {
    assert s.chunks[..discard][discard - 1] == s.chunks[discard - 1];
  }

  lemma ViewAt(chunks: seq<ChunkStorage>, k: nat)
    requires k < |chunks|
    ensures ViewsOf(chunks)[k] == chunks[k].View()
  {
  }

  lemma ViewsDrop(chunks: seq<ChunkStorage>, k: nat)
    requires k <= |chunks|
    ensures ViewsOf(chunks[k..]) == ViewsOf(chunks)[k..]
  {
  }

  lemma {:induction false} EarliestStep(s: Store, cursors: seq<Cursor>, i: nat)
    requires |s.chunks| > 0 && i < |cursors|
    ensures i == 0 ==> EarliestPlacement(s, cursors[..1]) == Locate(s, cursors[0])
    ensures i > 0 && EarliestPlacement(s, cursors[..i]).Ok? ==>
      var (earlier, placed) := (EarliestPlacement(s, cursors[..i]).value, Locate(s, cursors[i]));
      EarliestPlacement(s, cursors[..i + 1]) ==
        if placed.Err? then Err(placed.error)
        else Ok(if placed.value.0 < earlier.0 || (placed.value.0 == earlier.0 && placed.value.1 < earlier.1) then placed.value else earlier)
    ensures Locate(s, cursors[i]).Err? && (i == 0 || EarliestPlacement(s, cursors[..i]).Ok?) ==>
      EarliestPlacement(s, cursors) == Err(Locate(s, cursors[i]).error)
  {
    assert cursors[..i + 1][..i] == cursors[..i];
    if Locate(s, cursors[i]).Err? && (i == 0 || EarliestPlacement(s, cursors[..i]).Ok?) {
      FailureStays(s, cursors, i + 1);
    }
  }

  lemma {:induction false} FailureStays(s: Store, cursors: seq<Cursor>, k: nat)
    requires |s.chunks| > 0 && 0 < k <= |cursors| && EarliestPlacement(s, cursors[..k]).Err?
    ensures EarliestPlacement(s, cursors) == EarliestPlacement(s, cursors[..k])
    decreases |cursors|
  {
    if k == |cursors| {
      assert cursors[..k] == cursors;
    } else {
      var rest := cursors[..|cursors| - 1];
      assert rest[..k] == cursors[..k];
      FailureStays(s, rest, k);
    }
  }

  lemma BlankStore(s: Store)
    requires s.generation > 0 && s.pruneSeam == ZERO_CURSOR && s.length == 0
    requires |s.chunks| == 1 && Blank(s.chunks[0])
    ensures ValidStore(s) && Log(s.chunks) == []
  {
    assert s.chunks == [s.chunks[0]];
    NewChunkIsValid(0, s.chunks[0].recordCapacity, s.chunks[0].payloadCapacity);
    LogOne(s.chunks[0]);
    LogLength(s.chunks);
  }

  lemma ActiveBounds(s: Store, payloadLength: nat)
    requires ValidStore(s) && payloadLength <= 64
    ensures |ActiveChunk(s).payload| <= 64 * |ActiveChunk(s).records|
    ensures !Fits(ActiveChunk(s), payloadLength) ==> |ActiveChunk(s).records| > 0
  {
    hide LinkedBack;
    hide Linked;
    hide KeysIndexed;
    assert ValidChunk(ActiveChunk(s));
  }

  lemma ActiveIsValid(s: Store)
    requires ValidStore(s)
    ensures ValidChunk(ActiveChunk(s))
  {
  }

  lemma StoredReads(c: Chunk, item: Item)
    requires ValidChunk(c) && ValidItem(item)
    ensures |Appended(c, item).records| == |c.records| + 1
    ensures Readable(Appended(c, item), |c.records|) && ItemAt(Appended(c, item), |c.records|) == item
  {
    NewRecordReads(c, item);
  }

  // The active chunk after the rotation for an item: the one before it, or a new one after it.
  lemma ActiveIsAppendable(s: Store, active: Chunk, item: Item)
    requires ValidStore(s) && ValidItem(item)
    requires Fits(ActiveChunk(s), PayloadLength(item)) ==> active == ActiveChunk(s)
    requires !Fits(ActiveChunk(s), PayloadLength(item)) ==>
      UsableCapacities(active.recordCapacity, active.payloadCapacity) &&
      active == NewChunk(ActiveChunk(s).sequence + 1, active.recordCapacity, active.payloadCapacity)
    ensures ValidChunk(active) && Fits(active, PayloadLength(item))
  {
    if Fits(ActiveChunk(s), PayloadLength(item)) {
      ActiveIsValid(s);
    } else {
      hide ValidChunk;
      NewChunkFits(active.sequence, active.recordCapacity, active.payloadCapacity, item);
    }
  }

  lemma MadeAppendStep(s: Store, t: Store, active: Chunk, item: Item)
    requires |s.chunks| > 0 && ValidStore(s) && ValidItem(item)
    requires Fits(ActiveChunk(s), PayloadLength(item)) ==>
      active == ActiveChunk(s) && t.chunks == s.chunks[..|s.chunks| - 1] + [Appended(active, item)]
    requires !Fits(ActiveChunk(s), PayloadLength(item)) ==>
      && UsableCapacities(active.recordCapacity, active.payloadCapacity)
      && active == NewChunk(ActiveChunk(s).sequence + 1, active.recordCapacity, active.payloadCapacity)
      && t.chunks == s.chunks + [Appended(active, item)]
    requires t.generation == s.generation && t.pruneSeam == s.pruneSeam && t.length == s.length + 1
    requires t.latest == (if item.FrameItem? then s.latest[item.frame.Key() := item.frame] else s.latest)
    requires t.latestStates == (if item.EventItem? && item.event.kind.EventControllerState? then s.latestStates[item.event.bus := item.event]
                                else s.latestStates)
    ensures AppendStep(s, t, item, End(t)) && ValidStore(t)
    ensures Log(t.chunks) == Log(s.chunks) + [item]
  {
    hide Log;
    hide ValidStore;
    hide Appended;
    hide UsableCapacities;
    hide Fits;
    assert AppendStep(s, t, item, End(t));
    AppendKeeps(s, t, item, End(t));
  }
}

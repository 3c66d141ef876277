/**
 * One chunk of a capture: write-once records, payload bytes, and per-series chains of `previous` links
 * (capture.go). A series is either the frames of one key or the events of one bus; both are linked and
 * read in the same way.
 */
module CaptureChunk {
  import opened Wrappers
  import opened Frames

  // ^uint32(0)
  const NO_RECORD: nat := 0xffff_ffff

  datatype FrameKey = FrameKey(id: nat, bus: nat, direction: Direction, extended: bool)

  datatype FrameEvent = FrameEvent(bus: nat, timestamp: int, direction: Direction, frame: Frame) {

    function Key(): FrameKey {
      FrameKey(frame.id, bus, direction, frame.flags.extended)
    }

    predicate Valid() {
      bus != 0 && frame.Valid()
    }
  }

  datatype EventKind = EventControllerState | EventErrorFrame | EventReceiveOverrun

  // `details` stands for the controller state and its error counters.
  datatype Event = Event(bus: nat, timestamp: int, kind: EventKind, details: nat) {

    predicate Valid() {
      bus != 0 && (kind != EventControllerState ==> details == 0)
    }
  }

  datatype Item = FrameItem(frame: FrameEvent) | EventItem(event: Event)

  datatype Series = FrameSeries(key: FrameKey) | BusSeries(bus: nat)

  function SeriesOf(item: Item): Series {
    match item
    case FrameItem(frame) => FrameSeries(frame.Key())
    case EventItem(event) => BusSeries(event.bus)
  }

  predicate ValidItem(item: Item) {
    match item
    case FrameItem(frame) => frame.Valid()
    case EventItem(event) => event.Valid()
  }

  datatype Record =
    | FrameRecord(timestamp: int, payloadOffset: nat, keyIndex: nat, previous: nat, dlc: nat, flags: FrameFlags)
    | EventRecord(timestamp: int, bus: nat, previous: nat, kind: EventKind, details: nat)

  datatype KeyState = KeyState(index: nat, lastRecord: nat, count: nat)

  datatype EventState = EventState(lastRecord: nat, count: nat)

  datatype Chunk = Chunk(
    sequence: nat,
    keys: seq<FrameKey>,
    keyStates: map<FrameKey, KeyState>,
    eventStates: map<nat, EventState>,
    records: seq<Record>,
    payload: seq<byte>,
    recordCapacity: nat,
    payloadCapacity: nat)

  // ---- Reading records -------------------------------------------------------------------

  predicate Readable(c: Chunk, i: nat)
    requires i < |c.records|
  {
    match c.records[i]
    case FrameRecord(_, offset, keyIndex, _, dlc, flags) =>
      keyIndex < |c.keys| && offset + Frame(0, dlc, flags, []).DataLength() <= |c.payload|
    case EventRecord(_, _, _, _, _) => true
  }

  /** frameAt and eventAt. */
  function ItemAt(c: Chunk, i: nat): Item
    requires i < |c.records| && Readable(c, i)
  {
    match c.records[i]
    case FrameRecord(timestamp, offset, keyIndex, _, dlc, flags) =>
      var key := c.keys[keyIndex];
      var length := Frame(key.id, dlc, flags, []).DataLength();
      FrameItem(FrameEvent(key.bus, timestamp, key.direction, Frame(key.id, dlc, flags, c.payload[offset..offset + length])))
    case EventRecord(timestamp, bus, _, kind, details) =>
      EventItem(Event(bus, timestamp, kind, details))
  }

  ghost predicate AllReadable(c: Chunk) {
    forall i :: 0 <= i < |c.records| ==> Readable(c, i)
  }

  /** The records of a chunk as the caller sees them. */
  ghost function Items(c: Chunk): (items: seq<Item>)
    requires AllReadable(c)
    ensures |items| == |c.records|
  {
    seq(|c.records|, i requires 0 <= i < |c.records| => ItemAt(c, i))
  }

  // ---- Chains ----------------------------------------------------------------------------

  ghost function Filter(items: seq<Item>, series: Series): seq<Item> {
    if items == [] then []
    else
      var last := items[|items| - 1];
      Filter(items[..|items| - 1], series) + (if SeriesOf(last) == series then [last] else [])
  }

  /** The newest position before n that belongs to the series, or -1. */
  ghost function LastMatch(items: seq<Item>, series: Series, n: nat): (i: int)
    requires n <= |items|
    ensures -1 <= i < n
    ensures i >= 0 ==> SeriesOf(items[i]) == series
  {
    if n == 0 then -1
    else if SeriesOf(items[n - 1]) == series then n - 1
    else LastMatch(items, series, n - 1)
  }

  ghost function Link(i: int): nat {
    if i < 0 then NO_RECORD else i
  }

  /** The stored newest record and count of a series; a Go map yields zeros for an absent one. */
  function StateOf(c: Chunk, series: Series): EventState {
    match series
    case FrameSeries(key) =>
      if key in c.keyStates then EventState(c.keyStates[key].lastRecord, c.keyStates[key].count) else EventState(0, 0)
    case BusSeries(bus) =>
      if bus in c.eventStates then c.eventStates[bus] else EventState(0, 0)
  }

  ghost predicate Linked(c: Chunk, series: Series)
    requires AllReadable(c)
  {
    var state := StateOf(c, series);
    && state.count == |Filter(Items(c), series)|
    && (state.count > 0 ==> state.lastRecord == Link(LastMatch(Items(c), series, |c.records|)))
  }

  ghost predicate Bounded(c: Chunk) {
    && |c.records| <= c.recordCapacity < NO_RECORD
    && |c.payload| <= c.payloadCapacity && |c.payload| <= 64 * |c.records|
    && 0 < c.recordCapacity && 64 <= c.payloadCapacity
  }

  // The key table and the states of the keys index each other; a state exists only for a used series.
  ghost predicate KeysIndexed(c: Chunk) {
    && (forall k :: 0 <= k < |c.keys| ==> c.keys[k] in c.keyStates && c.keyStates[c.keys[k]].index == k)
    && (forall key :: key in c.keyStates ==>
          c.keyStates[key].count > 0 && c.keyStates[key].index < |c.keys| && c.keys[c.keyStates[key].index] == key)
    && (forall bus :: bus in c.eventStates ==> c.eventStates[bus].count > 0)
  }

  /** The series a record belongs to, read from the record and the key table alone. */
  function RecordSeries(c: Chunk, i: nat): Series
    requires i < |c.records| && Readable(c, i)
  {
    match c.records[i]
    case FrameRecord(_, _, keyIndex, _, _, _) => FrameSeries(c.keys[keyIndex])
    case EventRecord(_, bus, _, _, _) => BusSeries(bus)
  }

  // The record at i holds a valid item and links to the record before it in its series.
  ghost predicate LinkedBack(c: Chunk, i: nat)
    requires AllReadable(c) && i < |c.records|
  {
    && ValidItem(Items(c)[i]) && RecordSeries(c, i) == SeriesOf(Items(c)[i])
    && c.records[i].previous == Link(LastMatch(Items(c), SeriesOf(Items(c)[i]), i))
  }

  ghost predicate ValidChunk(c: Chunk) {
    && AllReadable(c) && Bounded(c) && KeysIndexed(c)
    && (forall i :: 0 <= i < |c.records| ==> LinkedBack(c, i))
    && (forall series :: Linked(c, series))
  }

  lemma {:induction false} LastMatchIsLocal(left: seq<Item>, right: seq<Item>, series: Series, n: nat)
    requires n <= |left| && n <= |right| && left[..n] == right[..n]
    ensures LastMatch(left, series, n) == LastMatch(right, series, n)
  {
    if n > 0 {
      assert left[n - 1] == left[..n][n - 1] == right[n - 1];
      assert left[..n - 1] == left[..n][..n - 1] && right[..n - 1] == right[..n][..n - 1];
      LastMatchIsLocal(left, right, series, n - 1);
    }
  }

  lemma {:induction false} NoMatchIsEmpty(items: seq<Item>, series: Series)
    ensures Filter(items, series) == [] <==> LastMatch(items, series, |items|) == -1
  {
    if items != [] {
      var rest := items[..|items| - 1];
      NoMatchIsEmpty(rest, series);
      LastMatchIsLocal(items, rest, series, |rest|);
    }
  }

  lemma {:induction false} FilterAppend(items: seq<Item>, item: Item, series: Series)
    ensures Filter(items + [item], series) == Filter(items, series) + (if SeriesOf(item) == series then [item] else [])
  {
    assert (items + [item])[..|items|] == items;
  }

  lemma {:induction false} FilterConcat(left: seq<Item>, right: seq<Item>, series: Series)
    ensures Filter(left + right, series) == Filter(left, series) + Filter(right, series)
  {
    if right == [] {
      assert left + right == left;
    } else {
      var rest := right[..|right| - 1];
      var last := right[|right| - 1];
      assert left + right == (left + rest) + [last];
      FilterConcat(left, rest, series);
      FilterAppend(left + rest, last, series);
    }
  }

  lemma LastMatchNext(items: seq<Item>, series: Series, n: nat)
    requires 0 < n <= |items|
    ensures LastMatch(items, series, n) == if SeriesOf(items[n - 1]) == series then n - 1 else LastMatch(items, series, n - 1)
  {
  }

  lemma {:induction false} FilterEmpty(items: seq<Item>, series: Series)
    requires items == []
    ensures Filter(items, series) == []
  {
  }

  /** Following one link adds exactly one record to what has been collected. */
  lemma {:induction false} FilterFromMatch(items: seq<Item>, series: Series, from: nat, n: nat)
    requires from <= n <= |items|
    ensures var r := LastMatch(items, series, n);
      Filter(items[from..n], series) ==
        if r < from then [] else Filter(items[from..r], series) + [items[r]]
    decreases n
  {
    hide Filter;
    hide LastMatch;
    if from == n {
      FilterEmpty(items[from..n], series);
    } else {
      assert items[from..n] == items[from..n - 1] + [items[n - 1]];
      FilterAppend(items[from..n - 1], items[n - 1], series);
      LastMatchNext(items, series, n);
      if SeriesOf(items[n - 1]) != series {
        FilterFromMatch(items, series, from, n - 1);
      }
    }
  }

  // ---- Appending -------------------------------------------------------------------------

  function NewChunk(sequence: nat, recordCapacity: nat, payloadCapacity: nat): Chunk {
    Chunk(sequence, [], map[], map[], [], [], recordCapacity, payloadCapacity)
  }

  predicate Fits(c: Chunk, payloadLength: nat) {
    |c.payload| + payloadLength <= c.payloadCapacity && |c.records| < c.recordCapacity
  }

  function AppendedFrame(c: Chunk, event: FrameEvent): Chunk {
    var key := event.Key();
    var known := key in c.keyStates;
    var state := if known then c.keyStates[key] else KeyState(|c.keys|, NO_RECORD, 0);
    c.(keys := if known then c.keys else c.keys + [key],
       payload := c.payload + event.frame.data,
       records := c.records + [FrameRecord(event.timestamp, |c.payload|, state.index, state.lastRecord, event.frame.dlc, event.frame.flags)],
       keyStates := c.keyStates[key := KeyState(state.index, |c.records|, state.count + 1)])
  }

  function AppendedEvent(c: Chunk, event: Event): Chunk {
    var state := if event.bus in c.eventStates then c.eventStates[event.bus] else EventState(NO_RECORD, 0);
    c.(records := c.records + [EventRecord(event.timestamp, event.bus, state.lastRecord, event.kind, event.details)],
       eventStates := c.eventStates[event.bus := EventState(|c.records|, state.count + 1)])
  }

  function Appended(c: Chunk, item: Item): Chunk {
    match item
    case FrameItem(frame) => AppendedFrame(c, frame)
    case EventItem(event) => AppendedEvent(c, event)
  }

  function PayloadLength(item: Item): nat {
    match item
    case FrameItem(frame) => |frame.frame.data|
    case EventItem(_) => 0
  }

  lemma NewChunkIsValid(sequence: nat, recordCapacity: nat, payloadCapacity: nat)
    requires 0 < recordCapacity < NO_RECORD && 64 <= payloadCapacity
    ensures ValidChunk(NewChunk(sequence, recordCapacity, payloadCapacity))
    ensures Items(NewChunk(sequence, recordCapacity, payloadCapacity)) == []
  {
  }

  lemma OldRecordReads(c: Chunk, item: Item, i: nat)
    requires i < |c.records| && Readable(c, i)
    ensures var after := Appended(c, item);
      i < |after.records| && Readable(after, i) && ItemAt(after, i) == ItemAt(c, i) && RecordSeries(after, i) == RecordSeries(c, i)
  {
    var after := Appended(c, item);
    assert after.records[i] == c.records[i];
    if c.records[i].FrameRecord? {
      var offset := c.records[i].payloadOffset;
      var length := Frame(0, c.records[i].dlc, c.records[i].flags, []).DataLength();
      assert after.payload[offset..offset + length] == c.payload[offset..offset + length];
    }
  }

  lemma NewRecordReads(c: Chunk, item: Item)
    requires KeysIndexed(c) && ValidItem(item)
    ensures var after := Appended(c, item);
      |after.records| == |c.records| + 1 && Readable(after, |c.records|) && ItemAt(after, |c.records|) == item
  {
    var after := Appended(c, item);
    if item.FrameItem? {
      var offset := |c.payload|;
      assert after.payload[offset..offset + |item.frame.frame.data|] == item.frame.frame.data;
    }
  }

  /** Earlier records read the same after an append, and the new one reads back as the appended item. */
  lemma AppendReads(c: Chunk, item: Item)
    requires AllReadable(c) && KeysIndexed(c) && ValidItem(item)
    ensures |Appended(c, item).records| == |c.records| + 1
    ensures AllReadable(Appended(c, item))
    ensures Items(Appended(c, item)) == Items(c) + [item]
  {
    NewRecordReads(c, item);
    var n := |c.records|;
    forall i | 0 <= i < n
      ensures Readable(Appended(c, item), i) && ItemAt(Appended(c, item), i) == ItemAt(c, i)
    {
      OldRecordReads(c, item, i);
    }
    hide Appended;
    hide ItemAt;
    hide Readable;
    hide KeysIndexed;
    assert forall i :: 0 <= i < n + 1 ==> Readable(Appended(c, item), i);
  }

  lemma {:induction false} AppendLinks(c: Chunk, item: Item, series: Series)
    requires AllReadable(c) && KeysIndexed(c) && ValidItem(item) && Linked(c, series)
    requires AllReadable(Appended(c, item)) && Items(Appended(c, item)) == Items(c) + [item]
    ensures Linked(Appended(c, item), series)
    ensures series == SeriesOf(item) ==>
      Appended(c, item).records[|c.records|].previous == Link(LastMatch(Items(c) + [item], series, |c.records|))
  {
    hide Readable;
    hide ItemAt;
    FilterAppend(Items(c), item, series);
    LastMatchIsLocal(Items(c), Items(c) + [item], series, |c.records|);
    NoMatchIsEmpty(Items(c), series);
  }

  lemma AppendKeepsLinks(c: Chunk, item: Item, i: nat)
    requires AllReadable(c) && i < |c.records| && LinkedBack(c, i)
    requires AllReadable(Appended(c, item)) && Items(Appended(c, item)) == Items(c) + [item]
    ensures LinkedBack(Appended(c, item), i)
  {
    OldRecordReads(c, item, i);
    hide Readable;
    hide ItemAt;
    hide RecordSeries;
    var after := Appended(c, item);
    assert after.records[i] == c.records[i];
    assert Items(after)[i] == Items(c)[i] && Items(after)[..i] == Items(c)[..i];
    LastMatchIsLocal(Items(c), Items(after), SeriesOf(Items(c)[i]), i);
  }

  lemma AppendKeepsKeys(c: Chunk, item: Item)
    requires KeysIndexed(c)
    ensures KeysIndexed(Appended(c, item))
  {
  }

  lemma AppendKeepsBounds(c: Chunk, item: Item)
    requires Bounded(c) && ValidItem(item) && Fits(c, PayloadLength(item))
    ensures Bounded(Appended(c, item))
  {
  }

  /** Appending keeps every link, count and newest-record entry of the chunk in step with its records. */
  lemma AppendKeepsValid(c: Chunk, item: Item)
    requires ValidChunk(c) && ValidItem(item) && Fits(c, PayloadLength(item))
    ensures ValidChunk(Appended(c, item))
    ensures Items(Appended(c, item)) == Items(c) + [item]
  {
    AppendReads(c, item);
    AppendKeepsKeys(c, item);
    AppendKeepsBounds(c, item);
    hide Appended;
    hide Readable;
    hide ItemAt;
    hide Linked;
    hide KeysIndexed;
    hide Bounded;
    hide LinkedBack;
    var after := Appended(c, item);
    forall series
      ensures Linked(after, series)
    {
      assert Linked(c, series);
      AppendLinks(c, item, series);
    }
    forall i | 0 <= i < |after.records|
      ensures LinkedBack(after, i)
    {
      if i < |c.records| {
        AppendKeepsLinks(c, item, i);
      } else {
        NewRecordLinks(c, item);
      }
    }
  }

  lemma NewRecordLinks(c: Chunk, item: Item)
    requires AllReadable(c) && KeysIndexed(c) && ValidItem(item) && Linked(c, SeriesOf(item))
    requires AllReadable(Appended(c, item)) && Items(Appended(c, item)) == Items(c) + [item]
    requires |Appended(c, item).records| == |c.records| + 1
    ensures LinkedBack(Appended(c, item), |c.records|)
  {
    AppendLinks(c, item, SeriesOf(item));
    assert Items(Appended(c, item))[|c.records|] == item;
  }
}

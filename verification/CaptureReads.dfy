/**
 * Reading a capture (capture.go, capture_range.go). Every read works on frozen views of the chunks. The
 * indexed reads walk the `previous` links of each chunk backwards and fill their result from its end;
 * the range reads scan records forwards. Both must return the same filter of the flat log.
 */
module CaptureReads {
  import opened Wrappers
  import opened Frames
  import opened CaptureChunk
  import opened CaptureStore

  // ---- One chunk -------------------------------------------------------------------------

  function FirstAfter(view: Chunk, boundary: int): nat
    requires -1 <= boundary
  {
    if boundary + 1 < |view.records| then boundary + 1 else |view.records|
  }

  ghost function PartAfter(view: Chunk, boundary: int, series: Series): seq<Item>
    requires ValidChunk(view) && -1 <= boundary
  {
    Filter(Items(view)[FirstAfter(view, boundary)..], series)
  }

  // The walk stands at r: everything from the boundary up to `upTo` is still to be visited.
  ghost predicate Walking(view: Chunk, series: Series, r: nat, upTo: nat)
    requires ValidChunk(view)
  {
    upTo <= |view.records| && r == Link(LastMatch(Items(view), series, upTo))
  }

  ghost function Remaining(view: Chunk, boundary: int, series: Series, upTo: nat): seq<Item>
    requires ValidChunk(view) && -1 <= boundary && FirstAfter(view, boundary) <= upTo <= |view.records|
  {
    Filter(Items(view)[FirstAfter(view, boundary)..upTo], series)
  }

  lemma StartWalk(view: Chunk, series: Series, boundary: int)
    requires ValidChunk(view) && -1 <= boundary && StateOf(view, series).count > 0
    ensures FirstAfter(view, boundary) <= |view.records|
    ensures Walking(view, series, StateOf(view, series).lastRecord, |view.records|)
    ensures Remaining(view, boundary, series, |view.records|) == PartAfter(view, boundary, series)
  {
    assert Linked(view, series);
    assert Items(view)[FirstAfter(view, boundary)..|view.records|] == Items(view)[FirstAfter(view, boundary)..];
  }

  lemma WalkOn(view: Chunk, series: Series, boundary: int, r: nat, upTo: nat)
    requires ValidChunk(view) && -1 <= boundary && FirstAfter(view, boundary) <= upTo
    requires Walking(view, series, r, upTo) && r != NO_RECORD && r > boundary
    ensures FirstAfter(view, boundary) <= r < upTo && Readable(view, r) && SeriesOf(ItemAt(view, r)) == series
    ensures Walking(view, series, view.records[r].previous, r)
    ensures Remaining(view, boundary, series, upTo) == Remaining(view, boundary, series, r) + [ItemAt(view, r)]
  {
    hide Readable;
    hide ItemAt;
    hide Linked;
    hide KeysIndexed;
    FilterFromMatch(Items(view), series, FirstAfter(view, boundary), upTo);
    assert Items(view)[r] == ItemAt(view, r);
    assert LinkedBack(view, r);
  }

  lemma WalkEnds(view: Chunk, series: Series, boundary: int, r: nat, upTo: nat)
    requires ValidChunk(view) && -1 <= boundary && FirstAfter(view, boundary) <= upTo
    requires Walking(view, series, r, upTo) && !(r != NO_RECORD && r > boundary)
    ensures Remaining(view, boundary, series, upTo) == []
  {
    hide Readable;
    hide ItemAt;
    hide Linked;
    hide KeysIndexed;
    FilterFromMatch(Items(view), series, FirstAfter(view, boundary), upTo);
  }

  lemma UnusedSeries(view: Chunk, series: Series, boundary: int)
    requires ValidChunk(view) && -1 <= boundary && StateOf(view, series).count == 0
    ensures PartAfter(view, boundary, series) == []
  {
    hide LinkedBack;
    hide KeysIndexed;
    var items := Items(view);
    var from := FirstAfter(view, boundary);
    assert Linked(view, series);
    assert items == items[..from] + items[from..];
    FilterConcat(items[..from], items[from..], series);
  }

  lemma WholePart(view: Chunk, series: Series)
    requires ValidChunk(view)
    ensures |PartAfter(view, -1, series)| == StateOf(view, series).count
  {
    assert Linked(view, series);
    assert Items(view)[0..] == Items(view);
  }

  method CountChain(view: Chunk, state: EventState, series: Series, boundary: int) returns (total: nat)
    requires ValidChunk(view) && state == StateOf(view, series) && state.count > 0 && -1 <= boundary
    ensures total == |PartAfter(view, boundary, series)|
  {
    hide ValidChunk;
    hide Walking;
    hide Remaining;
    hide PartAfter;
    StartWalk(view, series, boundary);
    var r: nat := state.lastRecord;
    ghost var upTo: nat := |view.records|;
    total := 0;
    while r != NO_RECORD && r > boundary
      invariant FirstAfter(view, boundary) <= upTo <= |view.records| && Walking(view, series, r, upTo)
      invariant total + |Remaining(view, boundary, series, upTo)| == |PartAfter(view, boundary, series)|
      decreases upTo
    {
      WalkOn(view, series, boundary, r, upTo);
      upTo := r;
      total := total + 1;
      r := view.records[r].previous;
    }
    WalkEnds(view, series, boundary, r, upTo);
  }

  method FillChain(view: Chunk, state: EventState, series: Series, stop: int, found: array<Item>, end: nat) returns (remaining: nat)
    requires ValidChunk(view) && state == StateOf(view, series) && state.count > 0 && -1 <= stop
    requires |PartAfter(view, stop, series)| <= end <= found.Length
    modifies found
    ensures remaining == end - |PartAfter(view, stop, series)|
    ensures found[remaining..] == PartAfter(view, stop, series) + old(found[end..])
  {
    hide ValidChunk;
    hide Walking;
    hide Remaining;
    hide PartAfter;
    hide ItemAt;
    StartWalk(view, series, stop);
    var r: nat := state.lastRecord;
    ghost var upTo: nat := |view.records|;
    remaining := end;
    while r != NO_RECORD && r > stop
      invariant FirstAfter(view, stop) <= upTo <= |view.records| && Walking(view, series, r, upTo)
      invariant remaining == end - |PartAfter(view, stop, series)| + |Remaining(view, stop, series, upTo)|
      invariant remaining <= end
      invariant Remaining(view, stop, series, upTo) + found[remaining..] == PartAfter(view, stop, series) + old(found[end..])
      decreases upTo
    {
      WalkOn(view, series, stop, r, upTo);
      ghost var (before, rest) := (Remaining(view, stop, series, r), found[remaining..]);
      upTo := r;
      remaining := remaining - 1;
      found[remaining] := ItemAt(view, r);
      assert found[remaining..] == [ItemAt(view, r)] + rest;
      assert before + found[remaining..] == (before + [ItemAt(view, r)]) + rest;
      r := view.records[r].previous;
    }
    WalkEnds(view, series, stop, r, upTo);
    assert [] + found[remaining..] == found[remaining..];
  }

  // ---- All chunks from a cursor on -------------------------------------------------------

  function StopAt(i: nat, boundary: int): int {
    if i == 0 then boundary else -1
  }

  /** What the first k views contribute; the boundary applies to the first one. */
  ghost function Parts(views: seq<Chunk>, boundary: int, series: Series, k: nat): seq<Item>
    requires AllValid(views) && -1 <= boundary && k <= |views|
  {
    if k == 0 then [] else Parts(views, boundary, series, k - 1) + PartAfter(views[k - 1], StopAt(k - 1, boundary), series)
  }

  lemma {:induction false} PartsGrow(views: seq<Chunk>, boundary: int, series: Series, j: nat, k: nat)
    requires AllValid(views) && -1 <= boundary && j <= k <= |views|
    ensures |Parts(views, boundary, series, j)| <= |Parts(views, boundary, series, k)|
  {
    hide ValidChunk;
    hide PartAfter;
    if j < k {
      PartsGrow(views, boundary, series, j, k - 1);
    }
  }

  lemma {:induction false} PartIsFilter(view: Chunk, boundary: int, series: Series)
    requires ValidChunk(view) && -1 <= boundary
    ensures AllReadable(view) && FirstAfter(view, boundary) <= |Items(view)|
    ensures PartAfter(view, boundary, series) == Filter(Items(view)[FirstAfter(view, boundary)..], series)
    ensures PartAfter(view, -1, series) == Filter(Items(view), series)
  {
    assert Items(view)[0..] == Items(view);
  }

  lemma {:induction false} FilterOneMore(log: seq<Item>, items: seq<Item>, from: nat, series: Series)
    requires from <= |log|
    ensures Filter((log + items)[from..], series) == Filter(log[from..], series) + Filter(items, series)
  {
    assert (log + items)[from..] == log[from..] + items;
    FilterConcat(log[from..], items, series);
  }

  lemma {:induction false} PartsAreFilter(views: seq<Chunk>, boundary: int, series: Series)
    requires AllValid(views) && -1 <= boundary && |views| > 0
    ensures FirstAfter(views[0], boundary) <= |Log(views)|
    ensures Parts(views, boundary, series, |views|) == Filter(Log(views)[FirstAfter(views[0], boundary)..], series)
  {
    hide ValidChunk;
    hide Items;
    hide Filter;
    hide PartAfter;
    hide FirstAfter;
    var last := |views| - 1;
    if last == 0 {
      assert views == [views[0]];
      LogOne(views[0]);
      PartIsFilter(views[0], boundary, series);
      assert Parts(views, boundary, series, 0) == [];
    } else {
      var rest := views[..last];
      PartsAreFilter(rest, boundary, series);
      PartsArePrefix(views, rest, boundary, series, last);
      PartIsFilter(views[last], boundary, series);
      FilterOneMore(Log(rest), Items(views[last]), FirstAfter(views[0], boundary), series);
    }
  }

  lemma {:induction false} PartsArePrefix(views: seq<Chunk>, rest: seq<Chunk>, boundary: int, series: Series, k: nat)
    requires AllValid(views) && AllValid(rest) && -1 <= boundary && k <= |rest| <= |views| && rest == views[..|rest|]
    ensures Parts(views, boundary, series, k) == Parts(rest, boundary, series, k)
  {
    hide ValidChunk;
    hide PartAfter;
    if k > 0 {
      PartsArePrefix(views, rest, boundary, series, k - 1);
    }
  }

  lemma FoundSoFar(views: seq<Chunk>, boundary: int, series: Series, i: nat, rest: seq<Item>, found: seq<Item>, all: seq<Item>)
    requires AllValid(views) && -1 <= boundary && i < |views|
    requires found == PartAfter(views[i], StopAt(i, boundary), series) + rest
    requires Parts(views, boundary, series, i + 1) + rest == all
    ensures Parts(views, boundary, series, i) + found == all
    ensures |Parts(views, boundary, series, i)| == |Parts(views, boundary, series, i + 1)| - |PartAfter(views[i], StopAt(i, boundary), series)|
  {
    hide PartAfter;
    hide ValidChunk;
  }

  /** SeriesSince and BusEventsSince after their snapshot: count by chains and stored counts, then fill backwards. */
  method Collect(views: seq<Chunk>, series: Series, boundary: int) returns (found: seq<Item>)
    requires |views| > 0 && AllValid(views) && -1 <= boundary
    ensures found == Parts(views, boundary, series, |views|)
  {
    hide ValidChunk;
    hide PartAfter;
    var total := 0;
    for i := 0 to |views|
      invariant total == |Parts(views, boundary, series, i)|
    {
      var state := StateOf(views[i], series);
      if state.count == 0 {
        UnusedSeries(views[i], series, StopAt(i, boundary));
      } else if i == 0 && boundary >= 0 {
        var n := CountChain(views[i], state, series, boundary);
        total := total + n;
      } else {
        WholePart(views[i], series);
        total := total + state.count;
      }
    }
    if total == 0 {
      return [];
    }
    var frames := new Item[total];
    var remaining := total;
    ghost var all := Parts(views, boundary, series, |views|);
    assert frames[remaining..] == [];
    for i := |views| downto 0
      invariant remaining == |Parts(views, boundary, series, i)| <= frames.Length
      invariant Parts(views, boundary, series, i) + frames[remaining..] == all
    {
      var state := StateOf(views[i], series);
      ghost var rest := frames[remaining..];
      if state.count == 0 {
        UnusedSeries(views[i], series, StopAt(i, boundary));
        assert frames[remaining..] == [] + rest;
      } else {
        var stop := StopAt(i, boundary);
        assert |PartAfter(views[i], stop, series)| <= remaining;
        remaining := FillChain(views[i], state, series, stop, frames, remaining);
      }
      FoundSoFar(views, boundary, series, i, rest, frames[remaining..], all);
    }
    assert frames[0..] == frames[..];
    assert Parts(views, boundary, series, 0) + frames[0..] == frames[..];
    found := frames[..];
  }

  // ---- Range reads -----------------------------------------------------------------------

  /** The conditions under which viewsBetween accepts a range. */
  function RangePlaces(s: Store, start: Cursor, end: Cursor): bool
    requires |s.chunks| > 0
  {
    && Locate(s, end).Ok? && Locate(s, start).Ok?
    && var (last, endRecord) := Locate(s, end).value;
    var (first, startRecord) := Locate(s, start).value;
    && (first < last || (first == last && startRecord <= endRecord))
    && (start == end || endRecord + 1 <= |s.chunks[last].records|)
  }

  /** The filter of the log in the interval (start, end]. */
  ghost function SeriesWithin(s: Store, start: Cursor, end: Cursor, series: Series): seq<Item>
    requires ValidStore(s) && RangePlaces(s, start, end)
  {
    RangeIsOrdered(s, start, end);
    Filter(Log(s.chunks)[Behind(s, start)..Behind(s, end)], series)
  }

  lemma RangeIsOrdered(s: Store, start: Cursor, end: Cursor)
    requires ValidStore(s) && RangePlaces(s, start, end)
    ensures Behind(s, start) <= Behind(s, end) <= |Log(s.chunks)|
  {
    hide ValidChunk;
    hide Count;
    hide Log;
    var (last, endRecord) := Locate(s, end).value;
    var (first, startRecord) := Locate(s, start).value;
    PositionMonotone(s.chunks, first, startRecord, last, endRecord);
    PositionWithin(s.chunks, last, endRecord);
    LogLength(s.chunks);
  }

  // The log up to and including the first `limit` records of chunk k.
  ghost function UpTo(chunks: seq<Chunk>, k: nat, limit: nat): seq<Item>
    requires AllValid(chunks) && k < |chunks| && limit <= |chunks[k].records|
  {
    Log(chunks[..k]) + Items(chunks[k])[..limit]
  }

  lemma ValidIsReadable(c: Chunk)
    requires ValidChunk(c)
    ensures AllReadable(c)
  {
  }

  lemma {:induction false} UpToIsPrefix(chunks: seq<Chunk>, k: nat, limit: nat)
    requires AllValid(chunks) && k < |chunks| && limit <= |chunks[k].records|
    ensures UpTo(chunks, k, limit) <= Log(chunks)
    ensures |UpTo(chunks, k, limit)| == Position(chunks, k, limit - 1)
  {
    ValidIsReadable(chunks[k]);
    hide ValidChunk;
    hide Items;
    LogLength(chunks[..k]);
    LogSplit(chunks, k + 1);
    assert chunks[..k + 1][..k] == chunks[..k];
    assert Log(chunks[..k + 1]) == Log(chunks[..k]) + Items(chunks[k]);
    hide Log;
    assert UpTo(chunks, k, limit) <= Log(chunks[..k + 1]);
  }

  lemma NextChunk(chunks: seq<Chunk>, k: nat)
    requires AllValid(chunks) && k + 1 < |chunks|
    ensures UpTo(chunks, k + 1, 0) == UpTo(chunks, k, |chunks[k].records|)
  {
    ValidIsReadable(chunks[k]);
    ValidIsReadable(chunks[k + 1]);
    hide ValidChunk;
    hide Items;
    assert chunks[..k + 1][..k] == chunks[..k];
    assert Items(chunks[k])[..|chunks[k].records|] == Items(chunks[k]);
    assert Items(chunks[k + 1])[..0] == [];
  }

  lemma {:induction false} NextRecord(chunks: seq<Chunk>, k: nat, record: nat, from: nat, series: Series)
    requires AllValid(chunks) && k < |chunks| && record < |chunks[k].records|
    requires from <= |UpTo(chunks, k, record)|
    ensures Readable(chunks[k], record)
    ensures var item := ItemAt(chunks[k], record);
      && RecordSeries(chunks[k], record) == SeriesOf(item)
      && UpTo(chunks, k, record + 1) == UpTo(chunks, k, record) + [item]
      && Filter(UpTo(chunks, k, record + 1)[from..], series) ==
         Filter(UpTo(chunks, k, record)[from..], series) + if SeriesOf(item) == series then [item] else []
  {
    hide KeysIndexed;
    hide Log;
    hide RecordSeries;
    assert LinkedBack(chunks[k], record);
    var item := ItemAt(chunks[k], record);
    var items := Items(chunks[k]);
    assert items[..record + 1] == items[..record] + [item];
    assert UpTo(chunks, k, record + 1)[from..] == UpTo(chunks, k, record)[from..] + [item];
    FilterAppend(UpTo(chunks, k, record)[from..], item, series);
  }

  /** The scan of one view, records `record` up to `limit`. */
  method ScanView(ghost chunks: seq<Chunk>, view: Chunk, ghost k: nat, first: nat, limit: nat, ghost from: nat,
                  series: Series, before: seq<Item>)
    returns (frames: seq<Item>)
    requires AllValid(chunks) && k < |chunks| && view == chunks[k] && first <= limit <= |view.records|
    requires from <= |UpTo(chunks, k, first)| && before == Filter(UpTo(chunks, k, first)[from..], series)
    ensures from <= |UpTo(chunks, k, limit)| && frames == Filter(UpTo(chunks, k, limit)[from..], series)
  {
    hide ValidChunk;
    hide ItemAt;
    hide RecordSeries;
    hide Filter;
    hide UpTo;
    frames := before;
    for record := first to limit
      invariant from <= |UpTo(chunks, k, record)| && frames == Filter(UpTo(chunks, k, record)[from..], series)
    {
      NextRecord(chunks, k, record, from, series);
      if RecordSeries(view, record) == series {
        frames := frames + [ItemAt(view, record)];
      }
    }
  }

  /** SeriesBetween and BusEventsBetween: the simple form, a linear scan of the interval. */
  method ScanRange(s: Store, series: Series, start: Cursor, end: Cursor) returns (r: Result<seq<Item>, Error>)
    requires ValidStore(s)
    ensures r.Ok? <==> RangePlaces(s, start, end)
    ensures r.Ok? ==> r.value == SeriesWithin(s, start, end, series)
  {
    hide ValidChunk;
    hide Filter;
    hide UpTo;
    hide Log;
    var placedEnd :- Locate(s, end);
    var placedStart :- Locate(s, start);
    var (last, endRecord) := placedEnd;
    var (first, startRecord) := placedStart;
    if first > last || (first == last && startRecord > endRecord) {
      return Err(CursorOutOfRange);
    }
    if start == end {
      EmptyRange(s, start, series);
      return Ok([]);
    }
    if endRecord + 1 > |s.chunks[last].records| {
      return Err(CursorOutOfRange);
    }
    ghost var from := Behind(s, start);
    var skip := FirstAfter(s.chunks[first], startRecord);
    StartScan(s, start, end, series);
    var frames: seq<Item> := [];
    for k := first to last
      invariant k == first ==> from <= |UpTo(s.chunks, k, skip)| && frames == Filter(UpTo(s.chunks, k, skip)[from..], series)
      invariant k > first ==> from <= |UpTo(s.chunks, k, 0)| && frames == Filter(UpTo(s.chunks, k, 0)[from..], series)
    {
      frames := ScanView(s.chunks, s.chunks[k], k, if k == first then skip else 0, |s.chunks[k].records|, from, series, frames);
      NextChunk(s.chunks, k);
    }
    frames := ScanView(s.chunks, s.chunks[last], last, if last == first then skip else 0, endRecord + 1, from, series, frames);
    EndScan(s, start, end, series);
    r := Ok(frames);
  }

  lemma EmptyRange(s: Store, start: Cursor, series: Series)
    requires ValidStore(s) && Locate(s, start).Ok?
    ensures RangePlaces(s, start, start) && SeriesWithin(s, start, start, series) == []
  {
    hide ValidChunk;
    RangeIsOrdered(s, start, start);
    assert Log(s.chunks)[Behind(s, start)..Behind(s, start)] == [];
  }

  lemma StartScan(s: Store, start: Cursor, end: Cursor, series: Series)
    requires ValidStore(s) && RangePlaces(s, start, end) && start != end
    ensures var (first, startRecord) := Locate(s, start).value;
      var skip := FirstAfter(s.chunks[first], startRecord);
      && |UpTo(s.chunks, first, skip)| == Behind(s, start)
      && Filter(UpTo(s.chunks, first, skip)[Behind(s, start)..], series) == []
      && (first == Locate(s, end).value.0 ==> skip <= Locate(s, end).value.1 + 1)
  {
    hide ValidChunk;
    hide UpTo;
    hide Log;
    hide Count;
    var (first, startRecord) := Locate(s, start).value;
    UpToIsPrefix(s.chunks, first, FirstAfter(s.chunks[first], startRecord));
  }

  lemma {:induction false} EndScan(s: Store, start: Cursor, end: Cursor, series: Series)
    requires ValidStore(s) && RangePlaces(s, start, end) && start != end
    ensures var (last, endRecord) := Locate(s, end).value;
      && Behind(s, start) <= |UpTo(s.chunks, last, endRecord + 1)|
      && Filter(UpTo(s.chunks, last, endRecord + 1)[Behind(s, start)..], series) == SeriesWithin(s, start, end, series)
  {
    hide ValidChunk;
    hide UpTo;
    hide Log;
    hide Count;
    hide Filter;
    var (last, endRecord) := Locate(s, end).value;
    UpToIsPrefix(s.chunks, last, endRecord + 1);
    RangeIsOrdered(s, start, end);
    assert UpTo(s.chunks, last, endRecord + 1)[Behind(s, start)..] == Log(s.chunks)[Behind(s, start)..Behind(s, end)];
  }

  // ---- The indexed form refines the simple one -------------------------------------------

  /** What the chain walk collects is the filter of the log after the cursor. */
  lemma {:induction false} CollectedIsSeriesAfter(s: Store, cursor: Cursor, series: Series)
    requires ValidStore(s) && Locate(s, cursor).Ok?
    ensures var (start, boundary) := Locate(s, cursor).value;
      AllValid(s.chunks[start..]) && Parts(s.chunks[start..], boundary, series, |s.chunks| - start) == SeriesAfter(s, cursor, series)
  {
    hide ValidChunk;
    hide Log;
    hide Count;
    hide Filter;
    hide Parts;
    var (start, boundary) := Locate(s, cursor).value;
    PartsAreFilter(s.chunks[start..], boundary, series);
    LogSplit(s.chunks, start);
    LogLength(s.chunks[..start]);
    assert Log(s.chunks)[Behind(s, cursor)..] == Log(s.chunks[start..])[FirstAfter(s.chunks[start], boundary)..];
  }

  lemma LastCursorStands(s: Store)
    requires ValidStore(s) && |ActiveChunk(s).records| > 0
    ensures var last := Cursor(s.generation, ActiveChunk(s).sequence, |ActiveChunk(s).records| - 1);
      Locate(s, last).Ok? && Behind(s, last) == s.length
  {
    hide ValidChunk;
    hide Count;
    var n := |s.chunks|;
    CountNext(s.chunks, n - 1);
    assert s.chunks[..n] == s.chunks;
  }

  lemma EmptyStands(s: Store, cursor: Cursor)
    requires ValidStore(s) && Locate(s, cursor).Ok? && |ActiveChunk(s).records| == 0
    ensures |s.chunks| == 1 && Behind(s, cursor) == s.length
  {
    hide ValidChunk;
    hide Count;
    CountNext(s.chunks, 0);
    assert s.chunks[..1] == s.chunks;
  }

  lemma {:induction false} NewestOf(cursor: Cursor, generation: nat, chunks: seq<Chunk>)
    requires |chunks| > 0
    ensures var last := chunks[|chunks| - 1];
      && (|last.records| > 0 ==> NewestCursor(cursor, generation, chunks) == Cursor(generation, last.sequence, |last.records| - 1))
      && (|last.records| == 0 && |chunks| == 1 ==> NewestCursor(cursor, generation, chunks) == cursor)
  {
  }

  /** The cursor a Since read returns stands behind everything retained, so the next read misses nothing. */
  lemma {:induction false} NewestStandsAtEnd(s: Store, cursor: Cursor)
    requires ValidStore(s) && Locate(s, cursor).Ok?
    ensures var next := NewestCursor(cursor, s.generation, s.chunks[Locate(s, cursor).value.0..]);
      Locate(s, next).Ok? && Behind(s, next) == s.length
  {
    hide ValidStore;
    hide NewestCursor;
    hide Position;
    NewestOf(cursor, s.generation, s.chunks[Locate(s, cursor).value.0..]);
    if |ActiveChunk(s).records| > 0 {
      LastCursorStands(s);
    } else {
      EmptyStands(s, cursor);
    }
  }

  /**
   * SeriesSince through the links agrees with the linear SeriesBetween up to End for every cursor that names a
   * record the store holds, and these are all a capture hands out.
   */
  lemma SinceIsBetween(s: Store, cursor: Cursor, series: Series)
    requires ValidStore(s) && Locate(s, cursor).Ok?
    ensures RangePlaces(s, cursor, End(s)) <==>
      var (chunk, boundary) := Locate(s, cursor).value; chunk < |s.chunks| - 1 || boundary < |s.chunks[chunk].records|
    ensures RangePlaces(s, cursor, End(s)) ==> SeriesWithin(s, cursor, End(s), series) == SeriesAfter(s, cursor, series)
  {
    hide ValidChunk;
    hide Count;
    hide Log;
    hide Filter;
    EndIsBehindAll(s);
    LogLength(s.chunks);
    EndPlacement(s);
    if RangePlaces(s, cursor, End(s)) {
      RangeIsOrdered(s, cursor, End(s));
      assert Log(s.chunks)[Behind(s, cursor)..Behind(s, End(s))] == Log(s.chunks)[Behind(s, cursor)..];
    }
  }

  lemma EndPlacement(s: Store)
    requires ValidStore(s)
    ensures Locate(s, End(s)) == Ok((|s.chunks| - 1, |s.chunks[|s.chunks| - 1].records| - 1))
  {
    hide ValidChunk;
    hide Count;
    var n := |s.chunks|;
    if |s.chunks[n - 1].records| == 0 {
      assert n == 1;
      assert NewestCursor(ZERO_CURSOR, s.generation, s.chunks[..0]) == ZERO_CURSOR;
    }
  }

  method Newest(cursor: Cursor, generation: nat, views: seq<Chunk>) returns (newest: Cursor)
    ensures newest == NewestCursor(cursor, generation, views)
  {
    assert views[..|views|] == views;
    for i := |views| downto 0
      invariant NewestCursor(cursor, generation, views) == NewestCursor(cursor, generation, views[..i])
    {
      assert views[..i + 1][..i] == views[..i];
      if |views[i].records| > 0 {
        return Cursor(generation, views[i].sequence, |views[i].records| - 1);
      }
    }
    newest := cursor;
  }

  /** SeriesSince and BusEventsSince on a snapshot. */
  method ReadSince(s: Store, series: Series, cursor: Cursor) returns (r: Result<(seq<Item>, Cursor), Error>)
    requires ValidStore(s)
    ensures r.Ok? <==> Locate(s, cursor).Ok?
    ensures r.Ok? ==> r.value.0 == SeriesAfter(s, cursor, series)
    ensures r.Ok? ==> Locate(s, r.value.1).Ok? && Behind(s, r.value.1) == s.length
  {
    hide ValidChunk;
    hide Log;
    hide Count;
    hide Position;
    hide SeriesAfter;
    hide Parts;
    var placed :- Locate(s, cursor);
    var (start, boundary) := placed;
    var views := s.chunks[start..];
    CollectedIsSeriesAfter(s, cursor, series);
    NewestStandsAtEnd(s, cursor);
    var next := Newest(cursor, s.generation, views);
    var frames := Collect(views, series, boundary);
    r := Ok((frames, next));
  }
}

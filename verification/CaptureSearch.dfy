/** The search of Next over its snapshot (capture.go): the first matching frame after a cursor, by chains. */
module CaptureSearch {
  import opened Wrappers
  import opened Frames
  import opened CaptureChunk
  import opened CaptureStore
  import opened CaptureReads

  /** `next` names the first frame of the key behind the cursor, and `event` is that frame. */
  ghost predicate IsFirstAfter(s: Store, cursor: Cursor, key: FrameKey, event: FrameEvent, next: Cursor)
    requires ValidStore(s) && Locate(s, cursor).Ok?
  {
    && NamesRecord(s, next)
    && Locate(s, next).Ok? && Behind(s, cursor) < Behind(s, next) <= |Log(s.chunks)|
    && Log(s.chunks)[Behind(s, next) - 1] == FrameItem(event)
    && Filter(Log(s.chunks)[Behind(s, cursor)..Behind(s, next)], FrameSeries(key)) == [FrameItem(event)]
  }

  method FirstInChain(view: Chunk, state: EventState, series: Series, stop: int) returns (first: nat)
    requires ValidChunk(view) && state == StateOf(view, series) && state.count > 0 && -1 <= stop
    ensures first == NO_RECORD ==> PartAfter(view, stop, series) == []
    ensures first != NO_RECORD ==>
      && FirstAfter(view, stop) <= first < |view.records| && Readable(view, first)
      && SeriesOf(ItemAt(view, first)) == series && Remaining(view, stop, series, first) == []
  {
    hide ValidChunk;
    hide Walking;
    hide Remaining;
    hide PartAfter;
    hide ItemAt;
    hide Readable;
    StartWalk(view, series, stop);
    var r: nat := state.lastRecord;
    ghost var upTo: nat := |view.records|;
    first := NO_RECORD;
    while r != NO_RECORD && r > stop
      invariant FirstAfter(view, stop) <= upTo <= |view.records| && Walking(view, series, r, upTo)
      invariant first == NO_RECORD ==> Remaining(view, stop, series, upTo) == PartAfter(view, stop, series)
      invariant first != NO_RECORD ==>
        first == upTo < |view.records| && Readable(view, first) && SeriesOf(ItemAt(view, first)) == series
      decreases upTo
    {
      WalkOn(view, series, stop, r, upTo);
      upTo := r;
      first := r;
      r := view.records[r].previous;
    }
    WalkEnds(view, series, stop, r, upTo);
  }

  // The search has passed everything before record `limit` of chunk k without a match.
  ghost predicate Passed(s: Store, cursor: Cursor, series: Series, k: nat, limit: nat)
    requires ValidStore(s) && Locate(s, cursor).Ok? && k < |s.chunks| && limit <= |s.chunks[k].records|
  {
    Behind(s, cursor) <= |UpTo(s.chunks, k, limit)| && Filter(UpTo(s.chunks, k, limit)[Behind(s, cursor)..], series) == []
  }

  lemma StartPassed(s: Store, cursor: Cursor, series: Series)
    requires ValidStore(s) && Locate(s, cursor).Ok?
    ensures var (start, boundary) := Locate(s, cursor).value;
      Passed(s, cursor, series, start, FirstAfter(s.chunks[start], boundary))
  {
    hide ValidChunk;
    hide UpTo;
    hide Count;
    hide Log;
    var (start, boundary) := Locate(s, cursor).value;
    UpToIsPrefix(s.chunks, start, FirstAfter(s.chunks[start], boundary));
  }

  lemma {:induction false} PassOn(s: Store, cursor: Cursor, series: Series, k: nat, from: nat, limit: nat)
    requires ValidStore(s) && Locate(s, cursor).Ok? && k < |s.chunks| && from <= limit <= |s.chunks[k].records|
    requires AllReadable(s.chunks[k]) && Filter(Items(s.chunks[k])[from..limit], series) == []
    requires Passed(s, cursor, series, k, from)
    ensures Passed(s, cursor, series, k, limit)
  {
    hide ValidChunk;
    hide Items;
    hide Filter;
    hide Log;
    hide Behind;
    var items := Items(s.chunks[k]);
    assert items[..limit] == items[..from] + items[from..limit];
    assert UpTo(s.chunks, k, limit) == UpTo(s.chunks, k, from) + items[from..limit];
    FilterOneMore(UpTo(s.chunks, k, from), items[from..limit], Behind(s, cursor), series);
  }

  lemma PassChunk(s: Store, cursor: Cursor, series: Series, k: nat, stop: int)
    requires ValidStore(s) && Locate(s, cursor).Ok? && k < |s.chunks| && -1 <= stop
    requires PartAfter(s.chunks[k], stop, series) == []
    requires Passed(s, cursor, series, k, FirstAfter(s.chunks[k], stop))
    ensures Passed(s, cursor, series, k, |s.chunks[k].records|)
    ensures k + 1 < |s.chunks| ==> Passed(s, cursor, series, k + 1, 0)
  {
    ValidIsReadable(s.chunks[k]);
    hide ValidChunk;
    hide Passed;
    var from := FirstAfter(s.chunks[k], stop);
    assert Items(s.chunks[k])[from..|s.chunks[k].records|] == Items(s.chunks[k])[from..];
    PassOn(s, cursor, series, k, from, |s.chunks[k].records|);
    if k + 1 < |s.chunks| {
      PassBoundary(s, cursor, series, k);
    }
  }

  lemma PassBoundary(s: Store, cursor: Cursor, series: Series, k: nat)
    requires ValidStore(s) && Locate(s, cursor).Ok? && k + 1 < |s.chunks|
    requires Passed(s, cursor, series, k, |s.chunks[k].records|)
    ensures Passed(s, cursor, series, k + 1, 0)
  {
    hide UpTo;
    hide ValidChunk;
    hide Filter;
    hide Behind;
    NextChunk(s.chunks, k);
  }

  lemma PassedAll(s: Store, cursor: Cursor, series: Series)
    requires ValidStore(s) && Locate(s, cursor).Ok?
    requires var k := |s.chunks| - 1; Passed(s, cursor, series, k, |s.chunks[k].records|)
    ensures SeriesAfter(s, cursor, series) == []
  {
    hide ValidChunk;
    hide UpTo;
    hide Count;
    hide Log;
    hide Filter;
    var k := |s.chunks| - 1;
    UpToIsPrefix(s.chunks, k, |s.chunks[k].records|);
    LogLength(s.chunks);
    CountNext(s.chunks, k);
    assert s.chunks[..k + 1] == s.chunks;
    assert UpTo(s.chunks, k, |s.chunks[k].records|) == Log(s.chunks);
  }

  lemma FoundFirst(s: Store, cursor: Cursor, key: FrameKey, k: nat, first: nat)
    requires ValidStore(s) && Locate(s, cursor).Ok? && k < |s.chunks| && first < |s.chunks[k].records|
    requires Readable(s.chunks[k], first) && SeriesOf(ItemAt(s.chunks[k], first)) == FrameSeries(key)
    requires Passed(s, cursor, FrameSeries(key), k, first)
    ensures ItemAt(s.chunks[k], first).FrameItem?
    ensures IsFirstAfter(s, cursor, key, ItemAt(s.chunks[k], first).frame, Cursor(s.generation, s.chunks[k].sequence, first))
  {
    hide ValidChunk;
    hide UpTo;
    hide Count;
    hide Log;
    hide Filter;
    hide ItemAt;
    hide Readable;
    var next := Cursor(s.generation, s.chunks[k].sequence, first);
    UpToIsPrefix(s.chunks, k, first + 1);
    NextRecord(s.chunks, k, first, Behind(s, cursor), FrameSeries(key));
    var prefix := UpTo(s.chunks, k, first + 1);
    assert Locate(s, next) == Ok((k, first));
    assert Behind(s, next) == |prefix|;
    assert Log(s.chunks)[Behind(s, cursor)..Behind(s, next)] == prefix[Behind(s, cursor)..];
  }

  lemma FirstMeansSome(s: Store, cursor: Cursor, key: FrameKey, event: FrameEvent, next: Cursor)
    requires ValidStore(s) && Locate(s, cursor).Ok? && IsFirstAfter(s, cursor, key, event, next)
    ensures SeriesAfter(s, cursor, FrameSeries(key)) != [] && SeriesAfter(s, cursor, FrameSeries(key))[0] == FrameItem(event)
  {
    hide ValidChunk;
    hide Filter;
    hide Behind;
    var (log, from, to) := (Log(s.chunks), Behind(s, cursor), Behind(s, next));
    assert log[from..] == log[from..to] + log[to..];
    FilterConcat(log[from..to], log[to..], FrameSeries(key));
  }

  /** nextSearch.find on the snapshot taken at registration. */
  method Find(s: Store, key: FrameKey, cursor: Cursor) returns (r: Option<(FrameEvent, Cursor)>)
    requires ValidStore(s) && Locate(s, cursor).Ok?
    ensures r.None? <==> SeriesAfter(s, cursor, FrameSeries(key)) == []
    ensures r.Some? ==> IsFirstAfter(s, cursor, key, r.value.0, r.value.1)
  {
    hide ValidChunk;
    hide Passed;
    hide SeriesAfter;
    hide IsFirstAfter;
    hide PartAfter;
    hide Remaining;
    hide ItemAt;
    hide Readable;
    var placed := Locate(s, cursor).value;
    var (start, boundary) := placed;
    StartPassed(s, cursor, FrameSeries(key));
    for k := start to |s.chunks|
      invariant k < |s.chunks| ==>
        Passed(s, cursor, FrameSeries(key), k, FirstAfter(s.chunks[k], if k == start then boundary else -1))
      invariant k == |s.chunks| ==> Passed(s, cursor, FrameSeries(key), k - 1, |s.chunks[k - 1].records|)
    {
      var view := s.chunks[k];
      var state := StateOf(view, FrameSeries(key));
      var stop := if k == start then boundary else -1;
      if state.count == 0 {
        UnusedSeries(view, FrameSeries(key), stop);
      } else {
        var first := FirstInChain(view, state, FrameSeries(key), stop);
        if first != NO_RECORD {
          PassTo(s, cursor, FrameSeries(key), k, stop, first);
          FoundFirst(s, cursor, key, k, first);
          var next := Cursor(s.generation, view.sequence, first);
          FirstMeansSome(s, cursor, key, ItemAt(view, first).frame, next);
          return Some((ItemAt(view, first).frame, next));
        }
      }
      PassChunk(s, cursor, FrameSeries(key), k, stop);
    }
    PassedAll(s, cursor, FrameSeries(key));
    r := None;
  }

  lemma PassTo(s: Store, cursor: Cursor, series: Series, k: nat, stop: int, first: nat)
    requires ValidStore(s) && Locate(s, cursor).Ok? && k < |s.chunks| && -1 <= stop
    requires FirstAfter(s.chunks[k], stop) <= first <= |s.chunks[k].records|
    requires Remaining(s.chunks[k], stop, series, first) == [] && Passed(s, cursor, series, k, FirstAfter(s.chunks[k], stop))
    ensures Passed(s, cursor, series, k, first)
  {
    ValidIsReadable(s.chunks[k]);
    hide ValidChunk;
    hide Passed;
    PassOn(s, cursor, series, k, FirstAfter(s.chunks[k], stop), first);
  }
}

/**
 * Reads on whole runs of a capture: with the cursors a capture hands out, the linear range reads and the
 * reads through the links agree, and both return exactly what was appended in between.
 */
module CaptureRanges {
  import opened Wrappers
  import opened CaptureChunk
  import opened CaptureStore
  import opened CaptureHistory
  import opened CaptureReads
  import opened CaptureCursors

  /** The cursor a caller may hold: the zero cursor, or one issued since the last Clear; it stands behind `behind` appended items. */
  ghost predicate Stands(h: History, cursor: Cursor, behind: nat) {
    if cursor == ZERO_CURSOR then behind == h.base else cursor in h.issued && h.issued[cursor] == behind
  }

  lemma StandsLocates(h: History, cursor: Cursor, behind: nat)
    requires Inv(h) && Stands(h, cursor, behind)
    ensures behind <= |h.all|
    ensures Locate(h.store, cursor).Ok? <==> behind >= h.base
    ensures Locate(h.store, cursor).Ok? ==>
      && Behind(h.store, cursor) == behind - h.base
      && var (chunk, boundary) := Locate(h.store, cursor).value;
      && boundary < |h.store.chunks[chunk].records|
      && (chunk > 0 ==> boundary >= 0)
  {
    hide ValidChunk;
    hide Count;
    hide Log;
    if cursor == ZERO_CURSOR {
      ZeroLocates(h.store);
    } else {
      PlacedLocates(h, cursor);
      assert Placed(h, cursor, behind);
    }
  }

  // Of two held places the earlier one comes first.
  lemma PlacesAreOrdered(chunks: seq<Chunk>, first: nat, startRecord: int, last: nat, endRecord: int)
    requires first < |chunks| && last < |chunks| && -1 <= startRecord < |chunks[first].records| && -1 <= endRecord < |chunks[last].records|
    requires (first > 0 ==> startRecord >= 0) && (last > 0 ==> endRecord >= 0)
    ensures Position(chunks, first, startRecord) <= Position(chunks, last, endRecord) <==>
      first < last || (first == last && startRecord <= endRecord)
  {
    hide Count;
    if first < last {
      PositionMonotone(chunks, first, startRecord, last, endRecord);
    } else if last < first {
      CountNext(chunks, last);
      CountMonotone(chunks, last + 1, first);
    }
  }

  lemma RangeIsHeld(h: History, start: Cursor, end: Cursor, before: nat, behind: nat)
    requires Inv(h) && Stands(h, start, before) && Stands(h, end, behind)
    ensures RangePlaces(h.store, start, end) <==> h.base <= before <= behind
  {
    hide ValidChunk;
    hide Log;
    hide Position;
    StandsLocates(h, start, before);
    StandsLocates(h, end, behind);
    if h.base <= before && h.base <= behind {
      var (first, startRecord) := Locate(h.store, start).value;
      var (last, endRecord) := Locate(h.store, end).value;
      PlacesAreOrdered(h.store.chunks, first, startRecord, last, endRecord);
    }
  }

  lemma TailOfTail<T>(all: seq<T>, base: nat, from: nat, to: nat)
    requires base <= from <= to <= |all|
    ensures all[base..][from - base..to - base] == all[from..to]
    ensures all[base..][from - base..] == all[from..]
  {
  }

  /**
   * On every run, with two cursors the capture has handed out: a range read fails exactly when it runs
   * backwards or a record behind its start has been discarded, and otherwise it returns, in order, exactly
   * the items of the series that were appended between the two.
   */
  lemma RangeReadsAreExact(run: seq<History>, start: Cursor, end: Cursor, before: nat, behind: nat, series: Series)
    requires Run(run)
    requires Stands(run[|run| - 1], start, before) && Stands(run[|run| - 1], end, behind)
    ensures var h := run[|run| - 1];
      && ValidStore(h.store) && behind <= |h.all|
      && (RangePlaces(h.store, start, end) <==> h.base <= before <= behind)
      && (RangePlaces(h.store, start, end) ==> SeriesWithin(h.store, start, end, series) == Filter(h.all[before..behind], series))
  {
    hide ValidChunk;
    hide Log;
    hide Filter;
    hide RangePlaces;
    var h := run[|run| - 1];
    RunKeeps(run, |run| - 1);
    StandsLocates(h, start, before);
    StandsLocates(h, end, behind);
    RangeIsHeld(h, start, end, before, behind);
    if RangePlaces(h.store, start, end) {
      TailOfTail(h.all, h.base, before, behind);
    }
  }

  /**
   * On every run, with any cursor the capture has handed out: the read through the links fails exactly when a
   * record behind the cursor has been discarded; otherwise the linear read up to End accepts the cursor too,
   * and both return exactly the items of the series that were appended since.
   */
  lemma SinceReadsAreExact(run: seq<History>, cursor: Cursor, behind: nat, series: Series)
    requires Run(run) && Stands(run[|run| - 1], cursor, behind)
    ensures var h := run[|run| - 1];
      && ValidStore(h.store) && behind <= |h.all|
      && (Locate(h.store, cursor).Ok? <==> h.base <= behind)
      && (Locate(h.store, cursor).Ok? ==>
            && RangePlaces(h.store, cursor, End(h.store))
            && SeriesWithin(h.store, cursor, End(h.store), series) == SeriesAfter(h.store, cursor, series)
            && SeriesAfter(h.store, cursor, series) == Filter(h.all[behind..], series))
  {
    hide ValidChunk;
    hide Log;
    hide Filter;
    hide RangePlaces;
    hide End;
    var h := run[|run| - 1];
    RunKeeps(run, |run| - 1);
    StandsLocates(h, cursor, behind);
    if Locate(h.store, cursor).Ok? {
      SinceIsBetween(h.store, cursor, series);
      TailOfTail(h.all, h.base, behind, |h.all|);
    }
  }

  lemma StandsIsHeld(h: History, cursor: Cursor, behind: nat)
    requires Inv(h) && Stands(h, cursor, behind) && behind >= h.base
    ensures Held(h.store, cursor)
  {
    hide ValidChunk;
    hide Position;
    assert cursor != ZERO_CURSOR ==> Placed(h, cursor, behind);
  }

  /** Some cursor has records of the first retained chunk still before it. */
  ghost predicate StillNeeded(k: History, places: seq<nat>)
    requires |k.store.chunks| > 0
  {
    exists i :: 0 <= i < |places| && places[i] - k.base < |k.store.chunks[0].records|
  }

  /**
   * On every run, a prune with cursors the capture has handed out changes nothing if a record behind one of them
   * has been discarded before. Otherwise it discards nothing behind any of them, and keeps no more than the active
   * chunk and the chunks from the first one on that some cursor still needs.
   */
  lemma PruneIsExact(run: seq<History>, k: History, cursors: seq<Cursor>, places: seq<nat>)
    requires Run(run) && |places| == |cursors| > 0 && CaptureHistory.Prunes(run[|run| - 1], k, cursors)
    requires forall i :: 0 <= i < |cursors| ==> Stands(run[|run| - 1], cursors[i], places[i])
    ensures var h := run[|run| - 1];
      if exists i :: 0 <= i < |places| && places[i] < h.base then k == h
      else
        && k.all == h.all && k.issued == h.issued && h.base <= k.base
        && (forall i :: 0 <= i < |places| ==> k.base <= places[i])
        && |k.store.chunks| > 0 && ActiveChunk(k.store) == ActiveChunk(h.store)
        && (|k.store.chunks| == 1 || StillNeeded(k, places))
  {
    hide ValidChunk;
    hide Log;
    hide Position;
    hide Pruned;
    hide LocateCursor;
    var h := run[|run| - 1];
    RunKeeps(run, |run| - 1);
    forall i | 0 <= i < |cursors|
      ensures Locate(h.store, cursors[i]).Ok? <==> places[i] >= h.base
      ensures places[i] >= h.base ==> Held(h.store, cursors[i]) && Behind(h.store, cursors[i]) == places[i] - h.base
    {
      StandsLocates(h, cursors[i], places[i]);
      if places[i] >= h.base {
        StandsIsHeld(h, cursors[i], places[i]);
      }
    }
    hide Inv;
    hide Stands;
    PruneIsSafe(h.store, cursors);
    if forall i :: 0 <= i < |places| ==> places[i] >= h.base {
      PruneIsMaximal(h.store, cursors);
    }
  }
}

/**
 * A recorder beside a running capture (recorder/recorder.go): passes with any failures, between appends,
 * prunes and clears. What has been written is exactly the log from where recording started up to the
 * accepted cursor, and what has been delivered is the same up to the flushed cursor.
 */
module CaptureRecorder {
  import opened Wrappers
  import opened CaptureChunk
  import opened CaptureStore
  import opened CaptureHistory
  import opened CaptureCursors
  import opened CaptureExport

  datatype Phase = Recording | Stopping | Closed

  // `start` is the number of items of the log that recording left out; it is fixed by the first pass
  // when recording starts at the zero cursor.
  datatype State = State(h: History, progress: Progress, start: nat, phase: Phase)

  ghost predicate Starts(s: State) {
    && Inv(s.h) && s.phase == Recording && s.progress.flushed == s.progress.accepted && s.progress.output == Output([], [])
    && if s.progress.accepted == ZERO_CURSOR then s.start == 0
       else s.progress.accepted in s.h.issued && s.start == s.h.issued[s.progress.accepted]
  }

  ghost predicate Grows(s: State, t: State) {
    ((exists item :: Appends(s.h, t.h, item)) || (exists cursors :: CaptureHistory.Prunes(s.h, t.h, cursors))) && t == s.(h := t.h)
  }

  ghost predicate ClearsAll(s: State, t: State) {
    (exists epoch :: Clears(s.h, t.h, epoch)) && t == s.(h := t.h, start := 0)
  }

  ghost predicate Passes(s: State, t: State, ok: bool) {
    && s.phase == Recording && ValidStore(s.h.store)
    && PassStep(s.h.store, s.progress, t.progress, ok)
    && (t.phase == Stopping || (ok && t.phase == Recording))
    && if Locate(s.h.store, s.progress.accepted).Err? then t.h == s.h && t.start == s.start
       else
         && Locate(s.h.store, t.progress.accepted).Ok? && t.h == Observed(s.h, t.progress.accepted)
         && t.start == if s.progress.accepted == ZERO_CURSOR then s.h.base else s.start
  }

  ghost predicate Finishes(s: State, t: State) {
    && s.phase == Stopping
    && exists closed :: t == s.(phase := Closed, progress := FinishedAs(s.progress, closed))
  }

  ghost predicate Step(s: State, t: State) {
    Grows(s, t) || ClearsAll(s, t) || (exists ok :: Passes(s, t, ok)) || Finishes(s, t)
  }

  // ---- Invariant -------------------------------------------------------------------------

  ghost predicate Live(s: State) {
    s.progress.accepted == ZERO_CURSOR || s.progress.accepted in s.h.issued
  }

  ghost predicate Known(s: State, cursor: Cursor) {
    cursor == ZERO_CURSOR || cursor in s.h.issued
  }

  ghost function PositionOf(s: State, cursor: Cursor): nat
    requires Known(s, cursor)
  {
    if cursor == ZERO_CURSOR then s.start else s.h.issued[cursor]
  }

  /** The records written and delivered are the log from the start, up to the two cursors. */
  ghost predicate Exact(s: State) {
    var p := s.progress;
    && Known(s, p.accepted) && Known(s, p.flushed)
    && s.start <= PositionOf(s, p.flushed) <= PositionOf(s, p.accepted) <= |s.h.all|
    && p.output.written == s.h.all[s.start..PositionOf(s, p.accepted)]
    && p.output.delivered == s.h.all[s.start..PositionOf(s, p.flushed)]
  }

  ghost predicate RecorderInv(s: State) {
    && Inv(s.h)
    && (s.progress.accepted == ZERO_CURSOR ==> s.progress.flushed == ZERO_CURSOR)
    && (s.phase == Recording ==> s.progress.flushed == s.progress.accepted)
    && s.progress.output.delivered <= s.progress.output.written
    && (Live(s) ==> Exact(s))
    && (!Live(s) ==> s.progress.accepted in s.h.expired)
  }

  lemma StartKeeps(s: State)
    requires Starts(s)
    ensures RecorderInv(s)
  {
    if s.progress.accepted != ZERO_CURSOR {
      assert Placed(s.h, s.progress.accepted, s.h.issued[s.progress.accepted]);
    }
  }

  lemma GrowKeeps(s: State, t: State)
    requires RecorderInv(s) && Grows(s, t)
    ensures RecorderInv(t)
  {
    hide Inv;
    hide Appends;
    hide CaptureHistory.Prunes;
    HistoryKeeps(s.h, t.h);
    HistoryGrows(s.h, t.h);
    if Live(s) {
      if s.progress.accepted != ZERO_CURSOR {
        GrowthKeepsIssued(s.h, t.h, s.progress.accepted);
      }
      if s.progress.flushed != ZERO_CURSOR {
        GrowthKeepsIssued(s.h, t.h, s.progress.flushed);
      }
    } else {
      ExpiredIsNotIssued(t.h, s.progress.accepted);
    }
  }

  lemma ClearKeepsRecorder(s: State, t: State)
    requires RecorderInv(s) && ClearsAll(s, t)
    ensures RecorderInv(t)
  {
    var epoch :| Clears(s.h, t.h, epoch);
    ClearsKeeps(s.h, t.h, epoch);
    hide Inv;
    hide ClearStep;
    if s.progress.accepted == ZERO_CURSOR {
      assert s.progress.output == Output([], []);
    }
  }

  // A placed cursor stands in the retained part of the log at its issued position.
  lemma Stands(s: State)
    requires RecorderInv(s) && Live(s) && Locate(s.h.store, s.progress.accepted).Ok?
    ensures s.h.base <= |s.h.all|
    ensures var start := if s.progress.accepted == ZERO_CURSOR then s.h.base else s.start;
      && s.h.base + Behind(s.h.store, s.progress.accepted) == PositionOf(s.(start := start), s.progress.accepted)
      && start <= |s.h.all|
  {
    if s.progress.accepted == ZERO_CURSOR {
      assert s.h.store.chunks[..0] == [];
    } else {
      PlacedLocates(s.h, s.progress.accepted);
    }
  }

  lemma ExportedIsSlice(h: History, cursor: Cursor, next: Cursor, complete: bool)
    requires Inv(h) && Locate(h.store, cursor).Ok? && Exported(h.store, cursor, next, complete)
    ensures h.base + Behind(h.store, cursor) <= h.base + Behind(h.store, next) <= |h.all|
    ensures ExportedItems(h.store, cursor, next) == h.all[h.base + Behind(h.store, cursor)..h.base + Behind(h.store, next)]
  {
    hide ValidStore;
    hide Behind;
    hide NamesRecord;
    hide LocateCursor;
  }

  lemma PassKeeps(s: State, t: State, ok: bool)
    requires RecorderInv(s) && Passes(s, t, ok)
    ensures RecorderInv(t)
    ensures ok ==> Exact(t) && t.progress.output.written == t.h.all[t.start..] && t.progress.output.delivered == t.progress.output.written
  {
    hide Inv;
    hide ExportedItems;
    hide Exported;
    hide Behind;
    hide NamesRecord;
    hide LocateCursor;
    hide ValidChunk;
    hide Exact;
    var (p, q) := (s.progress, t.progress);
    StoreIsValid(s.h);
    if Locate(s.h.store, p.accepted).Err? {
      ZeroLocates(s.h.store);
      hide Locate;
      LostPassKeeps(s, t);
    } else {
      if !Live(s) {
        ExpiredIsNotIssued(s.h, p.accepted);
      }
      Stands(s);
      var complete :| PassFrom(s.h.store, p, q, ok, complete);
      ExportedIsSlice(s.h, p.accepted, q.accepted, complete);
      if q.accepted != p.accepted {
        ExportNamesRecord(s.h.store, p.accepted, q.accepted, complete);
        ObservedIsPlaced(s.h, q.accepted);
      }
      EndOfLog(s.h);
      PassedIsExact(s, t, ok, complete);
    }
  }

  lemma ExportNamesRecord(s: Store, cursor: Cursor, next: Cursor, complete: bool)
    requires ValidStore(s) && Locate(s, cursor).Ok? && Exported(s, cursor, next, complete) && next != cursor
    ensures NamesRecord(s, next) && next != ZERO_CURSOR && Locate(s, next).Ok?
  {
  }

  lemma LostPassKeeps(s: State, t: State)
    requires RecorderInv(s) && t.h == s.h && t.start == s.start && t.progress == s.progress && t.phase == Stopping
    ensures RecorderInv(t)
  {
    hide Inv;
  }

  lemma PassedIsExact(s: State, t: State, ok: bool, complete: bool)
    requires RecorderInv(s) && Live(s) && Passes(s, t, ok) && Locate(s.h.store, s.progress.accepted).Ok?
    requires PassFrom(s.h.store, s.progress, t.progress, ok, complete)
    requires Inv(t.h) && s.h.base + s.h.store.length == |s.h.all|
    requires t.progress.accepted == s.progress.accepted || (t.progress.accepted != ZERO_CURSOR && t.progress.accepted in t.h.issued &&
                  t.h.issued[t.progress.accepted] == s.h.base + Behind(s.h.store, t.progress.accepted))
    requires t.start <= |s.h.all| && s.h.base + Behind(s.h.store, s.progress.accepted) == PositionOf(s.(start := t.start), s.progress.accepted)
    requires var (from, to) := (s.h.base + Behind(s.h.store, s.progress.accepted), s.h.base + Behind(s.h.store, t.progress.accepted));
      from <= to <= |s.h.all| && ExportedItems(s.h.store, s.progress.accepted, t.progress.accepted) == s.h.all[from..to]
    ensures RecorderInv(t)
    ensures ok ==> Exact(t) && t.progress.output.written == t.h.all[t.start..] && t.progress.output.delivered == t.progress.output.written
  {
    hide Inv;
    hide ExportedItems;
    hide Behind;
    hide NamesRecord;
    hide LocateCursor;
    hide ValidStore;
    var (from, to) := (s.h.base + Behind(s.h.store, s.progress.accepted), s.h.base + Behind(s.h.store, t.progress.accepted));
    assert Exact(s);
    assert s.progress.output.written == s.h.all[t.start..from];
    assert s.h.all[t.start..from] + s.h.all[from..to] == s.h.all[t.start..to];
    assert t.progress.output.written == t.h.all[t.start..to];
  }

  lemma FinishKeeps(s: State, t: State)
    requires RecorderInv(s) && Finishes(s, t)
    ensures RecorderInv(t)
  {
    hide Inv;
  }

  ghost predicate Run(run: seq<State>) {
    && |run| > 0 && Starts(run[0])
    && forall i :: 0 <= i < |run| - 1 ==> Step(run[i], run[i + 1])
  }

  lemma {:induction false} RunKeepsRecorder(run: seq<State>, k: nat)
    requires Run(run) && k < |run|
    ensures RecorderInv(run[k])
  {
    hide RecorderInv;
    hide Starts;
    hide Grows;
    hide ClearsAll;
    hide Passes;
    hide Finishes;
    if k == 0 {
      StartKeeps(run[0]);
    } else {
      RunKeepsRecorder(run, k - 1);
      var (s, t) := (run[k - 1], run[k - 1 + 1]);
      assert Step(s, t);
      if Grows(s, t) {
        GrowKeeps(s, t);
      } else if ClearsAll(s, t) {
        ClearKeepsRecorder(s, t);
      } else if ok :| Passes(s, t, ok) {
        PassKeeps(s, t, ok);
      } else {
        FinishKeeps(s, t);
      }
    }
  }

  /**
   * On every run, whatever writer calls fail: as long as the capture has not been cleared past the
   * recorder, the written records are the log from the start up to the accepted cursor, each once and in
   * order; the delivered ones reach exactly to the flushed cursor, which is never ahead of it.
   */
  lemma RecordedExactlyOnce(run: seq<State>)
    requires Run(run)
    ensures var s := run[|run| - 1];
      && s.progress.output.delivered <= s.progress.output.written
      && (Live(s) ==> Exact(s))
      && (!Live(s) ==> |s.h.store.chunks| > 0 && Locate(s.h.store, s.progress.accepted).Err?)
  {
    RunKeepsRecorder(run, |run| - 1);
    var s := run[|run| - 1];
    if !Live(s) {
      ExpiredIsNotIssued(s.h, s.progress.accepted);
    }
  }

  /** Pruning to the flushed cursor never takes from the recorder a record it has yet to write. */
  lemma PruningToFlushedIsSafe(run: seq<State>, k: History)
    requires Run(run) && Live(run[|run| - 1]) && CaptureHistory.Prunes(run[|run| - 1].h, k, [run[|run| - 1].progress.flushed])
    requires Locate(run[|run| - 1].h.store, run[|run| - 1].progress.accepted).Ok?
    ensures |k.store.chunks| > 0 && Locate(k.store, run[|run| - 1].progress.accepted).Ok?
  {
    hide CaptureHistory.Prunes;
    hide Step;
    hide Starts;
    var s := run[|run| - 1];
    RunKeepsRecorder(run, |run| - 1);
    PrunedPlaces(s, k);
  }

  lemma PrunedPlaces(s: State, k: History)
    requires RecorderInv(s) && Live(s) && CaptureHistory.Prunes(s.h, k, [s.progress.flushed])
    requires |s.h.store.chunks| > 0 && Locate(s.h.store, s.progress.accepted).Ok?
    ensures |k.store.chunks| > 0 && Locate(k.store, s.progress.accepted).Ok?
  {
    hide Inv;
    hide CaptureHistory.Prunes;
    hide LocateCursor;
    hide Behind;
    PrunesKeeps(s.h, k, [s.progress.flushed]);
    StoreIsValid(k);
    assert Exact(s) && [s.progress.flushed][0] == s.progress.flushed;
    PruneStaysBehind(s.h, k, [s.progress.flushed], 0);
    if s.progress.accepted == ZERO_CURSOR {
      ZeroLocates(k.store);
    } else {
      PlacedLocates(s.h, s.progress.accepted);
      PlacedLocates(k, s.progress.accepted);
    }
  }
}

/**
 * Whole runs of a capture: appends (with rotations), prunes and clears in any order. A cursor the
 * capture has issued places exactly when nothing after it has been lost, and then it still stands at
 * the same place in the log.
 */
module CaptureHistory {
  import opened Wrappers
  import opened CaptureChunk
  import opened CaptureStore

  // `all` is everything appended in the current generation and `base` how much of it Prune has
  // discarded; `issued` gives, for every cursor issued in this generation, how many items of `all` it
  // stands behind; `expired` holds the cursors of earlier generations.
  datatype History = History(store: Store, all: seq<Item>, base: nat, issued: map<Cursor, nat>, expired: set<Cursor>)

  ghost predicate Fresh(h: History) {
    && ValidStore(h.store) && Log(h.store.chunks) == [] && h.store.pruneSeam == ZERO_CURSOR
    && h.all == [] && h.base == 0 && h.issued == map[] && h.expired == {}
  }

  ghost predicate Appends(h: History, k: History, item: Item) {
    ValidStore(h.store) && ValidItem(item) && exists cursor :: AppendsAs(h, k, item, cursor)
  }

  ghost predicate AppendsAs(h: History, k: History, item: Item, cursor: Cursor)
    requires ValidStore(h.store)
  {
    && AppendStep(h.store, k.store, item, cursor)
    && k == History(k.store, h.all + [item], h.base, h.issued[cursor := |h.all| + 1], h.expired)
  }

  ghost predicate Prunes(h: History, k: History, cursors: seq<Cursor>) {
    && ValidStore(h.store)
    && var result := Pruned(h.store, cursors);
    if result.Err? then k == h
    else
      && result.value.length <= h.store.length
      && k == h.(store := result.value, base := h.base + h.store.length - result.value.length)
  }

  ghost predicate Clears(h: History, k: History, epoch: nat) {
    && h.store.generation < epoch && ClearStep(h.store, k.store, epoch)
    && k == History(k.store, [], 0, map[], h.expired + h.issued.Keys)
  }

  ghost predicate Next(h: History, k: History) {
    || (exists item :: Appends(h, k, item))
    || (exists cursors :: Prunes(h, k, cursors))
    || (exists epoch :: Clears(h, k, epoch))
  }

  // ---- Invariant -------------------------------------------------------------------------

  ghost predicate Retained(s: Store, cursor: Cursor, behind: nat)
    requires |s.chunks| > 0
  {
    var index := cursor.chunk - s.chunks[0].sequence;
    && 0 <= index < |s.chunks| && cursor.record < |s.chunks[index].records|
    && Position(s.chunks, index, cursor.record) == behind
  }

  // Where the history says an issued cursor stands.
  ghost predicate Placed(h: History, cursor: Cursor, behind: nat)
    requires |h.store.chunks| > 0
  {
    && cursor != ZERO_CURSOR && cursor.generation == h.store.generation && 1 <= behind <= |h.all|
    && (behind > h.base ==> Retained(h.store, cursor, behind - h.base))
    && (behind <= h.base ==> cursor.chunk < h.store.chunks[0].sequence)
    && (behind == h.base <==> cursor == h.store.pruneSeam)
  }

  ghost predicate Inv(h: History) {
    && ValidStore(h.store)
    && h.base <= |h.all| && Log(h.store.chunks) == h.all[h.base..]
    && (forall cursor :: cursor in h.issued ==> Placed(h, cursor, h.issued[cursor]))
    && (forall cursor :: cursor in h.expired ==> cursor != ZERO_CURSOR && cursor.generation < h.store.generation)
  }

  lemma AppendKeepsPosition(s: Store, t: Store, item: Item, cursor: Cursor, chunk: nat, record: nat)
    requires |s.chunks| > 0 && AppendStep(s, t, item, cursor)
    requires chunk < |s.chunks| && record < |s.chunks[chunk].records|
    ensures chunk < |t.chunks| && |s.chunks[chunk].records| <= |t.chunks[chunk].records|
    ensures Position(t.chunks, chunk, record) == Position(s.chunks, chunk, record)
  {
    hide Appended;
    hide Count;
    assert t.chunks[..chunk] == s.chunks[..chunk];
    AppendGrows(ActiveChunk(s), item);
  }

  lemma NewestIsRetained(s: Store, cursor: Cursor)
    requires ValidStore(s) && |ActiveChunk(s).records| > 0
    requires cursor == Cursor(s.generation, ActiveChunk(s).sequence, |ActiveChunk(s).records| - 1)
    ensures Retained(s, cursor, |Log(s.chunks)|) && cursor.chunk >= s.chunks[0].sequence
  {
    hide ValidChunk;
    hide Log;
    hide Count;
    hide Position;
    LogLength(s.chunks);
    LastPosition(s.chunks);
    assert cursor.chunk - s.chunks[0].sequence == |s.chunks| - 1;
  }

  lemma AppendPlacesNew(h: History, k: History, item: Item, cursor: Cursor)
    requires Inv(h) && ValidItem(item) && AppendsAs(h, k, item, cursor)
    ensures |k.store.chunks| > 0 && Placed(k, cursor, |h.all| + 1)
  {
    hide ValidStore;
    hide AppendStep;
    hide Retained;
    hide Log;
    AppendKeepsFirst(h.store, k.store, item, cursor);
    AppendKeeps(h.store, k.store, item, cursor);
    NewestIsRetained(k.store, cursor);
    SeamIsBefore(k.store);
  }

  lemma SeamIsBefore(s: Store)
    requires ValidStore(s)
    ensures s.generation > 0 && (s.pruneSeam == ZERO_CURSOR || s.pruneSeam.chunk < s.chunks[0].sequence)
  {
  }

  lemma LastPosition(chunks: seq<Chunk>)
    requires |chunks| > 0 && |chunks[|chunks| - 1].records| > 0
    ensures Position(chunks, |chunks| - 1, |chunks[|chunks| - 1].records| - 1) == Count(chunks)
  {
    CountNext(chunks, |chunks| - 1);
    assert chunks[..|chunks|] == chunks;
  }

  lemma AppendKeepsPlaced(h: History, k: History, item: Item, cursor: Cursor, issued: Cursor)
    requires Inv(h) && ValidItem(item) && AppendsAs(h, k, item, cursor) && issued in h.issued
    ensures |k.store.chunks| > 0 && Placed(k, issued, h.issued[issued])
  {
    hide ValidChunk;
    assert Placed(h, issued, h.issued[issued]);
    if h.issued[issued] > h.base {
      AppendKeepsPosition(h.store, k.store, item, cursor, issued.chunk - h.store.chunks[0].sequence, issued.record);
    }
    AppendKeepsFirst(h.store, k.store, item, cursor);
  }

  lemma AppendKeepsFirst(s: Store, t: Store, item: Item, cursor: Cursor)
    requires ValidStore(s) && AppendStep(s, t, item, cursor)
    ensures |t.chunks| > 0 && t.chunks[0].sequence == s.chunks[0].sequence
    ensures t.generation == s.generation && t.pruneSeam == s.pruneSeam && |ActiveChunk(t).records| > 0
  {
  }

  lemma AppendsKeeps(h: History, k: History, item: Item)
    requires Inv(h) && Appends(h, k, item)
    ensures Inv(k)
  {
    hide AppendStep;
    hide ValidStore;
    var cursor :| AppendsAs(h, k, item, cursor);
    AppendKeeps(h.store, k.store, item, cursor);
    AppendKeepsFirst(h.store, k.store, item, cursor);
    LogGrows(h, k, item);
    forall issued | issued in k.issued
      ensures |k.store.chunks| > 0 && Placed(k, issued, k.issued[issued])
    {
      if issued == cursor {
        AppendPlacesNew(h, k, item, cursor);
      } else {
        AppendKeepsPlaced(h, k, item, cursor, issued);
      }
    }
  }

  lemma LogGrows(h: History, k: History, item: Item)
    requires h.base <= |h.all| && k.all == h.all + [item] && k.base == h.base
    ensures k.all[k.base..] == h.all[h.base..] + [item]
  {
  }

  lemma DiscardKeepsPosition(chunks: seq<Chunk>, discard: nat, chunk: nat, record: nat)
    requires discard <= chunk < |chunks| && record < |chunks[chunk].records|
    ensures Position(chunks, chunk, record) == Count(chunks[..discard]) + Position(chunks[discard..], chunk - discard, record)
    ensures Position(chunks[discard..], chunk - discard, record) > 0
  {
    assert chunks[..chunk] == chunks[..discard] + chunks[discard..][..chunk - discard];
    CountConcat(chunks[..discard], chunks[discard..][..chunk - discard]);
  }

  // A record in a discarded chunk stands at or before the cut, and at the cut only if it is the last one.
  lemma DiscardedPosition(chunks: seq<Chunk>, discard: nat, chunk: nat, record: nat)
    requires chunk < discard <= |chunks| && record < |chunks[chunk].records|
    requires forall i :: 0 <= i < |chunks| ==> |chunks[i].records| > 0
    ensures Position(chunks, chunk, record) <= Count(chunks[..discard])
    ensures Position(chunks, chunk, record) == Count(chunks[..discard]) <==>
      chunk == discard - 1 && record == |chunks[chunk].records| - 1
  {
    CountNext(chunks, chunk);
    if chunk + 1 < discard {
      CountNext(chunks, chunk + 1);
      CountMonotone(chunks, chunk + 2, discard);
    }
  }

  lemma DiscardKeepsPlaced(h: History, k: History, discard: nat, cursor: Cursor)
    requires Inv(h) && 0 < discard < |h.store.chunks| && cursor in h.issued
    requires k.store == Discarded(h.store, discard) && k.all == h.all
    requires k.base == h.base + Count(h.store.chunks[..discard])
    ensures Placed(k, cursor, h.issued[cursor])
  {
    hide ValidChunk;
    hide Count;
    var (s, behind) := (h.store, h.issued[cursor]);
    assert Placed(h, cursor, behind);
    CountNext(s.chunks, 0);
    CountMonotone(s.chunks, 1, discard);
    if behind > h.base {
      var index := cursor.chunk - s.chunks[0].sequence;
      if index < discard {
        DiscardedPosition(s.chunks, discard, index, cursor.record);
      } else {
        DiscardKeepsPosition(s.chunks, discard, index, cursor.record);
      }
    }
  }

  lemma PrunesKeeps(h: History, k: History, cursors: seq<Cursor>)
    requires Inv(h) && Prunes(h, k, cursors)
    ensures Inv(k)
  {
    hide ValidChunk;
    hide Placed;
    hide Count;
    hide Log;
    if Pruned(h.store, cursors).Ok? && cursors != [] {
      var (chunk, boundary) := EarliestPlacement(h.store, cursors).value;
      var discard := DiscardCount(h.store, chunk, boundary);
      DiscardedKeeps(h.store, discard);
      if discard > 0 {
        forall cursor | cursor in k.issued
          ensures Placed(k, cursor, k.issued[cursor])
        {
          DiscardKeepsPlaced(h, k, discard, cursor);
        }
      }
    }
  }

  lemma ClearsKeeps(h: History, k: History, epoch: nat)
    requires Inv(h) && Clears(h, k, epoch)
    ensures Inv(k)
  {
    ClearKeeps(h.store, k.store, epoch);
    forall cursor | cursor in h.issued
      ensures cursor != ZERO_CURSOR && cursor.generation == h.store.generation
    {
      assert Placed(h, cursor, h.issued[cursor]);
    }
  }

  lemma NextKeeps(h: History, k: History)
    requires Inv(h) && Next(h, k)
    ensures Inv(k)
  {
    if item :| Appends(h, k, item) {
      AppendsKeeps(h, k, item);
    } else if cursors :| Prunes(h, k, cursors) {
      PrunesKeeps(h, k, cursors);
    } else {
      var epoch :| Clears(h, k, epoch);
      ClearsKeeps(h, k, epoch);
    }
  }

  ghost predicate Run(run: seq<History>) {
    && |run| > 0 && Fresh(run[0])
    && forall i :: 0 <= i < |run| - 1 ==> Next(run[i], run[i + 1])
  }

  lemma {:induction false} RunKeeps(run: seq<History>, k: nat)
    requires Run(run) && k < |run|
    ensures Inv(run[k])
  {
    if k > 0 {
      RunKeeps(run, k - 1);
      assert Next(run[k - 1], run[k - 1 + 1]);
      NextKeeps(run[k - 1], run[k]);
    }
  }

  // ---- Placement -------------------------------------------------------------------------

  lemma PlacedLocates(h: History, cursor: Cursor)
    requires Inv(h) && cursor in h.issued
    ensures Locate(h.store, cursor).Ok? <==> h.issued[cursor] >= h.base
    ensures Locate(h.store, cursor).Ok? ==> Behind(h.store, cursor) == h.issued[cursor] - h.base
    ensures h.issued[cursor] <= |h.all|
  {
    hide ValidChunk;
    assert Placed(h, cursor, h.issued[cursor]);
    if h.issued[cursor] == h.base {
      assert h.store.chunks[..0] == [];
    }
  }

  /**
   * On every run: the log is what was appended since the last Clear less the discarded prefix, and its
   * length is the stored count; a cursor issued since the last Clear places if and only if no record
   * after it has been discarded, and then exactly the records appended after it follow it; a cursor
   * issued before the last Clear never places; the zero cursor always does.
   */
  lemma CursorPlacementIsExact(run: seq<History>, cursor: Cursor)
    requires Run(run)
    ensures var h := run[|run| - 1];
      && ValidStore(h.store) && h.base <= |h.all|
      && Log(h.store.chunks) == h.all[h.base..] && h.store.length == |h.all| - h.base
      && (cursor in h.issued ==> (Locate(h.store, cursor).Ok? <==> h.issued[cursor] >= h.base))
      && (cursor in h.issued && Locate(h.store, cursor).Ok? ==>
            Behind(h.store, cursor) <= |Log(h.store.chunks)| && h.issued[cursor] <= |h.all| &&
            Log(h.store.chunks)[Behind(h.store, cursor)..] == h.all[h.issued[cursor]..])
      && (cursor in h.expired ==> Locate(h.store, cursor).Err?)
      && Locate(h.store, ZERO_CURSOR).Ok?
  {
    var h := run[|run| - 1];
    RunKeeps(run, |run| - 1);
    if cursor in h.issued {
      PlacedLocates(h, cursor);
    }
    LogLength(h.store.chunks);
    hide Log;
    hide ValidChunk;
    if cursor in h.issued && Locate(h.store, cursor).Ok? {
      assert Log(h.store.chunks)[Behind(h.store, cursor)..] == h.all[h.issued[cursor]..];
    }
  }
}

/** Where a reader's cursor stands while a capture grows, is pruned and is cleared around it. */
module CaptureCursors {
  import opened Wrappers
  import opened CaptureChunk
  import opened CaptureStore
  import opened CaptureHistory

  // The history in which the place of a cursor that was read, rather than appended, is written down too.
  function Observed(h: History, cursor: Cursor): History
    requires |h.store.chunks| > 0 && Locate(h.store, cursor).Ok?
  {
    if cursor == ZERO_CURSOR || cursor in h.issued then h
    else h.(issued := h.issued[cursor := h.base + Behind(h.store, cursor)])
  }

  lemma StoreIsValid(h: History)
    requires Inv(h)
    ensures ValidStore(h.store)
  {
  }

  lemma ZeroLocates(s: Store)
    requires |s.chunks| > 0
    ensures Locate(s, ZERO_CURSOR).Ok? && Behind(s, ZERO_CURSOR) == 0
  {
    assert s.chunks[..0] == [];
  }

  lemma EndOfLog(h: History)
    requires Inv(h)
    ensures h.base + h.store.length == |h.all|
  {
    LogLength(h.store.chunks);
  }

  // A cursor stands in one place only, if that place is retained.
  lemma OnePlace(h: History, cursor: Cursor, left: nat, right: nat)
    requires |h.store.chunks| > 0 && Placed(h, cursor, left) && Placed(h, cursor, right) && left > h.base
    ensures left == right
  {
    hide Position;
  }

  lemma GrowthKeepsIssued(h: History, k: History, cursor: Cursor)
    requires Inv(h) && cursor in h.issued
    requires (exists item :: Appends(h, k, item)) || (exists cursors :: CaptureHistory.Prunes(h, k, cursors))
    ensures cursor in k.issued && k.issued[cursor] == h.issued[cursor]
  {
    hide ValidStore;
    hide AppendStep;
    hide Placed;
    hide Pruned;
    if item :| Appends(h, k, item) {
      var issued :| AppendsAs(h, k, item, issued);
      if issued == cursor {
        AppendPlacesNew(h, k, item, issued);
        AppendKeepsPlaced(h, k, item, issued, cursor);
        OnePlace(k, cursor, |h.all| + 1, h.issued[cursor]);
      }
    }
  }

  lemma ExpiredIsNotIssued(h: History, cursor: Cursor)
    requires Inv(h) && cursor in h.expired
    ensures cursor !in h.issued && cursor != ZERO_CURSOR && Locate(h.store, cursor).Err?
  {
    hide ValidChunk;
    assert cursor in h.issued ==> Placed(h, cursor, h.issued[cursor]);
  }

  lemma HistoryKeeps(h: History, k: History)
    requires Inv(h)
    requires (exists item :: Appends(h, k, item)) || (exists cursors :: CaptureHistory.Prunes(h, k, cursors))
    ensures Inv(k)
  {
    hide Inv;
    NextKeeps(h, k);
  }

  lemma HistoryGrows(h: History, k: History)
    requires (exists item :: Appends(h, k, item)) || (exists cursors :: CaptureHistory.Prunes(h, k, cursors))
    ensures h.all <= k.all && k.expired == h.expired
  {
    hide ValidStore;
    hide AppendStep;
    hide Pruned;
    if item :| Appends(h, k, item) {
      var cursor :| AppendsAs(h, k, item, cursor);
    }
  }

  // A cursor that names a retained record stands where the history would have issued it.
  lemma ObservedIsPlaced(h: History, cursor: Cursor)
    requires Inv(h) && NamesRecord(h.store, cursor) && Locate(h.store, cursor).Ok?
    ensures Inv(Observed(h, cursor)) && cursor in Observed(h, cursor).issued
    ensures Observed(h, cursor).issued[cursor] == h.base + Behind(h.store, cursor)
    ensures h.base + Behind(h.store, cursor) <= |h.all|
  {
    hide ValidChunk;
    hide Log;
    LogLength(h.store.chunks);
    var index := cursor.chunk - h.store.chunks[0].sequence;
    PositionWithin(h.store.chunks, index, cursor.record);
    if cursor in h.issued {
      assert Placed(h, cursor, h.issued[cursor]);
    } else {
      var k := Observed(h, cursor);
      assert Placed(k, cursor, k.issued[cursor]);
      forall other | other in k.issued
        ensures Placed(k, other, k.issued[other])
      {
        if other != cursor {
          assert Placed(h, other, h.issued[other]);
        }
      }
    }
  }

  lemma PruneOutcome(h: History, k: History, cursors: seq<Cursor>, i: nat)
    requires ValidStore(h.store) && Prunes(h, k, cursors) && i < |cursors|
    ensures k.issued == h.issued && k.expired == h.expired && k.all == h.all && h.base <= k.base
    ensures k.base == h.base || (Locate(h.store, cursors[i]).Ok? && k.base - h.base <= Behind(h.store, cursors[i]))
  {
    hide ValidStore;
    hide Log;
    hide Position;
    hide Pruned;
    hide LocateCursor;
    PruneIsSafe(h.store, cursors);
  }

  /** A prune never reaches past a cursor it was given; the zero cursor and an expired one prevent it altogether. */
  lemma PruneStaysBehind(h: History, k: History, cursors: seq<Cursor>, i: nat)
    requires Inv(h) && Prunes(h, k, cursors) && i < |cursors|
    requires cursors[i] == ZERO_CURSOR || cursors[i] in h.issued || cursors[i] in h.expired
    ensures k.issued == h.issued && k.expired == h.expired && k.all == h.all && h.base <= k.base
    ensures k.base == h.base || (cursors[i] != ZERO_CURSOR && cursors[i] in h.issued && k.base <= h.issued[cursors[i]])
  {
    StoreIsValid(h);
    PruneOutcome(h, k, cursors, i);
    hide Inv;
    hide ValidStore;
    hide Prunes;
    hide Position;
    hide LocateCursor;
    ZeroLocates(h.store);
    if cursors[i] in h.issued {
      PlacedLocates(h, cursors[i]);
    } else if cursors[i] in h.expired {
      ExpiredIsNotIssued(h, cursors[i]);
    }
  }
}

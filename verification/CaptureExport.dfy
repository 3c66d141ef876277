/**
 * Sending retained records to a writer that may refuse any of them (capture.go), and the recorder that
 * does so pass after pass (recorder/recorder.go).
 */
module CaptureExport {
  import opened Wrappers
  import opened CaptureChunk
  import opened CaptureStore
  import opened CaptureReads

  // `written` lists the items whose writer call succeeded; `delivered` those known to have been flushed.
  datatype Output = Output(written: seq<Item>, delivered: seq<Item>)

  // One call of a writer and whether it succeeded.
  datatype Call = Put(item: Item, ok: bool) | Flushing(ok: bool)

  ghost predicate AllSucceeded(calls: seq<Call>) {
    forall i :: 0 <= i < |calls| ==> calls[i].ok
  }

  ghost function Puts(items: seq<Item>): (calls: seq<Call>)
    ensures |calls| == |items|
  {
    seq(|items|, i requires 0 <= i < |items| => Put(items[i], true))
  }

  lemma PutsNext(items: seq<Item>, item: Item)
    ensures Puts(items + [item]) == Puts(items) + [Put(item, true)] && Puts([]) == []
  {
  }

  /** A trace writer. The script decides which of its calls fail; once it is used up they all succeed. */
  class TraceWriter {
    var output: Output
    var script: seq<bool>
    ghost var calls: seq<Call>

    constructor (script: seq<bool>)
      ensures output == Output([], []) && calls == []
    {
      output, this.script, calls := Output([], []), script, [];
    }

    method NextOutcome() returns (ok: bool)
      modifies this`script
    {
      ok := true;
      if script != [] {
        ok, script := script[0], script[1..];
      }
    }

    method Write(item: Item) returns (ok: bool)
      modifies this
      ensures output == if ok then old(output).(written := old(output.written) + [item]) else old(output)
      ensures calls == old(calls) + [Put(item, ok)]
    {
      ok := NextOutcome();
      calls := calls + [Put(item, ok)];
      if ok {
        output := output.(written := output.written + [item]);
      }
    }

    method Flush() returns (ok: bool)
      modifies this
      ensures output == if ok then old(output).(delivered := old(output.written)) else old(output)
      ensures calls == old(calls) + [Flushing(ok)]
    {
      ok := NextOutcome();
      calls := calls + [Flushing(ok)];
      if ok {
        output := output.(delivered := output.written);
      }
    }
  }

  /** What an export from a cursor that places may return: how far it got, and whether it got to the end. */
  ghost predicate Exported(s: Store, cursor: Cursor, next: Cursor, complete: bool)
    requires ValidStore(s) && Locate(s, cursor).Ok?
  {
    && (next == cursor || NamesRecord(s, next))
    && Locate(s, next).Ok? && Behind(s, cursor) <= Behind(s, next) <= |Log(s.chunks)|
    && (complete ==> Behind(s, next) == s.length)
  }

  ghost function ExportedItems(s: Store, cursor: Cursor, next: Cursor): seq<Item>
    requires ValidStore(s) && Locate(s, cursor).Ok? && Locate(s, next).Ok?
    requires Behind(s, cursor) <= Behind(s, next) <= |Log(s.chunks)|
  {
    Log(s.chunks)[Behind(s, cursor)..Behind(s, next)]
  }

  datatype ExportError = NoError | CursorLost | WriteFailed(cursor: Cursor)

  /** The writer was called for each item exported and, where the export failed, for the one behind them, which it refused. */
  ghost predicate CallsMade(s: Store, cursor: Cursor, next: Cursor, err: ExportError, before: seq<Call>, after: seq<Call>)
    requires ValidStore(s) && Locate(s, cursor).Ok? && Exported(s, cursor, next, err.NoError?)
  {
    if err.NoError? then after == before + Puts(ExportedItems(s, cursor, next))
    else
      && Behind(s, next) < |Log(s.chunks)|
      && after == before + Puts(ExportedItems(s, cursor, next)) + [Put(Log(s.chunks)[Behind(s, next)], false)]
  }

  // Records up to `limit` of chunk k have been sent.
  ghost predicate Sent(s: Store, cursor: Cursor, lastWritten: Cursor, k: nat, limit: nat, sent: seq<Item>)
    requires ValidStore(s) && Locate(s, cursor).Ok? && k < |s.chunks| && limit <= |s.chunks[k].records|
  {
    && Behind(s, cursor) <= |UpTo(s.chunks, k, limit)| && sent == UpTo(s.chunks, k, limit)[Behind(s, cursor)..]
    && Exported(s, cursor, lastWritten, false) && Behind(s, lastWritten) == |UpTo(s.chunks, k, limit)|
  }

  lemma StartSent(s: Store, cursor: Cursor)
    requires ValidStore(s) && Locate(s, cursor).Ok?
    ensures var (start, boundary) := Locate(s, cursor).value;
      Sent(s, cursor, cursor, start, FirstAfter(s.chunks[start], boundary), [])
  {
    hide ValidChunk;
    hide UpTo;
    hide Count;
    hide Log;
    var (start, boundary) := Locate(s, cursor).value;
    UpToIsPrefix(s.chunks, start, FirstAfter(s.chunks[start], boundary));
    PositionWithin(s.chunks, start, boundary);
    LogLength(s.chunks);
  }

  lemma RecordStands(s: Store, k: nat, record: nat)
    requires ValidStore(s) && k < |s.chunks| && record < |s.chunks[k].records|
    ensures var c := Cursor(s.generation, s.chunks[k].sequence, record);
      && NamesRecord(s, c) && Locate(s, c) == Ok((k, record))
      && Behind(s, c) == |UpTo(s.chunks, k, record + 1)| <= |Log(s.chunks)|
  {
    hide ValidChunk;
    hide UpTo;
    hide Count;
    hide Log;
    UpToIsPrefix(s.chunks, k, record + 1);
  }

  lemma SendOne(s: Store, cursor: Cursor, lastWritten: Cursor, k: nat, record: nat, sent: seq<Item>)
    requires ValidStore(s) && Locate(s, cursor).Ok? && k < |s.chunks| && record < |s.chunks[k].records|
    requires Sent(s, cursor, lastWritten, k, record, sent)
    ensures Readable(s.chunks[k], record)
    ensures Sent(s, cursor, Cursor(s.generation, s.chunks[k].sequence, record), k, record + 1, sent + [ItemAt(s.chunks[k], record)])
    ensures var c := Cursor(s.generation, s.chunks[k].sequence, record);
      Locate(s, c).Ok? && Behind(s, c) == Behind(s, lastWritten) + 1
  {
    hide ValidChunk;
    hide UpTo;
    hide Behind;
    hide Log;
    hide ItemAt;
    hide Readable;
    hide NamesRecord;
    hide LocateCursor;
    RecordStands(s, k, record);
    NextRecord(s.chunks, k, record, Behind(s, cursor), BusSeries(0));
  }

  lemma SendBoundary(s: Store, cursor: Cursor, lastWritten: Cursor, k: nat, sent: seq<Item>)
    requires ValidStore(s) && Locate(s, cursor).Ok? && k + 1 < |s.chunks|
    requires Sent(s, cursor, lastWritten, k, |s.chunks[k].records|, sent)
    ensures Sent(s, cursor, lastWritten, k + 1, 0, sent)
  {
    hide ValidChunk;
    hide UpTo;
    hide Exported;
    hide Behind;
    NextChunk(s.chunks, k);
  }

  lemma SentIsExported(s: Store, cursor: Cursor, lastWritten: Cursor, k: nat, limit: nat, sent: seq<Item>)
    requires ValidStore(s) && Locate(s, cursor).Ok? && k < |s.chunks| && limit <= |s.chunks[k].records|
    requires Sent(s, cursor, lastWritten, k, limit, sent)
    ensures Exported(s, cursor, lastWritten, false) && sent == ExportedItems(s, cursor, lastWritten)
    ensures k == |s.chunks| - 1 && limit == |s.chunks[k].records| ==> Behind(s, lastWritten) == s.length
  {
    hide ValidChunk;
    hide UpTo;
    hide Log;
    hide NamesRecord;
    hide LocateCursor;
    hide Count;
    UpToIsPrefix(s.chunks, k, limit);
    CountNext(s.chunks, |s.chunks| - 1);
    assert s.chunks[..|s.chunks|] == s.chunks;
    assert UpTo(s.chunks, k, limit)[Behind(s, cursor)..] == Log(s.chunks)[Behind(s, cursor)..Behind(s, lastWritten)];
  }

  lemma RefusedIsNext(s: Store, cursor: Cursor, lastWritten: Cursor, k: nat, record: nat, sent: seq<Item>)
    requires ValidStore(s) && Locate(s, cursor).Ok? && k < |s.chunks| && record < |s.chunks[k].records|
    requires Sent(s, cursor, lastWritten, k, record, sent)
    ensures Readable(s.chunks[k], record) && Locate(s, lastWritten).Ok?
    ensures Behind(s, lastWritten) < |Log(s.chunks)| && Log(s.chunks)[Behind(s, lastWritten)] == ItemAt(s.chunks[k], record)
  {
    hide ValidChunk;
    hide UpTo;
    hide Log;
    hide ItemAt;
    hide Readable;
    hide NamesRecord;
    hide LocateCursor;
    NextRecord(s.chunks, k, record, Behind(s, cursor), BusSeries(0));
    UpToIsPrefix(s.chunks, k, record + 1);
  }

  // On success the newest cursor is returned instead of the last one written: it stands at the same place.
  lemma {:induction false} NewestExported(s: Store, cursor: Cursor, newest: Cursor)
    requires ValidStore(s) && Locate(s, cursor).Ok?
    requires newest == NewestCursor(cursor, s.generation, s.chunks[Locate(s, cursor).value.0..])
    ensures Exported(s, cursor, newest, true) && Behind(s, newest) == s.length == |Log(s.chunks)|
  {
    hide ValidChunk;
    hide Log;
    hide Count;
    NewestStandsAtEnd(s, cursor);
    LogLength(s.chunks);
    var start := Locate(s, cursor).value.0;
    PositionWithin(s.chunks, start, Locate(s, cursor).value.1);
    var views := s.chunks[start..];
    assert views[|views| - 1] == s.chunks[|s.chunks| - 1];
    if |s.chunks[|s.chunks| - 1].records| == 0 {
      assert |s.chunks| == 1;
      assert NewestCursor(cursor, s.generation, views[..0]) == cursor;
    }
  }

  /**
   * WriteRecordsSince: whatever calls the writer refuses, the items between the given and the returned
   * cursor, and no others, have been written, once each and in order; an error names the next record.
   */
  method WriteRecordsSince(s: Store, cursor: Cursor, writer: TraceWriter) returns (next: Cursor, err: ExportError)
    requires ValidStore(s)
    modifies writer
    ensures err.CursorLost? <==> Locate(s, cursor).Err?
    ensures err.CursorLost? ==> next == cursor && writer.output == old(writer.output) && writer.calls == old(writer.calls)
    ensures Locate(s, cursor).Ok? ==>
      && Exported(s, cursor, next, err.NoError?)
      && writer.output == old(writer.output).(written := old(writer.output.written) + ExportedItems(s, cursor, next))
    ensures err.WriteFailed? ==>
      NamesRecord(s, err.cursor) && Locate(s, err.cursor).Ok? && Behind(s, err.cursor) == Behind(s, next) + 1
    ensures Locate(s, cursor).Ok? ==> CallsMade(s, cursor, next, err, old(writer.calls), writer.calls)
  {
    hide ValidChunk;
    hide Sent;
    hide Exported;
    hide ExportedItems;
    hide NamesRecord;
    hide LocateCursor;
    hide Behind;
    hide ItemAt;
    hide Readable;
    hide Log;
    var placed := Locate(s, cursor);
    if placed.Err? {
      return cursor, CursorLost;
    }
    var (start, boundary) := placed.value;
    var skip := FirstAfter(s.chunks[start], boundary);
    var success := Newest(cursor, s.generation, s.chunks[start..]);
    StartSent(s, cursor);
    var lastWritten := cursor;
    ghost var sent: seq<Item> := [];
    assert Puts(sent) == [];
    var k := start;
    while true
      invariant start <= k < |s.chunks|
      invariant Sent(s, cursor, lastWritten, k, if k == start then skip else 0, sent)
      invariant writer.output == old(writer.output).(written := old(writer.output.written) + sent)
      invariant writer.calls == old(writer.calls) + Puts(sent)
      decreases |s.chunks| - k
    {
      var from := if k == start then skip else 0;
      for record := from to |s.chunks[k].records|
        invariant Sent(s, cursor, lastWritten, k, record, sent)
        invariant writer.output == old(writer.output).(written := old(writer.output.written) + sent)
        invariant writer.calls == old(writer.calls) + Puts(sent)
      {
        SendOne(s, cursor, lastWritten, k, record, sent);
        var recordCursor := Cursor(s.generation, s.chunks[k].sequence, record);
        var ok := writer.Write(ItemAt(s.chunks[k], record));
        if !ok {
          RecordStands(s, k, record);
          SentIsExported(s, cursor, lastWritten, k, record, sent);
          RefusedIsNext(s, cursor, lastWritten, k, record, sent);
          return lastWritten, WriteFailed(recordCursor);
        }
        lastWritten := recordCursor;
        PutsNext(sent, ItemAt(s.chunks[k], record));
        sent := sent + [ItemAt(s.chunks[k], record)];
      }
      if k + 1 == |s.chunks| {
        break;
      }
      SendBoundary(s, cursor, lastWritten, k, sent);
      k := k + 1;
    }
    SentIsExported(s, cursor, lastWritten, k, |s.chunks[k].records|, sent);
    NewestExported(s, cursor, success);
    SameItems(s, cursor, lastWritten, success);
    next, err := success, NoError;
  }

  lemma SameItems(s: Store, cursor: Cursor, left: Cursor, right: Cursor)
    requires ValidStore(s) && Locate(s, cursor).Ok? && Exported(s, cursor, left, false) && Exported(s, cursor, right, true)
    requires Behind(s, left) == Behind(s, right)
    ensures ExportedItems(s, cursor, left) == ExportedItems(s, cursor, right)
  {
  }

  // ---- The recorder ----------------------------------------------------------------------

  datatype Progress = Progress(accepted: Cursor, flushed: Cursor, output: Output)

  /** One pass: export, and, if anything was accepted, flush; any failure is reported. */
  ghost predicate PassStep(s: Store, before: Progress, after: Progress, ok: bool)
    requires ValidStore(s)
  {
    if Locate(s, before.accepted).Err? then after == before && !ok
    else exists complete :: PassFrom(s, before, after, ok, complete)
  }

  ghost predicate PassFrom(s: Store, before: Progress, after: Progress, ok: bool, complete: bool)
    requires ValidStore(s) && Locate(s, before.accepted).Ok?
  {
    && Exported(s, before.accepted, after.accepted, complete)
    && after.output.written == before.output.written + ExportedItems(s, before.accepted, after.accepted)
    && if after.accepted == before.accepted then
         after.flushed == before.flushed && after.output.delivered == before.output.delivered && ok == complete
       else
         || (after.flushed == before.flushed && after.output.delivered == before.output.delivered && !ok)
         || (after.flushed == after.accepted && after.output.delivered == after.output.written && ok == complete)
  }

  lemma MadeSucceed(s: Store, cursor: Cursor, next: Cursor, err: ExportError, before: seq<Call>, after: seq<Call>)
    requires ValidStore(s) && Locate(s, cursor).Ok? && Exported(s, cursor, next, err.NoError?)
    requires CallsMade(s, cursor, next, err, before, after)
    ensures before <= after && (AllSucceeded(after[|before|..]) <==> err.NoError?)
  {
    hide ExportedItems;
    hide LocateCursor;
    hide ValidStore;
    var puts := Puts(ExportedItems(s, cursor, next));
    if err.NoError? {
      assert after[|before|..] == puts;
    } else {
      assert after[|before|..][|puts|] == after[|before| + |puts|];
    }
  }

  lemma OneMore(calls: seq<Call>, call: Call)
    ensures AllSucceeded(calls + [call]) <==> AllSucceeded(calls) && call.ok
  {
    assert (calls + [call])[|calls|] == call;
    if AllSucceeded(calls + [call]) {
      forall i | 0 <= i < |calls|
        ensures calls[i].ok
      {
        assert (calls + [call])[i] == calls[i];
      }
    }
  }

  class Recorder {
    const writer: TraceWriter
    var accepted: Cursor
    var flushed: Cursor
    var failed: bool
    var stopping: bool

    constructor (writer: TraceWriter, from: Cursor)
      ensures this.writer == writer && accepted == flushed == from && !failed && !stopping
    {
      this.writer, accepted, flushed, failed, stopping := writer, from, from, false, false;
    }

    ghost function Reached(): Progress
      reads this, writer
    {
      Progress(accepted, flushed, writer.output)
    }

    method Pass(s: Store) returns (ok: bool)
      requires ValidStore(s)
      modifies this`accepted, this`flushed, writer
      ensures PassStep(s, old(Reached()), Reached(), ok)
      ensures old(writer.calls) <= writer.calls
      ensures ok <==> Locate(s, old(accepted)).Ok? && AllSucceeded(writer.calls[|old(writer.calls)|..])
    {
      hide ValidChunk;
      hide Exported;
      hide ExportedItems;
      hide LocateCursor;
      hide CallsMade;
      hide AllSucceeded;
      ghost var before := Reached();
      var previous := accepted;
      var next, err := WriteRecordsSince(s, previous, writer);
      accepted := next;
      if Locate(s, previous).Ok? {
        MadeSucceed(s, previous, next, err, old(writer.calls), writer.calls);
      }
      ghost var made := writer.calls[|old(writer.calls)|..];
      if next == previous {
        assert Locate(s, previous).Ok? ==> PassFrom(s, before, Reached(), err.NoError?, err.NoError?);
        return err.NoError?;
      }
      var flushOk := writer.Flush();
      OneMore(made, Flushing(flushOk));
      assert writer.calls[|old(writer.calls)|..] == made + [Flushing(flushOk)];
      if !flushOk {
        assert PassFrom(s, before, Reached(), false, err.NoError?);
        return false;
      }
      flushed := next;
      assert PassFrom(s, before, Reached(), err.NoError?, err.NoError?);
      ok := err.NoError?;
    }

    /** finish: closing the writer, when it succeeds, has flushed everything accepted. */
    method Finish(runFailed: bool)
      modifies this`flushed, this`failed, this`stopping, writer
      ensures stopping && |writer.calls| == |old(writer.calls)| + 1 && old(writer.calls) <= writer.calls
      ensures var closed := writer.calls[|old(writer.calls)|].ok;
        (failed <==> runFailed || !closed) && Reached() == FinishedAs(old(Reached()), closed)
    {
      var closed := writer.Flush();
      if closed {
        flushed := accepted;
      }
      failed := runFailed || !closed;
      stopping := true;
    }
  }

  function FinishedAs(p: Progress, closed: bool): Progress {
    if closed then p.(flushed := p.accepted, output := p.output.(delivered := p.output.written)) else p
  }
}

/**
 * What a sender makes of whatever answers reach it: how far it gets, what it has sent by then, and how it ends
 * (isotp/transmit.go).
 */
module IsoTpSending {
  import opened Wrappers
  import opened Frames
  import opened IsoTpFrame
  import opened IsoTpMessages
  import opened IsoTpMachines

  // ---- One segment -----------------------------------------------------------------------

  // The sender has handed over n segments, and stands at the end of the n-th.
  ghost predicate Stands(j: Job, s: Sender, n: nat) {
    s.payload == j.payload && s.offset == SegmentEnd(j, n) && s.sequence == (n + 1) % 16
  }

  lemma SegmentFrame(t: Transmitter, k: nat, bytes: seq<byte>)
    requires Legal(t) && 0 < |bytes| < t.transmitDataLength
    ensures var made := MadeFrame(t, ConsecutiveFrameData(k % 16, bytes), false);
      made.Ok? && IsSegment(t, k, bytes, made.value)
  {
    ConsecutiveFrameRoundTrip(t, k % 16, bytes);
    MadeFrameFits(t, ConsecutiveFrameData(k % 16, bytes), false);
    hide ParseFrame;
  }

  lemma EmitIs(t: Transmitter, s: Sender, frame: Frame)
    requires t.transmitDataLength >= 8 && SenderShape(s) && s.phase.InBlock?
    requires MadeFrame(t, ConsecutiveFrameData(s.sequence, s.payload[s.offset..ChunkEnd(t, s)]), false) == Ok(frame)
    ensures var (end, count) := (ChunkEnd(t, s), (s.blockCount + 1) % 256);
      Emit(t, s) == (Sender(BlockPhase(s.payload, end, s.blockSize, count), s.payload, end, (s.sequence + 1) % 16, count, s.blockSize), [frame])
  {
    hide MadeFrame;
    hide ChunkEnd;
  }

  lemma {:induction false} ChunkIsSegment(j: Job, s: Sender, n: nat)
    requires j.Valid() && SenderShape(s) && s.phase.InBlock? && Stands(j, s, n)
    ensures var end := ChunkEnd(j.t, s);
      && s.offset < end <= |j.payload| && end == SegmentEnd(j, n + 1)
      && j.payload[s.offset..end] == Segment(j, n + 1) && 0 < |j.payload[s.offset..end]| < j.t.transmitDataLength
  {
  }

  lemma EmitsSegment(j: Job, s: Sender, n: nat)
    requires j.Valid() && SenderShape(s) && s.phase.InBlock? && Stands(j, s, n)
    ensures var (next, sent) := Emit(j.t, s); var count := (s.blockCount + 1) % 256;
      && Stands(j, next, n + 1) && s.offset < next.offset && next.blockSize == s.blockSize && next.blockCount == count
      && next.phase == BlockPhase(j.payload, next.offset, s.blockSize, count)
      && |sent| == 1 && AreSegments(j, n, sent)
  {
    ChunkIsSegment(j, s, n);
    hide SegmentEnd;
    hide Segment;
    hide ChunkEnd;
    hide BlockPhase;
    var bytes := s.payload[s.offset..ChunkEnd(j.t, s)];
    SegmentFrame(j.t, n + 1, bytes);
    hide Legal;
    hide MadeFrame;
    hide IsSegment;
    EmitIs(j.t, s, MadeFrame(j.t, ConsecutiveFrameData(s.sequence, bytes), false).value);
    hide Emit;
    NumberNext(n + 1);
  }

  // ---- One block -------------------------------------------------------------------------

  // From s the sender comes to `next`, having sent `sent` and read nothing.
  ghost predicate Comes(j: Job, limit: nat, s: Sender, inbox: seq<Frame>, sent: seq<Frame>, next: Sender) {
    && j.Valid() && SenderShape(s) && SenderShape(next)
    && var rest := RunSender(j.t, limit, next, inbox);
    RunSender(j.t, limit, s, inbox) == SenderRun(rest.end, sent + rest.sent, rest.unread)
  }

  lemma ComesAtOnce(j: Job, limit: nat, s: Sender, inbox: seq<Frame>)
    requires j.Valid() && SenderShape(s)
    ensures Comes(j, limit, s, inbox, [], s)
  {
    hide RunSender;
    var run := RunSender(j.t, limit, s, inbox);
    assert [] + run.sent == run.sent;
  }

  lemma OneComes(j: Job, limit: nat, s: Sender, inbox: seq<Frame>)
    requires j.Valid() && SenderShape(s) && Emitting(s) && !Emit(j.t, s).0.phase.SendFailed?
    ensures Comes(j, limit, s, inbox, Emit(j.t, s).1, Emit(j.t, s).0)
  {
    hide Emit;
  }

  lemma ComesOn(j: Job, limit: nat, s: Sender, inbox: seq<Frame>, first: seq<Frame>, one: Sender, more: seq<Frame>, next: Sender)
    requires Comes(j, limit, s, inbox, first, one) && Comes(j, limit, one, inbox, more, next)
    ensures Comes(j, limit, s, inbox, first + more, next)
  {
    hide RunSender;
    assert first + (more + RunSender(j.t, limit, next, inbox).sent) == first + more + RunSender(j.t, limit, next, inbox).sent;
  }

  lemma {:induction false} SenderEnds(j: Job, limit: nat, s: Sender, inbox: seq<Frame>)
    requires j.Valid() && SenderShape(s) && (s.phase.Sent? || s.phase.SendFailed?)
    ensures RunSender(j.t, limit, s, inbox) == SenderRun(s, [], inbox)
  {
  }

  lemma {:induction false} ComesToEnd(j: Job, limit: nat, s: Sender, inbox: seq<Frame>, sent: seq<Frame>, next: Sender)
    requires j.Valid() && SenderShape(s) && SenderShape(next) && next.phase.Sent? && Comes(j, limit, s, inbox, sent, next)
    ensures RunSender(j.t, limit, s, inbox) == SenderRun(next, sent, inbox)
  {
    SenderEnds(j, limit, next, inbox);
    hide RunSender;
    assert sent + [] == sent;
  }

  lemma SegmentsJoin(j: Job, n: nat, first: seq<Frame>, more: seq<Frame>)
    requires j.Valid() && AreSegments(j, n, first) && AreSegments(j, n + |first|, more)
    ensures AreSegments(j, n, first + more)
  {
    hide IsSegment;
    hide Segment;
    var sent := first + more;
    forall i | 0 <= i < |sent|
      ensures IsSegment(j.t, n + i + 1, Segment(j, n + i + 1), sent[i])
    {
      if i >= |first| {
        var k := i - |first|;
        assert sent[i] == more[k] && n + |first| + k + 1 == n + i + 1;
      }
    }
  }

  // Where the loop guards leave a sender with room for one more segment in its block.
  lemma PhaseAfter(payload: seq<byte>, offset: nat, blockSize: byte, blockCount: byte)
    requires blockSize == 0 || blockCount < blockSize
    ensures var count := (blockCount + 1) % 256;
      && (blockSize > 0 ==> count == blockCount + 1)
      && BlockPhase(payload, offset, blockSize, count)
           == if offset == |payload| then Sent else if blockSize == 0 || count < blockSize then InBlock else AwaitingControl(0)
  {
  }

  // What the sender has done when it has handed over the rest of a block.
  ghost predicate BlockDone(j: Job, limit: nat, s: Sender, inbox: seq<Frame>, n: nat, next: Sender, sent: seq<Frame>) {
    var left := s.blockSize as int - s.blockCount as int;
    && sent != [] && SenderShape(next) && Stands(j, next, n + |sent|)
    && next.phase == (if next.offset == |j.payload| then Sent else AwaitingControl(0))
    && !Over(j, n + |sent| - 1)
    && (s.blockSize == 0 ==> next.phase.Sent?)
    && (s.blockSize > 0 ==> |sent| <= left && (next.phase.Sent? || |sent| == left))
    && AreSegments(j, n, sent)
    && Comes(j, limit, s, inbox, sent, next)
  }

  lemma BlockMore(j: Job, limit: nat, s: Sender, inbox: seq<Frame>, n: nat, first: seq<Frame>, one: Sender, more: seq<Frame>, next: Sender)
    requires j.Valid() && SenderShape(s) && SenderShape(one) && Comes(j, limit, s, inbox, first, one)
    requires |first| == 1 && AreSegments(j, n, first)
    requires one.blockSize == s.blockSize && (s.blockSize > 0 ==> one.blockCount == s.blockCount + 1)
    requires BlockDone(j, limit, one, inbox, n + 1, next, more)
    ensures BlockDone(j, limit, s, inbox, n, next, first + more)
  {
    hide Comes;
    hide AreSegments;
    hide Stands;
    hide Over;
    hide Legal;
    hide SenderShape;
    ComesOn(j, limit, s, inbox, first, one, more, next);
    SegmentsJoin(j, n, first, more);
    assert n + 1 + |more| == n + |first + more|;
  }

  // Its segments go out one behind the other, and then the sender has sent all or waits again.
  lemma {:induction false} BlockGoesOut(j: Job, limit: nat, s: Sender, inbox: seq<Frame>, n: nat) returns (next: Sender, sent: seq<Frame>)
    requires j.Valid() && SenderShape(s) && s.phase.InBlock? && Stands(j, s, n) && (s.blockSize == 0 || s.blockCount < s.blockSize)
    ensures BlockDone(j, limit, s, inbox, n, next, sent)
    decreases |j.payload| - s.offset
  {
    assert !Over(j, n) && s.offset <= |j.payload|;
    EmitsSegment(j, s, n);
    var (one, first) := Emit(j.t, s);
    PhaseAfter(j.payload, one.offset, s.blockSize, s.blockCount);
    OneComes(j, limit, s, inbox);
    assert one.offset <= |j.payload|;
    hide Emit;
    hide Comes;
    hide AreSegments;
    hide Stands;
    hide Over;
    hide Legal;
    hide BlockPhase;
    if one.phase.InBlock? {
      hide BlockDone;
      var more;
      next, more := BlockGoesOut(j, limit, one, inbox, n + 1);
      BlockMore(j, limit, s, inbox, n, first, one, more, next);
      sent := first + more;
    } else {
      next, sent := one, first;
    }
  }

  // ---- One answer ------------------------------------------------------------------------

  // The sender has read these answers, and waits for another one.
  ghost predicate Awaits(j: Job, limit: nat, seen: seq<Frame>, s: Sender) {
    && Pending(j, limit, seen) && Granted(seen).Some?
    && SenderShape(s) && s.phase == AwaitingControl(WaitsBehind(seen)) && Stands(j, s, Granted(seen).value)
  }

  function SendResult(s: Sender): Result<(), Error>
    requires s.phase.Sent? || s.phase.SendFailed?
  {
    if s.phase.Sent? then Ok(()) else Err(s.phase.error)
  }

  // A run from n segments on has read m frames of its inbox; these and the ones before are `frames`.
  ghost predicate Completes(j: Job, limit: nat, n: nat, inbox: seq<Frame>, run: SenderRun, m: nat, frames: seq<Frame>) {
    && m <= |inbox| && run.unread == inbox[m..]
    && (run.end.phase.Sent? || run.end.phase.SendFailed?)
    && Transmits(j, limit, frames, m == |inbox|, SendResult(run.end))
    && AreSegments(j, n, run.sent) && SentAsGranted(j, Granted(frames), n + |run.sent|)
  }

  // What has been read: the frames before, and the first m of the inbox.
  function ReadSoFar(seen: seq<Frame>, inbox: seq<Frame>, m: nat): seq<Frame> {
    if m <= |inbox| then seen + inbox[..m] else seen
  }

  lemma ReadOne(seen: seq<Frame>, inbox: seq<Frame>)
    requires inbox != []
    ensures ReadSoFar(seen, inbox, 1) == seen + [inbox[0]]
  {
  }

  lemma ReadMore(seen: seq<Frame>, inbox: seq<Frame>, k: nat)
    requires k < |inbox|
    ensures ReadSoFar(seen + [inbox[0]], inbox[1..], k) == ReadSoFar(seen, inbox, k + 1)
  {
  }

  // From a sender that waits, having read `seen`, to its end, when it has read m more frames.
  ghost predicate Concludes(j: Job, limit: nat, seen: seq<Frame>, s: Sender, inbox: seq<Frame>, m: nat) {
    && j.Valid() && SenderShape(s) && Granted(seen).Some? && m <= |inbox|
    && Completes(j, limit, Granted(seen).value, inbox, RunSender(j.t, limit, s, inbox), m, ReadSoFar(seen, inbox, m))
  }

  // What one answer does to a waiting sender.
  lemma ControlIs(limit: nat, waits: nat, s: Sender, frame: Frame)
    requires SenderShape(s) && s.phase == AwaitingControl(waits)
    ensures TakeControl(limit, s, frame) ==
      if IsGrant(frame) then s.(phase := InBlock, blockCount := 0, blockSize := ParseFrame(frame).value.blockSize)
      else if IsWait(frame) && waits + 1 <= limit then s.(phase := AwaitingControl(waits + 1))
      else s.(phase := SendFailed(ControlFailure(frame)))
  {
    ParseFails(frame);
    hide ParseFrame;
  }

  lemma {:induction false} ReadsControl(j: Job, limit: nat, s: Sender, inbox: seq<Frame>)
    requires j.Valid() && SenderShape(s) && s.phase.AwaitingControl? && inbox != []
    ensures RunSender(j.t, limit, s, inbox) == RunSender(j.t, limit, TakeControl(limit, s, inbox[0]), inbox[1..])
  {
    hide TakeControl;
  }

  lemma {:induction false} PendingCounts(j: Job, limit: nat, seen: seq<Frame>)
    requires j.Valid() && Pending(j, limit, seen)
    ensures Granted(seen).Some? && !Over(j, Granted(seen).value) && SentAsGranted(j, Granted(seen), Granted(seen).value)
  {
    var n := Granted(seen).value;
    hide Granted;
    if n > 0 && Over(j, n - 1) {
      SegmentsSaturate(j, n - 1, n);
    }
  }

  // A run that ends with the frame it has just read.
  lemma {:induction false} CompletesAtOnce(j: Job, limit: nat, n: nat, inbox: seq<Frame>, run: SenderRun, seen: seq<Frame>)
    requires j.Valid() && inbox != [] && run.unread == inbox[1..] && (run.end.phase.Sent? || run.end.phase.SendFailed?)
    requires Pending(j, limit, seen) && !Pending(j, limit, seen + [inbox[0]])
    requires SendResult(run.end) == if IsGrant(inbox[0]) then Ok(()) else Err(ControlFailure(inbox[0]))
    requires AreSegments(j, n, run.sent) && SentAsGranted(j, Granted(seen + [inbox[0]]), n + |run.sent|)
    ensures Completes(j, limit, n, inbox, run, 1, seen + [inbox[0]])
  {
    hide Pending;
    hide Granted;
    hide IsGrant;
    hide ControlFailure;
    hide Legal;
    hide AreSegments;
    hide SentAsGranted;
    assert Before(seen + [inbox[0]]) == seen;
  }

  lemma FailsAt(j: Job, limit: nat, seen: seq<Frame>, s: Sender, inbox: seq<Frame>)
    requires j.Valid() && Awaits(j, limit, seen, s) && inbox != [] && TakeControl(limit, s, inbox[0]).phase.SendFailed?
    ensures Concludes(j, limit, seen, s, inbox, 1)
  {
    ReadOne(seen, inbox);
    AnswerExtended(j, limit, seen, inbox[0]);
    ControlIs(limit, WaitsBehind(seen), s, inbox[0]);
    ReadsControl(j, limit, s, inbox);
    SenderEnds(j, limit, TakeControl(limit, s, inbox[0]), inbox[1..]);
    PendingCounts(j, limit, seen);
    assert !Pending(j, limit, seen + [inbox[0]]);
    assert AreSegments(j, Granted(seen).value, []);
    hide Awaits;
    hide Pending;
    hide RunSender;
    hide TakeControl;
    hide Granted;
    hide WaitsBehind;
    hide AreSegments;
    hide SentAsGranted;
    hide Completes;
    CompletesAtOnce(j, limit, Granted(seen).value, inbox, RunSender(j.t, limit, s, inbox), seen);
  }

  lemma {:induction false} WaitsOn(j: Job, limit: nat, seen: seq<Frame>, s: Sender, frame: Frame)
    requires Awaits(j, limit, seen, s) && TakeControl(limit, s, frame).phase.AwaitingControl?
    ensures Awaits(j, limit, seen + [frame], TakeControl(limit, s, frame)) && Granted(seen + [frame]) == Granted(seen)
  {
    AnswerExtended(j, limit, seen, frame);
    ControlIs(limit, WaitsBehind(seen), s, frame);
    NotBoth(frame);
    hide TakeControl;
    hide Granted;
    hide WaitsBehind;
    hide IsGrant;
    hide IsWait;
    hide SegmentEnd;
  }

  lemma NotBoth(frame: Frame)
    ensures !(IsGrant(frame) && IsWait(frame))
  {
  }

  // A grant: the block goes out, and the sender has finished or awaits the next answer.
  ghost predicate GrantUsed(j: Job, limit: nat, seen: seq<Frame>, now: seq<Frame>, next: Sender, sent: seq<Frame>) {
    && Granted(seen).Some? && AreSegments(j, Granted(seen).value, sent) && SentAsGranted(j, Granted(now), Granted(seen).value + |sent|)
    && if next.phase.Sent? then Enough(j, now) else Awaits(j, limit, now, next) && Granted(now) == Some(Granted(seen).value + |sent|)
  }

  lemma {:induction false} UseGrant(j: Job, limit: nat, seen: seq<Frame>, frame: Frame, granted: Sender, inbox: seq<Frame>, next: Sender, sent: seq<Frame>)
    requires j.Valid() && Pending(j, limit, seen) && Granted(seen).Some? && IsGrant(frame)
    requires SenderShape(granted) && granted.blockCount == 0 && granted.blockSize == ParseFrame(frame).value.blockSize
    requires BlockDone(j, limit, granted, inbox, Granted(seen).value, next, sent)
    ensures GrantUsed(j, limit, seen, seen + [frame], next, sent)
  {
    hide Legal;
    hide AreSegments;
    hide Comes;
    hide Granted;
    hide WaitsBehind;
    hide IsGrant;
    hide IsWait;
    hide ParseFrame;
    hide SentAsGranted;
    hide SegmentEnd;
    AnswerExtended(j, limit, seen, frame);
    NotBoth(frame);
    UsesAll(j, Granted(seen).value + |sent|, Granted(seen + [frame]));
  }

  lemma UsesAll(j: Job, n: nat, granted: Option<nat>)
    requires j.Valid() && n > 0 && !Over(j, n - 1) && (granted.Some? ==> n <= granted.value) && (granted == Some(n) || Over(j, n))
    ensures SentAsGranted(j, granted, n)
    ensures Over(j, n) && granted.Some? ==> Over(j, granted.value)
  {
    hide SegmentEnd;
    hide Legal;
    if Over(j, n) && granted.Some? {
      SegmentsSaturate(j, n, granted.value);
    }
  }

  lemma GrantsOn(j: Job, limit: nat, seen: seq<Frame>, s: Sender, frame: Frame, inbox: seq<Frame>) returns (next: Sender, sent: seq<Frame>)
    requires j.Valid() && Awaits(j, limit, seen, s) && TakeControl(limit, s, frame).phase.InBlock?
    ensures Granted(seen).Some? && IsGrant(frame)
    ensures SenderShape(next) && Comes(j, limit, TakeControl(limit, s, frame), inbox, sent, next)
    ensures GrantUsed(j, limit, seen, seen + [frame], next, sent)
  {
    ControlIs(limit, WaitsBehind(seen), s, frame);
    hide Granted;
    hide WaitsBehind;
    hide IsWait;
    hide Pending;
    hide SegmentEnd;
    var granted := TakeControl(limit, s, frame);
    assert Stands(j, granted, Granted(seen).value);
    hide TakeControl;
    hide Stands;
    hide IsGrant;
    next, sent := BlockGoesOut(j, limit, granted, inbox, Granted(seen).value);
    UseGrant(j, limit, seen, frame, granted, inbox, next, sent);
    hide GrantUsed;
    hide Comes;
  }

  // ---- All answers -----------------------------------------------------------------------

  lemma SilenceEnds(j: Job, limit: nat, seen: seq<Frame>, s: Sender)
    requires j.Valid() && Awaits(j, limit, seen, s)
    ensures Concludes(j, limit, seen, s, [], 0)
  {
    hide Pending;
    hide Granted;
    hide Legal;
    hide SentAsGranted;
    hide Stands;
    assert ReadSoFar(seen, [], 0) == seen;
    PendingCounts(j, limit, seen);
  }

  lemma {:induction false} EndsGranted(j: Job, limit: nat, seen: seq<Frame>, s: Sender, inbox: seq<Frame>, next: Sender, sent: seq<Frame>)
    requires j.Valid() && Awaits(j, limit, seen, s) && inbox != [] && IsGrant(inbox[0])
    requires SenderShape(next) && next.phase.Sent? && Comes(j, limit, TakeControl(limit, s, inbox[0]), inbox[1..], sent, next)
    requires Granted(seen).Some? && AreSegments(j, Granted(seen).value, sent) && Enough(j, seen + [inbox[0]])
    requires SentAsGranted(j, Granted(seen + [inbox[0]]), Granted(seen).value + |sent|)
    ensures Concludes(j, limit, seen, s, inbox, 1)
  {
    hide Enough;
    hide IsGrant;
    hide Legal;
    hide Granted;
    hide Comes;
    hide TakeControl;
    hide RunSender;
    hide AreSegments;
    hide SentAsGranted;
    hide Completes;
    ReadOne(seen, inbox);
    ComesToEnd(j, limit, TakeControl(limit, s, inbox[0]), inbox[1..], sent, next);
    ReadsControl(j, limit, s, inbox);
    assert Pending(j, limit, seen) && !Pending(j, limit, seen + [inbox[0]]);
    hide Awaits;
    hide Pending;
    hide SenderShape;
    CompletesAtOnce(j, limit, Granted(seen).value, inbox, RunSender(j.t, limit, s, inbox), seen);
  }

  // What is still to come completes what has been done.
  lemma {:induction false} CompletesOn(j: Job, limit: nat, n: nat, s: Sender, inbox: seq<Frame>, sent: seq<Frame>, next: Sender, m: nat, frames: seq<Frame>)
    requires j.Valid() && SenderShape(s) && s.phase.AwaitingControl? && SenderShape(next) && inbox != []
    requires Comes(j, limit, TakeControl(limit, s, inbox[0]), inbox[1..], sent, next) && AreSegments(j, n, sent)
    requires Completes(j, limit, n + |sent|, inbox[1..], RunSender(j.t, limit, next, inbox[1..]), m, frames)
    ensures Completes(j, limit, n, inbox, RunSender(j.t, limit, s, inbox), m + 1, frames)
  {
    ReadsControl(j, limit, s, inbox);
    SegmentsJoin(j, n, sent, RunSender(j.t, limit, next, inbox[1..]).sent);
    assert inbox[1..][m..] == inbox[m + 1..];
    hide RunSender;
    hide TakeControl;
    hide Transmits;
    hide AreSegments;
    hide SentAsGranted;
    hide Granted;
    hide Legal;
  }

  lemma {:induction false} ConcludesOn(j: Job, limit: nat, seen: seq<Frame>, s: Sender, inbox: seq<Frame>, sent: seq<Frame>, next: Sender, k: nat)
    requires s.phase.AwaitingControl? && SenderShape(s) && inbox != [] && k < |inbox|
    requires Comes(j, limit, TakeControl(limit, s, inbox[0]), inbox[1..], sent, next)
    requires Granted(seen).Some? && AreSegments(j, Granted(seen).value, sent)
    requires Granted(seen + [inbox[0]]) == Some(Granted(seen).value + |sent|)
    requires Concludes(j, limit, seen + [inbox[0]], next, inbox[1..], k)
    ensures Concludes(j, limit, seen, s, inbox, k + 1)
  {
    hide Comes;
    hide RunSender;
    hide TakeControl;
    hide AreSegments;
    hide Granted;
    hide SenderShape;
    hide Completes;
    hide Legal;
    hide ReadSoFar;
    ReadMore(seen, inbox, k);
    CompletesOn(j, limit, Granted(seen).value, s, inbox, sent, next, k, ReadSoFar(seen, inbox, k + 1));
  }

  lemma {:induction false} AnswerKinds(j: Job, limit: nat, seen: seq<Frame>, s: Sender, frame: Frame)
    requires Awaits(j, limit, seen, s)
    ensures Granted(seen).Some? && SenderShape(s) && s.phase.AwaitingControl? && SenderShape(TakeControl(limit, s, frame))
    ensures var phase := TakeControl(limit, s, frame).phase; phase.InBlock? || phase.AwaitingControl? || phase.SendFailed?
  {
    hide Pending;
    hide WaitsBehind;
    hide Granted;
    hide Stands;
    hide IsGrant;
    hide IsWait;
    hide ControlFailure;
    ControlIs(limit, WaitsBehind(seen), s, frame);
    hide TakeControl;
  }

  lemma NoSegments(j: Job, n: nat)
    ensures AreSegments(j, n, [])
  {
  }

  // One answer that does not fail the transmission, with all that the sender does before the next one.
  lemma AnswerUsed(j: Job, limit: nat, seen: seq<Frame>, s: Sender, inbox: seq<Frame>) returns (next: Sender, sent: seq<Frame>)
    requires j.Valid() && Awaits(j, limit, seen, s) && inbox != [] && !TakeControl(limit, s, inbox[0]).phase.SendFailed?
    ensures Granted(seen).Some? && SenderShape(next) && SenderShape(TakeControl(limit, s, inbox[0]))
    ensures Comes(j, limit, TakeControl(limit, s, inbox[0]), inbox[1..], sent, next) && AreSegments(j, Granted(seen).value, sent)
    ensures next.phase.Sent? ==>
      IsGrant(inbox[0]) && Enough(j, seen + [inbox[0]]) && SentAsGranted(j, Granted(seen + [inbox[0]]), Granted(seen).value + |sent|)
    ensures !next.phase.Sent? ==>
      Awaits(j, limit, seen + [inbox[0]], next) && Granted(seen + [inbox[0]]) == Some(Granted(seen).value + |sent|)
  {
    hide Awaits;
    hide TakeControl;
    hide SenderShape;
    hide Granted;
    hide Comes;
    hide AreSegments;
    hide Enough;
    hide IsGrant;
    hide SentAsGranted;
    AnswerKinds(j, limit, seen, s, inbox[0]);
    var control := TakeControl(limit, s, inbox[0]);
    if control.phase.AwaitingControl? {
      next, sent := control, [];
      WaitsOn(j, limit, seen, s, inbox[0]);
      ComesAtOnce(j, limit, control, inbox[1..]);
      NoSegments(j, Granted(seen).value);
    } else {
      next, sent := GrantsOn(j, limit, seen, s, inbox[0], inbox[1..]);
    }
  }

  lemma {:induction false} AnswersRead(j: Job, limit: nat, seen: seq<Frame>, s: Sender, inbox: seq<Frame>) returns (m: nat)
    requires j.Valid() && Awaits(j, limit, seen, s)
    ensures Concludes(j, limit, seen, s, inbox, m)
    decreases |inbox|
  {
    assert SenderShape(s) && s.phase.AwaitingControl?;
    hide Concludes;
    hide Granted;
    hide TakeControl;
    hide Awaits;
    hide SenderShape;
    hide Comes;
    hide AreSegments;
    hide SentAsGranted;
    hide Enough;
    hide IsGrant;
    if inbox == [] {
      m := 0;
      SilenceEnds(j, limit, seen, s);
    } else if TakeControl(limit, s, inbox[0]).phase.SendFailed? {
      m := 1;
      FailsAt(j, limit, seen, s, inbox);
    } else {
      var next, sent := AnswerUsed(j, limit, seen, s, inbox);
      if next.phase.Sent? {
        m := 1;
        EndsGranted(j, limit, seen, s, inbox, next, sent);
      } else {
        var k := AnswersRead(j, limit, seen + [inbox[0]], next, inbox[1..]);
        m := k + 1;
        ConcludesIn(j, limit, seen + [inbox[0]], next, inbox[1..], k);
        ConcludesOn(j, limit, seen, s, inbox, sent, next, k);
      }
    }
  }

  lemma ConcludesIn(j: Job, limit: nat, seen: seq<Frame>, s: Sender, inbox: seq<Frame>, m: nat)
    requires Concludes(j, limit, seen, s, inbox, m)
    ensures m <= |inbox|
  {
  }

  // ---- A whole transmission --------------------------------------------------------------

  function JobOf(t: Transmitter, tx: Transmission): Job
    requires t.transmitDataLength >= 1
  {
    Job(t, tx.payload, tx.offset, t.transmitDataLength - 1)
  }

  /**
   * What a sender has done when it has read n frames: one frame for a payload that fits, or the First Frame and as many
   * segments as the answers it has read granted, in order, with the result these answers ask for.
   */
  ghost predicate Delivers(t: Transmitter, limit: nat, tx: Transmission, inbox: seq<Frame>, n: nat, sent: seq<Frame>, r: Result<(), Error>)
    requires Legal(t) && tx.offset <= |tx.payload|
  {
    && n <= |inbox| && sent != [] && sent[0] == tx.firstFrame
    && if !tx.multiFrame then n == 0 && |sent| == 1 && r == Ok(())
       else
         && Transmits(JobOf(t, tx), limit, inbox[..n], n == |inbox|, r)
         && AreSegments(JobOf(t, tx), 0, sent[1..]) && SentAsGranted(JobOf(t, tx), Granted(inbox[..n]), |sent| - 1)
  }

  /** The sender, on whatever frames reach it in time. */
  lemma TransmissionIsExact(t: Transmitter, limit: nat, tx: Transmission, inbox: seq<Frame>) returns (n: nat)
    requires Legal(t) && tx.offset <= |tx.payload| && (tx.multiFrame ==> tx.offset < |tx.payload|)
    ensures var run := RunSender(t, limit, NewSender(tx), inbox);
      && n <= |inbox| && run.unread == inbox[n..] && (run.end.phase.Sent? || run.end.phase.SendFailed?)
      && Delivers(t, limit, tx, inbox, n, run.sent, SendResult(run.end))
  {
    var (j, s) := (JobOf(t, tx), NewSender(tx));
    assert j.Valid();
    var one := Emit(t, s).0;
    var rest := RunSender(t, limit, one, inbox);
    assert RunSender(t, limit, s, inbox) == SenderRun(rest.end, [tx.firstFrame] + rest.sent, rest.unread);
    if tx.multiFrame {
      assert Awaits(j, limit, [], one);
      hide RunSender;
      n := AnswersRead(j, limit, [], one, inbox);
      assert ReadSoFar([], inbox, n) == inbox[..n] && ([tx.firstFrame] + rest.sent)[1..] == rest.sent;
    } else {
      n := 0;
      SenderEnds(j, limit, one, inbox);
    }
  }

  // ---- A whole payload -------------------------------------------------------------------

  /** The first frame of a segmented payload announces its length and carries its first bytes. */
  predicate IsFirst(t: Transmitter, payload: seq<byte>, offset: nat, frame: Frame) {
    && 0 < offset < |payload| && frame.Valid() && frame.id == t.transmitID
    && ParseFrame(frame) == Ok(FirstFrame(|payload|, payload[..offset], t.transmitDataLength))
  }

  /**
   * What a Send does that has read the first n frames of the inbox: nothing for a payload it refuses; one Single Frame
   * for one that fits; otherwise a First Frame and as many segments as granted, of the rest of the payload in order.
   */
  ghost predicate Sends(t: Transmitter, limit: nat, payload: seq<byte>, inbox: seq<Frame>, n: nat, sent: seq<Frame>, r: Result<(), Error>) {
    if payload == [] then n == 0 && sent == [] && r == Err(ErrEmptyPayload)
    else if |payload| > t.maximumPayloadLength then n == 0 && sent == [] && r == Err(ErrPayloadTooLarge)
    else if |sent| == 1 && sent[0].Valid() && ParseFrame(sent[0]) == Ok(SingleFrame(payload)) then
      n == 0 && sent[0].id == t.transmitID && r == Ok(())
    else
      exists offset: nat :: SendsSegmented(t, limit, payload, offset, inbox, n, sent, r)
  }

  ghost predicate SendsSegmented(t: Transmitter, limit: nat, payload: seq<byte>, offset: nat, inbox: seq<Frame>, n: nat,
                                 sent: seq<Frame>, r: Result<(), Error>)
  {
    && t.transmitDataLength >= 1 && n <= |inbox| && sent != [] && IsFirst(t, payload, offset, sent[0])
    && var j := Job(t, payload, offset, t.transmitDataLength - 1);
    && Transmits(j, limit, inbox[..n], n == |inbox|, r)
    && AreSegments(j, 0, sent[1..]) && SentAsGranted(j, Granted(inbox[..n]), |sent| - 1)
  }

  /** Segments that reach the end carry the whole rest of the payload. */
  lemma {:induction false} SegmentsAreAll(j: Job, n: nat)
    requires j.Valid()
    ensures j.offset <= SegmentEnd(j, n) <= |j.payload|
    ensures j.payload[..j.offset] + Joined(j, n) == j.payload[..SegmentEnd(j, n)]
  {
    hide Legal;
    hide SegmentEnd;
    SegmentEndGrows(j, n);
    if n > 0 {
      SegmentsAreAll(j, n - 1);
      JoinNext(j.payload, j.offset, SegmentEnd(j, n - 1), SegmentEnd(j, n), Joined(j, n - 1));
    }
  }

  lemma SegmentEndGrows(j: Job, n: nat)
    requires j.Valid()
    ensures SegmentEnd(j, 0) == j.offset && j.offset <= SegmentEnd(j, n) <= |j.payload|
    ensures n > 0 ==> SegmentEnd(j, n - 1) <= SegmentEnd(j, n)
  {
    hide Legal;
  }

  lemma JoinNext(payload: seq<byte>, offset: nat, from: nat, end: nat, joined: seq<byte>)
    requires offset <= from <= end <= |payload| && payload[..offset] + joined == payload[..from]
    ensures payload[..offset] + (joined + payload[from..end]) == payload[..end]
  {
    assert payload[..from] + payload[from..end] == payload[..end];
    assert payload[..offset] + joined + payload[from..end] == payload[..offset] + (joined + payload[from..end]);
  }

  function Joined(j: Job, n: nat): seq<byte> {
    if n == 0 then [] else Joined(j, n - 1) + Segment(j, n)
  }

  lemma PreparedIsSent(t: Transmitter, limit: nat, payload: seq<byte>, inbox: seq<Frame>)
    requires Legal(t)
    ensures var prepared := PreparedTransmission(t, payload);
      && (prepared.Err? ==> Sends(t, limit, payload, inbox, 0, [], Err(prepared.error)))
      && (prepared.Ok? ==> SenderShape(NewSender(prepared.value)))
  {
    if 0 < |payload| <= t.maximumPayloadLength {
      if FitsSingleFrame(t, payload) {
        SingleFrameRoundTrip(t, payload);
      } else {
        FirstFrameRoundTrip(t, payload);
      }
    }
    hide MadeFrame;
    hide ParseFrame;
    hide SendsSegmented;
  }

  lemma FramesCarryId(t: Transmitter, data: seq<byte>, fullLength: bool)
    ensures MadeFrame(t, data, fullLength).Ok? ==> MadeFrame(t, data, fullLength).value.id == t.transmitID
  {
  }

  lemma DeliveredIsSent(t: Transmitter, limit: nat, payload: seq<byte>, inbox: seq<Frame>, n: nat, sent: seq<Frame>, r: Result<(), Error>)
    requires Legal(t) && PreparedTransmission(t, payload).Ok?
    requires var tx := PreparedTransmission(t, payload).value;
      tx.offset <= |tx.payload| && Delivers(t, limit, tx, inbox, n, sent, r)
    ensures Sends(t, limit, payload, inbox, n, sent, r)
  {
    hide ParseFrame;
    hide Granted;
    hide Transmits;
    hide AreSegments;
    hide SentAsGranted;
    var tx := PreparedTransmission(t, payload).value;
    if FitsSingleFrame(t, payload) {
      SingleFrameRoundTrip(t, payload);
      FramesCarryId(t, SingleFrameData(t, payload), false);
      hide MadeFrame;
    } else {
      FirstFrameRoundTrip(t, payload);
      FramesCarryId(t, FirstFrameData(t, payload), true);
      hide MadeFrame;
      assert SendsSegmented(t, limit, payload, tx.offset, inbox, n, sent, r);
    }
  }
}

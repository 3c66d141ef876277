/**
 * What a receiver makes of whatever frames reach it: one message, or the reason there is none, and the flow control it
 * sends (isotp/receive.go).
 */
module IsoTpReception {
  import opened Wrappers
  import opened Frames
  import opened IsoTpFrame
  import opened IsoTpMessages
  import opened IsoTpMachines

  // ---- What the receiver makes of its frames ---------------------------------------------

  function ResultOf(r: Receiver): Result<seq<byte>, Error>
    requires r.phase.Delivered? || r.phase.ReceiveFailed?
  {
    if r.phase.Delivered? then Ok(r.payload) else Err(r.phase.error)
  }

  // The receiver has read these frames of a message, and waits for more.
  ghost predicate Follows(e: Endpoint, seen: seq<Frame>, r: Receiver)
  {
    && Partial(e.transmitter.maximumPayloadLength, seen)
    && var first := ParseFrame(seen[0]).value;
    r == Receiver(Reassembling, first.length, first.dataLength, |seen| % 16, BlockCount(e.blockSize, |seen| - 1),
                  Carried(e.transmitter.maximumPayloadLength, seen))
  }

  function BlockCount(blockSize: byte, consecutive: nat): byte {
    if blockSize == 0 then consecutive % 256 else consecutive % blockSize
  }

  lemma CountUp(n: nat, d: nat)
    requires d > 0
    ensures n % d + 1 == d ==> (n + 1) / d == n / d + 1 && (n + 1) % d == 0
    ensures n % d + 1 < d ==> (n + 1) / d == n / d && (n + 1) % d == n % d + 1
  {
    var (q, rest) := (n / d, n % d);
    assert n == q * d + rest;
    if rest + 1 == d {
      assert (q + 1) * d == q * d + d;
      QuotientOf(n + 1, d, q + 1, 0);
    } else {
      QuotientOf(n + 1, d, q, rest + 1);
    }
  }

  lemma QuotientOf(n: nat, d: nat, q: nat, rest: nat)
    requires d > 0 && n == q * d + rest && rest < d
    ensures n / d == q && n % d == rest
  {
    var k := n / d;
    assert n == k * d + n % d;
    assert k < q ==> (k + 1) * d <= q * d && (k + 1) * d == k * d + d;
    assert k > q ==> (q + 1) * d <= k * d && (q + 1) * d == q * d + d;
  }

  lemma BlockCountNext(blockSize: byte, consecutive: nat)
    ensures var count := (BlockCount(blockSize, consecutive) + 1) % 256;
      BlockCount(blockSize, consecutive + 1) == if blockSize > 0 && count == blockSize then 0 else count
    ensures blockSize > 0 ==>
      (consecutive + 1) / blockSize == consecutive / blockSize + if (BlockCount(blockSize, consecutive) + 1) % 256 == blockSize then 1 else 0
  {
    if blockSize == 0 {
      CountUp(consecutive, 256);
    } else {
      CountUp(consecutive, blockSize);
    }
  }

  lemma FollowsShape(e: Endpoint, seen: seq<Frame>, r: Receiver)
    requires Follows(e, seen, r)
    ensures ReceiverShape(r) && r.phase.Reassembling? && seen != []
  {
  }

  ghost predicate AllControl(e: Endpoint, sent: seq<Frame>, status: FlowStatus) {
    forall i :: 0 <= i < |sent| ==> IsControl(sent[i], status, e.blockSize, e.separationTime)
  }

  function NextCount(e: Endpoint, r: Receiver): byte {
    (r.blockCount + 1) % 256
  }

  // A Consecutive Frame with the expected number.
  lemma TakeStep(e: Endpoint, r: Receiver, pdu: Pdu)
    requires Legal(e.transmitter) && ReceiverShape(r) && r.phase.Reassembling? && pdu.ConsecutiveFrame? && pdu.sequence == r.expected
    ensures var (next, sent) := AcceptConsecutive(e, r, pdu);
      var bytes := r.payload + pdu.payload;
      var granted := e.blockSize > 0 && NextCount(e, r) == e.blockSize;
      if |bytes| >= r.total then next.phase.Delivered? && next.payload == bytes[..r.total] && sent == []
      else if pdu.dataLength != r.dataLength then next.phase == ReceiveFailed(ErrProtocol) && sent == []
      else
        && next == Receiver(Reassembling, r.total, r.dataLength, (r.expected + 1) % 16, if granted then 0 else NextCount(e, r), bytes)
        && |sent| == (if granted then 1 else 0) && AllControl(e, sent, FlowContinue)
  {
    FlowControlRoundTrip(e.transmitter, FlowContinue, e.blockSize, e.separationTime);
    hide ParseFrame;
    hide MadeFrame;
    hide Legal;
    var (bytes, remaining) := (r.payload + pdu.payload, r.total - |r.payload|);
    assert |bytes| >= r.total ==> bytes[..r.total] == r.payload + pdu.payload[..remaining];
  }

  // One frame behind n others, in the terms of the message it belongs to.
  lemma AcceptStep(e: Endpoint, n: nat, r: Receiver, frame: Frame)
    requires Legal(e.transmitter) && ReceiverShape(r) && r.phase.Reassembling? && r.expected == n % 16
    ensures !Fits(n, frame) ==> Accept(e, r, frame) == (r.(phase := ReceiveFailed(ErrProtocol)), [])
    ensures Fits(n, frame) ==> Accept(e, r, frame) == AcceptConsecutive(e, r, ParseFrame(frame).value)
  {
    ParseFails(frame);
    hide ParseFrame;
  }

  ghost predicate Reads(e: Endpoint, frames: seq<Frame>, next: Receiver)
  {
    var maximum := e.transmitter.maximumPayloadLength;
    match next.phase
    case Reassembling => Follows(e, frames, next)
    case Delivered => Segments(maximum, frames) && next.payload == PayloadOf(maximum, frames)
    case ReceiveFailed(error) => error == ErrProtocol && !Partial(maximum, frames) && !Message(maximum, frames)
    case Idle => false
  }

  lemma GrowReads(e: Endpoint, seen: seq<Frame>, r: Receiver, frame: Frame)
    requires Legal(e.transmitter) && Follows(e, seen, r) && ReceiverShape(r)
    requires Partial(e.transmitter.maximumPayloadLength, seen + [frame])
    ensures Follows(e, seen + [frame], Accept(e, r, frame).0)
  {
    hide Accept;
    hide Partial;
    hide Announces;
    hide Single;
    hide Segments;
    hide InSequence;
    hide Carried;
    hide ParseFrame;
    hide AcceptConsecutive;
    hide BlockCount;
    hide Legal;
    hide ReceiverShape;
    hide AllControl;
    FollowsShape(e, seen, r);
    Extended(e.transmitter.maximumPayloadLength, seen, frame);
    AcceptStep(e, |seen|, r, frame);
    TakeStep(e, r, ParseFrame(frame).value);
    BlockCountNext(e.blockSize, |seen| - 1);
    NumberNext(|seen|);
    assert |seen + [frame]| - 1 == |seen| - 1 + 1;
  }

  lemma FinishReads(e: Endpoint, seen: seq<Frame>, r: Receiver, frame: Frame)
    requires Legal(e.transmitter) && Follows(e, seen, r) && ReceiverShape(r)
    requires Segments(e.transmitter.maximumPayloadLength, seen + [frame])
    ensures var next := Accept(e, r, frame).0;
      next.phase.Delivered? && next.payload == PayloadOf(e.transmitter.maximumPayloadLength, seen + [frame])
  {
    Extended(e.transmitter.maximumPayloadLength, seen, frame);
    AcceptStep(e, |seen|, r, frame);
    hide Accept;
    hide Partial;
    hide Segments;
    hide InSequence;
    hide Carried;
    hide ParseFrame;
    hide PayloadOf;
    TakeStep(e, r, ParseFrame(frame).value);
    hide AcceptConsecutive;
    hide BlockCount;
    hide Legal;
  }

  lemma BreakReads(e: Endpoint, seen: seq<Frame>, r: Receiver, frame: Frame)
    requires Legal(e.transmitter) && Follows(e, seen, r) && ReceiverShape(r)
    requires !Segments(e.transmitter.maximumPayloadLength, seen + [frame])
    requires !Partial(e.transmitter.maximumPayloadLength, seen + [frame])
    ensures Accept(e, r, frame).0.phase == ReceiveFailed(ErrProtocol)
  {
    Extended(e.transmitter.maximumPayloadLength, seen, frame);
    AcceptStep(e, |seen|, r, frame);
    hide Accept;
    hide Partial;
    hide Segments;
    hide InSequence;
    hide Carried;
    hide ParseFrame;
    if Fits(|seen|, frame) {
      TakeStep(e, r, ParseFrame(frame).value);
    }
    hide AcceptConsecutive;
    hide BlockCount;
    hide Legal;
  }

  lemma AcceptReads(e: Endpoint, seen: seq<Frame>, r: Receiver, frame: Frame)
    requires Legal(e.transmitter) && Follows(e, seen, r)
    ensures ReceiverShape(r) && r.phase.Reassembling?
    ensures Reads(e, seen + [frame], Accept(e, r, frame).0)
  {
    var maximum := e.transmitter.maximumPayloadLength;
    FollowsShape(e, seen, r);
    assert r.phase.Reassembling?;
    hide Partial;
    Extended(maximum, seen, frame);
    hide Accept;
    hide Legal;
    hide ParseFrame;
    hide Segments;
    hide PayloadOf;
    hide Follows;
    if Partial(maximum, seen + [frame]) {
      GrowReads(e, seen, r, frame);
      FollowsShape(e, seen + [frame], Accept(e, r, frame).0);
    } else if Segments(maximum, seen + [frame]) {
      FinishReads(e, seen, r, frame);
    } else {
      BreakReads(e, seen, r, frame);
    }
  }

  lemma AcceptGrants(e: Endpoint, seen: seq<Frame>, r: Receiver, frame: Frame)
    requires Legal(e.transmitter) && Follows(e, seen, r) && ReceiverShape(r)
    ensures var sent := Accept(e, r, frame).1; var maximum := e.transmitter.maximumPayloadLength;

      && |sent| == Grants(maximum, e.blockSize, seen + [frame]) - Grants(maximum, e.blockSize, seen)
      && AllControl(e, sent, FlowContinue)
  {
    var maximum := e.transmitter.maximumPayloadLength;
    Extended(maximum, seen, frame);
    AcceptStep(e, |seen|, r, frame);
    PartialAnnounces(maximum, seen);
    hide Accept;
    hide ParseFrame;
    hide Partial;
    hide Segments;
    hide InSequence;
    hide Announces;
    hide Single;
    hide Carried;
    hide IsControl;
    assert |seen| - 1 + 1 == |seen|;
    if Fits(|seen|, frame) {
      TakeStep(e, r, ParseFrame(frame).value);
      BlockCountNext(e.blockSize, |seen| - 1);
      hide AcceptConsecutive;
      hide BlockCount;
      hide Legal;
      hide ReceiverShape;
    }
  }

  lemma PartialAnnounces(maximum: nat, seen: seq<Frame>)
    requires Partial(maximum, seen)
    ensures seen != [] && Announces(maximum, seen)
  {
  }

  // A run has read the first n frames of its inbox, and its end is the result of a reception of `frames`.
  ghost predicate Ends(e: Endpoint, inbox: seq<Frame>, run: ReceiverRun, n: nat, frames: seq<Frame>)
  {
    && n <= |inbox| && run.unread == inbox[n..]
    && (run.end.phase.Delivered? || run.end.phase.ReceiveFailed?)
    && Receives(e.transmitter.maximumPayloadLength, frames, n == |inbox|, ResultOf(run.end))
  }

  lemma {:induction false} RunGoesOn(e: Endpoint, r: Receiver, inbox: seq<Frame>)
    requires ReceiverShape(r) && Listening(r) && inbox != []
    ensures var (next, sent) := Accept(e, r, inbox[0]); var rest := RunReceiver(e, next, inbox[1..]);
      RunReceiver(e, r, inbox) == ReceiverRun(rest.end, sent + rest.sent, rest.unread)
  {
    hide Accept;
  }

  lemma {:induction false} SilenceReads(e: Endpoint, seen: seq<Frame>, r: Receiver)
    requires Follows(e, seen, r) && ReceiverShape(r)
    ensures Ends(e, [], RunReceiver(e, r, []), 0, seen) && RunReceiver(e, r, []).sent == []
  {
    FollowsNotOver(e, seen, r);
    hide Partial;
    hide Message;
  }

  lemma {:induction false} ReassemblyReads(e: Endpoint, seen: seq<Frame>, r: Receiver, inbox: seq<Frame>) returns (n: nat)
    requires Legal(e.transmitter) && Follows(e, seen, r) && ReceiverShape(r)
    ensures n <= |inbox|
    ensures var run := RunReceiver(e, r, inbox); var maximum := e.transmitter.maximumPayloadLength;
      && Ends(e, inbox, run, n, seen + inbox[..n])
      && |run.sent| == Grants(maximum, e.blockSize, seen + inbox[..n]) - Grants(maximum, e.blockSize, seen)
      && AllControl(e, run.sent, FlowContinue)
    decreases |inbox|
  {
    hide Accept;
    hide Legal;
    hide IsControl;
    hide Grants;
    hide Receives;
    FollowsNotOver(e, seen, r);
    if inbox == [] {
      SilenceReads(e, seen, r);
      n := 0;
      assert seen + inbox[..n] == seen;
    } else {
      hide Follows;
      var next := Accept(e, r, inbox[0]).0;
      AcceptReads(e, seen, r, inbox[0]);
      AcceptGrants(e, seen, r, inbox[0]);
      RunGoesOn(e, r, inbox);
      hide RunReceiver;
      if next.phase.Reassembling? {
        var m := ReassemblyReads(e, seen + [inbox[0]], next, inbox[1..]);
        n := m + 1;
        assert seen + [inbox[0]] + inbox[1..][..m] == seen + inbox[..n];
        assert inbox[1..][m..] == inbox[n..];
      } else {
        n := 1;
        assert seen + [inbox[0]] == seen + inbox[..1];
        EndsAtOnce(e, seen, inbox, r, next);
      }
    }
  }

  lemma FollowsNotOver(e: Endpoint, seen: seq<Frame>, r: Receiver)
    requires Follows(e, seen, r)
    ensures seen != [] && r.phase.Reassembling? && Partial(e.transmitter.maximumPayloadLength, seen)
    ensures !Message(e.transmitter.maximumPayloadLength, seen)
  {
  }

  lemma {:induction false} EndsAtOnce(e: Endpoint, seen: seq<Frame>, inbox: seq<Frame>, r: Receiver, next: Receiver)
    requires Follows(e, seen, r) && ReceiverShape(r) && inbox != []
    requires next == Accept(e, r, inbox[0]).0 && !Listening(next)
    requires Reads(e, seen + [inbox[0]], next)
    ensures RunReceiver(e, r, inbox) == ReceiverRun(next, Accept(e, r, inbox[0]).1, inbox[1..])
    ensures Ends(e, inbox, RunReceiver(e, r, inbox), 1, seen + [inbox[0]])
  {
    FollowsNotOver(e, seen, r);
    hide Accept;
    hide Partial;
    hide Message;
    hide PayloadOf;
    assert Before(seen + [inbox[0]]) == seen;
    assert RunReceiver(e, next, inbox[1..]) == ReceiverRun(next, [], inbox[1..]);
    assert Accept(e, r, inbox[0]).1 + [] == Accept(e, r, inbox[0]).1;
  }

  // The First Frame of a segmented message within the limit opens a reassembly.
  lemma FirstOpens(e: Endpoint, frame: Frame)
    requires Legal(e.transmitter) && Announces(e.transmitter.maximumPayloadLength, [frame])
    ensures var (next, sent) := Accept(e, NEW_RECEIVER, frame); var maximum := e.transmitter.maximumPayloadLength;
      && Follows(e, [frame], next) && ReceiverShape(next)
      && |sent| == 1 == Grants(maximum, e.blockSize, [frame]) && AllControl(e, sent, FlowContinue)
  {
    FlowControlRoundTrip(e.transmitter, FlowContinue, e.blockSize, e.separationTime);
    hide ParseFrame;
    hide MadeFrame;
    hide Legal;
    assert e.blockSize > 0 ==> 0 / e.blockSize == 0;
  }

  // Every other frame ends the reception at once.
  lemma FirstEnds(e: Endpoint, frame: Frame)
    requires Legal(e.transmitter) && !Announces(e.transmitter.maximumPayloadLength, [frame])
    ensures var (next, sent) := Accept(e, NEW_RECEIVER, frame); var maximum := e.transmitter.maximumPayloadLength;
      && !Listening(next) && Receives(maximum, [frame], false, ResultOf(next))
      && Answers(maximum, e.blockSize, e.separationTime, [frame], sent)
  {
    FlowControlRoundTrip(e.transmitter, FlowOverflow, e.blockSize, e.separationTime);
    ParseFails(frame);
    hide ParseFrame;
    hide MadeFrame;
    hide Legal;
  }

  ghost predicate Exact(e: Endpoint, inbox: seq<Frame>, n: nat)
  {
    && n <= |inbox|
    && var run := RunReceiver(e, NEW_RECEIVER, inbox);
    && Ends(e, inbox, run, n, inbox[..n])
    && Answers(e.transmitter.maximumPayloadLength, e.blockSize, e.separationTime, inbox[..n], run.sent)
  }

  lemma OpenedReads(e: Endpoint, inbox: seq<Frame>) returns (n: nat)
    requires Legal(e.transmitter) && inbox != []
    requires Announces(e.transmitter.maximumPayloadLength, [inbox[0]])
    ensures Exact(e, inbox, n)
  {
    hide Accept;
    hide Legal;
    hide Receives;
    hide IsControl;
    FirstOpens(e, inbox[0]);
    var m := ReassemblyReads(e, [inbox[0]], Accept(e, NEW_RECEIVER, inbox[0]).0, inbox[1..]);
    n := m + 1;
    assert [inbox[0]] + inbox[1..][..m] == inbox[..n] && inbox[1..][m..] == inbox[n..];
    FirstCounts(e.transmitter.maximumPayloadLength, inbox[..n]);
    hide Grants;
    hide Announces;
    hide Follows;
  }

  lemma EndedReads(e: Endpoint, inbox: seq<Frame>)
    requires Legal(e.transmitter) && inbox != []
    requires !Announces(e.transmitter.maximumPayloadLength, [inbox[0]])
    ensures Exact(e, inbox, 1)
  {
    hide Accept;
    hide Legal;
    hide Answers;
    FirstEnds(e, inbox[0]);
    var (next, sent) := Accept(e, NEW_RECEIVER, inbox[0]);
    assert inbox[..1] == [inbox[0]];
    assert RunReceiver(e, next, inbox[1..]) == ReceiverRun(next, [], inbox[1..]);
    assert sent + [] == sent;
    NoSilence(e.transmitter.maximumPayloadLength, inbox[..1], ResultOf(next));
    hide Receives;
  }

  /**
   * The receiver, on whatever frames reach it in time: it reads up to the end of the first message, or up to the
   * first frame that cannot belong to one; what it returns and what it sends follow from the frames it has read.
   */
  lemma ReceptionIsExact(e: Endpoint, inbox: seq<Frame>) returns (n: nat)
    requires Legal(e.transmitter)
    ensures Exact(e, inbox, n)
  {
    if inbox == [] {
      n := 0;
    } else {
      hide Exact;
      hide Announces;
      if Announces(e.transmitter.maximumPayloadLength, [inbox[0]]) {
        n := OpenedReads(e, inbox);
      } else {
        EndedReads(e, inbox);
        n := 1;
      }
    }
  }

  lemma FirstCounts(maximum: nat, frames: seq<Frame>)
    requires frames != [] && Announces(maximum, [frames[0]])
    ensures ParseFrame(frames[0]).value.length <= maximum && Announces(maximum, frames)
  {
  }

  lemma NoSilence(maximum: nat, frames: seq<Frame>, r: Result<seq<byte>, Error>)
    requires Receives(maximum, frames, false, r)
    ensures Receives(maximum, frames, true, r)
  {
  }

}

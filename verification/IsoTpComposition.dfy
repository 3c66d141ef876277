/**
 * A sender and a receiver joined by two lossless FIFO channels, interleaved in any order. Whatever
 * the schedule, the pair never deadlocks, stops, and delivers exactly the payload that was sent.
 */
module IsoTpComposition {
  import opened Wrappers
  import opened Frames
  import opened IsoTpFrame
  import opened IsoTpMachines

  datatype Exchange = Exchange(sender: Endpoint, receiver: Endpoint, payload: seq<byte>)

  // segmentsSent and segmentsTaken count Consecutive Frames; granted and awaited count Flow Control frames.
  datatype System = System(
    s: Sender,
    r: Receiver,
    data: seq<Frame>,
    control: seq<Frame>,
    segmentsSent: nat,
    segmentsTaken: nat,
    granted: nat,
    awaited: nat)

  ghost predicate LegalExchange(c: Exchange) {
    && Legal(c.sender.transmitter) && Legal(c.receiver.transmitter)
    && 0 < |c.payload| <= c.sender.transmitter.maximumPayloadLength
    && |c.payload| <= c.receiver.transmitter.maximumPayloadLength
  }

  ghost predicate Shape(x: System) {
    && SenderShape(x.s) && ReceiverShape(x.r)
  }

  // ---- Steps -----------------------------------------------------------------------------

  ghost predicate CanSend(x: System) {
    Shape(x) && Emitting(x.s)
  }

  ghost predicate CanTakeControl(x: System) {
    Shape(x) && x.s.phase.AwaitingControl? && x.control != []
  }

  ghost predicate CanReceive(x: System) {
    Shape(x) && Listening(x.r) && x.data != []
  }

  ghost function Send(c: Exchange, x: System): System
    requires LegalExchange(c) && CanSend(x)
  {
    var (s, frames) := Emit(c.sender.transmitter, x.s);
    x.(s := s, data := x.data + frames, segmentsSent := x.segmentsSent + if x.s.phase.InBlock? then |frames| else 0)
  }

  ghost function TakeGrant(c: Exchange, x: System): System
    requires CanTakeControl(x)
  {
    x.(s := TakeControl(c.sender.waitFrameLimit, x.s, x.control[0]), control := x.control[1..], awaited := x.awaited + 1)
  }

  ghost function Receive(c: Exchange, x: System): System
    requires CanReceive(x)
  {
    var (r, frames) := Accept(c.receiver, x.r, x.data[0]);
    x.(r := r, data := x.data[1..], control := x.control + frames, granted := x.granted + |frames|,
       segmentsTaken := x.segmentsTaken + if x.r.phase.Reassembling? then 1 else 0)
  }

  ghost predicate Next(c: Exchange, x: System, y: System)
    requires LegalExchange(c)
  {
    || (CanSend(x) && y == Send(c, x))
    || (CanTakeControl(x) && y == TakeGrant(c, x))
    || (CanReceive(x) && y == Receive(c, x))
  }

  ghost function Start(c: Exchange): System
    requires LegalExchange(c)
    ensures Shape(Start(c))
  {
    PreparedIsSendable(c);
    System(NewSender(PreparedTransmission(c.sender.transmitter, c.payload).value), NEW_RECEIVER, [], [], 0, 0, 0, 0)
  }

  lemma {:induction false} PreparedIsSendable(c: Exchange)
    requires LegalExchange(c)
    ensures var prepared := PreparedTransmission(c.sender.transmitter, c.payload);
      && prepared.Ok? && prepared.value.firstFrame.Valid() && SenderShape(NewSender(prepared.value))
      && (prepared.value.multiFrame ==> prepared.value.payload == c.payload && prepared.value.offset == Position(c, 0))
      && prepared.value.multiFrame == Segmented(c)
  {
    if Segmented(c) {
      FirstFrameRoundTrip(c.sender.transmitter, c.payload);
    } else {
      SingleFrameRoundTrip(c.sender.transmitter, c.payload);
    }
  }

  // ---- Segmentation ----------------------------------------------------------------------

  ghost predicate Segmented(c: Exchange)
    requires LegalExchange(c)
  {
    !FitsSingleFrame(c.sender.transmitter, c.payload)
  }

  /** How much of the payload the First Frame and the first k Consecutive Frames carry. */
  ghost function Position(c: Exchange, k: nat): (n: nat)
    requires LegalExchange(c) && Segmented(c)
    ensures 0 < n <= |c.payload|
    ensures k == 0 ==> n < |c.payload|
  {
    if k == 0 then
      FirstFrameRoundTrip(c.sender.transmitter, c.payload);
      FirstFrameOffset(c.sender.transmitter, c.payload)
    else
      var next := Position(c, k - 1) + c.sender.transmitter.transmitDataLength - 1;
      if next < |c.payload| then next else |c.payload|
  }

  ghost function Segment(c: Exchange, k: nat): Result<Frame, Error>
    requires LegalExchange(c) && Segmented(c)
  {
    MadeFrame(c.sender.transmitter, ConsecutiveFrameData((k + 1) % 16, c.payload[Position(c, k)..Position(c, k + 1)]), false)
  }

  lemma SegmentRoundTrip(c: Exchange, k: nat)
    requires LegalExchange(c) && Segmented(c) && Position(c, k) < |c.payload|
    ensures Position(c, k) < Position(c, k + 1)
    ensures Segment(c, k).Ok? && Segment(c, k).value.Valid() && ParseFrame(Segment(c, k).value).Ok?
    ensures var pdu := ParseFrame(Segment(c, k).value).value;
      && pdu.ConsecutiveFrame? && pdu.sequence == (k + 1) % 16
      && var size := Position(c, k + 1) - Position(c, k);
      && |pdu.payload| >= size && pdu.payload[..size] == c.payload[Position(c, k)..Position(c, k + 1)]
      && (Position(c, k + 1) < |c.payload| ==> |pdu.payload| == size && pdu.dataLength == c.sender.transmitter.transmitDataLength)
  {
    ConsecutiveFrameRoundTrip(c.sender.transmitter, (k + 1) % 16, c.payload[Position(c, k)..Position(c, k + 1)]);
  }

  ghost function Grant(c: Exchange): Frame
    requires LegalExchange(c)
    ensures Grant(c).Valid() && ControlFrame(c.receiver, FlowContinue) == Ok(Grant(c))
    ensures ParseFrame(Grant(c)) ==
      Ok(FlowControl(FlowContinue, c.receiver.blockSize, DecodeSeparationTime(c.receiver.separationTime)))
  {
    FlowControlRoundTrip(c.receiver.transmitter, FlowContinue, c.receiver.blockSize, c.receiver.separationTime);
    ControlFrame(c.receiver, FlowContinue).value
  }

  // ---- Invariant -------------------------------------------------------------------------

  ghost predicate Inv(c: Exchange, x: System)
    requires LegalExchange(c)
  {
    && Shape(x)
    && x.granted == x.awaited + |x.control|
    && if Segmented(c) then SegmentedInv(c, x) else SingleInv(c, x)
  }

  ghost predicate SingleInv(c: Exchange, x: System)
    requires LegalExchange(c) && !Segmented(c)
  {
    var tx := PreparedTransmission(c.sender.transmitter, c.payload).value;
    PreparedIsSendable(c);
    && x.control == [] && x.granted == 0
    && ( || (x.s == NewSender(tx) && x.r == NEW_RECEIVER && x.data == [])
         || (x.s.phase.Sent? && x.r == NEW_RECEIVER && x.data == [tx.firstFrame])
         || (x.s.phase.Sent? && x.r.phase.Delivered? && x.r.payload == c.payload && x.data == []))
  }

  ghost predicate SegmentedInv(c: Exchange, x: System)
    requires LegalExchange(c) && Segmented(c)
  {
    var tx := PreparedTransmission(c.sender.transmitter, c.payload).value;
    PreparedIsSendable(c);
    && SenderPlaced(c, x)
    && ( || (x.s == NewSender(tx) && x.r == NEW_RECEIVER && x.data == [] && x.control == [] && x.segmentsTaken == 0 == x.segmentsSent)
         || (x.s.phase == AwaitingControl(0) && x.r == NEW_RECEIVER && x.data == [tx.firstFrame] && x.control == []
             && x.segmentsTaken == 0 == x.segmentsSent)
         || (ReceiverPlaced(c, x) && (Granting(c, x) || Draining(c, x) || Streaming(c, x) || Finishing(c, x))))
  }

  ghost predicate SenderPlaced(c: Exchange, x: System)
    requires LegalExchange(c) && Segmented(c)
  {
    && x.s.payload == c.payload && x.s.offset == Position(c, x.segmentsSent)
    && x.s.sequence == (x.segmentsSent + 1) % 16
  }

  ghost predicate InFlight(c: Exchange, k: nat, frame: Frame)
    requires LegalExchange(c) && Segmented(c)
  {
    Position(c, k) < |c.payload| && Segment(c, k) == Ok(frame)
  }

  // The receiver holds the prefix before its next segment; the channel holds the segments between.
  ghost predicate ReceiverPlaced(c: Exchange, x: System)
    requires LegalExchange(c) && Segmented(c)
  {
    && x.segmentsTaken + |x.data| == x.segmentsSent
    && (forall i :: 0 <= i < |x.data| ==> InFlight(c, x.segmentsTaken + i, x.data[i]))
    && x.r.total == |c.payload| && x.r.dataLength == c.sender.transmitter.transmitDataLength
    && x.r.expected == (x.segmentsTaken + 1) % 16
    && x.r.payload == c.payload[..Position(c, x.segmentsTaken)]
    && x.r.phase == (if Position(c, x.segmentsTaken) < |c.payload| then Reassembling else Delivered)
  }

  // A grant is on its way: everything sent before it has been taken.
  ghost predicate Granting(c: Exchange, x: System)
    requires LegalExchange(c)
  {
    x.control == [Grant(c)] && x.s.phase == AwaitingControl(0) && x.data == [] && x.r.phase.Reassembling? && x.r.blockCount == 0
  }

  // The sender waits for a grant that the segments in flight will earn.
  ghost predicate Draining(c: Exchange, x: System) {
    && x.control == [] && x.s.phase == AwaitingControl(0) && x.r.phase.Reassembling?
    && 0 < c.receiver.blockSize && x.data != [] && |x.data| + x.r.blockCount == c.receiver.blockSize
  }

  ghost predicate Streaming(c: Exchange, x: System) {
    && x.control == [] && x.s.phase.InBlock? && x.s.blockSize == c.receiver.blockSize && x.r.phase.Reassembling?
    && (0 < c.receiver.blockSize ==> x.s.blockCount < c.receiver.blockSize && |x.data| + x.r.blockCount == x.s.blockCount)
  }

  ghost predicate Finishing(c: Exchange, x: System) {
    && x.control == [] && x.s.phase.Sent? && x.s.offset == |c.payload|
    && (0 < c.receiver.blockSize && x.data != [] ==> |x.data| + x.r.blockCount <= c.receiver.blockSize)
  }

  lemma StartHolds(c: Exchange)
    requires LegalExchange(c)
    ensures Inv(c, Start(c))
  {
    PreparedIsSendable(c);
  }

  lemma SendFirstKeeps(c: Exchange, x: System)
    requires LegalExchange(c) && Inv(c, x) && CanSend(x) && x.s.phase.Starting?
    ensures Inv(c, Send(c, x))
  {
    PreparedIsSendable(c);
  }

  lemma {:induction false} EmitSegment(c: Exchange, x: System)
    requires LegalExchange(c) && Segmented(c) && SenderShape(x.s) && SenderPlaced(c, x) && x.s.phase.InBlock?
    ensures var k := x.segmentsSent; var count := (x.s.blockCount + 1) % 256;
      && Position(c, k) < |c.payload| && Segment(c, k).Ok? && Segment(c, k).value.Valid()
      && Emit(c.sender.transmitter, x.s) ==
         (Sender(BlockPhase(c.payload, Position(c, k + 1), x.s.blockSize, count), c.payload, Position(c, k + 1),
                 (k + 1 + 1) % 16, count, x.s.blockSize),
          [Segment(c, k).value])
  {
    SegmentRoundTrip(c, x.segmentsSent);
    assert ChunkEnd(c.sender.transmitter, x.s) == Position(c, x.segmentsSent + 1);
    SequenceWraps(x.segmentsSent);
    EmitChunk(c.sender.transmitter, x.s, Segment(c, x.segmentsSent).value);
  }

  lemma EmitChunk(t: Transmitter, s: Sender, frame: Frame)
    requires t.transmitDataLength >= 8 && SenderShape(s) && s.phase.InBlock?
    requires MadeFrame(t, ConsecutiveFrameData(s.sequence, s.payload[s.offset..ChunkEnd(t, s)]), false) == Ok(frame)
    ensures var count := (s.blockCount + 1) % 256;
      Emit(t, s) ==
        (Sender(BlockPhase(s.payload, ChunkEnd(t, s), s.blockSize, count), s.payload, ChunkEnd(t, s),
                (s.sequence + 1) % 16, count, s.blockSize),
         [frame])
  {
  }

  lemma SendSegmentKeeps(c: Exchange, x: System)
    requires LegalExchange(c) && Inv(c, x) && CanSend(x) && x.s.phase.InBlock?
    ensures Inv(c, Send(c, x))
  {
    hide Emit;
    hide Position;
    hide Segment;
    hide PreparedTransmission;
    assert Segmented(c) && ReceiverPlaced(c, x) && Streaming(c, x);
    EmitSegment(c, x);
    SentPlaced(c, x, Send(c, x));
    SentCase(c, x, Send(c, x));
  }

  ghost predicate SentSegment(c: Exchange, x: System, y: System)
    requires LegalExchange(c) && Segmented(c)
  {
    var k := x.segmentsSent;
    var count := (x.s.blockCount + 1) % 256;
    && Position(c, k) < |c.payload| && Segment(c, k).Ok?
    && y.s == Sender(BlockPhase(c.payload, Position(c, k + 1), x.s.blockSize, count), c.payload, Position(c, k + 1),
                     (k + 1 + 1) % 16, count, x.s.blockSize)
    && y.r == x.r && y.control == x.control && y.data == x.data + [Segment(c, k).value]
    && y.segmentsSent == k + 1 && y.segmentsTaken == x.segmentsTaken
  }

  lemma SentPlaced(c: Exchange, x: System, y: System)
    requires LegalExchange(c) && Segmented(c) && SentSegment(c, x, y)
    requires SenderPlaced(c, x) && ReceiverPlaced(c, x)
    ensures SenderPlaced(c, y) && ReceiverPlaced(c, y)
  {
    hide LegalExchange;
    hide Segment;
    hide Position;
    hide BlockPhase;
    forall i | 0 <= i < |y.data|
      ensures InFlight(c, y.segmentsTaken + i, y.data[i])
    {
      assert i < |x.data| ==> InFlight(c, x.segmentsTaken + i, x.data[i]);
    }
  }

  lemma SentCase(c: Exchange, x: System, y: System)
    requires LegalExchange(c) && Segmented(c) && SentSegment(c, x, y) && Streaming(c, x)
    ensures Draining(c, y) || Streaming(c, y) || Finishing(c, y)
  {
    if y.s.phase.Sent? {
      assert Finishing(c, y);
    } else if y.s.phase.InBlock? {
      assert Streaming(c, y);
    } else {
      assert Draining(c, y);
    }
  }

  lemma TakeGrantKeeps(c: Exchange, x: System)
    requires LegalExchange(c) && Inv(c, x) && CanTakeControl(x)
    ensures Inv(c, TakeGrant(c, x))
  {
    assert Segmented(c) && Granting(c, x);
    assert Streaming(c, TakeGrant(c, x));
  }

  lemma AcceptOpening(c: Exchange, frame: Frame, prefix: seq<byte>, dataLength: nat)
    requires LegalExchange(c) && 7 < |c.payload| && |prefix| < |c.payload|
    requires ParseFrame(frame) == Ok(FirstFrame(|c.payload|, prefix, dataLength))
    ensures Accept(c.receiver, NEW_RECEIVER, frame) ==
      (Receiver(Reassembling, |c.payload|, dataLength, 1, 0, prefix), [Grant(c)])
  {
    assert ControlFrame(c.receiver, FlowContinue) == Ok(Grant(c));
  }

  lemma ReceiveFirstKeeps(c: Exchange, x: System)
    requires LegalExchange(c) && Inv(c, x) && CanReceive(x) && x.r.phase.Idle?
    ensures Inv(c, Receive(c, x))
  {
    hide MadeFrame;
    hide ParseFrame;
    PreparedIsSendable(c);
    var y := Receive(c, x);
    if Segmented(c) {
      FirstFrameRoundTrip(c.sender.transmitter, c.payload);
      AcceptOpening(c, x.data[0], c.payload[..Position(c, 0)], c.sender.transmitter.transmitDataLength);
      assert ReceiverPlaced(c, y) && Granting(c, y);
    } else {
      SingleFrameRoundTrip(c.sender.transmitter, c.payload);
    }
  }

  /** What receiveMultiFrame does with the segment it expects. */
  ghost function InOrder(e: Endpoint, r: Receiver, chunk: seq<byte>): (Receiver, seq<Frame>)
    requires Legal(e.transmitter)
  {
    FlowControlRoundTrip(e.transmitter, FlowContinue, e.blockSize, e.separationTime);
    var payload := r.payload + chunk;
    var count := (r.blockCount + 1) % 256;
    var earned := 0 < e.blockSize && count == e.blockSize && |payload| < r.total;
    (Receiver(if |payload| < r.total then Reassembling else Delivered, r.total, r.dataLength,
              (r.expected + 1) % 16, if earned then 0 else count, payload),
     if earned then [ControlFrame(e, FlowContinue).value] else [])
  }

  lemma AcceptInOrder(e: Endpoint, r: Receiver, frame: Frame, pdu: Pdu, chunk: seq<byte>)
    requires ReceiverShape(r) && r.phase.Reassembling? && Legal(e.transmitter)
    requires ParseFrame(frame) == Ok(pdu)
    requires pdu.ConsecutiveFrame? && pdu.sequence == r.expected && chunk <= pdu.payload
    requires |r.payload| + |chunk| <= r.total
    requires |r.payload| + |chunk| < r.total ==> pdu.payload == chunk && pdu.dataLength == r.dataLength
    ensures Accept(e, r, frame) == InOrder(e, r, chunk)
  {
    FlowControlRoundTrip(e.transmitter, FlowContinue, e.blockSize, e.separationTime);
    assert chunk == pdu.payload[..|chunk|];
    assert |pdu.payload| == |chunk| ==> pdu.payload == chunk;
    hide ParseFrame;
    hide MadeFrame;
    hide Legal;
    assert AcceptConsecutive(e, r, pdu) == InOrder(e, r, chunk);
  }

  lemma {:induction false} AcceptSegment(c: Exchange, x: System)
    requires LegalExchange(c) && Segmented(c) && CanReceive(x) && ReceiverPlaced(c, x)
    ensures x.r.phase.Reassembling?
    ensures Position(c, x.segmentsTaken) <= Position(c, x.segmentsTaken + 1)
    ensures Accept(c.receiver, x.r, x.data[0]) ==
      InOrder(c.receiver, x.r, c.payload[Position(c, x.segmentsTaken)..Position(c, x.segmentsTaken + 1)])
  {
    hide MadeFrame;
    hide ParseFrame;
    hide Accept;
    var k := x.segmentsTaken;
    assert InFlight(c, k + 0, x.data[0]);
    SegmentRoundTrip(c, k);
    var chunk := c.payload[Position(c, k)..Position(c, k + 1)];
    var pdu := ParseFrame(x.data[0]).value;
    assert chunk == pdu.payload[..|chunk|];
    AcceptInOrder(c.receiver, x.r, x.data[0], pdu, chunk);
  }

  lemma ReceiveSegmentKeeps(c: Exchange, x: System)
    requires LegalExchange(c) && Inv(c, x) && CanReceive(x) && x.r.phase.Reassembling?
    ensures Inv(c, Receive(c, x))
  {
    hide Accept;
    hide MadeFrame;
    hide PreparedTransmission;
    assert Segmented(c) && SenderPlaced(c, x) && ReceiverPlaced(c, x);
    AcceptSegment(c, x);
    PositionMonotone(c, x.segmentsTaken + 1, x.segmentsSent);
    var y := Receive(c, x);
    ReceivedPlaced(c, x, y);
    ReceivedCase(c, x, y);
  }

  ghost predicate Received(c: Exchange, x: System, y: System)
    requires LegalExchange(c) && Segmented(c)
    requires Position(c, x.segmentsTaken) <= Position(c, x.segmentsTaken + 1)
  {
    && x.data != []
    && (y.r, y.control) == (var (r, frames) := InOrder(c.receiver, x.r, c.payload[Position(c, x.segmentsTaken)..Position(c, x.segmentsTaken + 1)]);
                            (r, x.control + frames))
    && y.data == x.data[1..]
    && y.s == x.s && y.segmentsSent == x.segmentsSent && y.segmentsTaken == x.segmentsTaken + 1
  }

  lemma {:induction false} ReceivedPlaced(c: Exchange, x: System, y: System)
    requires LegalExchange(c) && Segmented(c)
    requires Position(c, x.segmentsTaken) <= Position(c, x.segmentsTaken + 1) && Received(c, x, y)
    requires SenderPlaced(c, x) && ReceiverPlaced(c, x)
    ensures SenderPlaced(c, y) && ReceiverPlaced(c, y)
  {
    hide MadeFrame;
    var (from, to) := (Position(c, x.segmentsTaken), Position(c, x.segmentsTaken + 1));
    assert c.payload[..from] + c.payload[from..to] == c.payload[..to];
    SequenceWraps(x.segmentsTaken);
    forall i | 0 <= i < |y.data|
      ensures InFlight(c, y.segmentsTaken + i, y.data[i])
    {
      assert InFlight(c, x.segmentsTaken + (i + 1), x.data[i + 1]);
    }
  }

  lemma SequenceWraps(k: nat)
    ensures ((k + 1) % 16 + 1) % 16 == (k + 1 + 1) % 16
  {
  }

  lemma {:induction false} ReceivedCase(c: Exchange, x: System, y: System)
    requires LegalExchange(c) && Segmented(c) && SenderShape(x.s) && ReceiverShape(x.r)
    requires Position(c, x.segmentsTaken) <= Position(c, x.segmentsTaken + 1) && Received(c, x, y)
    requires SenderPlaced(c, x) && ReceiverPlaced(c, x) && ReceiverPlaced(c, y)
    requires Position(c, x.segmentsTaken + 1) <= x.s.offset
    requires Position(c, x.segmentsTaken + 1) == x.s.offset < |c.payload| ==> x.segmentsTaken + 1 == x.segmentsSent
    requires Draining(c, x) || Streaming(c, x) || Finishing(c, x)
    ensures Granting(c, y) || Draining(c, y) || Streaming(c, y) || Finishing(c, y)
  {
    hide MadeFrame;
    hide ParseFrame;
    hide Legal;
    hide PreparedTransmission;
    if y.data != [] {
      assert InFlight(c, y.segmentsTaken + 0, y.data[0]);
    }
    var (r, frames) := InOrder(c.receiver, x.r, c.payload[Position(c, x.segmentsTaken)..Position(c, x.segmentsTaken + 1)]);
    if Draining(c, x) {
      assert y.data == [] ==> frames == [Grant(c)] && Granting(c, y);
      assert y.data != [] ==> frames == [] && Draining(c, y);
    } else if Streaming(c, x) {
      assert frames == [] && Streaming(c, y);
    } else {
      assert frames == [] && Finishing(c, y);
    }
  }

  lemma {:induction false} PositionMonotone(c: Exchange, k: nat, m: nat)
    requires LegalExchange(c) && Segmented(c) && k <= m
    ensures Position(c, k) <= Position(c, m)
    ensures k < m && Position(c, k) < |c.payload| ==> Position(c, k) < Position(c, m)
  {
    if k < m {
      PositionMonotone(c, k, m - 1);
    }
  }

  lemma NextKeeps(c: Exchange, x: System, y: System)
    requires LegalExchange(c) && Inv(c, x) && Next(c, x, y)
    ensures Inv(c, y)
  {
    if CanSend(x) && y == Send(c, x) {
      if x.s.phase.Starting? {
        SendFirstKeeps(c, x);
      } else {
        SendSegmentKeeps(c, x);
      }
    } else if CanTakeControl(x) && y == TakeGrant(c, x) {
      TakeGrantKeeps(c, x);
    } else if x.r.phase.Idle? {
      ReceiveFirstKeeps(c, x);
    } else {
      ReceiveSegmentKeeps(c, x);
    }
  }

  // ---- Progress and termination ----------------------------------------------------------

  ghost predicate Complete(c: Exchange, x: System) {
    && x.s.phase.Sent? && x.r.phase.Delivered? && x.r.payload == c.payload
    && x.data == [] && x.control == [] && x.granted == x.awaited
  }

  lemma {:induction false} FirstInFlight(c: Exchange, x: System)
    requires LegalExchange(c) && Segmented(c) && ReceiverPlaced(c, x)
    ensures x.data != [] ==> Position(c, x.segmentsTaken) < |c.payload|
  {
    if x.data != [] {
      assert InFlight(c, x.segmentsTaken + 0, x.data[0]);
    }
  }

  /** No reachable state is stuck before the payload has been delivered. */
  lemma Progress(c: Exchange, x: System)
    requires LegalExchange(c) && Inv(c, x)
    ensures !x.s.phase.SendFailed? && !x.r.phase.ReceiveFailed?
    ensures Complete(c, x) || exists y :: Next(c, x, y)
  {
    hide Emit;
    hide TakeControl;
    hide Accept;
    hide MadeFrame;
    if CanSend(x) {
      assert Next(c, x, Send(c, x));
    } else if CanTakeControl(x) {
      assert Next(c, x, TakeGrant(c, x));
    } else if CanReceive(x) {
      assert Next(c, x, Receive(c, x));
    } else {
      assert c.payload[..|c.payload|] == c.payload;
      if Segmented(c) {
        assert ReceiverPlaced(c, x) && Finishing(c, x);
        FirstInFlight(c, x);
      }
      assert Complete(c, x);
    }
  }

  /** Frames still to be sent, frames in flight and grants in flight, weighted so that every step costs one. */
  ghost function Work(c: Exchange, x: System): nat
    requires LegalExchange(c) && Shape(x)
  {
    3 * (|x.s.payload| - x.s.offset) + (if x.s.phase.Starting? then 3 else 0) + 2 * |x.data| + |x.control|
  }

  lemma NextWorks(c: Exchange, x: System, y: System)
    requires LegalExchange(c) && Inv(c, x) && Next(c, x, y)
    ensures Shape(y) && Work(c, y) < Work(c, x)
  {
    hide Inv;
    hide Work;
    hide Send;
    hide TakeGrant;
    hide Receive;
    NextKeeps(c, x, y);
    InvIsShaped(c, y);
    if CanSend(x) && y == Send(c, x) {
      SendWorks(c, x);
    } else if CanTakeControl(x) && y == TakeGrant(c, x) {
      GrantWorks(c, x);
    } else {
      ReceiveWorks(c, x);
    }
  }

  lemma InvIsShaped(c: Exchange, x: System)
    requires LegalExchange(c) && Inv(c, x)
    ensures Shape(x)
  {
  }

  lemma SendWorks(c: Exchange, x: System)
    requires LegalExchange(c) && Inv(c, x) && CanSend(x) && Shape(Send(c, x))
    ensures Work(c, Send(c, x)) < Work(c, x)
  {
    hide MadeFrame;
    hide ParseFrame;
    hide PreparedTransmission;
    if x.s.phase.InBlock? {
      assert Segmented(c) && SenderPlaced(c, x);
      EmitSegment(c, x);
      SegmentRoundTrip(c, x.segmentsSent);
      hide Emit;
    }
  }

  lemma GrantWorks(c: Exchange, x: System)
    requires LegalExchange(c) && Inv(c, x) && CanTakeControl(x) && Shape(TakeGrant(c, x))
    ensures Work(c, TakeGrant(c, x)) < Work(c, x)
  {
    hide ParseFrame;
    hide PreparedTransmission;
  }

  lemma ReceiveWorks(c: Exchange, x: System)
    requires LegalExchange(c) && CanReceive(x) && Shape(Receive(c, x))
    ensures Work(c, Receive(c, x)) < Work(c, x)
  {
    hide Accept;
    AcceptsAtMostOneGrant(c, x);
  }

  lemma AcceptsAtMostOneGrant(c: Exchange, x: System)
    requires LegalExchange(c) && CanReceive(x)
    ensures |Accept(c.receiver, x.r, x.data[0]).1| <= 1
  {
  }

  ghost predicate Run(c: Exchange, run: seq<System>)
    requires LegalExchange(c)
  {
    && |run| > 0 && run[0] == Start(c)
    && forall i :: 0 <= i < |run| - 1 ==> Next(c, run[i], run[i + 1])
  }

  lemma {:induction false} RunKeeps(c: Exchange, run: seq<System>, k: nat)
    requires LegalExchange(c) && Run(c, run) && k < |run|
    ensures Inv(c, run[k])
    ensures Work(c, run[k]) + k <= Work(c, Start(c))
  {
    if k == 0 {
      StartHolds(c);
    } else {
      RunKeeps(c, run, k - 1);
      assert Next(c, run[k - 1], run[k]);
      NextKeeps(c, run[k - 1], run[k]);
      NextWorks(c, run[k - 1], run[k]);
    }
  }

  /**
   * For every legal pair of endpoints, every payload within both limits and every interleaving:
   * neither side ever fails, at most one Flow Control frame is in flight, no run is longer than a
   * bound fixed by the payload, and a run that can go no further has delivered exactly the payload,
   * with as many Flow Control frames awaited as were sent and nothing left in either channel.
   */
  lemma Composition(c: Exchange, run: seq<System>)
    requires LegalExchange(c) && Run(c, run)
    ensures forall i :: 0 <= i < |run| ==>
      && !run[i].s.phase.SendFailed? && !run[i].r.phase.ReceiveFailed?
      && |run[i].control| <= 1 && run[i].granted == run[i].awaited + |run[i].control|
    ensures |run| <= 3 * |c.payload| + 4
    ensures var last := run[|run| - 1];
      Complete(c, last) || exists y :: Next(c, last, y)
  {
    forall i | 0 <= i < |run|
      ensures !run[i].s.phase.SendFailed? && !run[i].r.phase.ReceiveFailed?
      ensures |run[i].control| <= 1 && run[i].granted == run[i].awaited + |run[i].control|
    {
      RunKeeps(c, run, i);
      Progress(c, run[i]);
    }
    var k := |run| - 1;
    RunKeeps(c, run, k);
    Progress(c, run[k]);
    PreparedIsSendable(c);
  }

  // ---- Back to the two loops -------------------------------------------------------------

  ghost predicate Path(c: Exchange, run: seq<System>)
    requires LegalExchange(c)
  {
    && |run| > 0
    && (forall x :: x in run ==> Shape(x) && !x.s.phase.SendFailed?)
    && forall i :: 0 <= i < |run| - 1 ==> Next(c, run[i], run[i + 1])
  }

  // A step either appends to a channel or takes its head.
  ghost function Added(before: seq<Frame>, after: seq<Frame>): seq<Frame> {
    if |after| > |before| then after[|before|..] else []
  }

  // What the steps of a path put into the data channel, and into the control channel.
  ghost function DataSent(run: seq<System>): seq<Frame>
    requires |run| > 0
  {
    if |run| == 1 then []
    else Added(run[0].data, run[1].data) + DataSent(run[1..])
  }

  ghost function ControlSent(run: seq<System>): seq<Frame>
    requires |run| > 0
  {
    if |run| == 1 then []
    else Added(run[0].control, run[1].control) + ControlSent(run[1..])
  }

  // From `x` on, the sender reading `control` ends as `end` having sent `sent`, and nothing stays unread.
  ghost predicate SenderAgrees(c: Exchange, s: Sender, control: seq<Frame>, end: Sender, sent: seq<Frame>)
    requires LegalExchange(c)
  {
    && SenderShape(s)
    && RunSender(c.sender.transmitter, c.sender.waitFrameLimit, s, control) == SenderRun(end, sent, [])
  }

  ghost predicate ReceiverAgrees(c: Exchange, r: Receiver, data: seq<Frame>, end: Receiver, sent: seq<Frame>)
  {
    && ReceiverShape(r)
    && RunReceiver(c.receiver, r, data) == ReceiverRun(end, sent, [])
  }

  lemma SenderEmits(c: Exchange, s: Sender, control: seq<Frame>, end: Sender, sent: seq<Frame>)
    requires LegalExchange(c) && SenderShape(s) && Emitting(s)
    requires var next := Emit(c.sender.transmitter, s).0;
      !next.phase.SendFailed? && SenderAgrees(c, next, control, end, sent)
    ensures SenderAgrees(c, s, control, end, Emit(c.sender.transmitter, s).1 + sent)
  {
  }

  lemma SenderTakes(c: Exchange, s: Sender, frame: Frame, control: seq<Frame>, end: Sender, sent: seq<Frame>)
    requires LegalExchange(c) && SenderShape(s) && s.phase.AwaitingControl?
    requires SenderAgrees(c, TakeControl(c.sender.waitFrameLimit, s, frame), control, end, sent)
    ensures SenderAgrees(c, s, [frame] + control, end, sent)
  {
    var inbox := [frame] + control;
    assert inbox[0] == frame && inbox[1..] == control;
    assert RunSender(c.sender.transmitter, c.sender.waitFrameLimit, s, inbox)
        == RunSender(c.sender.transmitter, c.sender.waitFrameLimit, TakeControl(c.sender.waitFrameLimit, s, frame), control);
  }

  lemma ReceiverTakes(c: Exchange, r: Receiver, frame: Frame, data: seq<Frame>, end: Receiver, sent: seq<Frame>)
    requires LegalExchange(c) && ReceiverShape(r) && Listening(r)
    requires ReceiverAgrees(c, Accept(c.receiver, r, frame).0, data, end, sent)
    ensures ReceiverAgrees(c, r, [frame] + data, end, Accept(c.receiver, r, frame).1 + sent)
  {
    var inbox := [frame] + data;
    assert inbox[0] == frame && inbox[1..] == data;
  }

  ghost predicate Agrees(c: Exchange, run: seq<System>)
    requires LegalExchange(c) && |run| > 0
  {
    var end := run[|run| - 1];
    && SenderAgrees(c, run[0].s, run[0].control + ControlSent(run), end.s, DataSent(run))
    && ReceiverAgrees(c, run[0].r, run[0].data + DataSent(run), end.r, ControlSent(run))
  }

  lemma SendAgrees(c: Exchange, x: System, y: System, data: seq<Frame>, control: seq<Frame>, end: System)
    requires LegalExchange(c) && Shape(x) && Shape(y) && CanSend(x) && y == Send(c, x) && !y.s.phase.SendFailed?
    requires SenderAgrees(c, y.s, y.control + control, end.s, data)
    requires ReceiverAgrees(c, y.r, y.data + data, end.r, control)
    ensures SenderAgrees(c, x.s, x.control + (Added(x.control, y.control) + control), end.s, Added(x.data, y.data) + data)
    ensures ReceiverAgrees(c, x.r, x.data + (Added(x.data, y.data) + data), end.r, Added(x.control, y.control) + control)
  {
    hide Emit;
    hide RunReceiver;
    hide RunSender;
    var frames := Emit(c.sender.transmitter, x.s).1;
    assert Added(x.data, y.data) == frames && Added(x.control, y.control) == [];
    assert y.data + data == x.data + (frames + data);
    assert [] + control == control;
    SenderEmits(c, x.s, x.control + control, end.s, data);
  }

  lemma TakeGrantAgrees(c: Exchange, x: System, y: System, data: seq<Frame>, control: seq<Frame>, end: System)
    requires LegalExchange(c) && Shape(x) && Shape(y) && CanTakeControl(x) && y == TakeGrant(c, x)
    requires SenderAgrees(c, y.s, y.control + control, end.s, data)
    requires ReceiverAgrees(c, y.r, y.data + data, end.r, control)
    ensures SenderAgrees(c, x.s, x.control + (Added(x.control, y.control) + control), end.s, Added(x.data, y.data) + data)
    ensures ReceiverAgrees(c, x.r, x.data + (Added(x.data, y.data) + data), end.r, Added(x.control, y.control) + control)
  {
    hide TakeControl;
    hide RunReceiver;
    hide RunSender;
    assert Added(x.data, y.data) == [] && Added(x.control, y.control) == [];
    assert [] + data == data && [] + control == control;
    var (frame, rest) := (x.control[0], y.control + control);
    assert x.control + control == [frame] + rest;
    assert SenderAgrees(c, x.s, [frame] + rest, end.s, data) by {
      SenderTakes(c, x.s, frame, rest, end.s, data);
    }
  }

  lemma ReceiveAgrees(c: Exchange, x: System, y: System, data: seq<Frame>, control: seq<Frame>, end: System)
    requires LegalExchange(c) && Shape(x) && Shape(y) && CanReceive(x) && y == Receive(c, x)
    requires SenderAgrees(c, y.s, y.control + control, end.s, data)
    requires ReceiverAgrees(c, y.r, y.data + data, end.r, control)
    ensures SenderAgrees(c, x.s, x.control + (Added(x.control, y.control) + control), end.s, Added(x.data, y.data) + data)
    ensures ReceiverAgrees(c, x.r, x.data + (Added(x.data, y.data) + data), end.r, Added(x.control, y.control) + control)
  {
    hide Accept;
    hide RunReceiver;
    hide RunSender;
    var frames := Accept(c.receiver, x.r, x.data[0]).1;
    assert Added(x.data, y.data) == [] && Added(x.control, y.control) == frames;
    assert [] + data == data;
    assert y.control + control == x.control + (frames + control);
    var (frame, rest) := (x.data[0], y.data + data);
    assert x.data + data == [frame] + rest;
    assert ReceiverAgrees(c, x.r, [frame] + rest, end.r, frames + control) by {
      ReceiverTakes(c, x.r, frame, rest, end.r, control);
    }
  }

  lemma {:induction false} PathAgrees(c: Exchange, run: seq<System>)
    requires LegalExchange(c) && Path(c, run) && Complete(c, run[|run| - 1])
    ensures Agrees(c, run)
  {
    if |run| == 1 {
      assert run[0].control + ControlSent(run) == [] && run[0].data + DataSent(run) == [];
    } else {
      assert Next(c, run[0], run[0 + 1]);
      assert forall i :: 0 <= i < |run[1..]| ==> run[1..][i] == run[i + 1];
      PathAgrees(c, run[1..]);
      var (x, y, end) := (run[0], run[1], run[|run| - 1]);
      if CanSend(x) && y == Send(c, x) {
        SendAgrees(c, x, y, DataSent(run[1..]), ControlSent(run[1..]), end);
      } else if CanTakeControl(x) && y == TakeGrant(c, x) {
        TakeGrantAgrees(c, x, y, DataSent(run[1..]), ControlSent(run[1..]), end);
      } else {
        ReceiveAgrees(c, x, y, DataSent(run[1..]), ControlSent(run[1..]), end);
      }
    }
  }

  /**
   * Link.Transmit and Link.Receive, each fed what the other one sends, finish together: the
   * receiver's loop returns the payload given to the sender's loop.
   */
  lemma {:induction false} LoopsCompose(c: Exchange, run: seq<System>)
    requires LegalExchange(c) && Run(c, run) && Complete(c, run[|run| - 1])
    ensures SenderAgrees(c, Start(c).s, ControlSent(run), run[|run| - 1].s, DataSent(run))
    ensures ReceiverAgrees(c, NEW_RECEIVER, DataSent(run), run[|run| - 1].r, ControlSent(run))
    ensures run[|run| - 1].s.phase.Sent? && run[|run| - 1].r.phase.Delivered? && run[|run| - 1].r.payload == c.payload
  {
    Composition(c, run);
    forall x | x in run
      ensures Shape(x) && !x.s.phase.SendFailed?
    {
      var i :| 0 <= i < |run| && run[i] == x;
      RunKeeps(c, run, i);
    }
    PathAgrees(c, run);
    assert run[0].control + ControlSent(run) == ControlSent(run) && run[0].data + DataSent(run) == DataSent(run);
  }

  /** Every run can be continued until it is complete. */
  lemma {:induction false} RunCompletes(c: Exchange, run: seq<System>) returns (whole: seq<System>)
    requires LegalExchange(c) && Run(c, run)
    ensures run <= whole && Run(c, whole) && Complete(c, whole[|whole| - 1])
    decreases Work(c, Start(c)) - |run|
  {
    hide Inv;
    hide Next;
    hide Complete;
    hide Work;
    var last := run[|run| - 1];
    RunKeeps(c, run, |run| - 1);
    Progress(c, last);
    if Complete(c, last) {
      whole := run;
    } else {
      var y :| Next(c, last, y);
      NextWorks(c, last, y);
      forall i | 0 <= i < |run + [y]| - 1
        ensures Next(c, (run + [y])[i], (run + [y])[i + 1])
      {
        if i < |run| - 1 {
          assert Next(c, run[i], run[i + 1]);
        }
      }
      whole := RunCompletes(c, run + [y]);
      assert run <= run + [y] <= whole;
    }
  }

  /**
   * For every legal pair of endpoints and every payload within both limits there are the frames on which both
   * loops end: each sends what the other reads, and the receiver's loop returns the sender's payload.
   */
  lemma LoopsMeet(c: Exchange) returns (data: seq<Frame>, control: seq<Frame>, sender: Sender, receiver: Receiver)
    requires LegalExchange(c)
    ensures SenderAgrees(c, Start(c).s, control, sender, data) && sender.phase.Sent?
    ensures ReceiverAgrees(c, NEW_RECEIVER, data, receiver, control)
    ensures receiver.phase.Delivered? && receiver.payload == c.payload
  {
    var run := RunCompletes(c, [Start(c)]);
    LoopsCompose(c, run);
    data, control := DataSent(run), ControlSent(run);
    sender, receiver := run[|run| - 1].s, run[|run| - 1].r;
  }
}

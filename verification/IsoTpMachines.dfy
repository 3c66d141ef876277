/**
 * Sender and receiver of ISO-TP as step machines, one frame at a time (isotp/transmit.go, isotp/receive.go).
 * The loops of a Link are proved to run them, and the composition proof interleaves them.
 */
module IsoTpMachines {
  import opened Wrappers
  import opened Frames
  import opened IsoTpFrame

  // ---- Sender ----------------------------------------------------------------------------

  datatype SendPhase =
    | Starting(first: Transmission)
    | AwaitingControl(waitFrames: nat)
    | InBlock
    | Sent
    | SendFailed(error: Error)

  datatype Sender = Sender(
    phase: SendPhase,
    payload: seq<byte>,
    offset: nat,
    sequence: nat,
    blockCount: byte,
    blockSize: byte)

  function NewSender(tx: Transmission): Sender {
    Sender(Starting(tx), tx.payload, tx.offset, 1, 0, 0)
  }

  predicate Emitting(s: Sender) {
    s.phase.Starting? || s.phase.InBlock?
  }

  ghost predicate SenderShape(s: Sender) {
    && s.sequence < 16 && s.offset <= |s.payload|
    && (s.phase.InBlock? || s.phase.AwaitingControl? ==> s.offset < |s.payload|)
    && (s.phase.Starting? ==> s.phase.first.multiFrame ==> s.offset < |s.payload|)
  }

  function ChunkEnd(t: Transmitter, s: Sender): (end: nat)
    requires t.transmitDataLength >= 8 && SenderShape(s)
    ensures s.offset <= end <= |s.payload|
    ensures end <= s.offset + t.transmitDataLength - 1
    ensures s.offset < |s.payload| ==> s.offset < end
  {
    if s.offset + t.transmitDataLength - 1 < |s.payload| then s.offset + t.transmitDataLength - 1 else |s.payload|
  }

  /** Where the two loop guards leave the sender. */
  function BlockPhase(payload: seq<byte>, offset: nat, blockSize: byte, blockCount: byte): SendPhase {
    if offset == |payload| then Sent
    else if blockSize == 0 || blockCount < blockSize then InBlock
    else AwaitingControl(0)
  }

  /** One accepted transmission: the First Frame, or the next Consecutive Frame of the open block. */
  function Emit(t: Transmitter, s: Sender): (r: (Sender, seq<Frame>))
    requires t.transmitDataLength >= 8 && SenderShape(s) && Emitting(s)
    ensures SenderShape(r.0)
  {
    match s.phase
    case Starting(tx) => (s.(phase := if tx.multiFrame then AwaitingControl(0) else Sent), [tx.firstFrame])
    case InBlock =>
      var end := ChunkEnd(t, s);
      match MadeFrame(t, ConsecutiveFrameData(s.sequence, s.payload[s.offset..end]), false)
      case Err(e) => (s.(phase := SendFailed(e)), [])
      case Ok(frame) =>
        var count := (s.blockCount + 1) % 256;
        (s.(phase := BlockPhase(s.payload, end, s.blockSize, count), offset := end, sequence := (s.sequence + 1) % 16, blockCount := count), [frame])
  }

  /** One frame taken by waitFlowControl. */
  function TakeControl(waitFrameLimit: nat, s: Sender, frame: Frame): (r: Sender)
    requires SenderShape(s) && s.phase.AwaitingControl?
    ensures SenderShape(r)
  {
    match ParseFrame(frame)
    case Err(e) => s.(phase := SendFailed(e))
    case Ok(pdu) =>
      if !pdu.FlowControl? then s.(phase := SendFailed(ErrProtocol))
      else match pdu.status
        case FlowContinue => s.(phase := InBlock, blockCount := 0, blockSize := pdu.blockSize)
        case FlowWait =>
          var waits := s.phase.waitFrames + 1;
          s.(phase := if waits > waitFrameLimit then SendFailed(ErrWaitFrameLimit) else AwaitingControl(waits))
        case FlowOverflow => s.(phase := SendFailed(ErrFlowControlOverflow))
  }

  datatype SenderRun = SenderRun(end: Sender, sent: seq<Frame>, unread: seq<Frame>)

  /** The sender alone, against the frames that reach it in time; running out of them is a timeout. */
  function RunSender(t: Transmitter, waitFrameLimit: nat, s: Sender, inbox: seq<Frame>): (run: SenderRun)
    requires t.transmitDataLength >= 8 && SenderShape(s)
    decreases |inbox| + (|s.payload| - s.offset) + (if s.phase.Starting? then 1 else 0)
  {
    if Emitting(s) then
      var (next, frames) := Emit(t, s);
      if next.phase.SendFailed? then SenderRun(next, frames, inbox)
      else
        var rest := RunSender(t, waitFrameLimit, next, inbox);
        rest.(sent := frames + rest.sent)
    else if s.phase.AwaitingControl? then
      if inbox == [] then SenderRun(s.(phase := SendFailed(ErrFlowControlTimeout)), [], inbox)
      else RunSender(t, waitFrameLimit, TakeControl(waitFrameLimit, s, inbox[0]), inbox[1..])
    else
      SenderRun(s, [], inbox)
  }

  // ---- Receiver --------------------------------------------------------------------------

  datatype ReceivePhase =
    | Idle
    | Reassembling
    | Delivered
    | ReceiveFailed(error: Error)

  datatype Receiver = Receiver(
    phase: ReceivePhase,
    total: nat,
    dataLength: nat,
    expected: nat,
    blockCount: byte,
    payload: seq<byte>)

  const NEW_RECEIVER: Receiver := Receiver(Idle, 0, 0, 1, 0, [])

  datatype Endpoint = Endpoint(transmitter: Transmitter, blockSize: byte, separationTime: byte, waitFrameLimit: nat)

  predicate Listening(r: Receiver) {
    r.phase.Idle? || r.phase.Reassembling?
  }

  ghost predicate ReceiverShape(r: Receiver) {
    r.expected < 16 && |r.payload| <= r.total && (r.phase.Reassembling? ==> |r.payload| < r.total)
  }

  function ControlFrame(e: Endpoint, status: FlowStatus): Result<Frame, Error> {
    MadeFrame(e.transmitter, FlowControlData(status, e.blockSize, e.separationTime), false)
  }

  /** One frame taken by receive: the next state, and the Flow Control it sends, if any. */
  function Accept(e: Endpoint, r: Receiver, frame: Frame): (next: (Receiver, seq<Frame>))
    requires ReceiverShape(r) && Listening(r)
    ensures ReceiverShape(next.0)
  {
    match ParseFrame(frame)
    case Err(error) => (r.(phase := ReceiveFailed(error)), [])
    case Ok(pdu) => if r.phase.Idle? then AcceptFirst(e, r, pdu) else AcceptConsecutive(e, r, pdu)
  }

  function AcceptFirst(e: Endpoint, r: Receiver, pdu: Pdu): (next: (Receiver, seq<Frame>))
    requires ReceiverShape(r) && r.phase.Idle?
    ensures ReceiverShape(next.0)
  {
    match pdu
    case SingleFrame(payload) =>
      if |payload| > e.transmitter.maximumPayloadLength then (r.(phase := ReceiveFailed(ErrPayloadTooLarge)), [])
      else (r.(phase := Delivered, total := |payload|, payload := payload), [])
    case FirstFrame(length, payload, dataLength) =>
      if length <= 7 then (r.(phase := ReceiveFailed(ErrProtocol)), [])
      else if length > e.transmitter.maximumPayloadLength then
        // the rejection is reported whether or not the overflow frame could be sent
        (r.(phase := ReceiveFailed(ErrPayloadTooLarge)),
         match ControlFrame(e, FlowOverflow) case Ok(f) => [f] case Err(_) => [])
      else if length <= |payload| then (r.(phase := ReceiveFailed(ErrProtocol)), [])
      else
        (match ControlFrame(e, FlowContinue)
         case Err(error) => (r.(phase := ReceiveFailed(error)), [])
         case Ok(f) => (Receiver(Reassembling, length, dataLength, 1, 0, payload), [f]))
    case _ => (r.(phase := ReceiveFailed(ErrProtocol)), [])
  }

  function AcceptConsecutive(e: Endpoint, r: Receiver, pdu: Pdu): (next: (Receiver, seq<Frame>))
    requires ReceiverShape(r) && r.phase.Reassembling?
    ensures ReceiverShape(next.0)
  {
    if !pdu.ConsecutiveFrame? then (r.(phase := ReceiveFailed(ErrProtocol)), [])
    else if pdu.sequence != r.expected then (r.(phase := ReceiveFailed(ErrProtocol)), [])
    else
      var remaining := r.total - |r.payload|;
      if |pdu.payload| < remaining && pdu.dataLength != r.dataLength then (r.(phase := ReceiveFailed(ErrProtocol)), [])
      else
        var payload := r.payload + (if |pdu.payload| > remaining then pdu.payload[..remaining] else pdu.payload);
        var count := (r.blockCount + 1) % 256;
        var next := r.(payload := payload, expected := (r.expected + 1) % 16, blockCount := count);
        if |payload| == r.total then (next.(phase := Delivered), [])
        else if e.blockSize > 0 && count == e.blockSize then
          match ControlFrame(e, FlowContinue)
          case Err(error) => (next.(phase := ReceiveFailed(error)), [])
          case Ok(f) => (next.(blockCount := 0), [f])
        else (next, [])
  }

  datatype ReceiverRun = ReceiverRun(end: Receiver, sent: seq<Frame>, unread: seq<Frame>)

  /** The receiver alone, against the frames that reach it in time. */
  function RunReceiver(e: Endpoint, r: Receiver, inbox: seq<Frame>): (run: ReceiverRun)
    requires ReceiverShape(r)
    decreases |inbox|
  {
    if !Listening(r) then ReceiverRun(r, [], inbox)
    else if inbox == [] then
      var error := if r.phase.Idle? then ErrFirstFrameTimeout else ErrConsecutiveFrameTimeout;
      ReceiverRun(r.(phase := ReceiveFailed(error)), [], inbox)
    else
      var (next, frames) := Accept(e, r, inbox[0]);
      var rest := RunReceiver(e, next, inbox[1..]);
      rest.(sent := frames + rest.sent)
  }
}

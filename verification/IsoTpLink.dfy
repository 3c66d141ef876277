/**
 * One ISO-TP endpoint: the segmentation loop of transmit and the reassembly loop of receive, each proved to run its
 * step machine, and so to do what the frames it reads ask for (isotp/transmit.go, isotp/receive.go).
 */
module IsoTpLink {
  import opened Wrappers
  import opened Frames
  import opened IsoTpFrame
  import opened IsoTpMessages
  import opened IsoTpMachines
  import opened IsoTpReception
  import opened IsoTpSending

  /** What the Link has left to read, and what its bus has accepted. */
  class Link {
    const endpoint: Endpoint
    var inbox: seq<Frame>
    var outbox: seq<Frame>

    ghost predicate Valid()
      reads this
    {
      Legal(endpoint.transmitter)
    }

    constructor (endpoint: Endpoint, inbox: seq<Frame>)
      requires Legal(endpoint.transmitter)
      ensures Valid() && this.endpoint == endpoint && this.inbox == inbox && outbox == []
    {
      this.endpoint := endpoint;
      this.inbox := inbox;
      this.outbox := [];
    }

    // nextPDUWithTimeout: a reader that finds nothing in time reports the given timeout.
    method NextPdu(timeout: Error) returns (r: Result<Pdu, Error>)
      requires Valid()
      modifies this`inbox
      ensures Valid()
      ensures old(inbox) == [] ==> inbox == [] && r == Err(timeout)
      ensures old(inbox) != [] ==> inbox == old(inbox[1..]) && r == ParseFrame(old(inbox[0]))
    {
      if inbox == [] {
        return Err(timeout);
      }
      var frame := inbox[0];
      inbox := inbox[1..];
      r := ParseFrame(frame);
    }

    method WaitFlowControl(ghost s: Sender) returns (r: Result<Pdu, Error>)
      requires Valid() && SenderShape(s) && s.phase == AwaitingControl(0)
      modifies this`inbox
      ensures Valid()
      ensures r.Ok? ==> r.value.FlowControl?
      ensures var run := RunSender(endpoint.transmitter, endpoint.waitFrameLimit, s, old(inbox));
        match r
        case Ok(control) =>
          run == RunSender(endpoint.transmitter, endpoint.waitFrameLimit,
                           s.(phase := InBlock, blockCount := 0, blockSize := control.blockSize), inbox)
        case Err(e) => run == SenderRun(run.end, [], inbox) && run.end.phase == SendFailed(e)
    {
      var waitFrames := 0;
      ghost var run := RunSender(endpoint.transmitter, endpoint.waitFrameLimit, s, inbox);
      while true
        invariant Valid()
        invariant run == RunSender(endpoint.transmitter, endpoint.waitFrameLimit, s.(phase := AwaitingControl(waitFrames)), inbox)
        decreases |inbox|
      {
        if inbox == [] {
          return Err(ErrFlowControlTimeout);
        }
        var control :- NextPdu(ErrFlowControlTimeout);
        if !control.FlowControl? {
          return Err(ErrProtocol);
        }
        match control.status {
          case FlowContinue =>
            return Ok(control);
          case FlowWait =>
            waitFrames := waitFrames + 1;
            if waitFrames > endpoint.waitFrameLimit {
              return Err(ErrWaitFrameLimit);
            }
          case FlowOverflow =>
            return Err(ErrFlowControlOverflow);
        }
      }
    }

    /** Send, with the channel to itself: what the payload and the answers read ask for. */
    method Send(payload: seq<byte>) returns (r: Result<(), Error>)
      requires Valid()
      modifies this
      ensures Valid() && old(outbox) <= outbox && |inbox| <= |old(inbox)|
      ensures var n := |old(inbox)| - |inbox|; var sent := outbox[|old(outbox)|..];
        && inbox == old(inbox)[n..]
        && Sends(endpoint.transmitter, endpoint.waitFrameLimit, payload, old(inbox), n, sent, r)
    {
      hide Sends;
      hide PreparedTransmission;
      PreparedIsSent(endpoint.transmitter, endpoint.waitFrameLimit, payload, inbox);
      var prepared := PrepareTransmission(endpoint.transmitter, payload);
      if prepared.Err? {
        assert outbox[|outbox|..] == [] && inbox[0..] == inbox;
        return Err(prepared.error);
      }
      hide Delivers;
      ghost var (before, read) := (inbox, outbox);
      r := Transmit(prepared.value);
      DeliveredIsSent(endpoint.transmitter, endpoint.waitFrameLimit, payload, before, |before| - |inbox|, outbox[|read|..], r);
    }

    /** transmit: the First Frame, and then as many Consecutive Frames as the answers grant. */
    method Transmit(transmission: Transmission) returns (r: Result<(), Error>)
      requires Valid() && SenderShape(NewSender(transmission))
      modifies this
      ensures Valid() && old(outbox) <= outbox && |inbox| <= |old(inbox)|
      ensures var n := |old(inbox)| - |inbox|; var sent := outbox[|old(outbox)|..];
        && inbox == old(inbox)[n..]
        && Delivers(endpoint.transmitter, endpoint.waitFrameLimit, transmission, old(inbox), n, sent, r)
    {
      hide RunSender;
      hide Delivers;
      ghost var n := TransmissionIsExact(endpoint.transmitter, endpoint.waitFrameLimit, transmission, inbox);
      ghost var (read, run) := (outbox, RunSender(endpoint.transmitter, endpoint.waitFrameLimit, NewSender(transmission), inbox));
      r := RunTransmission(transmission);
      assert (read + run.sent)[|read|..] == run.sent;
      assert r.Ok? ==> r.value == ();
    }

    /** The segmentation loops against the step machine, block by block. */
    method RunTransmission(transmission: Transmission) returns (r: Result<(), Error>)
      requires Valid() && SenderShape(NewSender(transmission))
      modifies this
      ensures Valid()
      ensures var run := RunSender(endpoint.transmitter, endpoint.waitFrameLimit, NewSender(transmission), old(inbox));
        && outbox == old(outbox) + run.sent && inbox == run.unread
        && (r.Ok? <==> run.end.phase.Sent?)
        && (r.Err? ==> run.end.phase == SendFailed(r.error))
    {
      var t := endpoint.transmitter;
      ghost var s := NewSender(transmission);
      ghost var run := RunSender(t, endpoint.waitFrameLimit, s, inbox);
      outbox := outbox + [transmission.firstFrame];
      s := Emit(t, s).0;
      if !transmission.multiFrame {
        return Ok(());
      }
      var payload := transmission.payload;
      var offset := transmission.offset;
      var sequence: nat := 1;
      while offset < |payload|
        invariant Valid() && SenderShape(s) && s.payload == payload && s.offset == offset && s.sequence == sequence
        invariant s.phase == if offset < |payload| then AwaitingControl(0) else Sent
        invariant RestOfRun(run, s, old(outbox))
        decreases |payload| - offset
      {
        var control :- WaitFlowControl(s);
        s := s.(phase := InBlock, blockCount := 0, blockSize := control.blockSize);
        var block, next := SendBlock(payload, offset, sequence, control.blockSize, run, s, old(outbox));
        if block.Err? {
          return Err(block.error);
        }
        offset, sequence := block.value.0, block.value.1;
        s := next;
      }
      return Ok(());
    }

    /** The inner loop of transmit: one granted block, from `offset` on. */
    method SendBlock(payload: seq<byte>, offset: nat, sequence: nat, blockSize: byte,
                     ghost run: SenderRun, ghost s: Sender, ghost before: seq<Frame>)
      returns (r: Result<(nat, nat), Error>, ghost next: Sender)
      requires Valid() && SenderShape(s) && s == Sender(InBlock, payload, offset, sequence, 0, blockSize)
      requires RestOfRun(run, s, before)
      modifies this`outbox
      ensures SenderShape(next) && next.payload == payload
      ensures r.Err? ==> before + run.sent == outbox && run.end.phase == SendFailed(r.error) && run.unread == inbox
      ensures r.Ok? ==>
        && (next.offset, next.sequence) == r.value && offset < next.offset
        && next.phase == (if next.offset < |payload| then AwaitingControl(0) else Sent)
        && RestOfRun(run, next, before)
    {
      hide RunSender;
      var length := endpoint.transmitter.transmitDataLength;
      var position, expected := offset, sequence;
      var blockCount: byte := 0;
      next := s;
      while position < |payload| && (blockSize == 0 || blockCount < blockSize)
        invariant SenderShape(next)
        invariant next == Sender(BlockPhase(payload, position, blockSize, blockCount), payload, position, expected, blockCount, blockSize)
        invariant position > offset || (position == offset && blockCount == 0)
        invariant RestOfRun(run, next, before)
      {
        var end := if position + length - 1 < |payload| then position + length - 1 else |payload|;
        var accepted;
        accepted, next := SendConsecutive(expected, payload[position..end], run, next, before);
        if accepted.Err? {
          return Err(accepted.error), next;
        }
        position := end;
        expected := (expected + 1) % 16;
        blockCount := (blockCount + 1) % 256;
      }
      return Ok((position, expected)), next;
    }

    method SendConsecutive(sequence: nat, chunk: seq<byte>, ghost run: SenderRun, ghost s: Sender, ghost before: seq<Frame>)
      returns (r: Result<(), Error>, ghost next: Sender)
      requires Valid() && SenderShape(s) && s.phase.InBlock? && RestOfRun(run, s, before)
      requires sequence == s.sequence && chunk == s.payload[s.offset..ChunkEnd(endpoint.transmitter, s)]
      modifies this`outbox
      ensures SenderShape(next) && next.payload == s.payload && next.blockSize == s.blockSize
      ensures r.Err? ==> before + run.sent == outbox && run.end.phase == SendFailed(r.error) && run.unread == inbox
      ensures r.Ok? ==>
        && next.offset == ChunkEnd(endpoint.transmitter, s) && next.sequence == (sequence + 1) % 16
        && next.blockCount == (s.blockCount + 1) % 256
        && next.phase == BlockPhase(next.payload, next.offset, next.blockSize, next.blockCount)
        && RestOfRun(run, next, before)
    {
      next := EmitRest(run, s, before);
      var frame := MakeFrame(endpoint.transmitter, ConsecutiveFrameData(sequence, chunk), false);
      if frame.Err? {
        return Err(frame.error), next;
      }
      outbox := outbox + [frame.value];
      return Ok(()), next;
    }

    /** The part of `run` still ahead, after one more Consecutive Frame. */
    lemma EmitRest(run: SenderRun, s: Sender, before: seq<Frame>) returns (next: Sender)
      requires Valid() && SenderShape(s) && s.phase.InBlock? && RestOfRun(run, s, before)
      ensures SenderShape(next) && next.payload == s.payload && next.blockSize == s.blockSize
      ensures var end := ChunkEnd(endpoint.transmitter, s);
        match MadeFrame(endpoint.transmitter, ConsecutiveFrameData(s.sequence, s.payload[s.offset..end]), false)
        case Err(e) =>
          before + run.sent == outbox && run.end.phase == SendFailed(e) && run.unread == inbox
        case Ok(frame) =>
          && next.offset == end && next.sequence == (s.sequence + 1) % 16 && next.blockCount == (s.blockCount + 1) % 256
          && next.phase == BlockPhase(s.payload, end, s.blockSize, next.blockCount)
          && var rest := RunSender(endpoint.transmitter, endpoint.waitFrameLimit, next, inbox);
             before + run.sent == (outbox + [frame]) + rest.sent && run.end == rest.end && run.unread == rest.unread
    {
      next := Emit(endpoint.transmitter, s).0;
    }

    /** What is still to happen in `run` is what the sender does from `s` with the remaining inbox. */
    ghost predicate RestOfRun(run: SenderRun, s: Sender, before: seq<Frame>)
      requires Valid() && SenderShape(s)
      reads this
    {
      var rest := RunSender(endpoint.transmitter, endpoint.waitFrameLimit, s, inbox);
      before + run.sent == outbox + rest.sent && run.end == rest.end && run.unread == rest.unread
    }

    method SendFlowControl(status: FlowStatus) returns (r: Result<(), Error>)
      requires Valid()
      modifies this`outbox
      ensures match ControlFrame(endpoint, status)
        case Ok(frame) => r == Ok(()) && outbox == old(outbox) + [frame]
        case Err(e) => r == Err(e) && outbox == old(outbox)
    {
      var frame :- MakeFrame(endpoint.transmitter, FlowControlData(status, endpoint.blockSize, endpoint.separationTime), false);
      outbox := outbox + [frame];
      r := Ok(());
    }

    /** receive: what the frames read mean, and nothing else. */
    method Receive() returns (r: Result<seq<byte>, Error>)
      requires Valid()
      modifies this
      ensures Valid() && old(outbox) <= outbox && |inbox| <= |old(inbox)|
      ensures var n := |old(inbox)| - |inbox|; var sent := outbox[|old(outbox)|..];
        && inbox == old(inbox)[n..]
        && Receives(endpoint.transmitter.maximumPayloadLength, old(inbox)[..n], inbox == [], r)
        && Answers(endpoint.transmitter.maximumPayloadLength, endpoint.blockSize, endpoint.separationTime, old(inbox)[..n], sent)
    {
      hide RunReceiver;
      hide Receives;
      hide Answers;
      ghost var n := ReceptionIsExact(endpoint, inbox);
      r := RunReception();
    }

    /** The reassembly against the step machine. */
    method RunReception() returns (r: Result<seq<byte>, Error>)
      requires Valid()
      modifies this
      ensures Valid()
      ensures var run := RunReceiver(endpoint, NEW_RECEIVER, old(inbox));
        && outbox == old(outbox) + run.sent && inbox == run.unread
        && (r.Ok? <==> run.end.phase.Delivered?)
        && (r.Ok? ==> r.value == run.end.payload)
        && (r.Err? ==> run.end.phase == ReceiveFailed(r.error))
    {
      ghost var before := inbox;
      var first :- NextPdu(ErrFirstFrameTimeout);
      match first {
        case SingleFrame(payload) =>
          if |payload| > endpoint.transmitter.maximumPayloadLength {
            return Err(ErrPayloadTooLarge);
          }
          return Ok(payload);
        case FirstFrame(_, _, _) =>
          r := ReceiveMultiFrame(first, before);
        case _ =>
          return Err(ErrProtocol);
      }
    }

    method ReceiveMultiFrame(first: Pdu, ghost before: seq<Frame>) returns (r: Result<seq<byte>, Error>)
      requires Valid() && first.FirstFrame?
      requires before != [] && inbox == before[1..] && ParseFrame(before[0]) == Ok(first)
      modifies this
      ensures Valid()
      ensures var run := RunReceiver(endpoint, NEW_RECEIVER, before);
        && outbox == old(outbox) + run.sent && inbox == run.unread
        && (r.Ok? <==> run.end.phase.Delivered?)
        && (r.Ok? ==> r.value == run.end.payload)
        && (r.Err? ==> run.end.phase == ReceiveFailed(r.error))
    {
      hide ParseFrame;
      hide MadeFrame;
      if first.length <= 7 {
        return Err(ErrProtocol);
      }
      if first.length > endpoint.transmitter.maximumPayloadLength {
        var sent := SendFlowControl(FlowOverflow);
        return Err(ErrPayloadTooLarge);
      }
      var total := first.length;
      if total <= |first.payload| {
        return Err(ErrProtocol);
      }
      var payload := first.payload;
      FirstRest(first, before);
      var granted :- SendFlowControl(FlowContinue);
      r := Reassemble(total, first.dataLength, payload, RunReceiver(endpoint, NEW_RECEIVER, before), old(outbox));
    }

    lemma {:induction false} FirstRest(first: Pdu, before: seq<Frame>)
      requires Valid() && first.FirstFrame? && 7 < first.length <= endpoint.transmitter.maximumPayloadLength
      requires |first.payload| < first.length
      requires before != [] && inbox == before[1..] && ParseFrame(before[0]) == Ok(first)
      ensures var run := RunReceiver(endpoint, NEW_RECEIVER, before);
        match ControlFrame(endpoint, FlowContinue)
        case Err(e) => run.sent == [] && run.end.phase == ReceiveFailed(e) && run.unread == inbox
        case Ok(frame) =>
          var rest := RunReceiver(endpoint, Receiver(Reassembling, first.length, first.dataLength, 1, 0, first.payload), inbox);
          run.sent == [frame] + rest.sent && run.end == rest.end && run.unread == rest.unread
    {
      assert Accept(endpoint, NEW_RECEIVER, before[0]) == AcceptFirst(endpoint, NEW_RECEIVER, first);
    }

    /** The loop of receiveMultiFrame, after the first grant. */
    method Reassemble(total: nat, dataLength: nat, start: seq<byte>, ghost run: ReceiverRun, ghost before: seq<Frame>)
      returns (r: Result<seq<byte>, Error>)
      requires Valid() && |start| < total
      requires RestOfReception(run, Receiver(Reassembling, total, dataLength, 1, 0, start), before)
      modifies this
      ensures Valid()
      ensures outbox == before + run.sent && inbox == run.unread
      ensures r.Ok? <==> run.end.phase.Delivered?
      ensures r.Ok? ==> r.value == run.end.payload
      ensures r.Err? ==> run.end.phase == ReceiveFailed(r.error)
    {
      var state := Receiver(Reassembling, total, dataLength, 1, 0, start);
      while |state.payload| < total
        invariant Valid() && ReceiverShape(state) && state.total == total
        invariant state.phase == if |state.payload| < total then Reassembling else Delivered
        invariant RestOfReception(run, state, before)
        decreases |inbox|
      {
        if inbox == [] {
          return Err(ErrConsecutiveFrameTimeout);
        }
        ghost var next := AcceptRest(run, state, before);
        var consecutive :- NextPdu(ErrConsecutiveFrameTimeout);
        state :- TakeConsecutive(state, consecutive);
      }
      return Ok(state.payload);
    }

    /** One Consecutive Frame: checked, appended, and answered when it completes a block. */
    method TakeConsecutive(s: Receiver, consecutive: Pdu) returns (r: Result<Receiver, Error>)
      requires Valid() && ReceiverShape(s) && s.phase.Reassembling?
      modifies this`outbox
      ensures var (next, frames) := AcceptConsecutive(endpoint, s, consecutive);
        && outbox == old(outbox) + frames
        && (if next.phase.ReceiveFailed? then r == Err(next.phase.error) else r == Ok(next))
    {
      if !consecutive.ConsecutiveFrame? {
        return Err(ErrProtocol);
      }
      if consecutive.sequence != s.expected {
        return Err(ErrProtocol);
      }
      var remaining := s.total - |s.payload|;
      if |consecutive.payload| < remaining && consecutive.dataLength != s.dataLength {
        return Err(ErrProtocol);
      }
      var data := consecutive.payload;
      if |data| > remaining {
        data := data[..remaining];
      }
      var payload := s.payload + data;
      var expected := (s.expected + 1) % 16;
      var blockCount: byte := (s.blockCount + 1) % 256;
      if endpoint.blockSize > 0 && blockCount == endpoint.blockSize && |payload| < s.total {
        var again :- SendFlowControl(FlowContinue);
        blockCount := 0;
      }
      return Ok(s.(phase := if |payload| < s.total then Reassembling else Delivered,
                   payload := payload, expected := expected, blockCount := blockCount));
    }

    ghost predicate RestOfReception(run: ReceiverRun, s: Receiver, before: seq<Frame>)
      requires Valid() && ReceiverShape(s)
      reads this
    {
      var rest := RunReceiver(endpoint, s, inbox);
      before + run.sent == outbox + rest.sent && run.end == rest.end && run.unread == rest.unread
    }

    /** The part of `run` still ahead, after one more frame has been read. */
    lemma AcceptRest(run: ReceiverRun, s: Receiver, before: seq<Frame>) returns (next: Receiver)
      requires Valid() && inbox != [] && ReceiverShape(s) && s.phase.Reassembling? && RestOfReception(run, s, before)
      ensures ReceiverShape(next)
      ensures match ParseFrame(inbox[0])
        case Err(e) => before + run.sent == outbox && run.end.phase == ReceiveFailed(e) && run.unread == inbox[1..]
        case Ok(pdu) =>
          && next == AcceptConsecutive(endpoint, s, pdu).0
          && var frames := AcceptConsecutive(endpoint, s, pdu).1;
             if next.phase.ReceiveFailed? then
               before + run.sent == outbox + frames && run.end == next && run.unread == inbox[1..]
             else
               var rest := RunReceiver(endpoint, next, inbox[1..]);
               before + run.sent == (outbox + frames) + rest.sent && run.end == rest.end && run.unread == rest.unread
    {
      hide ParseFrame;
      hide MadeFrame;
      next := Accept(endpoint, s, inbox[0]).0;
      assert RunReceiver(endpoint, s, inbox).sent ==
        Accept(endpoint, s, inbox[0]).1 + RunReceiver(endpoint, next, inbox[1..]).sent;
    }
  }
}

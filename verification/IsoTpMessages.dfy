/**
 * What a sequence of received frames means, said of the frames alone (section 9 of ISO 15765-2): the messages
 * they carry and the transmissions they grant, without the loops that read them.
 */
module IsoTpMessages {
  import opened Wrappers
  import opened Frames
  import opened IsoTpFrame

  // ---- Messages --------------------------------------------------------------------------

  // The i-th frame is the i-th Consecutive Frame of a message.
  ghost predicate Numbered(frames: seq<Frame>, i: nat)
    requires i < |frames|
  {
    && ParseFrame(frames[i]).Ok? && ParseFrame(frames[i]).value.ConsecutiveFrame?
    && ParseFrame(frames[i]).value.sequence == i % 16
  }

  /** A First Frame within the limit, that announces more than it carries. */
  ghost predicate Announces(maximum: nat, frames: seq<Frame>) {
    && frames != [] && ParseFrame(frames[0]).Ok? && ParseFrame(frames[0]).value.FirstFrame?
    && var first := ParseFrame(frames[0]).value;
    7 < first.length <= maximum && |first.payload| < first.length
  }

  /** The First Frame and the Consecutive Frames 1, 2, 3 and so on behind it. */
  ghost predicate InSequence(maximum: nat, frames: seq<Frame>) {
    Announces(maximum, frames) && forall i :: 1 <= i < |frames| ==> Numbered(frames, i)
  }

  /** Their bytes, in order. */
  ghost function Carried(maximum: nat, frames: seq<Frame>): (bytes: seq<byte>)
    requires InSequence(maximum, frames)
    decreases |frames|
  {
    if |frames| == 1 then ParseFrame(frames[0]).value.payload
    else
      BeforeInSequence(maximum, frames);
      Carried(maximum, Before(frames)) + ParseFrame(frames[|frames| - 1]).value.payload
  }

  function Before(frames: seq<Frame>): seq<Frame>
    requires frames != []
  {
    frames[..|frames| - 1]
  }

  lemma BeforeInSequence(maximum: nat, frames: seq<Frame>)
    requires InSequence(maximum, frames) && |frames| > 1
    ensures InSequence(maximum, Before(frames)) && Numbered(frames, |frames| - 1)
  {
    forall i | 1 <= i < |frames| - 1
      ensures Numbered(Before(frames), i)
    {
      assert Numbered(frames, i);
    }
  }

  /** Frames that start a message and do not end it: every one is as long as the first. */
  ghost predicate Partial(maximum: nat, frames: seq<Frame>) {
    && InSequence(maximum, frames) && |Carried(maximum, frames)| < ParseFrame(frames[0]).value.length
    && forall i :: 1 <= i < |frames| ==> Numbered(frames, i) && ParseFrame(frames[i]).value.dataLength == ParseFrame(frames[0]).value.dataLength
  }

  /** Frames that carry exactly one segmented message: only the last may be shorter than the first. */
  ghost predicate Segments(maximum: nat, frames: seq<Frame>) {
    && |frames| > 1 && InSequence(maximum, frames) && Partial(maximum, Before(frames))
    && |Carried(maximum, frames)| >= ParseFrame(frames[0]).value.length
  }

  ghost predicate Single(maximum: nat, frames: seq<Frame>) {
    && |frames| == 1 && ParseFrame(frames[0]).Ok? && ParseFrame(frames[0]).value.SingleFrame?
    && |ParseFrame(frames[0]).value.payload| <= maximum
  }

  ghost predicate Message(maximum: nat, frames: seq<Frame>) {
    Single(maximum, frames) || Segments(maximum, frames)
  }

  /** The payload of a message, cut to the announced length. */
  ghost function PayloadOf(maximum: nat, frames: seq<Frame>): seq<byte>
    requires Message(maximum, frames)
  {
    if Single(maximum, frames) then ParseFrame(frames[0]).value.payload
    else Carried(maximum, frames)[..ParseFrame(frames[0]).value.length]
  }

  /** How a frame that ends a reception without a message fails it. */
  ghost function FirstFailure(maximum: nat, frame: Frame): (e: Error) {
    match ParseFrame(frame)
    case Ok(SingleFrame(_)) => ErrPayloadTooLarge
    case Ok(FirstFrame(length, _, _)) => if length > 7 && length > maximum then ErrPayloadTooLarge else ErrProtocol
    case _ => ErrProtocol
  }

  /**
   * What a receiver makes of the frames it has read, and of nothing else in time: `r` is the result of a reception
   * that has read exactly these frames. A message is delivered; the frame that breaks one fails it, and so does
   * silence.
   */
  ghost predicate Receives(maximum: nat, frames: seq<Frame>, silent: bool, r: Result<seq<byte>, Error>) {
    if Message(maximum, frames) then r == Ok(PayloadOf(maximum, frames))
    else if frames == [] then silent && r == Err(ErrFirstFrameTimeout)
    else if Partial(maximum, frames) then silent && r == Err(ErrConsecutiveFrameTimeout)
    else if |frames| == 1 then r == Err(FirstFailure(maximum, frames[0]))
    else Partial(maximum, Before(frames)) && r == Err(ErrProtocol)
  }

  // ---- Answers to a message --------------------------------------------------------------

  /** How often a receiver with this block size has granted a block when it has read these frames. */
  ghost function Grants(maximum: nat, blockSize: nat, frames: seq<Frame>): nat {
    if frames == [] || !Announces(maximum, frames) then 0
    else
      // the Consecutive Frames that leave something missing
      var consecutive := if Partial(maximum, frames) then |frames| - 1 else |frames| - 2;
      if blockSize == 0 || consecutive < 0 then 1 else 1 + consecutive / blockSize
  }

  predicate IsControl(frame: Frame, status: FlowStatus, blockSize: byte, separationTime: byte) {
    frame.Valid() && ParseFrame(frame) == Ok(FlowControl(status, blockSize, DecodeSeparationTime(separationTime)))
  }

  /** What the receiver has sent: one grant for every block, or one rejection of a message beyond its limit. */
  ghost predicate Answers(maximum: nat, blockSize: byte, separationTime: byte, frames: seq<Frame>, sent: seq<Frame>) {
    if |frames| == 1 && ParseFrame(frames[0]).Ok? && ParseFrame(frames[0]).value.FirstFrame?
       && ParseFrame(frames[0]).value.length > 7 && ParseFrame(frames[0]).value.length > maximum then
      |sent| == 1 && IsControl(sent[0], FlowOverflow, blockSize, separationTime)
    else
      && |sent| == Grants(maximum, blockSize, frames)
      && forall i :: 0 <= i < |sent| ==> IsControl(sent[i], FlowContinue, blockSize, separationTime)
  }

  // ---- One frame more --------------------------------------------------------------------

  predicate Fits(seen: nat, frame: Frame) {
    ParseFrame(frame).Ok? && ParseFrame(frame).value.ConsecutiveFrame? && ParseFrame(frame).value.sequence == seen % 16
  }

  lemma {:induction false} SequenceExtended(maximum: nat, seen: seq<Frame>, frame: Frame)
    requires InSequence(maximum, seen)
    ensures var frames := seen + [frame];
      && |frames| > 1 && Before(frames) == seen && frames[0] == seen[0] && Announces(maximum, frames)
      && (InSequence(maximum, frames) <==> Fits(|seen|, frame))
      && (InSequence(maximum, frames) ==> Carried(maximum, frames) == Carried(maximum, seen) + ParseFrame(frame).value.payload)
  {
    hide ParseFrame;
    var frames := seen + [frame];
    assert Before(frames) == seen;
    if Fits(|seen|, frame) {
      forall i | 1 <= i < |frames|
        ensures Numbered(frames, i)
      {
        assert i < |seen| ==> Numbered(seen, i);
      }
    } else {
      assert !Numbered(frames, |seen|);
    }
  }

  /** What one frame does to the frames of an unfinished message. */
  lemma {:induction false} Extended(maximum: nat, seen: seq<Frame>, frame: Frame)
    requires Partial(maximum, seen)
    ensures var frames := seen + [frame]; var first := ParseFrame(seen[0]).value;
      && frames[0] == seen[0] && Announces(maximum, frames) && !Single(maximum, frames)
      && if !Fits(|seen|, frame) then !Partial(maximum, frames) && !Segments(maximum, frames)
         else
           var pdu := ParseFrame(frame).value; var bytes := Carried(maximum, seen) + pdu.payload;
           && (Segments(maximum, frames) <==> |bytes| >= first.length)
           && (Segments(maximum, frames) ==> PayloadOf(maximum, frames) == bytes[..first.length])
           && (Partial(maximum, frames) <==> |bytes| < first.length && pdu.dataLength == first.dataLength)
           && (Partial(maximum, frames) ==> Carried(maximum, frames) == bytes)
  {
    SequenceExtended(maximum, seen, frame);
    hide ParseFrame;
    hide Carried;
    hide InSequence;
    var frames := seen + [frame];
    assert forall i :: 1 <= i < |seen| ==> frames[i] == seen[i];
    assert frames[|seen|] == frame;
  }

  // ---- Transmissions ---------------------------------------------------------------------

  /**
   * A segmented transmission: the first `offset` bytes of the payload go with the First Frame, the others `room` bytes
   * a segment.
   */
  datatype Job = Job(t: Transmitter, payload: seq<byte>, offset: nat, room: nat) {

    ghost predicate Valid() {
      Legal(t) && offset <= |payload| && 7 <= room == t.transmitDataLength - 1
    }
  }

  /** Where the k-th segment ends. */
  function SegmentEnd(j: Job, k: nat): (end: nat)
    ensures j.offset <= |j.payload| ==> j.offset <= end <= |j.payload|
  {
    if k == 0 then j.offset
    else
      var from := SegmentEnd(j, k - 1);
      if from + j.room < |j.payload| then from + j.room else |j.payload|
  }

  function Segment(j: Job, k: nat): seq<byte>
    requires k >= 1
  {
    var (from, end) := (SegmentEnd(j, k - 1), SegmentEnd(j, k));
    if from <= end <= |j.payload| then j.payload[from..end] else []
  }

  predicate Over(j: Job, k: nat) {
    SegmentEnd(j, k) == |j.payload|
  }

  predicate IsGrant(frame: Frame) {
    && ParseFrame(frame).Ok? && ParseFrame(frame).value.FlowControl?
    && ParseFrame(frame).value.status == FlowContinue
  }

  predicate IsWait(frame: Frame) {
    && ParseFrame(frame).Ok? && ParseFrame(frame).value.FlowControl?
    && ParseFrame(frame).value.status == FlowWait
  }

  /** How many of these frames at the end ask to wait, one after the other. */
  function WaitsBehind(frames: seq<Frame>): (n: nat)
    decreases |frames|
  {
    if frames == [] || !IsWait(frames[|frames| - 1]) then 0 else 1 + WaitsBehind(Before(frames))
  }

  /** How many segments these frames grant altogether; None is any number. */
  function Granted(frames: seq<Frame>): (n: Option<nat>)
    decreases |frames|
  {
    if frames == [] then Some(0)
    else
      var before := Granted(Before(frames));
      if before.None? || !IsGrant(frames[|frames| - 1]) then before
      else
        var size := ParseFrame(frames[|frames| - 1]).value.blockSize;
        if size == 0 then None else Some(before.value + size)
  }

  predicate Enough(j: Job, frames: seq<Frame>) {
    Granted(frames).None? || Over(j, Granted(frames).value)
  }

  /** Grants and waits that leave segments to be granted, never more waits in a row than allowed. */
  predicate Pending(j: Job, limit: nat, frames: seq<Frame>)
    decreases |frames|
  {
    && !Enough(j, frames)
    && (frames == [] || (Pending(j, limit, Before(frames))
                         && (IsGrant(frames[|frames| - 1]) || IsWait(frames[|frames| - 1])) && WaitsBehind(frames) <= limit))
  }

  /** How a frame that neither grants nor asks to wait once more ends a transmission. */
  function ControlFailure(frame: Frame): Error {
    match ParseFrame(frame)
    case Ok(FlowControl(FlowWait, _, _)) => ErrWaitFrameLimit
    case Ok(FlowControl(FlowOverflow, _, _)) => ErrFlowControlOverflow
    case _ => ErrProtocol
  }

  /**
   * The result of a segmented transmission that has read exactly these frames: it is over as soon as enough
   * segments have been granted, and fails with the first frame that is not a permitted answer, or in silence.
   */
  predicate Transmits(j: Job, limit: nat, frames: seq<Frame>, silent: bool, r: Result<(), Error>) {
    if Pending(j, limit, frames) then silent && r == Err(ErrFlowControlTimeout)
    else
      && frames != [] && Pending(j, limit, Before(frames))
      && r == if IsGrant(frames[|frames| - 1]) then Ok(()) else Err(ControlFailure(frames[|frames| - 1]))
  }

  /** A frame that carries these bytes as the k-th segment, as far as its length allows. */
  predicate IsSegment(t: Transmitter, k: nat, bytes: seq<byte>, frame: Frame) {
    && frame.Valid() && frame.id == t.transmitID && frame.flags == t.flags
    && ParseFrame(frame).Ok? && ParseFrame(frame).value.ConsecutiveFrame?
    && var pdu := ParseFrame(frame).value;
    && pdu.sequence == k % 16 && bytes <= pdu.payload && pdu.dataLength <= t.transmitDataLength
    && (|bytes| == t.transmitDataLength - 1 ==> pdu.payload == bytes)
  }

  /** Segments n + 1, n + 2 and so on. */
  predicate AreSegments(j: Job, n: nat, frames: seq<Frame>) {
    forall i :: 0 <= i < |frames| ==> IsSegment(j.t, n + i + 1, Segment(j, n + i + 1), frames[i])
  }

  /** As many segments as have been granted, or all there are. */
  predicate SentAsGranted(j: Job, granted: Option<nat>, n: nat) {
    && (n > 0 ==> !Over(j, n - 1))
    && (granted.Some? ==> n <= granted.value)
    && (granted == Some(n) || Over(j, n))
  }

  lemma {:induction false} SegmentsSaturate(j: Job, n: nat, m: nat)
    requires j.offset <= |j.payload| && n <= m && Over(j, n)
    ensures Over(j, m)
  {
    if n < m {
      SegmentsSaturate(j, n, m - 1);
    }
  }

  /** What one frame does to the answers to an unfinished transmission. */
  lemma {:induction false} AnswerExtended(j: Job, limit: nat, seen: seq<Frame>, frame: Frame)
    requires Pending(j, limit, seen)
    ensures Granted(seen).Some?
    ensures var frames := seen + [frame];
      && Before(frames) == seen && frames[|frames| - 1] == frame
      && (IsWait(frame) ==> WaitsBehind(frames) == WaitsBehind(seen) + 1)
      && (!IsWait(frame) ==> WaitsBehind(frames) == 0)
      && Granted(frames) ==
         if !IsGrant(frame) then Granted(seen)
         else if ParseFrame(frame).value.blockSize == 0 then None
         else Some(Granted(seen).value + ParseFrame(frame).value.blockSize)
  {
    hide ParseFrame;
    assert Before(seen + [frame]) == seen;
  }

  lemma NumberNext(n: nat)
    ensures (n % 16 + 1) % 16 == (n + 1) % 16
  {
  }

  lemma ParseFails(frame: Frame)
    ensures ParseFrame(frame).Err? ==> ParseFrame(frame) == Err(ErrProtocol)
  {
  }
}

/**
 * What an XCP command comes to, said of the bytes of the frames the client takes while it waits (xcp/command.go): which
 * frames leave it waiting, and what the first of the others means.
 */
module XcpReplies {
  import opened Wrappers
  import opened Frames
  import opened XcpPackets

  // One use of the bus by the client: a command offered to it, or one wait, which ends with a frame or without.
  datatype Act = Sending(request: Request, accepted: bool) | Waiting(frame: Option<Frame>)

  predicate CommandTraffic(config: Config, frame: Frame) {
    !frame.flags.remote && frame.flags.fd == config.flags.fd && (|frame.data| == 0 || frame.data[0] > 0xfc)
  }

  predicate Fits(config: Config, frame: Frame) {
    1 <= |frame.data| <= config.capacity
  }

  /**
   * The frames that leave a command waiting: other traffic, events but the end of the session, and, for SYNCH, replies
   * that are not its marker.
   */
  predicate Passed(config: Config, command: byte, frame: Frame) {
    || !CommandTraffic(config, frame)
    || (Fits(config, frame) && |frame.data| >= 2 && frame.data[0] == 0xfd && frame.data[1] != 0x07)
    || (command == SYNCH && Fits(config, frame) && frame.data[0] == 0xff)
    || (command == SYNCH && Fits(config, frame) && |frame.data| >= 2 && frame.data[0] == 0xfe && frame.data[1] != 0x00)
  }

  /** What any other frame makes of it. */
  function Outcome(config: Config, command: byte, minimum: nat, frame: Frame): Result<seq<byte>, Error> {
    var data := frame.data;
    if !Fits(config, frame) || (|data| < 2 && data[0] != 0xff) then Err(InvalidResponse)
    else if data[0] == 0xfd then Err(SessionTerminated)
    else if data[0] == 0xfe && command != SYNCH then Err(Negative(data[1]))
    else if |data| < minimum && command != SYNCH then Err(InvalidResponse)
    else Ok(data[1..])
  }

  lemma PacketsMean(config: Config, command: byte, minimum: nat, frame: Frame)
    ensures var (packet, passed, outcome) := (Classify(config, frame), Passed(config, command, frame), Outcome(config, command, minimum, frame));
      match packet
      case Ignored => passed
      case CommandPending => passed
      case Malformed => !passed && outcome == Err(InvalidResponse)
      case Terminated => !passed && outcome == Err(SessionTerminated)
      case Positive(data) =>
        if command == SYNCH then passed
        else !passed && outcome == if 1 + |data| < minimum then Err(InvalidResponse) else Ok(data)
      case ErrorReply(data) =>
        if command != SYNCH then !passed && outcome == Err(Negative(data[0]))
        else if data[0] == 0 then !passed && outcome == Ok(data)
        else passed
  {
  }

  // ---- Waiting for the reply -------------------------------------------------------------

  ghost predicate AllPassed(config: Config, command: byte, waits: seq<Act>) {
    forall i :: 0 <= i < |waits| ==> waits[i].Waiting? && waits[i].frame.Some? && Passed(config, command, waits[i].frame.value)
  }

  /** The first frame that does not leave the command waiting settles it; only a wait without a frame interrupts it. */
  ghost predicate Received(config: Config, command: byte, minimum: nat, waits: seq<Act>, r: Result<seq<byte>, Error>) {
    && waits != [] && AllPassed(config, command, waits[..|waits| - 1])
    && var last := waits[|waits| - 1];
    && last.Waiting?
    && match last.frame
       case None => r == Err(Interrupted)
       case Some(frame) => !Passed(config, command, frame) && r == Outcome(config, command, minimum, frame)
  }

  lemma ReceivedWaits(config: Config, command: byte, minimum: nat, waits: seq<Act>, r: Result<seq<byte>, Error>)
    requires Received(config, command, minimum, waits, r)
    ensures waits != [] && waits[0].Waiting?
  {
    assert |waits| > 1 ==> waits[..|waits| - 1][0] == waits[0];
  }

  lemma NothingPassed(config: Config, command: byte)
    ensures AllPassed(config, command, [])
  {
  }

  lemma PassedOn(config: Config, command: byte, waits: seq<Act>, act: Act)
    requires AllPassed(config, command, waits) && act.Waiting? && act.frame.Some? && Passed(config, command, act.frame.value)
    ensures AllPassed(config, command, waits + [act])
  {
  }

  lemma SettledBy(config: Config, command: byte, minimum: nat, waits: seq<Act>, act: Act, r: Result<seq<byte>, Error>)
    requires AllPassed(config, command, waits) && act.Waiting?
    requires match act.frame
      case None => r == Err(Interrupted)
      case Some(frame) => !Passed(config, command, frame) && r == Outcome(config, command, minimum, frame)
    ensures Received(config, command, minimum, waits + [act], r)
  {
    assert (waits + [act])[..|waits|] == waits;
  }

  // ---- One command -----------------------------------------------------------------------

  /** The request is refused, or offered to the bus and waited for; an unanswered SYNCH is only waited for. */
  ghost predicate Exchanged(config: Config, valid: Result<nat, Error>, request: Request, resumed: bool, acts: seq<Act>,
                            r: Result<seq<byte>, Error>)
  {
    match valid
    case Err(error) => acts == [] && r == Err(error)
    case Ok(minimum) =>
      if resumed then Received(config, request.command, minimum, acts, r)
      else
        && acts != [] && acts[0].Sending? && acts[0].request == request
        && if acts[0].accepted then Received(config, request.command, minimum, acts[1..], r)
           else |acts| == 1 && r == Err(SendFailed)
  }

  // The capabilities in a reply to CONNECT must be acceptable.
  function Trusted(config: Config, request: Request, x: Result<seq<byte>, Error>): (r: Result<seq<byte>, Error>) {
    if x.Err? || request.command != CONNECT then x
    else if |x.value| < 7 then Err(InvalidResponse)
    else match ParseConnect(config, x.value)
      case Err(error) => Err(error)
      case Ok(_) => x
  }

  ghost predicate Plain(config: Config, valid: Result<nat, Error>, request: Request, resumed: bool, acts: seq<Act>,
                        r: Result<seq<byte>, Error>)
  {
    exists x :: Exchanged(config, valid, request, resumed, acts, x) && r == Trusted(config, request, x)
  }

  /** CONNECT after an unanswered CONNECT or DISCONNECT: that CONNECT, a SYNCH behind it, and CONNECT again. */
  ghost predicate Fenced(config: Config, valid: Result<nat, Error>, request: Request, first: seq<Act>, fence: seq<Act>,
                         last: seq<Act>, r: Result<seq<byte>, Error>)
  {
    exists x, y ::
      && Exchanged(config, valid, request, false, first, x)
      && if Trusted(config, request, x).Err? then fence == [] == last && r == Trusted(config, request, x)
         else
           && Exchanged(config, Ok(1), Request(SYNCH, []), false, fence, y)
           && if y.Err? then last == [] && r == y
              else Plain(config, valid, request, false, last, r)
  }

  /** What a command does with the bus and what it returns. */
  ghost predicate Conducted(config: Config, connected: bool, pending: byte, capabilities: Capabilities, request: Request,
                            acts: seq<Act>, r: Result<seq<byte>, Error>)
  {
    var valid := ValidateRequest(config, connected, pending, capabilities, request);
    if Recovers(request.command, pending) then
      exists first, fence, last :: acts == first + fence + last && Fenced(config, valid, request, first, fence, last, r)
    else Plain(config, valid, request, request.command == SYNCH && pending == SYNCH, acts, r)
  }

  /** A reply to the command long enough for it. */
  predicate Replies(config: Config, minimum: nat, frame: Frame) {
    CommandTraffic(config, frame) && Fits(config, frame) && frame.data[0] == 0xff && |frame.data| >= minimum
  }

  /** A request that may be sent, is accepted by the bus and is answered before a wait ends empty succeeds with the answer. */
  lemma AnsweredSucceeds(config: Config, connected: bool, pending: byte, capabilities: Capabilities, request: Request,
                         minimum: nat, acts: seq<Act>, r: Result<seq<byte>, Error>)
    requires Conducted(config, connected, pending, capabilities, request, acts, r)
    requires ValidateRequest(config, connected, pending, capabilities, request) == Ok(minimum)
    requires request.command != SYNCH && request.command != CONNECT
    requires acts != [] && acts[0] == Sending(request, true)
    requires forall i :: 1 <= i < |acts| ==> acts[i].Waiting? && acts[i].frame.Some?
    requires forall i :: 1 <= i < |acts| ==>
      Passed(config, request.command, acts[i].frame.value) || Replies(config, minimum, acts[i].frame.value)
    ensures |acts| > 1 && Replies(config, minimum, acts[|acts| - 1].frame.value)
    ensures r == Ok(acts[|acts| - 1].frame.value.data[1..])
  {
    hide ValidateRequest;
  }
}

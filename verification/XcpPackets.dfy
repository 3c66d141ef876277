/** XCP requests, packets and CONNECT capabilities as the client checks and reads them (xcp/command.go). */
module XcpPackets {
  import opened Wrappers
  import opened Frames

  const CONNECT: byte := 0xff
  const DISCONNECT: byte := 0xfe
  const GET_STATUS: byte := 0xfd
  const SYNCH: byte := 0xfc
  const GET_COMM_MODE_INFO: byte := 0xfb
  const SET_MTA: byte := 0xf6
  const UPLOAD: byte := 0xf5
  const SHORT_UPLOAD: byte := 0xf4

  // pendingCommand uses zero for "no command outstanding".
  const NONE: byte := 0

  datatype Config = Config(transmitID: nat, receiveID: nat, flags: FrameFlags, capacity: nat, padFrames: bool, paddingByte: byte) {

    // What New accepts, apart from the timeouts.
    predicate Valid() {
      && !flags.remote && !flags.errorState && transmitID != receiveID && capacity >= 8
      && (flags.bitRateSwitch ==> flags.fd) && LengthToDLC(capacity, flags.fd).Ok?
      && (if flags.extended then transmitID <= MAX_EXTENDED_ID && receiveID <= MAX_EXTENDED_ID
          else transmitID <= MAX_STANDARD_ID && receiveID <= MAX_STANDARD_ID)
    }
  }

  datatype Request = Request(command: byte, data: seq<byte>)

  datatype Error =
    | SynchronizationRequired
    | NotConnected
    | Unsupported
    | BadParameters
    | SendFailed
    | Interrupted
    | InvalidResponse
    | Negative(code: byte)
    | SessionTerminated

  datatype Capabilities = Capabilities(
    resources: byte, mode: byte, bigEndian: bool, granularity: nat, maxCTO: nat, maxDTO: nat, protocol: byte, transport: byte)

  const NO_CAPABILITIES := Capabilities(0, 0, false, 0, 0, 0, 0, 0)

  function Word16(bigEndian: bool, data: seq<byte>): nat
    requires |data| == 2
  {
    var first: nat := data[0];
    var second: nat := data[1];
    if bigEndian then 256 * first + second else first + 256 * second
  }

  function Word32(bigEndian: bool, data: seq<byte>): nat
    requires |data| == 4
  {
    if bigEndian then 65536 * Word16(true, data[..2]) + Word16(true, data[2..])
    else Word16(false, data[..2]) + 65536 * Word16(false, data[2..])
  }

  function Bytes32(bigEndian: bool, value: nat): (data: seq<byte>)
    requires value < 0x1_0000_0000
    ensures |data| == 4
  {
    var (a, b, c, d) := (value / 0x100_0000, value / 65536 % 256, value / 256 % 256, value % 256);
    if bigEndian then [a, b, c, d] else [d, c, b, a]
  }

  /** The address parameter an ECU reads is the one that was written, in either byte order. */
  lemma AddressRoundTrip(bigEndian: bool, value: nat)
    requires value < 0x1_0000_0000
    ensures Word32(bigEndian, Bytes32(bigEndian, value)) == value
  {
    var data := Bytes32(bigEndian, value);
    assert data[..2] == [data[0], data[1]] && data[2..] == [data[2], data[3]];
    BytesOf32(value);
  }

  lemma BytesOf32(value: nat)
    ensures value == 0x100_0000 * (value / 0x100_0000) + 65536 * (value / 65536 % 256) + 256 * (value / 256 % 256) + value % 256
  {
    var (a, b) := (value / 256, value / 65536);
    assert value == 256 * a + value % 256;
    assert a == 256 * (a / 256) + a % 256 && a / 256 == b;
    assert b == 256 * (b / 256) + b % 256 && b / 256 == value / 0x100_0000;
  }

  // ---- Requests --------------------------------------------------------------------------

  predicate Known(command: byte) {
    command in {CONNECT, DISCONNECT, SYNCH, GET_STATUS, GET_COMM_MODE_INFO, SET_MTA, UPLOAD, SHORT_UPLOAD}
  }

  // Number of parameter bytes of the commands the client knows; -1 for the others.
  function Parameters(command: byte): int {
    if command == CONNECT || command == UPLOAD then 1
    else if command == SET_MTA || command == SHORT_UPLOAD then 7
    else if Known(command) then 0
    else -1
  }

  predicate Recovers(command: byte, pending: byte) {
    command == CONNECT && (pending == CONNECT || pending == DISCONNECT)
  }

  function MaximumLength(config: Config, connected: bool, capabilities: Capabilities, command: byte): nat {
    if connected && command != CONNECT then capabilities.maxCTO else config.capacity
  }

  /** validateRequest: the least response length, or why the request must not be sent. */
  function ValidateRequest(config: Config, connected: bool, pending: byte, capabilities: Capabilities, request: Request): (r: Result<nat, Error>)
    ensures r.Ok? ==> request.command >= 0xc0 && 1 <= r.value && 1 + |request.data| <= MaximumLength(config, connected, capabilities, request.command)
    ensures r.Ok? && pending != NONE ==> request.command == SYNCH || Recovers(request.command, pending)
    ensures r.Ok? && request.command == CONNECT ==> r.value == 8
    ensures r.Ok? && request.command == UPLOAD ==> |request.data| == 1 && r.value == 1 + request.data[0] as nat
    ensures r.Ok? && request.command == SET_MTA ==> |request.data| == 7
    ensures r.Ok? && request.command == SYNCH ==> request.data == []
    ensures r.Err? ==> r.error in {SynchronizationRequired, NotConnected, Unsupported, BadParameters}
  {
    var maximum := MaximumLength(config, connected, capabilities, request.command);
    if pending != NONE && request.command != SYNCH && !Recovers(request.command, pending) then Err(SynchronizationRequired)
    else if !connected && request.command != CONNECT && request.command != SYNCH then Err(NotConnected)
    else if request.command < 0xc0 || |request.data| + 1 > maximum then Err(Unsupported)
    else if request.command == CONNECT && |request.data| == 1 && request.data[0] != 0 then Err(Unsupported)
    else if request.command == GET_COMM_MODE_INFO && capabilities.mode / 128 == 0 then Err(Unsupported)
    else if request.command == UPLOAD || request.command == SHORT_UPLOAD then
      if capabilities.granularity != 1 then Err(Unsupported)
      else if |request.data| > 0 && (request.data[0] < 1 || 1 + request.data[0] as nat > maximum) then Err(Unsupported)
      else if |request.data| != Parameters(request.command) then Err(BadParameters)
      else if request.command == SHORT_UPLOAD
           && Word32(capabilities.bigEndian, request.data[3..]) + request.data[0] as nat > 0xffff_ffff then Err(BadParameters)
      else Ok(1 + request.data[0] as nat)
    else if Parameters(request.command) >= 0 && |request.data| != Parameters(request.command) then Err(BadParameters)
    else Ok(if request.command == CONNECT || request.command == GET_COMM_MODE_INFO then 8
            else if request.command == GET_STATUS then 6 else 1)
  }

  /** A request that may be sent, said condition by condition. */
  predicate Sendable(config: Config, connected: bool, pending: byte, capabilities: Capabilities, request: Request) {
    var (command, data) := (request.command, request.data);
    var limit := if connected && command != CONNECT then capabilities.maxCTO else config.capacity;
    && (pending == 0 || command == SYNCH || (command == CONNECT && pending in {CONNECT, DISCONNECT}))
    && (connected || command in {CONNECT, SYNCH})
    && command >= 0xc0 && |data| < limit
    && (command == CONNECT ==> data == [0])
    && (command in {DISCONNECT, SYNCH, GET_STATUS, GET_COMM_MODE_INFO} ==> data == [])
    && (command == GET_COMM_MODE_INFO ==> capabilities.mode >= 0x80)
    && (command == SET_MTA ==> |data| == 7)
    && (command in {UPLOAD, SHORT_UPLOAD} ==>
          capabilities.granularity == 1 && |data| == (if command == UPLOAD then 1 else 7) && 1 <= data[0] as nat < limit)
    && (command == SHORT_UPLOAD ==> Word32(capabilities.bigEndian, data[3..]) + data[0] as nat <= 0xffff_ffff)
  }

  /** The bytes a reply to a request that may be sent has at least, the leading one included. */
  function LeastReply(request: Request): nat {
    match request.command
    case 0xff => 8
    case 0xfb => 8
    case 0xfd => 6
    case _ => if request.command in {UPLOAD, SHORT_UPLOAD} && request.data != [] then 1 + request.data[0] as nat else 1
  }

  /** A request is let through exactly if every condition holds, and needs a reply of the length its command has. */
  lemma LetThroughExactly(config: Config, connected: bool, pending: byte, capabilities: Capabilities, request: Request)
    ensures var valid := ValidateRequest(config, connected, pending, capabilities, request);
      && (valid.Ok? <==> Sendable(config, connected, pending, capabilities, request))
      && (valid.Ok? ==> valid.value == LeastReply(request))
      && (valid == Err(SynchronizationRequired) <==>
            pending != 0 && request.command != SYNCH && !(request.command == CONNECT && pending in {CONNECT, DISCONNECT}))
      && (valid == Err(NotConnected) ==> !connected && request.command !in {CONNECT, SYNCH})
  {
    hide Word32;
  }

  /** The frame of a request: padded to the capacity, or to the next length a frame can have. */
  method BuildFrame(config: Config, request: Request) returns (frame: Frame)
    requires config.Valid() && 1 + |request.data| <= config.capacity
    ensures frame.Valid() && frame.id == config.transmitID && frame.flags == config.flags
    ensures [request.command] + request.data <= frame.data && |frame.data| <= config.capacity
    ensures forall i :: 1 + |request.data| <= i < |frame.data| ==> frame.data[i] == config.paddingByte
    ensures config.padFrames ==> |frame.data| == config.capacity
    ensures !config.padFrames ==> forall n :: 1 + |request.data| <= n < |frame.data| ==> LengthToDLC(n, config.flags.fd).Err?
  {
    var packet := [request.command] + request.data;
    var length := if config.padFrames then config.capacity else |packet|;
    while LengthToDLC(length, config.flags.fd).Err?
      invariant |packet| <= length <= config.capacity && (config.padFrames ==> length == config.capacity)
      invariant !config.padFrames ==> forall n :: |packet| <= n < length ==> LengthToDLC(n, config.flags.fd).Err?
      decreases config.capacity - length
    {
      length := length + 1;
    }
    var padding := seq(length - |packet|, _ => config.paddingByte);
    var made := NewFrame(config.transmitID, packet + padding, config.flags);
    frame := made.value;
  }

  // ---- Packets ---------------------------------------------------------------------------

  datatype Packet =
    | Ignored
    | Malformed
    | Positive(data: seq<byte>)
    | ErrorReply(data: seq<byte>)
    | CommandPending
    | Terminated

  /** What `receive` makes of a captured frame before it looks at the outstanding command. */
  function Classify(config: Config, frame: Frame): (p: Packet)
    ensures p.ErrorReply? ==> |p.data| > 0
  {
    if frame.flags.remote || frame.flags.fd != config.flags.fd then Ignored
    else if |frame.data| != 0 && frame.data[0] <= 0xfc then Ignored
    else if |frame.data| == 0 || |frame.data| > config.capacity then Malformed
    else if frame.data[0] == 0xff then Positive(frame.data[1..])
    else if |frame.data| < 2 then Malformed
    else if frame.data[0] == 0xfe then ErrorReply(frame.data[1..])
    else if frame.data[1] == 0x05 then CommandPending
    else if frame.data[1] == 0x07 then Terminated
    else Ignored
  }

  /** ERR_CMD_SYNCH, the marker that answers SYNCH. */
  predicate Marker(packet: Packet) {
    packet.ErrorReply? && |packet.data| > 0 && packet.data[0] == 0
  }

  /** parseConnect. */
  function ParseConnect(config: Config, data: seq<byte>): (r: Result<Capabilities, Error>)
    requires |data| >= 7
    ensures r.Ok? ==> 8 <= r.value.maxCTO <= config.capacity && r.value.granularity in {1, 2, 4}
    ensures r.Err? ==> r.error in {InvalidResponse, Unsupported}
  {
    var bigEndian := data[1] % 2 == 1;
    var granularity := data[1] / 2 % 4;
    if granularity == 3 || data[2] < 8 || data[2] > config.capacity then Err(InvalidResponse)
    else if data[5] != 1 || data[6] != 1 then Err(Unsupported)
    else Ok(Capabilities(data[0], data[1], bigEndian, if granularity == 0 then 1 else 2 * granularity, data[2],
                         Word16(bigEndian, data[3..5]), data[5], data[6]))
  }

  /** What an ECU with these capabilities puts into its reply to CONNECT. */
  function ConnectReply(c: Capabilities): (data: seq<byte>)
    requires c.maxCTO < 256 && c.maxDTO < 65536
    ensures |data| == 7
  {
    [c.resources, c.mode, c.maxCTO]
    + (if c.bigEndian then [c.maxDTO / 256, c.maxDTO % 256] else [c.maxDTO % 256, c.maxDTO / 256])
    + [c.protocol, c.transport]
  }

  // Capabilities the client can work with; bit 0 of the mode is the byte order, bits 1 and 2 are the granularity.
  predicate Usable(config: Config, c: Capabilities) {
    && 8 <= c.maxCTO <= config.capacity && c.maxCTO < 256 && c.maxDTO < 65536 && c.protocol == 1 && c.transport == 1
    && (c.bigEndian <==> c.mode % 2 == 1)
    && ((c.granularity == 1 && c.mode / 2 % 4 == 0) || (c.granularity == 2 && c.mode / 2 % 4 == 1) || (c.granularity == 4 && c.mode / 2 % 4 == 2))
  }

  /** CONNECT reads usable capabilities, and whatever they are put into reads back as them. */
  lemma ConnectReplyReads(config: Config, c: Capabilities, data: seq<byte>)
    requires |data| >= 7
    ensures ParseConnect(config, data) == Ok(c) <==> Usable(config, c) && data[..7] == ConnectReply(c)
  {
    if ParseConnect(config, data) == Ok(c) {
      assert data[3..5] == [data[3], data[4]];
      WordBytes(c.bigEndian, data[3], data[4]);
    }
    if Usable(config, c) && data[..7] == ConnectReply(c) {
      var reply := ConnectReply(c);
      assert forall i :: 0 <= i < 7 ==> data[i] == data[..7][i];
      assert data[3..5] == [data[3], data[4]];
    }
  }

  lemma WordBytes(bigEndian: bool, first: byte, second: byte)
    ensures var word := Word16(bigEndian, [first, second]);
      && word < 65536
      && (if bigEndian then word / 256 == first && word % 256 == second else word % 256 == first && word / 256 == second)
  {
  }
}

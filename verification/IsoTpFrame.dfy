/** ISO-TP transport frames: building, padding and parsing (isotp/frame.go). */
module IsoTpFrame {
  import opened Wrappers
  import opened Frames

  datatype Error =
    | ErrConfiguration
    | ErrEmptyPayload
    | ErrPayloadTooLarge
    | ErrProtocol
    | ErrFrame
    | ErrFirstFrameTimeout
    | ErrFlowControlTimeout
    | ErrConsecutiveFrameTimeout
    | ErrFlowControlOverflow
    | ErrWaitFrameLimit

  datatype FlowStatus = FlowContinue | FlowWait | FlowOverflow

  datatype Pdu =
    | SingleFrame(payload: seq<byte>)
    | FirstFrame(length: nat, payload: seq<byte>, dataLength: nat)
    | ConsecutiveFrame(sequence: nat, payload: seq<byte>, dataLength: nat)
    | FlowControl(status: FlowStatus, blockSize: byte, separationTime: nat)

  datatype Transmitter = Transmitter(
    transmitID: nat,
    flags: FrameFlags,
    transmitDataLength: nat,
    transmitMinDataLength: nat,
    paddingByte: byte,
    maximumPayloadLength: nat)

  datatype Transmission = Transmission(firstFrame: Frame, payload: seq<byte>, offset: nat, multiFrame: bool)

  const UINT32_LIMIT: nat := 0x1_0000_0000

  function NearestCANFDLength(length: nat): (n: nat)
    ensures length <= 64 ==> length <= n <= 64 && LengthToDLC(n, true).Ok?
    ensures length <= 8 ==> n == length
    // the smallest legal length that fits
    ensures forall m :: length <= m < n && length <= 64 ==> LengthToDLC(m, true).Err?
  {
    if length <= 8 then length
    else if length <= 12 then 12
    else if length <= 16 then 16
    else if length <= 20 then 20
    else if length <= 24 then 24
    else if length <= 32 then 32
    else if length <= 48 then 48
    else 64
  }

  predicate ValidTransmitDataLength(length: nat, fd: bool) {
    length == 8 || (fd && length in {12, 16, 20, 24, 32, 48, 64})
  }

  /** What newTransmitter and New accept; every link in use carries such a transmitter. */
  ghost predicate Legal(t: Transmitter) {
    && !t.flags.remote && !t.flags.errorState
    && (t.flags.bitRateSwitch ==> t.flags.fd)
    && (if t.flags.extended then t.transmitID <= MAX_EXTENDED_ID else t.transmitID <= MAX_STANDARD_ID)
    && ValidTransmitDataLength(t.transmitDataLength, t.flags.fd)
    && t.transmitMinDataLength <= t.transmitDataLength
    && NearestCANFDLength(t.transmitMinDataLength) == t.transmitMinDataLength
    && 0 < t.maximumPayloadLength < UINT32_LIMIT
  }

  // newTransmitter, followed by the payload-limit default of New.
  function NewTransmitter(id: nat, flags: FrameFlags, dataLength: byte, minDataLength: byte, padding: byte,
                          maximum: nat): (r: Result<Transmitter, Error>)
    requires maximum < UINT32_LIMIT
    ensures r.Ok? ==> Legal(r.value) && r.value.flags == flags && r.value.transmitID == id && r.value.paddingByte == padding
    ensures r.Ok? ==> r.value.transmitMinDataLength == minDataLength && (dataLength > 0 ==> r.value.transmitDataLength == dataLength)
    ensures r.Ok? ==> r.value.maximumPayloadLength == if maximum > 0 then maximum else 4095
    // nothing usable is refused
    ensures r.Err? ==> !Legal(Transmitter(id, flags, if dataLength == 0 then 8 else dataLength, minDataLength, padding, 4095))
  {
    var length := if dataLength == 0 then 8 else dataLength;
    if flags.remote || flags.errorState then Err(ErrConfiguration)
    else if flags.bitRateSwitch && !flags.fd then Err(ErrConfiguration)
    else if (if flags.extended then id > MAX_EXTENDED_ID else id > MAX_STANDARD_ID) then Err(ErrConfiguration)
    else if !ValidTransmitDataLength(length, flags.fd) then Err(ErrConfiguration)
    else if minDataLength > length || NearestCANFDLength(minDataLength) != minDataLength then Err(ErrConfiguration)
    else Ok(Transmitter(id, flags, length, minDataLength, padding, if maximum == 0 then 4095 else maximum))
  }

  // ---- Padding ---------------------------------------------------------------------------

  /** The CAN data length that carries `length` transport bytes. */
  function TargetLength(t: Transmitter, length: nat, fullLength: bool): nat {
    if fullLength then t.transmitDataLength
    else
      var target := if length < t.transmitMinDataLength then t.transmitMinDataLength else length;
      if t.flags.fd then NearestCANFDLength(target) else target
  }

  function Padding(n: nat, value: byte): (p: seq<byte>)
    ensures |p| == n
  {
    seq(n, _ => value)
  }

  function Padded(t: Transmitter, data: seq<byte>, fullLength: bool): (p: seq<byte>)
    requires |data| <= TargetLength(t, |data|, fullLength)
  {
    data + Padding(TargetLength(t, |data|, fullLength) - |data|, t.paddingByte)
  }

  function MadeFrame(t: Transmitter, data: seq<byte>, fullLength: bool): (r: Result<Frame, Error>)
  {
    var target := TargetLength(t, |data|, fullLength);
    if |data| > t.transmitDataLength then Err(ErrProtocol)
    else if target < |data| || target > t.transmitDataLength then Err(ErrProtocol)
    else match NewFrame(t.transmitID, Padded(t, data, fullLength), t.flags)
      case Ok(frame) => Ok(frame)
      case Err(_) => Err(ErrFrame)
  }

  // makeFrame: pads in a local buffer.
  method MakeFrame(t: Transmitter, data: seq<byte>, fullLength: bool) returns (r: Result<Frame, Error>)
    requires t.transmitDataLength <= 64
    ensures r == MadeFrame(t, data, fullLength)
  {
    if |data| > t.transmitDataLength {
      return Err(ErrProtocol);
    }
    var targetLength := if |data| < t.transmitMinDataLength then t.transmitMinDataLength else |data|;
    if fullLength {
      targetLength := t.transmitDataLength;
    } else if t.flags.fd {
      targetLength := NearestCANFDLength(targetLength);
    }
    if targetLength < |data| || targetLength > t.transmitDataLength {
      return Err(ErrProtocol);
    }
    var bytes := data;
    if targetLength != |data| {
      var padded := new byte[targetLength](i requires 0 <= i => if i < |data| then data[i] else 0);
      var index := |data|;
      while index < targetLength
        invariant |data| <= index <= targetLength
        invariant forall i :: 0 <= i < |data| ==> padded[i] == data[i]
        invariant forall i :: |data| <= i < index ==> padded[i] == t.paddingByte
      {
        padded[index] := t.paddingByte;
        index := index + 1;
      }
      bytes := padded[..];
    }
    assert bytes == Padded(t, data, fullLength);
    var frame := NewFrame(t.transmitID, bytes, t.flags);
    r := if frame.Ok? then Ok(frame.value) else Err(ErrFrame);
  }

  lemma NearestIsLeast(length: nat, legal: nat)
    requires length <= legal && legal <= 64
    requires LengthToDLC(legal, true).Ok?
    ensures NearestCANFDLength(length) <= legal
  {
  }

  /** A legal transmitter always finds a frame: the result starts with the data, and is filled with padding. */
  lemma MadeFrameFits(t: Transmitter, data: seq<byte>, fullLength: bool)
    requires Legal(t) && |data| <= t.transmitDataLength
    ensures |data| <= TargetLength(t, |data|, fullLength) <= t.transmitDataLength
    ensures MadeFrame(t, data, fullLength).Ok?
    ensures var frame := MadeFrame(t, data, fullLength).value;
      && frame.Valid() && frame.flags == t.flags && frame.data == Padded(t, data, fullLength)
      && data <= frame.data && frame.DataLength() == TargetLength(t, |data|, fullLength)
  {
    var target := TargetLength(t, |data|, fullLength);
    NearestIsLeast(if |data| < t.transmitMinDataLength then t.transmitMinDataLength else |data|, t.transmitDataLength);
    assert LengthToDLC(target, t.flags.fd).Ok?;
  }

  /**
   * The length of a made frame: the least one a frame of this format can have that holds the data and is not below the
   * configured minimum, or the full length where that is asked for.
   */
  lemma MadeFrameLength(t: Transmitter, data: seq<byte>, fullLength: bool, length: nat)
    requires Legal(t) && |data| <= t.transmitDataLength
    ensures MadeFrame(t, data, fullLength).Ok?
    ensures var n := |MadeFrame(t, data, fullLength).value.data|;
      if fullLength then n == t.transmitDataLength
      else
        && |data| <= n && t.transmitMinDataLength <= n <= t.transmitDataLength && LengthToDLC(n, t.flags.fd).Ok?
        && (|data| <= length && t.transmitMinDataLength <= length && LengthToDLC(length, t.flags.fd).Ok? ==> n <= length)
  {
    MadeFrameFits(t, data, fullLength);
    if LengthToDLC(length, t.flags.fd).Ok? && |data| <= length && t.transmitMinDataLength <= length && t.flags.fd {
      NearestIsLeast(if |data| < t.transmitMinDataLength then t.transmitMinDataLength else |data|, length);
    }
    hide MadeFrame;
  }

  // ---- Building --------------------------------------------------------------------------

  function Escaped(t: Transmitter, payload: seq<byte>): bool {
    |payload| > 7 || t.transmitMinDataLength > 8
  }

  function FitsSingleFrame(t: Transmitter, payload: seq<byte>): bool {
    |payload| + (if Escaped(t, payload) then 2 else 1) <= t.transmitDataLength
  }

  function SingleFrameData(t: Transmitter, payload: seq<byte>): seq<byte>
    requires |payload| < 256
  {
    (if Escaped(t, payload) then [0, |payload|] else [|payload|]) + payload
  }

  function FirstFrameHeader(length: nat): (h: seq<byte>)
    requires length < UINT32_LIMIT
    ensures |h| == if length > 0xfff then 6 else 2
  {
    if length > 0xfff then
      [0x10, 0, length / 0x100_0000, length / 0x1_0000 % 256, length / 0x100 % 256, length % 256]
    else
      [0x10 + length / 256, length % 256]
  }

  function FirstFrameOffset(t: Transmitter, payload: seq<byte>): (n: int)
    requires |payload| < UINT32_LIMIT
  {
    var room := t.transmitDataLength - |FirstFrameHeader(|payload|)|;
    if room < |payload| then room else |payload|
  }

  function FirstFrameData(t: Transmitter, payload: seq<byte>): (data: seq<byte>)
    requires |payload| < UINT32_LIMIT && t.transmitDataLength >= 8
  {
    var header := FirstFrameHeader(|payload|);
    var sent := header + payload[..FirstFrameOffset(t, payload)];
    sent + Padding(t.transmitDataLength - |sent|, 0)
  }

  function PreparedTransmission(t: Transmitter, payload: seq<byte>): (r: Result<Transmission, Error>)
    requires Legal(t)
  {
    if |payload| == 0 then Err(ErrEmptyPayload)
    else if |payload| > t.maximumPayloadLength then Err(ErrPayloadTooLarge)
    else if FitsSingleFrame(t, payload) then
      var frame :- MadeFrame(t, SingleFrameData(t, payload), false);
      Ok(Transmission(frame, [], 0, false))
    else
      var frame :- MadeFrame(t, FirstFrameData(t, payload), true);
      Ok(Transmission(frame, payload, FirstFrameOffset(t, payload), true))
  }

  // prepareTransmission: fills the first frame's buffer in place.
  method PrepareTransmission(t: Transmitter, payload: seq<byte>) returns (r: Result<Transmission, Error>)
    requires Legal(t)
    ensures r == PreparedTransmission(t, payload)
  {
    if |payload| == 0 {
      return Err(ErrEmptyPayload);
    }
    if |payload| > t.maximumPayloadLength {
      return Err(ErrPayloadTooLarge);
    }
    var escapeSingleFrame := |payload| > 7 || t.transmitMinDataLength > 8;
    var singleHeaderLength := if escapeSingleFrame then 2 else 1;
    if |payload| <= t.transmitDataLength - singleHeaderLength {
      var data := new byte[singleHeaderLength + |payload|](_ => 0);
      if escapeSingleFrame {
        data[1] := |payload|;
      } else {
        data[0] := |payload|;
      }
      forall i | 0 <= i < |payload| {
        data[singleHeaderLength + i] := payload[i];
      }
      assert data[..] == SingleFrameData(t, payload);
      var frame := MakeFrame(t, data[..], false);
      return if frame.Ok? then Ok(Transmission(frame.value, [], 0, false)) else Err(frame.error);
    }
    var headerLength := if |payload| > 0xfff then 6 else 2;
    var data := new byte[t.transmitDataLength](_ => 0);
    if headerLength == 2 {
      data[0] := 0x10 + |payload| / 256;
      data[1] := |payload| % 256;
    } else {
      data[0] := 0x10;
      data[1] := 0;
      data[2] := |payload| / 0x100_0000;
      data[3] := |payload| / 0x1_0000 % 256;
      data[4] := |payload| / 0x100 % 256;
      data[5] := |payload| % 256;
    }
    var room := t.transmitDataLength - headerLength;
    var offset := if room < |payload| then room else |payload|;
    forall i | 0 <= i < offset {
      data[headerLength + i] := payload[i];
    }
    assert data[..] == FirstFrameData(t, payload);
    var frame := MakeFrame(t, data[..], true);
    r := if frame.Ok? then Ok(Transmission(frame.value, payload, offset, true)) else Err(frame.error);
  }

  function ConsecutiveFrameData(sequence: nat, chunk: seq<byte>): seq<byte>
    requires sequence < 16
  {
    [0x20 + sequence] + chunk
  }

  function StatusCode(status: FlowStatus): byte {
    match status
    case FlowContinue => 0
    case FlowWait => 1
    case FlowOverflow => 2
  }

  function FlowControlData(status: FlowStatus, blockSize: byte, separationTime: byte): seq<byte> {
    [0x30 + StatusCode(status), blockSize, separationTime]
  }

  // ---- Parsing ---------------------------------------------------------------------------

  function BigEndian32(a: int, b: int, c: int, d: int): int {
    a * 0x100_0000 + b * 0x1_0000 + c * 0x100 + d
  }

  function ParseFrame(frame: Frame): (r: Result<Pdu, Error>) {
    var data := frame.data;
    var dataLength := |data|;
    if dataLength == 0 then Err(ErrProtocol)
    else
      var low := data[0] % 16;
      match data[0] / 16
      case 0 => ParseSingleFrame(frame)
      case 1 =>
        if dataLength < 8 then Err(ErrProtocol)
        else
          var length := low * 256 + data[1];
          if length != 0 then Ok(FirstFrame(length, data[2..], dataLength))
          else
            var long := BigEndian32(data[2], data[3], data[4], data[5]);
            if long <= 0xfff then Err(ErrProtocol) else Ok(FirstFrame(long, data[6..], dataLength))
      case 2 =>
        if dataLength < 2 then Err(ErrProtocol) else Ok(ConsecutiveFrame(low, data[1..], dataLength))
      case 3 =>
        if dataLength < 3 then Err(ErrProtocol)
        else if low > 2 then Err(ErrProtocol)
        else
          var status := if low == 0 then FlowContinue else if low == 1 then FlowWait else FlowOverflow;
          Ok(FlowControl(status, data[1], DecodeSeparationTime(data[2])))
      case _ => Err(ErrProtocol)
  }

  function ParseSingleFrame(frame: Frame): (r: Result<Pdu, Error>)
    requires |frame.data| > 0
  {
    var data := frame.data;
    var short := data[0] % 16;
    if short == 0 then
      if !frame.flags.fd || |data| <= 8 then Err(ErrProtocol)
      else if data[1] == 0 then Err(ErrProtocol)
      else if data[1] > |data| - 2 then Err(ErrProtocol)
      else Ok(SingleFrame(data[2..2 + data[1]]))
    else if |data| > 8 then Err(ErrProtocol)
    else if short > |data| - 1 then Err(ErrProtocol)
    else Ok(SingleFrame(data[1..1 + short]))
  }

  /** The forms of the four kinds of frame of ISO 15765-2, byte by byte. */
  ghost predicate HasForm(frame: Frame, pdu: Pdu) {
    var data := frame.data;
    match pdu
    case SingleFrame(payload) =>
      || (2 <= |data| <= 8 && 1 <= data[0] <= 7 && data[0] as int < |data| && payload == data[1..1 + data[0]])
      || (frame.flags.fd && |data| > 8 && data[0] == 0x00 && 1 <= data[1] as int <= |data| - 2 && payload == data[2..2 + data[1]])
    case FirstFrame(length, payload, dataLength) =>
      && |data| >= 8 && dataLength == |data|
      && (|| (0x10 <= data[0] <= 0x1f && length == 256 * (data[0] as int - 0x10) + data[1] as int > 0 && payload == data[2..])
          || (data[0] == 0x10 && data[1] == 0x00 && payload == data[6..] && length > 4095
              && length == 0x100_0000 * data[2] as int + 0x1_0000 * data[3] as int + 0x100 * data[4] as int + data[5] as int))
    case ConsecutiveFrame(sequence, payload, dataLength) =>
      |data| >= 2 && dataLength == |data| && data[0] as int == 0x20 + sequence && sequence < 16 && payload == data[1..]
    case FlowControl(status, blockSize, separationTime) =>
      && |data| >= 3 && blockSize == data[1] && separationTime == DecodeSeparationTime(data[2])
      && (status.FlowContinue? <==> data[0] == 0x30) && (status.FlowWait? <==> data[0] == 0x31)
      && (status.FlowOverflow? <==> data[0] == 0x32)
  }

  /** A frame is read as a unit exactly if it has its form; any other frame is refused. */
  lemma ParsesExactly(frame: Frame, pdu: Pdu)
    ensures ParseFrame(frame) == Ok(pdu) <==> HasForm(frame, pdu)
    ensures ParseFrame(frame).Err? ==> ParseFrame(frame) == Err(ErrProtocol)
  {
    if |frame.data| > 0 {
      assert frame.data[0] == 16 * (frame.data[0] / 16) + frame.data[0] % 16;
    }
  }

  /** The separation time of a Flow Control STmin byte, in microseconds. */
  function DecodeSeparationTime(value: byte): (us: nat)
  {
    if value <= 0x7f then value * 1000
    else if 0xf1 <= value <= 0xf9 then (value - 0xf0) * 100
    else 127000
  }

  // encodeSeparationTime (isotp/isotp.go), on nanoseconds.
  function EncodeSeparationTime(ns: int): (r: Result<byte, Error>)
  {
    if ns < 0 then Err(ErrConfiguration)
    else if ns == 0 then Ok(0)
    else if ns % 1000000 == 0 && ns / 1000000 <= 0x7f then Ok(ns / 1000000)
    else if ns % 100000 == 0 && 1 <= ns / 100000 <= 9 then Ok(0xf0 + ns / 100000)
    else Err(ErrConfiguration)
  }

  /** Every separation time that can be advertised is read back exactly, and no representable one is refused. */
  lemma SeparationTimeRoundTrip(ns: int)
    ensures EncodeSeparationTime(ns).Ok? ==> DecodeSeparationTime(EncodeSeparationTime(ns).value) * 1000 == ns
    ensures EncodeSeparationTime(ns).Err? ==> forall b: byte :: DecodeSeparationTime(b) * 1000 != ns
  {
  }

  // ---- Parsing what was built ------------------------------------------------------------

  lemma SingleFrameRoundTrip(t: Transmitter, payload: seq<byte>)
    requires Legal(t) && 0 < |payload| && FitsSingleFrame(t, payload)
    ensures var made := MadeFrame(t, SingleFrameData(t, payload), false);
      made.Ok? && made.value.Valid() && ParseFrame(made.value) == Ok(SingleFrame(payload))
  {
    var data := SingleFrameData(t, payload);
    MadeFrameFits(t, data, false);
    var frame := MadeFrame(t, data, false).value;
    var header := if Escaped(t, payload) then 2 else 1;
    assert frame.data[header..header + |payload|] == payload;
    assert Escaped(t, payload) ==> frame.data[0] == 0 && frame.data[1] == |payload|;
  }

  /** Segmentation starts only where a First Frame is legal: it fills its CAN frame and leaves a remainder. */
  lemma FirstFrameRoundTrip(t: Transmitter, payload: seq<byte>)
    requires Legal(t) && 0 < |payload| < UINT32_LIMIT && !FitsSingleFrame(t, payload)
    ensures 0 < FirstFrameOffset(t, payload) < |payload| && 7 < |payload|
    ensures var made := MadeFrame(t, FirstFrameData(t, payload), true);
      made.Ok? && made.value.Valid() &&
      ParseFrame(made.value) == Ok(FirstFrame(|payload|, payload[..FirstFrameOffset(t, payload)], t.transmitDataLength))
  {
    var data := FirstFrameData(t, payload);
    MadeFrameFits(t, data, true);
    var frame := MadeFrame(t, data, true).value;
    var header := FirstFrameHeader(|payload|);
    var prefix := payload[..FirstFrameOffset(t, payload)];
    assert |data| == t.transmitDataLength && frame.data == header + prefix;
    ParseFirstFrame(frame, |payload|, prefix);
  }

  lemma ParseFirstFrame(frame: Frame, length: nat, prefix: seq<byte>)
    requires frame.Valid() && 7 < length < UINT32_LIMIT
    requires frame.data == FirstFrameHeader(length) + prefix && |frame.data| >= 8
    ensures ParseFrame(frame) == Ok(FirstFrame(length, prefix, |frame.data|))
  {
    var header := FirstFrameHeader(length);
    assert frame.data[|header|..] == prefix;
    if length <= 0xfff {
      ShortLength(length);
      assert frame.data[0] == header[0] && frame.data[1] == header[1];
    } else {
      LongLength(length);
      assert frame.data[..6] == header;
      assert frame.data[0] == header[0] && frame.data[1] == header[1] && frame.data[2] == header[2]
        && frame.data[3] == header[3] && frame.data[4] == header[4] && frame.data[5] == header[5];
    }
  }

  lemma ShortLength(length: nat)
    requires length <= 0xfff
    ensures (0x10 + length / 256) / 16 == 1
    ensures (0x10 + length / 256) % 16 * 256 + length % 256 == length
  {
  }

  lemma LongLength(length: nat)
    requires length < UINT32_LIMIT
    ensures BigEndian32(length / 0x100_0000, length / 0x1_0000 % 256, length / 0x100 % 256, length % 256) == length
  {
    var a, b, c := length / 0x100, length / 0x1_0000, length / 0x100_0000;
    assert a == 256 * b + a % 256;
    assert b == 256 * c + b % 256;
  }

  lemma ConsecutiveFrameRoundTrip(t: Transmitter, sequence: nat, chunk: seq<byte>)
    requires Legal(t) && sequence < 16 && 0 < |chunk| < t.transmitDataLength
    ensures var made := MadeFrame(t, ConsecutiveFrameData(sequence, chunk), false);
      && made.Ok? && made.value.Valid() && ParseFrame(made.value).Ok?
      && var pdu := ParseFrame(made.value).value;
      && pdu.ConsecutiveFrame? && pdu.sequence == sequence && chunk <= pdu.payload
      && (|chunk| + 1 == t.transmitDataLength ==> pdu.payload == chunk && pdu.dataLength == t.transmitDataLength)
  {
    var data := ConsecutiveFrameData(sequence, chunk);
    MadeFrameFits(t, data, false);
    var frame := MadeFrame(t, data, false).value;
    assert frame.data[1..] == chunk + Padding(TargetLength(t, |data|, false) - |data|, t.paddingByte);
    assert frame.data[0] == 0x20 + sequence;
  }

  lemma FlowControlRoundTrip(t: Transmitter, status: FlowStatus, blockSize: byte, separationTime: byte)
    requires Legal(t)
    ensures var made := MadeFrame(t, FlowControlData(status, blockSize, separationTime), false);
      made.Ok? && made.value.Valid() &&
      ParseFrame(made.value) == Ok(FlowControl(status, blockSize, DecodeSeparationTime(separationTime)))
  {
    var data := FlowControlData(status, blockSize, separationTime);
    MadeFrameFits(t, data, false);
    var frame := MadeFrame(t, data, false).value;
    assert frame.data[0] == data[0] && frame.data[1] == data[1] && frame.data[2] == data[2];
  }
}

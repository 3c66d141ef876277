/** Raw CAN and CAN FD frames (frame.go). */
module Frames {
  import opened Wrappers

  type byte = b: int | 0 <= b < 256

  const MAX_STANDARD_ID: nat := 0x7ff
  const MAX_EXTENDED_ID: nat := 0x1fffffff

  datatype FrameFlags = FrameFlags(extended: bool, remote: bool, fd: bool, bitRateSwitch: bool, errorState: bool)

  // Whether a capture recorded a frame as received or as sent by its own bus.
  datatype Direction = DirectionReceive | DirectionTransmit

  datatype FrameError = InvalidFrame

  // `data` holds exactly the bytes that are part of the frame; the source keeps them in the front
  // of a 64-byte array and ignores the rest.
  datatype Frame = Frame(id: nat, dlc: nat, flags: FrameFlags, data: seq<byte>) {

    function DataLength(): (n: nat)
    {
      if flags.remote then 0
      else match DLCToLength(dlc, flags.fd)
        case Ok(n) => n
        case Err(_) => 0
    }

    // Frame.Validate, together with the ownership of exactly DataLength payload bytes.
    predicate Valid() {
      && (if flags.extended then id <= MAX_EXTENDED_ID else id <= MAX_STANDARD_ID)
      && dlc <= 15
      && !(flags.remote && flags.fd)
      && (flags.bitRateSwitch ==> flags.fd)
      && (flags.errorState ==> flags.fd)
      && |data| == DataLength()
    }
  }

  function DLCToLength(dlc: nat, fd: bool): (r: Result<nat, FrameError>)
    ensures r.Ok? <==> dlc <= 15
    ensures r.Ok? ==> r.value <= 64 && (!fd ==> r.value <= 8)
  {
    if dlc > 15 then Err(InvalidFrame)
    else if dlc <= 8 then Ok(dlc)
    else if !fd then Ok(8)
    else Ok([12, 16, 20, 24, 32, 48, 64][dlc - 9])
  }

  /** Every CAN FD length code stands for more bytes than the one before; a classic frame has at most eight. */
  lemma LengthsGrow(low: nat, high: nat)
    requires low < high <= 15
    ensures DLCToLength(low, true).value < DLCToLength(high, true).value
    ensures DLCToLength(high, false).value == if high < 8 then high else 8
  {
  }

  function LengthToDLC(length: nat, fd: bool): (r: Result<nat, FrameError>)
    ensures r.Ok? ==> DLCToLength(r.value, fd) == Ok(length)
    ensures r.Ok? <==> length <= 8 || (fd && length in {12, 16, 20, 24, 32, 48, 64})
  {
    if length <= 8 then Ok(length)
    else if !fd then Err(InvalidFrame)
    else match length
      case 12 => Ok(9)
      case 16 => Ok(10)
      case 20 => Ok(11)
      case 24 => Ok(12)
      case 32 => Ok(13)
      case 48 => Ok(14)
      case 64 => Ok(15)
      case _ => Err(InvalidFrame)
  }

  function NewFrame(id: nat, data: seq<byte>, flags: FrameFlags): (r: Result<Frame, FrameError>)
    ensures r.Ok? ==> r.value.Valid() && r.value.data == data && r.value.flags == flags && r.value.id == id
  {
    if flags.remote then Err(InvalidFrame)
    else
      var dlc :- LengthToDLC(|data|, flags.fd);
      var frame := Frame(id, dlc, flags, data);
      if frame.Valid() then Ok(frame) else Err(InvalidFrame)
  }

  /** NewFrame refuses only what no valid data frame could have. */
  lemma NewFrameRefuses(id: nat, dlc: nat, flags: FrameFlags, data: seq<byte>)
    requires !flags.remote && Frame(id, dlc, flags, data).Valid()
    ensures NewFrame(id, data, flags).Ok?
  {
    assert DLCToLength(dlc, flags.fd) == Ok(|data|);
  }
}

/** Transport protocol frames of SAE J1939-21 section 5.10 (j1939/decoder.go, j1939/client_transport.go). */
module J1939Transport {
  import opened Wrappers
  import opened Frames

  const GLOBAL_ADDRESS: byte := 0xff
  const NULL_ADDRESS: byte := 0xfe

  const TRANSPORT_CONTROL_PGN: nat := 0xec00
  const TRANSPORT_DATA_PGN: nat := 0xeb00
  const EXTENDED_CONTROL_PGN: nat := 0xc800
  const EXTENDED_DATA_PGN: nat := 0xc700
  const ADDRESS_CLAIM_PGN: nat := 0xee00
  const REQUEST_PGN: nat := 0xea00
  const COMMANDED_ADDRESS_PGN: nat := 0xfed8

  const RTS: byte := 0x10
  const CTS: byte := 0x11
  const EOMA: byte := 0x13
  const BAM: byte := 0x20
  const ABORT: byte := 0xff

  const MAXIMUM_PAYLOAD: nat := 1785

  datatype Error = Protocol | Unsupported

  // One captured frame of the bus, with its identifier already split into its J1939 fields.
  datatype Event = Event(bus: nat, direction: Direction, time: int, priority: byte, pgn: nat, source: byte, destination: byte, data: seq<byte>)

  // isPDU1 and validate.
  predicate ValidPGN(pgn: nat) {
    pgn <= 0x3ffff && (pgn / 256 % 256 < 0xf0 ==> pgn % 256 == 0)
  }

  function PGNBytes(pgn: nat): (data: seq<byte>)
    requires pgn <= 0x3ffff
    ensures |data| == 3
  {
    [pgn % 256, pgn / 256 % 256, pgn / 65536]
  }

  /** controlPGN: the parameter group a connection-management frame is about. */
  function ControlPGN(data: seq<byte>): (r: Result<nat, Error>)
    requires |data| == 8
    ensures r.Ok? ==> ValidPGN(r.value)
  {
    var low: nat := data[5];
    var middle: nat := data[6];
    var high: nat := data[7];
    var pgn := low + 256 * middle + 65536 * high;
    if !ValidPGN(pgn) then Err(Protocol)
    else if pgn in {TRANSPORT_CONTROL_PGN, TRANSPORT_DATA_PGN, EXTENDED_DATA_PGN, EXTENDED_CONTROL_PGN} || pgn >= 0x20000 then Err(Unsupported)
    else Ok(pgn)
  }

  /** The last three bytes, least significant first, name a valid group that is not itself a transport or extended one. */
  lemma ControlPGNExactly(data: seq<byte>, pgn: nat)
    requires |data| == 8
    ensures ControlPGN(data) == Ok(pgn) <==>
      && pgn == data[5] as nat + 0x100 * data[6] as nat + 0x1_0000 * data[7] as nat && pgn < 0x20000
      && (data[6] < 0xf0 ==> data[5] == 0)
      && pgn !in {0xec00, 0xeb00, 0xc800, 0xc700}
  {
    var whole := data[5] as nat + 0x100 * data[6] as nat + 0x1_0000 * data[7] as nat;
    assert whole % 256 == data[5] as nat && whole / 256 == data[6] as nat + 0x100 * data[7] as nat;
    assert whole / 256 % 256 == data[6] as nat;
  }

  /** activePGN, as Send checks it before a transfer starts. */
  predicate ActivePGN(pgn: nat) {
    && ValidPGN(pgn) && pgn < 0x20000
    && pgn !in {TRANSPORT_CONTROL_PGN, TRANSPORT_DATA_PGN, EXTENDED_DATA_PGN, EXTENDED_CONTROL_PGN, COMMANDED_ADDRESS_PGN}
  }

  function Size(data: seq<byte>): nat
    requires |data| == 8
  {
    var low: nat := data[1];
    var high: nat := data[2];
    low + 256 * high
  }

  function Packets(size: nat): nat {
    (size + 6) / 7
  }

  /** transportSize. */
  function TransportSize(data: seq<byte>): (r: Result<(nat, nat), Error>)
    requires |data| == 8
    ensures r.Ok? ==> 8 < r.value.0 <= MAXIMUM_PAYLOAD && r.value.1 == Packets(r.value.0)
  {
    var size := Size(data);
    if size <= 8 || size > MAXIMUM_PAYLOAD || data[3] as nat != Packets(size) then Err(Protocol) else Ok((size, data[3]))
  }

  /** controlBytes with its first five bytes given. */
  function Control(kind: byte, first: byte, second: byte, third: byte, fourth: byte, pgn: nat): (data: seq<byte>)
    requires pgn <= 0x3ffff
    ensures |data| == 8 && data[..5] == [kind, first, second, third, fourth]
  {
    [kind, first, second, third, fourth] + PGNBytes(pgn)
  }

  function Announce(pgn: nat, size: nat, broadcast: bool): (data: seq<byte>)
    requires pgn <= 0x3ffff && size <= MAXIMUM_PAYLOAD
    ensures |data| == 8
  {
    if broadcast then Control(BAM, size % 256, size / 256, Packets(size), 0xff, pgn)
    else Control(RTS, size % 256, size / 256, Packets(size), Packets(size), pgn)
  }

  function Acknowledge(pgn: nat, size: nat): (data: seq<byte>)
    requires pgn <= 0x3ffff && size <= MAXIMUM_PAYLOAD
    ensures |data| == 8
  {
    Control(EOMA, size % 256, size / 256, Packets(size), 0xff, pgn)
  }

  function ClearToSend(pgn: nat, count: byte, next: byte): (data: seq<byte>)
    requires pgn <= 0x3ffff
    ensures |data| == 8
  {
    Control(CTS, count, next, 0xff, 0xff, pgn)
  }

  /** The data frame with the given sequence number: seven payload bytes, filled up with 0xff. */
  function DataBytes(payload: seq<byte>, sequence: nat): (data: seq<byte>)
    requires |payload| <= MAXIMUM_PAYLOAD && 1 <= sequence <= Packets(|payload|)
    ensures |data| == 8
  {
    var from := 7 * (sequence - 1);
    var chunk := if from + 7 <= |payload| then payload[from..from + 7] else payload[from..];
    [sequence] + chunk + seq<byte>(7 - |chunk|, _ => 0xff)
  }

  lemma ControlPGNRoundTrip(kind: byte, a: byte, b: byte, c: byte, d: byte, pgn: nat)
    requires ValidPGN(pgn) && pgn < 0x20000
    requires pgn !in {TRANSPORT_CONTROL_PGN, TRANSPORT_DATA_PGN, EXTENDED_DATA_PGN, EXTENDED_CONTROL_PGN}
    ensures ControlPGN(Control(kind, a, b, c, d, pgn)) == Ok(pgn)
  {
    assert pgn / 256 == pgn / 256 % 256 + 256 * (pgn / 65536);
    assert pgn == pgn % 256 + 256 * (pgn / 256);
  }

  /** An announcement reads back as the group and size it was made from. */
  lemma AnnounceRoundTrip(pgn: nat, size: nat, broadcast: bool)
    requires ActivePGN(pgn) && 8 < size <= MAXIMUM_PAYLOAD
    ensures var data := Announce(pgn, size, broadcast);
      ControlPGN(data) == Ok(pgn) && TransportSize(data) == Ok((size, Packets(size))) && data[4] != 0 &&
      data[0] == (if broadcast then BAM else RTS)
  {
    if broadcast {
      ControlPGNRoundTrip(BAM, size % 256, size / 256, Packets(size), 0xff, pgn);
    } else {
      ControlPGNRoundTrip(RTS, size % 256, size / 256, Packets(size), Packets(size), pgn);
    }
  }

  lemma AcknowledgeRoundTrip(pgn: nat, size: nat)
    requires ActivePGN(pgn) && 8 < size <= MAXIMUM_PAYLOAD
    ensures var data := Acknowledge(pgn, size);
      ControlPGN(data) == Ok(pgn) && TransportSize(data) == Ok((size, Packets(size))) && data[0] == EOMA
  {
    ControlPGNRoundTrip(EOMA, size % 256, size / 256, Packets(size), 0xff, pgn);
  }
}

/** The bus-event records of a measurement file (mf4/writer.go). */
module Mf4Records {
  import opened Wrappers
  import opened Bytes
  import opened Frames
  import opened CaptureChunk
  import opened Mf4Blocks
  import opened Mf4Layout

  function Flag(b: bool): byte {
    if b then 1 else 0
  }

  /** Four-byte record identifier, time as the bits of a double, and the bus-event structure. */
  function RecordBytes(id: nat, seconds: nat, event: FrameEvent): seq<byte>
    requires event.Valid() && event.frame.dlc < 256
  {
    var frame := event.frame;
    var head := Little(id, 4) + Word(seconds) + Little(event.bus, 2) + Little(frame.id, 4) + [Flag(frame.flags.extended), frame.dlc, |frame.data|];
    var direction := Flag(event.direction == DirectionTransmit);
    if frame.flags.remote then head + [direction]
    else head + frame.data + Zeros(64 - |frame.data|) + [direction, Flag(frame.flags.fd), Flag(frame.flags.bitRateSwitch), Flag(frame.flags.errorState)]
  }

  lemma RecordLength(id: nat, seconds: nat, event: FrameEvent)
    requires event.Valid() && event.frame.dlc < 256
    ensures |RecordBytes(id, seconds, event)| == if event.frame.flags.remote then 22 else 89
  {
  }

  /** Reads the bus, direction and frame of a record back. */
  function ReadFrame(record: seq<byte>): (nat, Direction, Frame)
    requires |record| == 22 || (|record| == 89 && record[20] <= 64)
  {
    var remote := |record| == 22;
    var flags := FrameFlags(record[18] == 1, remote, !remote && record[86] == 1, !remote && record[87] == 1, !remote && record[88] == 1);
    var direction := if record[if remote then 21 else 85] == 1 then DirectionTransmit else DirectionReceive;
    (FromLittle(record[12..14]), direction, Frame(FromLittle(record[14..18]), record[19], flags, if remote then [] else record[21..21 + record[20]]))
  }

  /** A record holds everything about the frame it was made from. */
  lemma RecordRoundTrip(id: nat, seconds: nat, event: FrameEvent)
    requires event.Valid() && event.bus < 65536
    ensures event.frame.dlc < 256
    ensures var record := RecordBytes(id, seconds, event);
      && (|record| == 22 || (|record| == 89 && record[20] <= 64))
      && ReadFrame(record) == (event.bus, event.direction, event.frame)
  {
    hide Little;
    hide Word;
    var record := RecordBytes(id, seconds, event);
    RecordLength(id, seconds, event);
    FieldsRead(id, seconds, event);
    SmallWords(event.bus, event.frame.id);
  }

  lemma {:induction false} SmallWords(bus: nat, id: nat)
    requires bus < 65536 && id <= MAX_EXTENDED_ID
    ensures FromLittle(Little(bus, 2)) == bus && FromLittle(Little(id, 4)) == id
  {
    assert Power256(2) == 65536 && Power256(4) == 0x1_0000_0000;
    LittleRoundTrip(bus, 2);
    LittleRoundTrip(id, 4);
  }

  lemma FieldsRead(id: nat, seconds: nat, event: FrameEvent)
    requires event.Valid() && event.frame.dlc < 256
    ensures var record := RecordBytes(id, seconds, event); var frame := event.frame;
      && |record| >= 22 && record[12..14] == Little(event.bus, 2) && record[14..18] == Little(frame.id, 4)
      && record[18] == Flag(frame.flags.extended) && record[19] == frame.dlc && record[20] as nat == |frame.data| <= 64
      && (frame.flags.remote ==> record[21] == Flag(event.direction == DirectionTransmit) && frame.data == [])
      && (!frame.flags.remote ==>
            && |record| == 89 && record[21..21 + |frame.data|] == frame.data && record[85] == Flag(event.direction == DirectionTransmit)
            && record[86] == Flag(frame.flags.fd) && record[87] == Flag(frame.flags.bitRateSwitch) && record[88] == Flag(frame.flags.errorState))
  {
    hide Little;
    hide Word;
    var frame := event.frame;
    var front := Little(id, 4) + Word(seconds);
    var record := RecordBytes(id, seconds, event);
    assert |front| == 12;
    assert record[12..14] == Little(event.bus, 2);
    assert record[14..18] == Little(frame.id, 4);
  }
}

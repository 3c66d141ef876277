/**
 * How a measurement file describes its records (mf4/writer.go): each channel group names a time master and a structure
 * whose members say where in a record every part of a frame lies.
 */
module Mf4Channels {
  import opened Wrappers
  import opened Bytes
  import opened Frames
  import opened CaptureChunk
  import opened Mf4Blocks
  import opened Mf4Layout
  import opened Mf4Reader
  import opened Mf4Records

  /** A structure member: its name, offset and width in the record, and kind of value. */
  datatype Member = Member(name: string, offset: nat, bits: nat, kind: byte)

  function Members(remote: bool): seq<Member> {
    var common := [Member("BusChannel", 8, 16, 0), Member("ID", 10, 32, 0), Member("IDE", 14, 8, 0),
                   Member("DLC", 15, 8, 0), Member("DataLength", 16, 8, 0)];
    if remote then common + [Member("Dir", 17, 8, 0)]
    else common + [Member("DataBytes", 17, 512, 10), Member("Dir", 81, 8, 0), Member("EDL", 82, 8, 0), Member("BRS", 83, 8, 0), Member("ESI", 84, 8, 0)]
  }

  function StructureSize(remote: bool): nat {
    if remote then 10 else 77
  }

  function Text(s: string): seq<byte> {
    seq<byte>(|s|, i requires 0 <= i < |s| => if s[i] as int < 256 then s[i] as int else 63)
  }

  function GroupName(remote: bool): string {
    if remote then "CAN_RemoteFrame" else "CAN_DataFrame"
  }

  // ---- Members and records ---------------------------------------------------------------

  /** The bytes of a record that a member covers; offsets are counted behind the record identifier. */
  function Covered(record: seq<byte>, m: Member): seq<byte> {
    var from := 4 + m.offset;
    if from + m.bits / 8 <= |record| then record[from..from + m.bits / 8] else []
  }

  lemma CoversBytes(record: seq<byte>, m: Member, from: nat)
    requires from == 4 + m.offset && m.bits == 8 && from < |record|
    ensures Covered(record, m) == [record[from]]
  {
  }

  /** The members of every record cover the parts of it that their names say. */
  lemma MembersDescribe(id: nat, seconds: nat, event: FrameEvent)
    requires event.Valid() && event.bus < 65536
    ensures event.frame.dlc < 256
    ensures var (frame, members, record) := (event.frame, Members(event.frame.flags.remote), RecordBytes(id, seconds, event));
      && members[0].name == "BusChannel" && FromLittle(Covered(record, members[0])) == event.bus
      && members[1].name == "ID" && FromLittle(Covered(record, members[1])) == frame.id
      && members[2].name == "IDE" && Covered(record, members[2]) == [Flag(frame.flags.extended)]
      && members[3].name == "DLC" && Covered(record, members[3]) == [frame.dlc]
      && members[4].name == "DataLength" && Covered(record, members[4]) == [|frame.data|]
      && var last := members[if frame.flags.remote then 5 else 6];
      && last.name == "Dir" && Covered(record, last) == [Flag(event.direction == DirectionTransmit)]
      && |record| == 4 + 8 + StructureSize(frame.flags.remote)
  {
    hide Little;
    hide Word;
    hide RecordBytes;
    var (remote, record) := (event.frame.flags.remote, RecordBytes(id, seconds, event));
    RecordLength(id, seconds, event);
    FieldsRead(id, seconds, event);
    SmallWords(event.bus, event.frame.id);
    var members := Members(remote);
    assert Covered(record, members[0]) == record[12..14] && Covered(record, members[1]) == record[14..18];
    hide Covered;
    CoversBytes(record, members[2], 18);
    CoversBytes(record, members[3], 19);
    CoversBytes(record, members[4], 20);
    CoversBytes(record, members[if remote then 5 else 6], if remote then 21 else 85);
  }

  /** So do those that only a data record has. */
  lemma DataMembersDescribe(id: nat, seconds: nat, event: FrameEvent)
    requires event.Valid() && event.bus < 65536 && !event.frame.flags.remote
    ensures event.frame.dlc < 256
    ensures var (frame, members, record) := (event.frame, Members(false), RecordBytes(id, seconds, event));
      && |members| == 10 && members[5].name == "DataBytes" && frame.data <= Covered(record, members[5])
      && members[7].name == "EDL" && Covered(record, members[7]) == [Flag(frame.flags.fd)]
      && members[8].name == "BRS" && Covered(record, members[8]) == [Flag(frame.flags.bitRateSwitch)]
      && members[9].name == "ESI" && Covered(record, members[9]) == [Flag(frame.flags.errorState)]
  {
    hide Little;
    hide Word;
    hide RecordBytes;
    var record := RecordBytes(id, seconds, event);
    RecordLength(id, seconds, event);
    FieldsRead(id, seconds, event);
    var members := Members(false);
    assert Covered(record, members[5]) == record[21..85];
    assert record[21..85][..|event.frame.data|] == record[21..21 + |event.frame.data|];
    hide Covered;
    CoversBytes(record, members[7], 86);
    CoversBytes(record, members[8], 87);
    CoversBytes(record, members[9], 88);
  }

  // ---- Channel blocks --------------------------------------------------------------------

  datatype Channel = Channel(name: seq<byte>, offset: nat, bits: nat, kind: byte, master: bool)

  function TimeChannel(): Channel {
    Channel(Text("time"), 0, 64, 4, true)
  }

  function StructureChannel(remote: bool): Channel {
    Channel(Text(GroupName(remote)), 8, 8 * StructureSize(remote), 10, false)
  }

  function MemberChannel(remote: bool, i: nat): Channel
    requires i < |Members(remote)|
  {
    var m := Members(remote)[i];
    Channel(Text(GroupName(remote) + "." + m.name), m.offset, m.bits, m.kind, false)
  }

  // Channel type and synchronisation, kind of value, byte offset, bit count and flags; limits stay empty.
  function ChannelData(c: Channel): (data: seq<byte>)
    ensures |data| == 72
  {
    [if c.master then 2 else 0, if c.master then 1 else 0, c.kind, 0] + Little(c.offset, 4) + Little(c.bits, 4)
    + Little(if c.master then 0 else 1024, 4) + Mf4Blocks.Zeros(56)
  }

  ghost predicate IsText(blocks: seq<Block>, k: nat, text: seq<byte>) {
    k < |blocks| && blocks[k].kind == TX && blocks[k].links == [] && blocks[k].data == TextData(text)
  }

  /** Block k describes a channel; its name stands before it, and between the two a master's unit. */
  ghost predicate IsChannel(blocks: seq<Block>, k: nat, c: Channel, next: nat, component: nat) {
    && 2 <= k < |blocks| && blocks[k].kind == CN && |blocks[k].links| == 8
    && blocks[k].links[0] == next && blocks[k].links[1] == component && blocks[k].data == ChannelData(c)
    && var name := if c.master then k - 2 else k - 1;
    && IsText(blocks, name, c.name) && blocks[k].links[2] == blocks[name].address
    && (c.master ==> IsText(blocks, k - 1, Text("s")) && blocks[k].links[6] == blocks[k - 1].address)
  }

  /** The channels from number `from` on, each linked to the next. */
  ghost predicate AreMembers(blocks: seq<Block>, remote: bool, members: seq<nat>, from: nat) {
    && from + |members| == |Members(remote)|
    && (forall i :: 0 <= i < |members| ==> members[i] < |blocks|)
    && (forall i :: 0 <= i < |members| ==>
          IsChannel(blocks, members[i], MemberChannel(remote, from + i), Target(blocks, members, i + 1), 0))
  }

  // The blocks of one description.
  datatype Description = Description(master: nat, structure: nat, members: seq<nat>)

  ghost predicate Describes(blocks: seq<Block>, remote: bool, d: Description) {
    && d.master < |blocks| && d.structure < |blocks| && AreMembers(blocks, remote, d.members, 0)
    && IsChannel(blocks, d.master, TimeChannel(), blocks[d.structure].address, 0)
    && IsChannel(blocks, d.structure, StructureChannel(remote), 0, Target(blocks, d.members, 0))
  }

  ghost predicate DescribedBy(blocks: seq<Block>, cg: nat, remote: bool, d: Description) {
    && cg < |blocks| && blocks[cg].kind == CG && |blocks[cg].links| == 6
    && Describes(blocks, remote, d) && blocks[cg].links[1] == blocks[d.master].address
  }

  ghost predicate Described(blocks: seq<Block>, cg: nat, remote: bool) {
    exists d :: DescribedBy(blocks, cg, remote, d)
  }

  /** What patching links and counters leaves of the blocks that describe. */
  ghost predicate Stands(blocks: seq<Block>, after: seq<Block>) {
    && |blocks| <= |after|
    && forall k :: 0 <= k < |blocks| ==> SameDescription(blocks[k], after[k])
  }

  predicate SameDescription(b: Block, c: Block) {
    && c.address == b.address && c.kind == b.kind && |c.links| == |b.links|
    && (Fixed(b.kind) ==> c == b)
    && (b.kind == CG && |b.links| > 0 ==> c.links[1..] == b.links[1..])
  }

  lemma GrowthStands(blocks: seq<Block>, after: seq<Block>)
    requires Grows(blocks, after)
    ensures Stands(blocks, after)
  {
    KindsDiffer();
    forall k | 0 <= k < |blocks|
      ensures SameDescription(blocks[k], after[k])
    {
      assert SameBut(blocks[k], after[k]);
    }
  }

  lemma RewriteStands(blocks: seq<Block>, k: nat, at: nat, data: seq<byte>)
    requires k < |blocks| && !Fixed(blocks[k].kind) && at + |data| <= |blocks[k].data|
    ensures Stands(blocks, blocks[k := Rewritten(blocks[k], at, data)])
  {
  }

  lemma ChannelKindsAreFixed()
    ensures Fixed(CN) && Fixed(TX) && !Fixed(CG) && !Fixed(HD)
  {
    assert CN[2] == 0x43 && CN[3] == 0x4e && TX[2] == 0x54;
    assert HD[2] == 0x48 && DG[2] == 0x44 && DL[2] == 0x44 && EV[2] == 0x45 && CG[3] == 0x47;
  }

  lemma ChannelStands(blocks: seq<Block>, after: seq<Block>, k: nat, c: Channel, next: nat, component: nat)
    requires Stands(blocks, after) && IsChannel(blocks, k, c, next, component)
    ensures IsChannel(after, k, c, next, component)
  {
    hide TextData;
    hide ChannelData;
    hide Fixed;
    ChannelKindsAreFixed();
    assert SameDescription(blocks[k], after[k]) && SameDescription(blocks[k - 1], after[k - 1]) && SameDescription(blocks[k - 2], after[k - 2]);
  }

  lemma MembersStand(blocks: seq<Block>, after: seq<Block>, remote: bool, members: seq<nat>, from: nat)
    requires Stands(blocks, after) && AreMembers(blocks, remote, members, from)
    ensures AreMembers(after, remote, members, from) && Target(after, members, 0) == Target(blocks, members, 0)
  {
    hide IsChannel;
    hide Members;
    hide SameDescription;
    AddressesStand(blocks, after);
    forall i | 0 <= i < |members|
      ensures IsChannel(after, members[i], MemberChannel(remote, from + i), Target(after, members, i + 1), 0)
    {
      ChannelStands(blocks, after, members[i], MemberChannel(remote, from + i), Target(blocks, members, i + 1), 0);
    }
  }

  lemma MembersAreBlocks(blocks: seq<Block>, remote: bool, members: seq<nat>, from: nat)
    requires AreMembers(blocks, remote, members, from)
    ensures forall i :: 0 <= i < |members| ==> members[i] < |blocks|
  {
  }

  lemma AddressesStand(blocks: seq<Block>, after: seq<Block>)
    requires Stands(blocks, after)
    ensures |blocks| <= |after| && forall k :: 0 <= k < |blocks| ==> after[k].address == blocks[k].address
  {
    forall k | 0 <= k < |blocks|
      ensures after[k].address == blocks[k].address
    {
      assert SameDescription(blocks[k], after[k]);
    }
  }

  lemma DescriptionStands(blocks: seq<Block>, after: seq<Block>, remote: bool, d: Description)
    requires Stands(blocks, after) && Describes(blocks, remote, d)
    ensures Describes(after, remote, d) && after[d.master].address == blocks[d.master].address
  {
    hide IsChannel;
    hide Members;
    hide SameDescription;
    hide AreMembers;
    AddressesStand(blocks, after);
    MembersAreBlocks(blocks, remote, d.members, 0);
    MembersStand(blocks, after, remote, d.members, 0);
    ChannelStands(blocks, after, d.master, TimeChannel(), blocks[d.structure].address, 0);
    ChannelStands(blocks, after, d.structure, StructureChannel(remote), 0, Target(blocks, d.members, 0));
  }

  lemma DescribedStands(blocks: seq<Block>, after: seq<Block>, cg: nat, remote: bool)
    requires Stands(blocks, after) && Described(blocks, cg, remote)
    ensures Described(after, cg, remote)
  {
    hide Describes;
    var d :| DescribedBy(blocks, cg, remote, d);
    DescriptionStands(blocks, after, remote, d);
    assert SameDescription(blocks[cg], after[cg]);
    assert after[cg].links[1] == after[cg].links[1..][0] && blocks[cg].links[1] == blocks[cg].links[1..][0];
    assert DescribedBy(after, cg, remote, d);
  }

  // ---- All groups ------------------------------------------------------------------------

  // The key of a group is twice its bus, and odd for remote frames.
  predicate IsRemote(key: nat) {
    key % 2 == 1
  }

  ghost predicate AllDescribed(blocks: seq<Block>, list: seq<nat>, keys: seq<nat>) {
    |list| == |keys| && forall i :: 0 <= i < |list| ==> Described(blocks, list[i], IsRemote(keys[i]))
  }

  lemma AllStand(blocks: seq<Block>, after: seq<Block>, list: seq<nat>, keys: seq<nat>)
    requires Stands(blocks, after) && AllDescribed(blocks, list, keys)
    ensures AllDescribed(after, list, keys)
  {
    hide Described;
    hide SameDescription;
    forall i | 0 <= i < |list|
      ensures Described(after, list[i], IsRemote(keys[i]))
    {
      DescribedStands(blocks, after, list[i], IsRemote(keys[i]));
    }
  }

  lemma OneMoreDescribed(blocks: seq<Block>, list: seq<nat>, keys: seq<nat>, last: nat, key: nat)
    requires AllDescribed(blocks, list, keys) && Described(blocks, last, IsRemote(key))
    ensures AllDescribed(blocks, list + [last], keys + [key])
  {
    hide Described;
  }

  /** A member in front of those described so far. */
  lemma MemberInFront(blocks: seq<Block>, remote: bool, members: seq<nat>, from: nat, k: nat)
    requires AreMembers(blocks, remote, members, from) && from > 0
    requires k < |blocks| && IsChannel(blocks, k, MemberChannel(remote, from - 1), Target(blocks, members, 0), 0)
    ensures AreMembers(blocks, remote, [k] + members, from - 1)
  {
    hide IsChannel;
    hide Members;
    var more := [k] + members;
    forall i | 0 <= i < |more|
      ensures IsChannel(blocks, more[i], MemberChannel(remote, from - 1 + i), Target(blocks, more, i + 1), 0)
    {
      if i > 0 {
        assert IsChannel(blocks, members[i - 1], MemberChannel(remote, from + (i - 1)), Target(blocks, members, i - 1 + 1), 0);
      }
    }
  }

  lemma NoMembers(blocks: seq<Block>, remote: bool)
    ensures AreMembers(blocks, remote, [], |Members(remote)|)
  {
  }

  // Blocks appended behind a description leave it alone.
  lemma ChannelRemains(blocks: seq<Block>, after: seq<Block>, k: nat, c: Channel, next: nat, component: nat)
    requires blocks <= after && IsChannel(blocks, k, c, next, component)
    ensures IsChannel(after, k, c, next, component) && k < |blocks| && after[k] == blocks[k]
  {
  }

  lemma MembersRemain(blocks: seq<Block>, after: seq<Block>, remote: bool, members: seq<nat>, from: nat)
    requires blocks <= after && AreMembers(blocks, remote, members, from)
    ensures AreMembers(after, remote, members, from) && (forall i :: 0 <= i < |members| ==> members[i] < |blocks|)
    ensures Target(after, members, 0) == Target(blocks, members, 0)
  {
    hide SameDescription;
    AppendStands(blocks, after);
    MembersStand(blocks, after, remote, members, from);
  }

  lemma AppendStands(blocks: seq<Block>, after: seq<Block>)
    requires blocks <= after
    ensures Stands(blocks, after)
  {
  }

  lemma DescriptionRemains(blocks: seq<Block>, after: seq<Block>, remote: bool, d: Description)
    requires blocks <= after && Describes(blocks, remote, d)
    ensures Describes(after, remote, d) && after[d.master].address == blocks[d.master].address
  {
    hide Describes;
    hide SameDescription;
    AppendStands(blocks, after);
    DescriptionStands(blocks, after, remote, d);
  }

  // ---- Reading back ----------------------------------------------------------------------

  /** A channel as a reader finds it: its name, type, kind of value, byte offset and bit count. */
  ghost predicate ChannelReadAs(file: seq<byte>, address: nat, c: Channel) {
    && address + 160 <= |file| && ReadPlain(file, Read(file, address + 40)) == TextData(c.name)
    && file[address + 88] as nat == (if c.master then 2 else 0) && file[address + 90] == c.kind
    && FromLittle(file[address + 92..address + 96]) == c.offset && FromLittle(file[address + 96..address + 100]) == c.bits
  }

  /** The n-th channel along the first links. */
  function NthNext(file: seq<byte>, first: nat, n: nat): nat {
    if n == 0 then first else Read(file, NthNext(file, first, n - 1) + 24)
  }

  /** What a reader learns of the records of a channel group: the time, the structure and its members in order. */
  ghost predicate DescriptionReads(file: seq<byte>, group: nat, remote: bool) {
    var master := Read(file, group + 32);
    var structure := Read(file, master + 24);
    var first := Read(file, structure + 32);
    && ChannelReadAs(file, master, TimeChannel()) && ChannelReadAs(file, structure, StructureChannel(remote))
    && Read(file, structure + 24) == 0
    && (forall i :: 0 <= i < |Members(remote)| ==> ChannelReadAs(file, NthNext(file, first, i), MemberChannel(remote, i)))
    && NthNext(file, first, |Members(remote)|) == 0
  }

  lemma AddressFits(file: seq<byte>, blocks: seq<Block>, k: nat)
    requires Laid(file, blocks) && k < |blocks| && |file| < TWO64
    ensures Holds(file, blocks[k]) && blocks[k].Length() < TWO64 && blocks[k].address < TWO64 && blocks[k].End() <= |file|
  {
    assert Holds(file, blocks[k]);
  }

  lemma ChannelDataReads(c: Channel)
    requires c.offset < 0x1_0000_0000 && c.bits < 0x1_0000_0000
    ensures var data := ChannelData(c);
      && data[0] as nat == (if c.master then 2 else 0) && data[2] == c.kind
      && FromLittle(data[4..8]) == c.offset && FromLittle(data[8..12]) == c.bits
  {
    hide Little;
    var data := ChannelData(c);
    assert data[4..8] == Little(c.offset, 4) && data[8..12] == Little(c.bits, 4);
    assert Power256(4) == 0x1_0000_0000 by {
      assert Power256(2) == 0x1_0000;
    }
    LittleRoundTrip(c.offset, 4);
    LittleRoundTrip(c.bits, 4);
  }

  lemma ChannelReads(file: seq<byte>, blocks: seq<Block>, k: nat, c: Channel, next: nat, component: nat)
    requires Laid(file, blocks) && |file| < TWO64 && IsChannel(blocks, k, c, next, component)
    requires next < TWO64 && component < TWO64 && c.offset < 0x1_0000_0000 && c.bits < 0x1_0000_0000
    ensures ChannelReadAs(file, blocks[k].address, c)
    ensures Read(file, blocks[k].address + 24) == next && Read(file, blocks[k].address + 32) == component
  {
    hide TextData;
    hide ChannelData;
    hide Read;
    hide ReadPlain;
    hide Holds;
    hide FromLittle;
    var (b, name) := (blocks[k], if c.master then k - 2 else k - 1);
    AddressFits(file, blocks, k);
    AddressFits(file, blocks, name);
    LinkReads(file, blocks, k, 0);
    LinkReads(file, blocks, k, 1);
    LinkReads(file, blocks, k, 2);
    PlainReads(file, blocks[name]);
    ReadData(file, b);
    ChannelDataReads(c);
    var from := b.address + 88;
    assert file[from..from + 72] == b.data;
    SliceOfSlice(file, from, from + 72, 4, 8);
    SliceOfSlice(file, from, from + 72, 8, 12);
    assert file[from..from + 72][0] == file[from] && file[from..from + 72][2] == file[from + 2];
  }

  lemma SmallMembers(remote: bool, i: nat)
    requires i < |Members(remote)|
    ensures MemberChannel(remote, i).offset < 0x1_0000_0000 && MemberChannel(remote, i).bits < 0x1_0000_0000
    ensures |Members(remote)| > 0
  {
  }

  lemma TargetFits(file: seq<byte>, blocks: seq<Block>, members: seq<nat>, i: nat)
    requires Laid(file, blocks) && |file| < TWO64 && forall k :: 0 <= k < |members| ==> members[k] < |blocks|
    ensures Target(blocks, members, i) < TWO64
  {
    hide Holds;
    if i < |members| {
      AddressFits(file, blocks, members[i]);
    }
  }

  lemma {:induction false} MembersRead(file: seq<byte>, blocks: seq<Block>, remote: bool, members: seq<nat>, i: nat)
    requires Laid(file, blocks) && |file| < TWO64 && AreMembers(blocks, remote, members, 0) && i <= |members|
    ensures NthNext(file, Target(blocks, members, 0), i) == Target(blocks, members, i)
    ensures i < |members| ==> ChannelReadAs(file, Target(blocks, members, i), MemberChannel(remote, i))
  {
    hide Laid;
    hide IsChannel;
    hide ChannelReadAs;
    hide Read;
    hide Members;
    if i < |members| {
      MemberReads(file, blocks, remote, members, i);
    }
    if i > 0 {
      MembersRead(file, blocks, remote, members, i - 1);
      MemberReads(file, blocks, remote, members, i - 1);
    }
  }

  lemma MemberReads(file: seq<byte>, blocks: seq<Block>, remote: bool, members: seq<nat>, i: nat)
    requires Laid(file, blocks) && |file| < TWO64 && AreMembers(blocks, remote, members, 0) && i < |members|
    ensures ChannelReadAs(file, Target(blocks, members, i), MemberChannel(remote, i))
    ensures Read(file, Target(blocks, members, i) + 24) == Target(blocks, members, i + 1)
  {
    hide Laid;
    hide IsChannel;
    hide ChannelReadAs;
    hide Read;
    hide Members;
    SmallMembers(remote, i);
    TargetFits(file, blocks, members, i + 1);
    assert IsChannel(blocks, members[i], MemberChannel(remote, 0 + i), Target(blocks, members, i + 1), 0);
    ChannelReads(file, blocks, members[i], MemberChannel(remote, i), Target(blocks, members, i + 1), 0);
  }

  /** A described group is read as described, from the bytes of the file alone. */
  lemma DescribedReads(file: seq<byte>, blocks: seq<Block>, cg: nat, remote: bool)
    requires Laid(file, blocks) && |file| < TWO64 && Described(blocks, cg, remote)
    ensures cg < |blocks| && DescriptionReads(file, blocks[cg].address, remote)
  {
    hide Laid;
    hide Holds;
    hide IsChannel;
    hide ChannelReadAs;
    hide Read;
    hide AreMembers;
    var d :| DescribedBy(blocks, cg, remote, d);
    MembersAreBlocks(blocks, remote, d.members, 0);
    AddressFits(file, blocks, d.master);
    AddressFits(file, blocks, d.structure);
    TargetFits(file, blocks, d.members, 0);
    LinkReads(file, blocks, cg, 1);
    ChannelReads(file, blocks, d.master, TimeChannel(), blocks[d.structure].address, 0);
    ChannelReads(file, blocks, d.structure, StructureChannel(remote), 0, Target(blocks, d.members, 0));
    MemberCount(blocks, remote, d.members);
    forall i | 0 <= i <= |d.members|
      ensures NthNext(file, Target(blocks, d.members, 0), i) == Target(blocks, d.members, i)
      ensures i < |d.members| ==> ChannelReadAs(file, Target(blocks, d.members, i), MemberChannel(remote, i))
    {
      MembersRead(file, blocks, remote, d.members, i);
    }
  }

  lemma MemberCount(blocks: seq<Block>, remote: bool, members: seq<nat>)
    requires AreMembers(blocks, remote, members, 0)
    ensures |members| == |Members(remote)|
  {
  }
}

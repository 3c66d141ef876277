/**
 * Reading a finished measurement file from its bytes alone: from the header through the links, without
 * knowing anything about how it was written.
 */
module Mf4Reader {
  import opened Wrappers
  import opened Bytes
  import opened Frames
  import opened Mf4Blocks
  import opened Mf4Layout

  /** A 64-bit field; outside the file it reads as zero. */
  function Read(file: seq<byte>, at: nat): nat {
    if at + 8 <= |file| then WordAt(file, at) else 0
  }

  /** The data of a block without links, by the length it states. */
  function ReadPlain(file: seq<byte>, address: nat): seq<byte> {
    var length := Read(file, address + 8);
    if 24 <= length && address + length <= |file| then file[address + 24..address + length] else []
  }

  function DataGroup(file: seq<byte>): nat {
    Read(file, 64 + 24)
  }

  function DataLists(file: seq<byte>): seq<nat> {
    Follow(file, Read(file, DataGroup(file) + 40))
  }

  function EventBlocks(file: seq<byte>): seq<nat> {
    Follow(file, Read(file, 64 + 56))
  }

  function GroupBlocks(file: seq<byte>): seq<nat> {
    Follow(file, Read(file, DataGroup(file) + 32))
  }

  function ReadPayload(file: seq<byte>, list: nat): seq<byte> {
    ReadPlain(file, Read(file, list + 32))
  }

  function ReadOffset(file: seq<byte>, list: nat): nat {
    Read(file, list + 48)
  }

  /** The records of the file: the payloads of all data lists, one after the other. */
  function ReadRecords(file: seq<byte>, lists: seq<nat>): seq<byte> {
    if lists == [] then [] else ReadRecords(file, lists[..|lists| - 1]) + ReadPayload(file, lists[|lists| - 1])
  }

  function ReadText(file: seq<byte>, link: nat): Option<seq<byte>> {
    if link == 0 then None else Some(ReadPlain(file, link))
  }

  // ---- What is found ---------------------------------------------------------------------

  lemma {:induction false} HookReads(file: seq<byte>, blocks: seq<Block>, head: nat, link: nat, list: seq<nat>, kind: seq<byte>)
    requires Laid(file, blocks) && Hooked(blocks, head, link, list, kind) && |file| < TWO64
    ensures head < |blocks| && (forall i :: 0 <= i < |list| ==> list[i] < |blocks|)
    ensures Read(file, blocks[head].address + 24 + 8 * link) == Target(blocks, list, 0)
    ensures Follow(file, Read(file, blocks[head].address + 24 + 8 * link)) == Addresses(blocks, list)
  {
    hide Follow;
    hide Encode;
    hide Addresses;
    HookedIndexes(blocks, head, link, list, kind);
    LinkReads(file, blocks, head, link);
    TargetInFile(file, blocks, list);
    FollowFinds(file, blocks, list, 0);
    assert Addresses(blocks, list)[0..] == Addresses(blocks, list);
  }

  lemma TargetInFile(file: seq<byte>, blocks: seq<Block>, list: seq<nat>)
    requires Laid(file, blocks) && Ordered(blocks, list) && |file| < TWO64
    ensures Target(blocks, list, 0) < TWO64
  {
    hide Encode;
    assert list != [] ==> Holds(file, blocks[list[0]]);
  }

  lemma LinkReads(file: seq<byte>, blocks: seq<Block>, k: nat, i: nat)
    requires Laid(file, blocks) && k < |blocks| && i < |blocks[k].links| && |file| < TWO64
    ensures blocks[k].links[i] < TWO64 ==> Read(file, blocks[k].address + 24 + 8 * i) == blocks[k].links[i]
  {
    hide Encode;
    hide WordAt;
    assert Holds(file, blocks[k]);
    if blocks[k].links[i] < TWO64 {
      ReadBlock(file, blocks[k], i);
    }
  }

  lemma PlainReads(file: seq<byte>, b: Block)
    requires Holds(file, b) && |file| < TWO64 && b.links == []
    ensures ReadPlain(file, b.address) == b.data
  {
    hide Encode;
    hide WordAt;
    ReadData(file, b);
  }

  lemma DataListReads(file: seq<byte>, blocks: seq<Block>, k: nat, payload: seq<byte>, offset: nat)
    requires Laid(file, blocks) && |file| < TWO64 && DataContent(blocks, k, payload, offset) && offset < TWO64
    ensures k < |blocks| && ReadPayload(file, blocks[k].address) == payload && ReadOffset(file, blocks[k].address) == offset
  {
    hide Encode;
    hide WordAt;
    hide Word;
    var b := blocks[k];
    assert Holds(file, b) && Holds(file, blocks[k - 1]);
    ReadBlock(file, b, 1);
    PlainReads(file, blocks[k - 1]);
    assert b.data[8..16] == Word(offset);
    ReadField(file, b, 8, offset);
  }

  lemma ListReads(file: seq<byte>, l: Layout, factor: nat, i: nat)
    requires Laid(file, l.blocks) && ValidLayout(l, factor) && |file| < TWO64 && Total(l.payloads) < TWO64 && i < |l.payloads|
    ensures |DataLists(file)| == |l.payloads|
    ensures ReadPayload(file, DataLists(file)[i]) == l.payloads[i] && ReadOffset(file, DataLists(file)[i]) == Total(l.payloads[..i])
  {
    hide Holds;
    hide Chained;
    hide DataContent;
    hide Follow;
    hide ReadOffset;
    hide ReadPayload;
    hide Read;
    hide Total;
    FindsGroup(file, l, factor);
    HookReads(file, l.blocks, l.dg, 2, l.dataList, DL);
    TotalMonotone(l.payloads, i);
    DataListReads(file, l.blocks, l.dataList[i], l.payloads[i], Total(l.payloads[..i]));
  }

  lemma ListCount(file: seq<byte>, l: Layout, factor: nat)
    requires Laid(file, l.blocks) && ValidLayout(l, factor) && |file| < TWO64
    ensures |DataLists(file)| == |l.payloads|
  {
    hide Holds;
    hide Chained;
    hide DataContent;
    hide Follow;
    hide Read;
    FindsGroup(file, l, factor);
    HookReads(file, l.blocks, l.dg, 2, l.dataList, DL);
  }

  /** The data-list chain yields the payloads of all flushes, in order. */
  lemma {:induction false} DataReads(file: seq<byte>, l: Layout, factor: nat, k: nat)
    requires Laid(file, l.blocks) && ValidLayout(l, factor) && |file| < TWO64 && Total(l.payloads) < TWO64 && k <= |l.payloads|
    ensures |DataLists(file)| == |l.payloads|
    ensures ReadRecords(file, DataLists(file)[..k]) == Join(l.payloads[..k])
    decreases k
  {
    hide Laid;
    hide ValidLayout;
    hide DataLists;
    hide ReadPayload;
    ListCount(file, l, factor);
    if k > 0 {
      DataReads(file, l, factor, k - 1);
      ListReads(file, l, factor, k - 1);
      assert DataLists(file)[..k][..k - 1] == DataLists(file)[..k - 1];
      assert l.payloads[..k][..k - 1] == l.payloads[..k - 1];
    }
  }

  lemma FindsGroup(file: seq<byte>, l: Layout, factor: nat)
    requires Laid(file, l.blocks) && ValidLayout(l, factor) && |file| < TWO64
    ensures DataGroup(file) == l.blocks[l.dg].address
  {
    hide Holds;
    hide Chained;
    hide Contents;
    HookReads(file, l.blocks, 0, 0, [l.dg], DG);
  }

  lemma {:induction false} TotalMonotone(payloads: seq<seq<byte>>, k: nat)
    requires k <= |payloads|
    ensures Total(payloads[..k]) <= Total(payloads)
  {
    if k < |payloads| {
      TotalMonotone(payloads[..|payloads| - 1], k);
      assert payloads[..|payloads| - 1][..k] == payloads[..k];
    } else {
      assert payloads[..k] == payloads;
    }
  }

  ghost predicate EventReadAs(file: seq<byte>, address: nat, marker: Marker) {
    && Read(file, address + 80) == marker.offset
    && ReadText(file, Read(file, address + 48)) == Some(TextData(marker.title))
    && ReadText(file, Read(file, address + 56)) == match marker.comment case None => None case Some(comment) => Some(TextData(comment))
  }

  lemma EventReads(file: seq<byte>, blocks: seq<Block>, k: nat, marker: Marker, factor: nat)
    requires Laid(file, blocks) && |file| < TWO64 && EventContent(blocks, k, marker, factor) && marker.offset < TWO64
    ensures k < |blocks| && EventReadAs(file, blocks[k].address, marker)
  {
    hide Encode;
    hide WordAt;
    hide Word;
    hide TextData;
    hide ReadPlain;
    var b := blocks[k];
    assert Holds(file, b) && Holds(file, blocks[k - 1]) && Holds(file, blocks[k - 2]);
    ReadBlock(file, b, 3);
    ReadBlock(file, b, 4);
    assert b.data[16..24] == Word(marker.offset);
    ReadField(file, b, 16, marker.offset);
    if marker.comment.Some? {
      PlainReads(file, blocks[k - 2]);
    }
    PlainReads(file, blocks[k - 1]);
  }

  lemma EventsHooked(l: Layout, factor: nat)
    requires ValidLayout(l, factor)
    ensures Hooked(l.blocks, 0, 4, l.eventList, EV) && EventContents(l.blocks, l.eventList, l.markers, factor)
    ensures l.blocks != [] && l.blocks[0].address == 64
  {
  }

  /** The event chain lists the markers in the order they were written, with their texts. */
  lemma EventsRead(file: seq<byte>, l: Layout, factor: nat)
    requires Laid(file, l.blocks) && ValidLayout(l, factor) && |file| < TWO64
    requires forall i :: 0 <= i < |l.markers| ==> l.markers[i].offset < TWO64
    ensures |EventBlocks(file)| == |l.markers|
    ensures forall i :: 0 <= i < |l.markers| ==> EventReadAs(file, EventBlocks(file)[i], l.markers[i])
  {
    hide Laid;
    hide Hooked;
    hide EventContent;
    hide EventReadAs;
    hide Follow;
    EventsHooked(l, factor);
    hide ValidLayout;
    HookReads(file, l.blocks, 0, 4, l.eventList, EV);
    forall i | 0 <= i < |l.markers|
      ensures EventReadAs(file, EventBlocks(file)[i], l.markers[i])
    {
      EventReads(file, l.blocks, l.eventList[i], l.markers[i], factor);
    }
  }

  lemma GroupReads(file: seq<byte>, blocks: seq<Block>, k: nat, id: nat, cycles: nat)
    requires Laid(file, blocks) && |file| < TWO64 && GroupContent(blocks, k, id, cycles) && id < TWO64 && cycles < TWO64
    ensures k < |blocks| && Read(file, blocks[k].address + 72) == id && Read(file, blocks[k].address + 80) == cycles
  {
    hide Encode;
    hide WordAt;
    hide Word;
    var b := blocks[k];
    assert Holds(file, b);
    ReadField(file, b, 0, id);
    ReadField(file, b, 8, cycles);
  }

  lemma GroupAddresses(file: seq<byte>, l: Layout, factor: nat)
    requires Laid(file, l.blocks) && ValidLayout(l, factor) && |file| < TWO64
    ensures |GroupBlocks(file)| == |l.groupList|
    ensures forall i :: 0 <= i < |l.groupList| ==>
      l.groupList[i] < |l.blocks| && GroupBlocks(file)[i] == l.blocks[l.groupList[i]].address
  {
    hide Holds;
    hide Chained;
    hide Follow;
    hide Read;
    hide Contents;
    FindsGroup(file, l, factor);
    HookReads(file, l.blocks, l.dg, 1, l.groupList, CG);
  }

  /** The group chain lists the channel groups by record identifier, each with its cycle counter. */
  lemma GroupsRead(file: seq<byte>, l: Layout, factor: nat)
    requires Laid(file, l.blocks) && ValidLayout(l, factor) && |file| < TWO64 && |l.counters| < TWO64
    requires forall i :: 0 <= i < |l.counters| ==> l.counters[i] < TWO64
    ensures |GroupBlocks(file)| == |l.counters|
    ensures forall i :: 0 <= i < |l.counters| ==>
      Read(file, GroupBlocks(file)[i] + 72) == i + 1 && Read(file, GroupBlocks(file)[i] + 80) == l.counters[i]
  {
    hide Holds;
    hide Chained;
    hide GroupContent;
    hide Follow;
    hide Read;
    hide DataContents;
    hide EventContents;
    FindsGroup(file, l, factor);
    HookReads(file, l.blocks, l.dg, 1, l.groupList, CG);
    forall i | 0 <= i < |l.counters|
      ensures Read(file, GroupBlocks(file)[i] + 72) == i + 1 && Read(file, GroupBlocks(file)[i] + 80) == l.counters[i]
    {
      GroupReads(file, l.blocks, l.groupList[i], i + 1, l.counters[i]);
    }
  }

  /** Every block the writer made starts at an eight-byte boundary. */
  lemma BlocksAreAligned(file: seq<byte>, blocks: seq<Block>, k: nat)
    requires Laid(file, blocks) && k < |blocks|
    ensures blocks[k].address % 8 == 0 && 64 <= blocks[k].address && blocks[k].End() <= |file|
  {
    assert Holds(file, blocks[k]);
  }
}

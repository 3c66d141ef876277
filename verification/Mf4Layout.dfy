/**
 * What a measurement file under construction contains (mf4/writer.go): its data lists, event markers and
 * channel groups, each a chain of blocks hooked to the header or the data group.
 */
module Mf4Layout {
  import opened Wrappers
  import opened Bytes
  import opened Frames
  import opened Mf4Blocks

  const HD: seq<byte> := [0x23, 0x23, 0x48, 0x44]
  const FH: seq<byte> := [0x23, 0x23, 0x46, 0x48]
  const DG: seq<byte> := [0x23, 0x23, 0x44, 0x47]
  const DT: seq<byte> := [0x23, 0x23, 0x44, 0x54]
  const DL: seq<byte> := [0x23, 0x23, 0x44, 0x4c]
  const EV: seq<byte> := [0x23, 0x23, 0x45, 0x56]
  const CG: seq<byte> := [0x23, 0x23, 0x43, 0x47]
  const CN: seq<byte> := [0x23, 0x23, 0x43, 0x4e]
  const SI: seq<byte> := [0x23, 0x23, 0x53, 0x49]
  const TX: seq<byte> := [0x23, 0x23, 0x54, 0x58]
  const MD: seq<byte> := [0x23, 0x23, 0x4d, 0x44]

  // ---- Hooked chains ---------------------------------------------------------------------

  /** A chain of blocks of one kind, reached from link `link` of block `head`. */
  ghost predicate Hooked(blocks: seq<Block>, head: nat, link: nat, list: seq<nat>, kind: seq<byte>) {
    && head < |blocks| && link < |blocks[head].links| && blocks[head].kind != kind
    && Chained(blocks, list)
    && (forall i :: 0 <= i < |list| ==> blocks[list[i]].kind == kind)
    && blocks[head].links[link] == Target(blocks, list, 0)
  }

  function TailBlock(head: nat, list: seq<nat>): nat {
    if list == [] then head else list[|list| - 1]
  }

  function TailLink(link: nat, list: seq<nat>): nat {
    if list == [] then link else 0
  }

  // Where the next block of the chain has to be linked from.
  function TailPosition(blocks: seq<Block>, head: nat, link: nat, list: seq<nat>): nat
    requires TailBlock(head, list) < |blocks|
  {
    blocks[TailBlock(head, list)].address + 24 + 8 * TailLink(link, list)
  }

  lemma HookedIndexes(blocks: seq<Block>, head: nat, link: nat, list: seq<nat>, kind: seq<byte>)
    requires Hooked(blocks, head, link, list, kind)
    ensures forall i :: 0 <= i < |list| ==> list[i] < |blocks| && |blocks[list[i]].links| > 0
    ensures TailBlock(head, list) < |blocks| && TailLink(link, list) < |blocks[TailBlock(head, list)].links|
  {
  }

  lemma HookAfterAppend(blocks: seq<Block>, more: seq<Block>, head: nat, link: nat, list: seq<nat>, kind: seq<byte>)
    requires Hooked(blocks, head, link, list, kind)
    ensures Hooked(blocks + more, head, link, list, kind)
    ensures TailPosition(blocks + more, head, link, list) == TailPosition(blocks, head, link, list)
  {
  }

  /** Patching the tail link to a new last block extends the chain by it. */
  lemma HookExtends(blocks: seq<Block>, b: Block, head: nat, link: nat, list: seq<nat>, kind: seq<byte>)
    requires Hooked(blocks, head, link, list, kind) && b.kind == kind && |b.links| > 0 && b.links[0] == 0
    ensures var tail := TailBlock(head, list);
      && tail < |blocks| && TailLink(link, list) < |blocks[tail].links|
      && var after := (blocks + [b])[tail := Relinked(blocks[tail], TailLink(link, list), b.address)];
      && Hooked(after, head, link, list + [|blocks|], kind)
      && TailPosition(after, head, link, list + [|blocks|]) == b.address + 24
  {
    var tail := TailBlock(head, list);
    var after := (blocks + [b])[tail := Relinked(blocks[tail], TailLink(link, list), b.address)];
    var longer := list + [|blocks|];
    OrderExtends(blocks, after, list);
    forall i | 0 <= i < |longer|
      ensures after[longer[i]].links[0] == Target(after, longer, i + 1)
    {
      LinkExtends(blocks, b, head, link, list, kind, i);
    }
  }

  lemma OrderExtends(blocks: seq<Block>, after: seq<Block>, list: seq<nat>)
    requires Ordered(blocks, list) && |after| == |blocks| + 1 && |after[|blocks|].links| > 0
    requires forall k :: 0 <= k < |blocks| ==> |after[k].links| == |blocks[k].links|
    ensures Ordered(after, list + [|blocks|])
  {
  }

  lemma LinkExtends(blocks: seq<Block>, b: Block, head: nat, link: nat, list: seq<nat>, kind: seq<byte>, i: nat)
    requires Hooked(blocks, head, link, list, kind) && b.kind == kind && |b.links| > 0 && b.links[0] == 0 && i <= |list|
    requires var tail := TailBlock(head, list); tail < |blocks| && TailLink(link, list) < |blocks[tail].links|
    ensures var after := (blocks + [b])[TailBlock(head, list) := Relinked(blocks[TailBlock(head, list)], TailLink(link, list), b.address)];
      var longer := list + [|blocks|];
      && (forall k :: 0 <= k < |longer| ==> longer[k] < |after|) && |after[longer[i]].links| > 0
      && after[longer[i]].links[0] == Target(after, longer, i + 1)
  {
    if i + 1 < |list| {
      assert list[i] < list[i + 1] && list[i] < list[|list| - 1];
      assert blocks[list[i]].links[0] == Target(blocks, list, i + 1);
    }
  }

  // Changing a link of block t leaves a chain alone that t does not belong to.
  lemma HookElsewhere(blocks: seq<Block>, t: nat, l: nat, value: nat, head: nat, link: nat, list: seq<nat>, kind: seq<byte>)
    requires Hooked(blocks, head, link, list, kind) && t < |blocks| && l < |blocks[t].links|
    requires (blocks[t].kind != kind || l != 0) && (t != head || l != link)
    ensures var after := blocks[t := Relinked(blocks[t], l, value)];
      Hooked(after, head, link, list, kind) && TailPosition(after, head, link, list) == TailPosition(blocks, head, link, list)
  {
    var after := blocks[t := Relinked(blocks[t], l, value)];
    forall i | 0 <= i < |list|
      ensures after[list[i]].links[0] == blocks[list[i]].links[0] && after[list[i]].address == blocks[list[i]].address
    {
    }
  }

  lemma HookAfterRewrite(blocks: seq<Block>, t: nat, at: nat, data: seq<byte>, head: nat, link: nat, list: seq<nat>, kind: seq<byte>)
    requires Hooked(blocks, head, link, list, kind) && t < |blocks| && at + |data| <= |blocks[t].data|
    ensures var after := blocks[t := Rewritten(blocks[t], at, data)];
      Hooked(after, head, link, list, kind) && TailPosition(after, head, link, list) == TailPosition(blocks, head, link, list)
  {
    var after := blocks[t := Rewritten(blocks[t], at, data)];
    forall i | 0 <= i < |list|
      ensures after[list[i]].links == blocks[list[i]].links && after[list[i]].address == blocks[list[i]].address
    {
    }
  }

  // ---- Contents --------------------------------------------------------------------------

  /** A text block ends in a zero and is filled up to eight bytes. */
  function TextData(text: seq<byte>): seq<byte> {
    text + [0] + Zeros(Padding(|text| + 1))
  }

  function ListData(offset: nat): (data: seq<byte>)
    ensures |data| == 16
  {
    [0, 0, 0, 0, 1, 0, 0, 0] + Word(offset)
  }

  // Event type 6 (marker), synchronised by time; factor 1e-9 as an IEEE double.
  function EventData(offset: nat, factor: nat): (data: seq<byte>)
    ensures |data| == 32
  {
    [6, 1] + Zeros(14) + Word(offset) + Word(factor)
  }

  function GroupData(id: nat, cycles: nat, structureSize: nat): (data: seq<byte>)
    ensures |data| == 32
  {
    Word(id) + Word(cycles) + [6, 0] + Little(46, 2) + Zeros(4) + Little(structureSize + 8, 4) + Zeros(4)
  }

  /** Block k is a data list for the data block before it. */
  ghost predicate DataContent(blocks: seq<Block>, k: nat, payload: seq<byte>, offset: nat) {
    && 0 < k < |blocks| && |blocks[k].links| == 2 && blocks[k].data == ListData(offset)
    && blocks[k - 1].kind == DT && blocks[k - 1].links == [] && blocks[k - 1].data == payload
    && blocks[k].links[1] == blocks[k - 1].address
  }

  datatype Marker = Marker(offset: nat, title: seq<byte>, comment: Option<seq<byte>>)

  /** Block k is an event marker; its texts stand just before it. */
  ghost predicate EventContent(blocks: seq<Block>, k: nat, marker: Marker, factor: nat) {
    && 2 <= k < |blocks| && |blocks[k].links| == 5 && blocks[k].data == EventData(marker.offset, factor)
    && var title := if marker.comment.Some? then k - 2 else k - 1;
    && blocks[title].data == TextData(marker.title) && blocks[title].links == [] && blocks[k].links[3] == blocks[title].address
    && match marker.comment
       case None => blocks[k].links[4] == 0
       case Some(comment) =>
         blocks[k - 1].data == TextData(comment) && blocks[k - 1].links == [] && blocks[k].links[4] == blocks[k - 1].address
  }

  ghost predicate GroupContent(blocks: seq<Block>, k: nat, id: nat, cycles: nat) {
    && k < |blocks| && |blocks[k].links| == 6 && |blocks[k].data| == 32
    && blocks[k].data[0..8] == Word(id) && blocks[k].data[8..16] == Word(cycles)
  }

  function Total(payloads: seq<seq<byte>>): nat {
    if payloads == [] then 0 else Total(payloads[..|payloads| - 1]) + |payloads[|payloads| - 1]|
  }

  function Join(pieces: seq<seq<byte>>): (all: seq<byte>)
  {
    if pieces == [] then [] else Join(pieces[..|pieces| - 1]) + pieces[|pieces| - 1]
  }

  lemma {:induction false} JoinLength(pieces: seq<seq<byte>>)
    ensures |Join(pieces)| == Total(pieces)
  {
    if pieces != [] {
      JoinLength(pieces[..|pieces| - 1]);
    }
  }

  datatype Layout = Layout(
    blocks: seq<Block>, dg: nat,
    dataList: seq<nat>, payloads: seq<seq<byte>>,
    eventList: seq<nat>, markers: seq<Marker>,
    groupList: seq<nat>, counters: seq<nat>)

  ghost predicate Heads(l: Layout) {
    && 0 < l.dg < |l.blocks|
    && l.blocks[0].kind == HD && l.blocks[0].address == 64 && |l.blocks[0].links| == 6 && |l.blocks[0].data| == 32
    && l.blocks[l.dg].kind == DG && |l.blocks[l.dg].links| == 4
  }

  ghost predicate Hooks(l: Layout) {
    && Hooked(l.blocks, 0, 0, [l.dg], DG)
    && Hooked(l.blocks, l.dg, 2, l.dataList, DL)
    && Hooked(l.blocks, 0, 4, l.eventList, EV)
    && Hooked(l.blocks, l.dg, 1, l.groupList, CG)
  }

  ghost predicate DataContents(blocks: seq<Block>, list: seq<nat>, payloads: seq<seq<byte>>) {
    && |payloads| == |list|
    && forall i :: 0 <= i < |list| ==> DataContent(blocks, list[i], payloads[i], Total(payloads[..i]))
  }

  ghost predicate EventContents(blocks: seq<Block>, list: seq<nat>, markers: seq<Marker>, factor: nat) {
    && |markers| == |list|
    && forall i :: 0 <= i < |list| ==> EventContent(blocks, list[i], markers[i], factor)
  }

  ghost predicate GroupContents(blocks: seq<Block>, list: seq<nat>, counters: seq<nat>) {
    && |counters| == |list|
    && forall i :: 0 <= i < |list| ==> GroupContent(blocks, list[i], i + 1, counters[i])
  }

  ghost predicate Contents(blocks: seq<Block>, l: Layout, factor: nat) {
    && DataContents(blocks, l.dataList, l.payloads) && EventContents(blocks, l.eventList, l.markers, factor)
    && GroupContents(blocks, l.groupList, l.counters)
  }

  ghost predicate ValidLayout(l: Layout, factor: nat) {
    Heads(l) && Hooks(l) && Contents(l.blocks, l, factor)
  }

  /** Everything but the chaining links stays as it was. */
  ghost predicate Grows(blocks: seq<Block>, after: seq<Block>) {
    && |blocks| <= |after|
    && forall k :: 0 <= k < |blocks| ==> SameBut(blocks[k], after[k])
  }

  predicate SameBut(b: Block, c: Block) {
    && c.address == b.address && c.kind == b.kind && c.data == b.data && |c.links| == |b.links|
    && (b.kind != HD && b.kind != DG && |b.links| > 0 ==> c.links[1..] == b.links[1..])
    && (Fixed(b.kind) ==> c == b)
  }

  /** Blocks that no chain runs through are never patched. */
  predicate Fixed(kind: seq<byte>) {
    kind != HD && kind != DG && kind != DL && kind != EV && kind != CG
  }

  lemma SameLink(b: Block, c: Block, i: nat)
    requires SameBut(b, c) && b.kind != HD && b.kind != DG && 1 <= i < |b.links|
    ensures c.links[i] == b.links[i]
  {
    assert c.links[i] == c.links[1..][i - 1] && b.links[i] == b.links[1..][i - 1];
  }

  lemma GrowKeepsData(blocks: seq<Block>, after: seq<Block>, k: nat, payload: seq<byte>, offset: nat)
    requires Grows(blocks, after) && DataContent(blocks, k, payload, offset) && blocks[k].kind == DL
    ensures DataContent(after, k, payload, offset)
  {
    hide ListData;
    assert SameBut(blocks[k], after[k]) && SameBut(blocks[k - 1], after[k - 1]);
    SameLink(blocks[k], after[k], 1);
  }

  lemma GrowKeepsEvent(blocks: seq<Block>, after: seq<Block>, k: nat, marker: Marker, factor: nat)
    requires Grows(blocks, after) && EventContent(blocks, k, marker, factor) && blocks[k].kind == EV
    ensures EventContent(after, k, marker, factor)
  {
    hide EventData;
    hide TextData;
    assert SameBut(blocks[k], after[k]) && SameBut(blocks[k - 1], after[k - 1]) && SameBut(blocks[k - 2], after[k - 2]);
    SameLink(blocks[k], after[k], 3);
    SameLink(blocks[k], after[k], 4);
  }

  lemma GrowKeepsContents(l: Layout, after: seq<Block>, factor: nat)
    requires ValidLayout(l, factor) && Grows(l.blocks, after)
    ensures Heads(l.(blocks := after)) && Contents(after, l, factor)
  {
    hide DataContent;
    hide EventContent;
    hide Chained;
    hide Total;
    var m := l.(blocks := after);
    assert SameBut(l.blocks[0], after[0]) && SameBut(l.blocks[l.dg], after[l.dg]);
    HookedIndexes(l.blocks, l.dg, 2, l.dataList, DL);
    HookedIndexes(l.blocks, 0, 4, l.eventList, EV);
    HookedIndexes(l.blocks, l.dg, 1, l.groupList, CG);
    forall i | 0 <= i < |m.dataList|
      ensures DataContent(after, m.dataList[i], m.payloads[i], Total(m.payloads[..i]))
    {
      GrowKeepsData(l.blocks, after, l.dataList[i], l.payloads[i], Total(l.payloads[..i]));
    }
    forall i | 0 <= i < |m.eventList|
      ensures EventContent(after, m.eventList[i], m.markers[i], factor)
    {
      GrowKeepsEvent(l.blocks, after, l.eventList[i], l.markers[i], factor);
    }
    forall i | 0 <= i < |m.groupList|
      ensures GroupContent(after, m.groupList[i], i + 1, m.counters[i])
    {
      assert SameBut(l.blocks[l.groupList[i]], after[l.groupList[i]]);
      assert GroupContent(l.blocks, l.groupList[i], i + 1, l.counters[i]);
    }
  }

  lemma AppendGrows(blocks: seq<Block>, more: seq<Block>)
    ensures Grows(blocks, blocks + more)
  {
  }

  lemma RelinkGrows(blocks: seq<Block>, t: nat, l: nat, value: nat)
    requires t < |blocks| && l < |blocks[t].links| && (l == 0 || blocks[t].kind == HD || blocks[t].kind == DG)
    requires !Fixed(blocks[t].kind)
    ensures Grows(blocks, blocks[t := Relinked(blocks[t], l, value)])
  {
    var (b, c) := (blocks[t], Relinked(blocks[t], l, value));
    if b.kind != HD && b.kind != DG {
      assert c.links[1..] == b.links[1..];
    }
  }

  /** New blocks that belong to no chain yet change nothing. */
  lemma AppendKeepsLayout(l: Layout, more: seq<Block>, factor: nat)
    requires ValidLayout(l, factor)
    ensures ValidLayout(l.(blocks := l.blocks + more), factor)
  {
    hide Heads;
    hide DataContents;
    hide EventContents;
    hide GroupContents;
    hide Hooked;
    AppendGrows(l.blocks, more);
    GrowKeepsContents(l, l.blocks + more, factor);
    HookAfterAppend(l.blocks, more, 0, 0, [l.dg], DG);
    HookAfterAppend(l.blocks, more, l.dg, 2, l.dataList, DL);
    HookAfterAppend(l.blocks, more, 0, 4, l.eventList, EV);
    HookAfterAppend(l.blocks, more, l.dg, 1, l.groupList, CG);
  }

  // The new last block, hooked to the tail of one of the chains.
  function Extended(blocks: seq<Block>, b: Block, head: nat, link: nat, list: seq<nat>): seq<Block>
    requires TailBlock(head, list) < |blocks| && TailLink(link, list) < |blocks[TailBlock(head, list)].links|
  {
    (blocks + [b])[TailBlock(head, list) := Relinked(blocks[TailBlock(head, list)], TailLink(link, list), b.address)]
  }

  lemma ExtendGrows(blocks: seq<Block>, b: Block, head: nat, link: nat, list: seq<nat>, kind: seq<byte>)
    requires Hooked(blocks, head, link, list, kind) && (blocks[head].kind == HD || blocks[head].kind == DG) && !Fixed(kind)
    ensures TailBlock(head, list) < |blocks| && TailLink(link, list) < |blocks[TailBlock(head, list)].links|
    ensures Grows(blocks, Extended(blocks, b, head, link, list)) && |Extended(blocks, b, head, link, list)| == |blocks| + 1
    ensures Extended(blocks, b, head, link, list)[|blocks|] == b
  {
    HookedIndexes(blocks, head, link, list, kind);
    var t := TailBlock(head, list);
    RelinkGrows(blocks, t, TailLink(link, list), b.address);
  }

  // Extending one chain leaves another alone.
  lemma ExtendElsewhere(blocks: seq<Block>, b: Block, head: nat, link: nat, list: seq<nat>, kind: seq<byte>,
                        otherHead: nat, otherLink: nat, other: seq<nat>, otherKind: seq<byte>)
    requires Hooked(blocks, head, link, list, kind) && Hooked(blocks, otherHead, otherLink, other, otherKind)
    requires kind != otherKind && (blocks[head].kind != otherKind || link != 0) && (head != otherHead || link != otherLink)
    requires blocks[otherHead].kind != kind
    ensures TailBlock(head, list) < |blocks| && TailLink(link, list) < |blocks[TailBlock(head, list)].links|
    ensures var after := Extended(blocks, b, head, link, list);
      && Hooked(after, otherHead, otherLink, other, otherKind)
      && TailBlock(otherHead, other) < |blocks|
      && TailPosition(after, otherHead, otherLink, other) == TailPosition(blocks, otherHead, otherLink, other)
  {
    HookedIndexes(blocks, head, link, list, kind);
    HookedIndexes(blocks, otherHead, otherLink, other, otherKind);
    HookAfterAppend(blocks, [b], otherHead, otherLink, other, otherKind);
    var t := TailBlock(head, list);
    assert (blocks + [b])[t] == blocks[t];
    HookElsewhere(blocks + [b], t, TailLink(link, list), b.address, otherHead, otherLink, other, otherKind);
  }

  // Where the writer will link its next blocks from.
  datatype Tails = Tails(data: nat, event: nat, group: nat)

  ghost predicate TailsOf(l: Layout, t: Tails) {
    && TailBlock(l.dg, l.dataList) < |l.blocks| && TailBlock(0, l.eventList) < |l.blocks| && TailBlock(l.dg, l.groupList) < |l.blocks|
    && t.data == TailPosition(l.blocks, l.dg, 2, l.dataList)
    && t.event == TailPosition(l.blocks, 0, 4, l.eventList)
    && t.group == TailPosition(l.blocks, l.dg, 1, l.groupList)
  }

  lemma AppendKeepsTails(l: Layout, more: seq<Block>, factor: nat, t: Tails)
    requires ValidLayout(l, factor) && TailsOf(l, t)
    ensures TailsOf(l.(blocks := l.blocks + more), t)
  {
    hide Heads;
    hide DataContents;
    hide EventContents;
    hide GroupContents;
    hide Hooked;
    HookAfterAppend(l.blocks, more, l.dg, 2, l.dataList, DL);
    HookAfterAppend(l.blocks, more, 0, 4, l.eventList, EV);
    HookAfterAppend(l.blocks, more, l.dg, 1, l.groupList, CG);
  }

  // ---- A data list -----------------------------------------------------------------------

  ghost function WithData(l: Layout, b: Block, payload: seq<byte>): Layout
    requires TailBlock(l.dg, l.dataList) < |l.blocks| && TailLink(2, l.dataList) < |l.blocks[TailBlock(l.dg, l.dataList)].links|
  {
    l.(blocks := Extended(l.blocks, b, l.dg, 2, l.dataList), dataList := l.dataList + [|l.blocks|], payloads := l.payloads + [payload])
  }

  lemma DataHooks(l: Layout, b: Block, factor: nat, t: Tails)
    requires ValidLayout(l, factor) && TailsOf(l, t) && b.kind == DL && |b.links| > 0 && b.links[0] == 0
    ensures TailBlock(l.dg, l.dataList) < |l.blocks| && TailLink(2, l.dataList) < |l.blocks[TailBlock(l.dg, l.dataList)].links|
    ensures Hooks(WithData(l, b, [])) && TailsOf(WithData(l, b, []), t.(data := b.address + 24))
    ensures Grows(l.blocks, WithData(l, b, []).blocks)
  {
    hide DataContents;
    hide EventContents;
    hide GroupContents;
    hide Hooked;
    hide Grows;
    hide Extended;
    hide TailPosition;
    KindsDiffer();
    ExtendGrows(l.blocks, b, l.dg, 2, l.dataList, DL);
    HookIsExtended(l.blocks, b, l.dg, 2, l.dataList, DL);
    ExtendElsewhere(l.blocks, b, l.dg, 2, l.dataList, DL, 0, 0, [l.dg], DG);
    ExtendElsewhere(l.blocks, b, l.dg, 2, l.dataList, DL, 0, 4, l.eventList, EV);
    ExtendElsewhere(l.blocks, b, l.dg, 2, l.dataList, DL, l.dg, 1, l.groupList, CG);
    TailOfMore(l.dg, l.dataList, |l.blocks|);
  }

  lemma KindsDiffer()
    ensures DL != EV && DL != CG && EV != CG && HD != DL && HD != EV && HD != CG && DG != DL && DG != EV && DG != CG && HD != DG
  {
    assert DL[2] != EV[2] && DL[2] != CG[2] && EV[2] != CG[2] && HD[2] != DL[2] && HD[2] != EV[2] && HD[2] != CG[2];
    assert DG[3] != DL[3] && DG[2] != EV[2] && DG[2] != CG[2] && HD[2] != DG[2];
  }

  lemma TailOfMore(head: nat, list: seq<nat>, k: nat)
    ensures TailBlock(head, list + [k]) == k
  {
  }

  lemma HookIsExtended(blocks: seq<Block>, b: Block, head: nat, link: nat, list: seq<nat>, kind: seq<byte>)
    requires Hooked(blocks, head, link, list, kind) && b.kind == kind && |b.links| > 0 && b.links[0] == 0
    ensures TailBlock(head, list) < |blocks| && TailLink(link, list) < |blocks[TailBlock(head, list)].links|
    ensures Hooked(Extended(blocks, b, head, link, list), head, link, list + [|blocks|], kind)
    ensures |Extended(blocks, b, head, link, list)| == |blocks| + 1
    ensures TailPosition(Extended(blocks, b, head, link, list), head, link, list + [|blocks|]) == b.address + 24
  {
    HookedIndexes(blocks, head, link, list, kind);
    HookExtends(blocks, b, head, link, list, kind);
  }

  /** One flush: a data block and its list, hooked to the end of the data chain. */
  lemma DataAppended(l: Layout, dt: Block, dl: Block, factor: nat, t: Tails)
    requires ValidLayout(l, factor) && TailsOf(l, t)
    requires dt.kind == DT && dt.links == [] && dl.kind == DL && dl.links == [0, dt.address] && dl.data == ListData(Total(l.payloads))
    ensures var k := l.(blocks := l.blocks + [dt]);
      && TailBlock(k.dg, k.dataList) < |k.blocks| && TailLink(2, k.dataList) < |k.blocks[TailBlock(k.dg, k.dataList)].links|
      && var m := WithData(k, dl, dt.data);
      ValidLayout(m, factor) && TailsOf(m, t.(data := dl.address + 24))
  {
    var k := l.(blocks := l.blocks + [dt]);
    hide DataContents;
    hide EventContents;
    hide GroupContents;
    hide DataContent;
    hide Extended;
    hide Hooked;
    hide Grows;
    AppendKeepsLayout(l, [dt], factor);
    AppendKeepsTails(l, [dt], factor, t);
    DataHooks(k, dl, factor, t);
    var m := WithData(k, dl, dt.data);
    GrowKeepsContents(k, m.blocks, factor);
    DataIsThere(k, dt, dl);
    DataContentsExtend(m.blocks, k.dataList, k.payloads, |k.blocks|, dt.data);
  }

  lemma {:induction false} DataContentsExtend(blocks: seq<Block>, list: seq<nat>, payloads: seq<seq<byte>>, k: nat, payload: seq<byte>)
    requires DataContents(blocks, list, payloads) && DataContent(blocks, k, payload, Total(payloads))
    ensures DataContents(blocks, list + [k], payloads + [payload])
  {
    hide DataContent;
    hide Total;
    var (longer, more) := (list + [k], payloads + [payload]);
    forall i | 0 <= i < |longer|
      ensures DataContent(blocks, longer[i], more[i], Total(more[..i]))
    {
      if i < |list| {
        assert more[..i] == payloads[..i];
      } else {
        assert more[..i] == payloads;
      }
    }
  }

  lemma DataIsThere(k: Layout, dt: Block, dl: Block)
    requires |k.blocks| > 0 && k.blocks[|k.blocks| - 1] == dt && dt.kind == DT && dt.links == []
    requires Hooked(k.blocks, k.dg, 2, k.dataList, DL) && (k.blocks[k.dg].kind == DG)
    requires dl.kind == DL && dl.links == [0, dt.address] && dl.data == ListData(Total(k.payloads))
    ensures TailBlock(k.dg, k.dataList) < |k.blocks| && TailLink(2, k.dataList) < |k.blocks[TailBlock(k.dg, k.dataList)].links|
    ensures DataContent(WithData(k, dl, dt.data).blocks, |k.blocks|, dt.data, Total(k.payloads))
  {
    hide ListData;
    HookedIndexes(k.blocks, k.dg, 2, k.dataList, DL);
  }

  // ---- An event marker -------------------------------------------------------------------

  ghost function WithEvent(l: Layout, b: Block, marker: Marker): Layout
    requires TailBlock(0, l.eventList) < |l.blocks| && TailLink(4, l.eventList) < |l.blocks[TailBlock(0, l.eventList)].links|
  {
    l.(blocks := Extended(l.blocks, b, 0, 4, l.eventList), eventList := l.eventList + [|l.blocks|], markers := l.markers + [marker])
  }

  lemma EventHooks(l: Layout, b: Block, marker: Marker, factor: nat, t: Tails)
    requires ValidLayout(l, factor) && TailsOf(l, t) && b.kind == EV && |b.links| > 0 && b.links[0] == 0
    ensures TailBlock(0, l.eventList) < |l.blocks| && TailLink(4, l.eventList) < |l.blocks[TailBlock(0, l.eventList)].links|
    ensures Hooks(WithEvent(l, b, marker)) && TailsOf(WithEvent(l, b, marker), t.(event := b.address + 24))
    ensures Grows(l.blocks, WithEvent(l, b, marker).blocks)
  {
    hide DataContents;
    hide EventContents;
    hide GroupContents;
    hide Hooked;
    hide Grows;
    hide Extended;
    hide TailPosition;
    KindsDiffer();
    ExtendGrows(l.blocks, b, 0, 4, l.eventList, EV);
    HookIsExtended(l.blocks, b, 0, 4, l.eventList, EV);
    ExtendElsewhere(l.blocks, b, 0, 4, l.eventList, EV, 0, 0, [l.dg], DG);
    ExtendElsewhere(l.blocks, b, 0, 4, l.eventList, EV, l.dg, 2, l.dataList, DL);
    ExtendElsewhere(l.blocks, b, 0, 4, l.eventList, EV, l.dg, 1, l.groupList, CG);
    TailOfMore(0, l.eventList, |l.blocks|);
  }

  /** The marker block, whose texts have just been appended, hooked to the end of the event chain. */
  lemma EventAppended(l: Layout, ev: Block, marker: Marker, factor: nat, t: Tails)
    requires ValidLayout(l, factor) && TailsOf(l, t) && ev.kind == EV && |ev.links| == 5 && ev.links[0] == 0
    requires EventContent(l.blocks + [ev], |l.blocks|, marker, factor)
    ensures TailBlock(0, l.eventList) < |l.blocks| && TailLink(4, l.eventList) < |l.blocks[TailBlock(0, l.eventList)].links|
    ensures var m := WithEvent(l, ev, marker); ValidLayout(m, factor) && TailsOf(m, t.(event := ev.address + 24))
  {
    hide DataContents;
    hide EventContents;
    hide GroupContents;
    hide EventContent;
    hide Extended;
    hide Hooked;
    hide Grows;
    EventHooks(l, ev, marker, factor, t);
    var m := WithEvent(l, ev, marker);
    GrowKeepsContents(l, m.blocks, factor);
    EventIsThere(l, ev, marker, factor, t);
    EventContentsExtend(m.blocks, l.eventList, l.markers, |l.blocks|, marker, factor);
  }

  lemma EventContentsExtend(blocks: seq<Block>, list: seq<nat>, markers: seq<Marker>, k: nat, marker: Marker, factor: nat)
    requires EventContents(blocks, list, markers, factor) && EventContent(blocks, k, marker, factor)
    ensures EventContents(blocks, list + [k], markers + [marker], factor)
  {
    hide EventContent;
  }

  lemma EventIsThere(l: Layout, ev: Block, marker: Marker, factor: nat, t: Tails)
    requires ValidLayout(l, factor) && TailsOf(l, t) && ev.kind == EV && |ev.links| == 5 && ev.links[0] == 0
    requires EventContent(l.blocks + [ev], |l.blocks|, marker, factor)
    ensures TailBlock(0, l.eventList) < |l.blocks| && TailLink(4, l.eventList) < |l.blocks[TailBlock(0, l.eventList)].links|
    ensures EventContent(WithEvent(l, ev, marker).blocks, |l.blocks|, marker, factor)
  {
    hide DataContents;
    hide EventContents;
    hide GroupContents;
    hide Hooked;
    hide EventContent;
    HookedIndexes(l.blocks, 0, 4, l.eventList, EV);
    var tail := TailBlock(0, l.eventList);
    assert (l.blocks + [ev])[tail] == l.blocks[tail];
    KindsDiffer();
    TailIsNotText(l, factor);
    RelinkGrows(l.blocks + [ev], tail, TailLink(4, l.eventList), ev.address);
    GrowKeepsEvent(l.blocks + [ev], WithEvent(l, ev, marker).blocks, |l.blocks|, marker, factor);
  }

  lemma TailIsNotText(l: Layout, factor: nat)
    requires ValidLayout(l, factor)
    ensures TailLink(4, l.eventList) == 0 || (TailBlock(0, l.eventList) == 0 && l.blocks[0].kind == HD)
    ensures TailBlock(0, l.eventList) < |l.blocks| && !Fixed(l.blocks[TailBlock(0, l.eventList)].kind)
  {
  }

  // ---- A channel group -------------------------------------------------------------------

  ghost function WithGroup(l: Layout, b: Block): Layout
    requires TailBlock(l.dg, l.groupList) < |l.blocks| && TailLink(1, l.groupList) < |l.blocks[TailBlock(l.dg, l.groupList)].links|
  {
    l.(blocks := Extended(l.blocks, b, l.dg, 1, l.groupList), groupList := l.groupList + [|l.blocks|], counters := l.counters + [0])
  }

  lemma GroupHooks(l: Layout, b: Block, factor: nat, t: Tails)
    requires ValidLayout(l, factor) && TailsOf(l, t) && b.kind == CG && |b.links| > 0 && b.links[0] == 0
    ensures TailBlock(l.dg, l.groupList) < |l.blocks| && TailLink(1, l.groupList) < |l.blocks[TailBlock(l.dg, l.groupList)].links|
    ensures Hooks(WithGroup(l, b)) && TailsOf(WithGroup(l, b), t.(group := b.address + 24))
    ensures Grows(l.blocks, WithGroup(l, b).blocks)
    ensures |WithGroup(l, b).blocks| == |l.blocks| + 1 && WithGroup(l, b).blocks[|l.blocks|] == b
  {
    hide DataContents;
    hide EventContents;
    hide GroupContents;
    hide Hooked;
    hide Grows;
    hide Extended;
    hide TailPosition;
    KindsDiffer();
    ExtendGrows(l.blocks, b, l.dg, 1, l.groupList, CG);
    HookIsExtended(l.blocks, b, l.dg, 1, l.groupList, CG);
    ExtendElsewhere(l.blocks, b, l.dg, 1, l.groupList, CG, 0, 0, [l.dg], DG);
    ExtendElsewhere(l.blocks, b, l.dg, 1, l.groupList, CG, l.dg, 2, l.dataList, DL);
    ExtendElsewhere(l.blocks, b, l.dg, 1, l.groupList, CG, 0, 4, l.eventList, EV);
    TailOfMore(l.dg, l.groupList, |l.blocks|);
  }

  lemma GroupAppended(l: Layout, cg: Block, size: nat, factor: nat, t: Tails)
    requires ValidLayout(l, factor) && TailsOf(l, t) && cg.kind == CG && |cg.links| == 6 && cg.links[0] == 0
    requires cg.data == GroupData(|l.groupList| + 1, 0, size)
    ensures TailBlock(l.dg, l.groupList) < |l.blocks| && TailLink(1, l.groupList) < |l.blocks[TailBlock(l.dg, l.groupList)].links|
    ensures var m := WithGroup(l, cg);
      && ValidLayout(m, factor) && TailsOf(m, t.(group := cg.address + 24))
      && |m.groupList| == |l.groupList| + 1 && m.groupList[|l.groupList|] == |l.blocks|
      && |m.blocks| == |l.blocks| + 1 && m.blocks[|l.blocks|] == cg
  {
    hide DataContents;
    hide EventContents;
    hide GroupContents;
    hide GroupData;
    hide Extended;
    hide Hooked;
    hide Grows;
    GroupHooks(l, cg, factor, t);
    var m := WithGroup(l, cg);
    GrowKeepsContents(l, m.blocks, factor);
    GroupDataReads(|l.groupList| + 1, 0, size);
    GroupContentsExtend(m.blocks, l.groupList, l.counters, |l.blocks|);
  }

  lemma GroupContentsExtend(blocks: seq<Block>, list: seq<nat>, counters: seq<nat>, k: nat)
    requires GroupContents(blocks, list, counters) && GroupContent(blocks, k, |list| + 1, 0)
    ensures GroupContents(blocks, list + [k], counters + [0])
  {
    hide GroupContent;
  }

  lemma GroupDataReads(id: nat, cycles: nat, size: nat)
    ensures GroupData(id, cycles, size)[0..8] == Word(id) && GroupData(id, cycles, size)[8..16] == Word(cycles)
  {
    hide Word;
  }

  // ---- Patches of data fields ------------------------------------------------------------

  /** Setting the start time in the header leaves everything else alone. */
  lemma StartKeepsLayout(l: Layout, value: nat, factor: nat, t: Tails)
    requires ValidLayout(l, factor) && TailsOf(l, t)
    ensures var m := l.(blocks := l.blocks[0 := Rewritten(l.blocks[0], 0, Word(value))]); ValidLayout(m, factor) && TailsOf(m, t)
  {
    hide Word;
    hide Hooked;
    hide DataContent;
    hide EventContent;
    HookAfterRewrite(l.blocks, 0, 0, Word(value), 0, 0, [l.dg], DG);
    HookAfterRewrite(l.blocks, 0, 0, Word(value), l.dg, 2, l.dataList, DL);
    HookAfterRewrite(l.blocks, 0, 0, Word(value), 0, 4, l.eventList, EV);
    HookAfterRewrite(l.blocks, 0, 0, Word(value), l.dg, 1, l.groupList, CG);
    RewriteKeepsContents(l, 0, 0, Word(value), factor);
  }

  lemma RewriteKeepsContents(l: Layout, k: nat, at: nat, data: seq<byte>, factor: nat)
    requires ValidLayout(l, factor) && k < |l.blocks| && (l.blocks[k].kind == HD || l.blocks[k].kind == CG) && at + |data| <= |l.blocks[k].data|
    requires l.blocks[k].links != []
    ensures var m := l.(blocks := l.blocks[k := Rewritten(l.blocks[k], at, data)]);
      && Heads(m) && DataContents(m.blocks, l.dataList, l.payloads) && EventContents(m.blocks, l.eventList, l.markers, factor)
      && forall i :: 0 <= i < |l.groupList| && l.groupList[i] != k ==> GroupContent(m.blocks, l.groupList[i], i + 1, l.counters[i])
  {
    hide DataContent;
    hide EventContent;
    hide Chained;
    hide Total;
    var m := l.(blocks := l.blocks[k := Rewritten(l.blocks[k], at, data)]);
    forall i | 0 <= i < |l.dataList|
      ensures DataContent(m.blocks, l.dataList[i], l.payloads[i], Total(l.payloads[..i]))
    {
      assert DataContent(l.blocks, l.dataList[i], l.payloads[i], Total(l.payloads[..i]));
      RewriteKeepsData(l.blocks, k, at, data, l.dataList[i], l.payloads[i], Total(l.payloads[..i]));
    }
    forall i | 0 <= i < |l.eventList|
      ensures EventContent(m.blocks, l.eventList[i], l.markers[i], factor)
    {
      RewriteKeepsEvent(l.blocks, k, at, data, l.eventList[i], l.markers[i], factor);
    }
  }

  lemma RewriteKeepsData(blocks: seq<Block>, k: nat, at: nat, data: seq<byte>, i: nat, payload: seq<byte>, offset: nat)
    requires k < |blocks| && (blocks[k].kind == HD || blocks[k].kind == CG) && at + |data| <= |blocks[k].data|
    requires DataContent(blocks, i, payload, offset) && blocks[i].kind == DL
    ensures DataContent(blocks[k := Rewritten(blocks[k], at, data)], i, payload, offset)
  {
    hide ListData;
    KindsDiffer();
    assert DT != HD && DT != CG by {
      assert DT[2] != HD[2] && DT[3] != CG[3];
    }
  }

  lemma RewriteKeepsEvent(blocks: seq<Block>, k: nat, at: nat, data: seq<byte>, i: nat, marker: Marker, factor: nat)
    requires k < |blocks| && (blocks[k].kind == HD || blocks[k].kind == CG) && at + |data| <= |blocks[k].data|
    requires blocks[k].links != [] && EventContent(blocks, i, marker, factor) && blocks[i].kind == EV
    ensures EventContent(blocks[k := Rewritten(blocks[k], at, data)], i, marker, factor)
  {
    hide EventData;
    hide TextData;
    KindsDiffer();
  }

  /** Writing the cycle counter of one group. */
  lemma CounterKeepsLayout(l: Layout, i: nat, cycles: nat, factor: nat, t: Tails)
    requires ValidLayout(l, factor) && TailsOf(l, t) && i < |l.groupList|
    ensures l.groupList[i] < |l.blocks| && |l.blocks[l.groupList[i]].data| == 32 && |l.blocks[l.groupList[i]].links| == 6
    ensures var k := l.groupList[i]; var m := l.(blocks := l.blocks[k := Rewritten(l.blocks[k], 8, Word(cycles))], counters := l.counters[i := cycles]);
      ValidLayout(m, factor) && TailsOf(m, t)
  {
    hide Word;
    hide DataContent;
    hide EventContent;
    var k := l.groupList[i];
    assert GroupContent(l.blocks, k, i + 1, l.counters[i]);
    HookedIndexes(l.blocks, l.dg, 1, l.groupList, CG);
    GroupKind(l, i);
    GroupsAreDistinct(l, i);
    HookAfterRewrite(l.blocks, k, 8, Word(cycles), 0, 0, [l.dg], DG);
    HookAfterRewrite(l.blocks, k, 8, Word(cycles), l.dg, 2, l.dataList, DL);
    HookAfterRewrite(l.blocks, k, 8, Word(cycles), 0, 4, l.eventList, EV);
    HookAfterRewrite(l.blocks, k, 8, Word(cycles), l.dg, 1, l.groupList, CG);
    hide Hooked;
    RewriteKeepsContents(l, k, 8, Word(cycles), factor);
    PatchedField(l.blocks[k].data, Word(cycles));
  }

  lemma GroupKind(l: Layout, i: nat)
    requires Hooks(l) && i < |l.groupList|
    ensures l.groupList[i] < |l.blocks| && l.blocks[l.groupList[i]].kind == CG
  {
  }

  lemma GroupsAreDistinct(l: Layout, i: nat)
    requires Hooks(l) && i < |l.groupList|
    ensures forall j :: 0 <= j < |l.groupList| && j != i ==> l.groupList[j] != l.groupList[i]
  {
  }

  lemma PatchedField(data: seq<byte>, word: seq<byte>)
    requires |data| == 32 && |word| == 8
    ensures Patched(data, 8, word)[0..8] == data[0..8] && Patched(data, 8, word)[8..16] == word
  {
  }
}

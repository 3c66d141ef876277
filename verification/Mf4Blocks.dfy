/**
 * The block structure of an MDF 4.10 file as the writer lays it out (mf4/writer.go): blocks appended on
 * eight-byte boundaries, and links patched into them afterwards.
 */
module Mf4Blocks {
  import opened Bytes
  import opened Frames

  const TWO64: nat := 0x1_0000_0000_0000_0000

  // ---- Words -----------------------------------------------------------------------------

  function Word(value: nat): (data: seq<byte>)
    ensures |data| == 8
  {
    Little(value, 8)
  }

  function WordAt(file: seq<byte>, at: nat): nat
    requires at + 8 <= |file|
  {
    FromLittle(file[at..at + 8])
  }

  lemma WordRoundTrip(value: nat)
    requires value < TWO64
    ensures FromLittle(Word(value)) == value
  {
    assert Power256(8) == TWO64 by {
      assert Power256(2) == 0x1_0000;
      assert Power256(4) == 0x1_0000_0000;
      assert Power256(6) == 0x1_0000_0000_0000;
    }
    LittleRoundTrip(value, 8);
  }

  // ---- Blocks ----------------------------------------------------------------------------

  datatype Block = Block(address: nat, kind: seq<byte>, links: seq<nat>, data: seq<byte>) {

    function Length(): nat {
      24 + 8 * |links| + |data|
    }

    function End(): nat {
      address + Length()
    }
  }

  function Words(links: seq<nat>): (data: seq<byte>)
    ensures |data| == 8 * |links|
  {
    if links == [] then [] else Words(links[..|links| - 1]) + Word(links[|links| - 1])
  }

  function Header(b: Block): (data: seq<byte>)
    requires |b.kind| == 4
    ensures |data| == 24
  {
    b.kind + [0, 0, 0, 0] + Word(b.Length()) + Word(|b.links|)
  }

  function Encode(b: Block): (data: seq<byte>)
    requires |b.kind| == 4
    ensures |data| == b.Length()
  {
    Header(b) + Words(b.links) + b.data
  }

  lemma {:induction false} WordsAt(links: seq<nat>, i: nat)
    requires i < |links|
    ensures Words(links)[8 * i..8 * i + 8] == Word(links[i])
    decreases |links|
  {
    var rest := links[..|links| - 1];
    if i < |links| - 1 {
      WordsAt(rest, i);
      assert Words(links)[8 * i..8 * i + 8] == Words(rest)[8 * i..8 * i + 8];
    }
  }

  lemma {:induction false} WordsPatched(links: seq<nat>, i: nat, value: nat)
    requires i < |links|
    ensures Words(links[i := value]) == Words(links)[..8 * i] + Word(value) + Words(links)[8 * i + 8..]
    decreases |links|
  {
    var rest := links[..|links| - 1];
    if i < |links| - 1 {
      WordsPatched(rest, i, value);
      assert links[i := value][..|links| - 1] == rest[i := value];
    } else {
      assert links[i := value][..|links| - 1] == rest;
    }
  }

  /** A file holds a block: every byte of it, at an eight-byte boundary. */
  ghost predicate Holds(file: seq<byte>, b: Block) {
    && |b.kind| == 4 && b.address % 8 == 0 && 64 <= b.address && b.End() <= |file|
    && file[b.address..b.End()] == Encode(b)
  }

  /** The blocks of a file, in the order they were appended. */
  ghost predicate Laid(file: seq<byte>, blocks: seq<Block>) {
    && (forall k :: 0 <= k < |blocks| ==> Holds(file, blocks[k]))
    && (forall j, k :: 0 <= j < k < |blocks| ==> blocks[j].End() <= blocks[k].address)
  }

  function Padding(end: nat): nat {
    (8 - end % 8) % 8
  }

  function Zeros(n: nat): (data: seq<byte>)
    ensures |data| == n
  {
    seq<byte>(n, _ => 0)
  }

  /** Patching: `data` replaces the bytes at the offset. */
  function Patched(file: seq<byte>, at: nat, data: seq<byte>): (patched: seq<byte>)
    requires at + |data| <= |file|
    ensures |patched| == |file|
  {
    file[..at] + data + file[at + |data|..]
  }

  lemma HoldsElsewhere(file: seq<byte>, at: nat, data: seq<byte>, b: Block)
    requires at + |data| <= |file| && Holds(file, b) && (at + |data| <= b.address || b.End() <= at)
    ensures Holds(Patched(file, at, data), b)
  {
    hide Encode;
    var patched := Patched(file, at, data);
    forall i | b.address <= i < b.End()
      ensures patched[i] == file[i]
    {
    }
    assert patched[b.address..b.End()] == file[b.address..b.End()];
  }

  lemma HoldsAfterAppend(file: seq<byte>, more: seq<byte>, b: Block)
    requires Holds(file, b)
    ensures Holds(file + more, b)
  {
    hide Encode;
    assert (file + more)[b.address..b.End()] == file[b.address..b.End()];
  }

  lemma AppendKeeps(file: seq<byte>, blocks: seq<Block>, b: Block)
    requires Laid(file, blocks) && |b.kind| == 4 && 64 <= |file| && b.address == |file| + Padding(|file|)
    ensures var after := file + Zeros(Padding(|file|)) + Encode(b);
      Laid(after, blocks + [b]) && |after| == b.End()
  {
    hide Encode;
    var after := file + Zeros(Padding(|file|)) + Encode(b);
    assert after == file + (Zeros(Padding(|file|)) + Encode(b));
    assert after[b.address..b.End()] == Encode(b);
    forall k | 0 <= k < |blocks|
      ensures Holds(after, blocks[k]) && blocks[k].End() <= b.address
    {
      HoldsAfterAppend(file, Zeros(Padding(|file|)) + Encode(b), blocks[k]);
    }
    assert Holds(after, b);
  }

  lemma PatchedHolds(file: seq<byte>, was: Block, offset: nat, data: seq<byte>, b: Block)
    requires Holds(file, was) && offset + |data| <= was.Length()
    requires |b.kind| == 4 && b.address == was.address && b.Length() == was.Length()
    requires Encode(b) == Patched(Encode(was), offset, data)
    ensures Holds(Patched(file, was.address + offset, data), b)
  {
    hide Encode;
    PatchedSlice(file, was.address, was.End(), offset, data);
    hide Patched;
  }

  lemma OtherHolds(file: seq<byte>, blocks: seq<Block>, k: nat, j: nat, offset: nat, data: seq<byte>)
    requires Laid(file, blocks) && k < |blocks| && j < |blocks| && j != k && offset + |data| <= blocks[k].Length()
    ensures blocks[k].address + offset + |data| <= |file|
    ensures Holds(Patched(file, blocks[k].address + offset, data), blocks[j])
  {
    hide Encode;
    assert Holds(file, blocks[k]) && Holds(file, blocks[j]);
    assert j < k ==> blocks[j].End() <= blocks[k].address;
    assert k < j ==> blocks[k].End() <= blocks[j].address;
    HoldsElsewhere(file, blocks[k].address + offset, data, blocks[j]);
  }

  /** A patch inside block k that turns its encoding into that of another block leaves all others alone. */
  lemma PatchKeeps(file: seq<byte>, blocks: seq<Block>, k: nat, offset: nat, data: seq<byte>, b: Block)
    requires Laid(file, blocks) && k < |blocks| && offset + |data| <= blocks[k].Length()
    requires |b.kind| == 4 && b.address == blocks[k].address && b.Length() == blocks[k].Length()
    requires Encode(b) == Patched(Encode(blocks[k]), offset, data)
    ensures Laid(Patched(file, blocks[k].address + offset, data), blocks[k := b])
  {
    assert Holds(file, blocks[k]);
    assert blocks[k].End() <= |file|;
    hide Encode;
    hide Patched;
    hide Holds;
    var after := blocks[k := b];
    PatchedHolds(file, blocks[k], offset, data, b);
    forall j | 0 <= j < |after|
      ensures Holds(Patched(file, blocks[k].address + offset, data), after[j])
    {
      if j != k {
        OtherHolds(file, blocks, k, j, offset, data);
      }
    }
  }

  lemma PatchedSlice(file: seq<byte>, from: nat, to: nat, offset: nat, data: seq<byte>)
    requires from <= to <= |file| && offset + |data| <= to - from
    ensures Patched(file, from + offset, data)[from..to] == Patched(file[from..to], offset, data)
  {
    var (left, right) := (Patched(file, from + offset, data)[from..to], Patched(file[from..to], offset, data));
    forall k | 0 <= k < to - from
      ensures left[k] == right[k]
    {
      PatchedAt(file, from + offset, data, from + k);
      PatchedAt(file[from..to], offset, data, k);
    }
  }

  lemma PatchedAt(file: seq<byte>, at: nat, data: seq<byte>, i: nat)
    requires at + |data| <= |file| && i < |file|
    ensures Patched(file, at, data)[i] == if at <= i < at + |data| then data[i - at] else file[i]
  {
  }

  function Relinked(b: Block, i: nat, value: nat): Block
    requires i < |b.links|
  {
    b.(links := b.links[i := value])
  }

  lemma RelinkEncodes(b: Block, i: nat, value: nat)
    requires |b.kind| == 4 && i < |b.links|
    ensures Encode(Relinked(b, i, value)) == Patched(Encode(b), 24 + 8 * i, Word(value))
  {
    hide Words;
    hide Word;
    WordsPatched(b.links, i, value);
    assert Header(Relinked(b, i, value)) == Header(b);
  }

  function Rewritten(b: Block, at: nat, data: seq<byte>): Block
    requires at + |data| <= |b.data|
  {
    b.(data := Patched(b.data, at, data))
  }

  lemma RewriteEncodes(b: Block, at: nat, data: seq<byte>)
    requires |b.kind| == 4 && at + |data| <= |b.data|
    ensures Encode(Rewritten(b, at, data)) == Patched(Encode(b), 24 + 8 * |b.links| + at, data)
  {
    hide Words;
    hide Word;
    assert Header(Rewritten(b, at, data)) == Header(b);
  }

  lemma RelinkKeeps(file: seq<byte>, blocks: seq<Block>, k: nat, i: nat, value: nat)
    requires Laid(file, blocks) && k < |blocks| && i < |blocks[k].links|
    ensures blocks[k].address + 24 + 8 * i + 8 <= |file|
    ensures Laid(Patched(file, blocks[k].address + 24 + 8 * i, Word(value)), blocks[k := Relinked(blocks[k], i, value)])
  {
    hide Encode;
    assert Holds(file, blocks[k]);
    RelinkEncodes(blocks[k], i, value);
    PatchKeeps(file, blocks, k, 24 + 8 * i, Word(value), Relinked(blocks[k], i, value));
  }

  lemma RewriteKeeps(file: seq<byte>, blocks: seq<Block>, k: nat, at: nat, data: seq<byte>)
    requires Laid(file, blocks) && k < |blocks| && at + |data| <= |blocks[k].data|
    ensures blocks[k].address + 24 + 8 * |blocks[k].links| + at + |data| <= |file|
    ensures Laid(Patched(file, blocks[k].address + 24 + 8 * |blocks[k].links| + at, data), blocks[k := Rewritten(blocks[k], at, data)])
  {
    hide Encode;
    assert Holds(file, blocks[k]);
    RewriteEncodes(blocks[k], at, data);
    PatchKeeps(file, blocks, k, 24 + 8 * |blocks[k].links| + at, data, Rewritten(blocks[k], at, data));
  }

  // ---- Reading back ----------------------------------------------------------------------

  lemma SliceOfSlice(file: seq<byte>, from: nat, to: nat, i: nat, j: nat)
    requires from <= to <= |file| && i <= j <= to - from
    ensures file[from..to][i..j] == file[from + i..from + j]
  {
    forall k | 0 <= k < j - i
      ensures file[from..to][i..j][k] == file[from + i..from + j][k]
    {
    }
  }

  /** What a reader finds at a block: its length, its links and its data. */
  lemma ReadBlock(file: seq<byte>, b: Block, i: nat)
    requires Holds(file, b) && b.Length() < TWO64 && i < |b.links| && b.links[i] < TWO64
    ensures WordAt(file, b.address + 24 + 8 * i) == b.links[i]
  {
    hide Words;
    hide Word;
    WordsAt(b.links, i);
    WordRoundTrip(b.links[i]);
    var encoded := Encode(b);
    assert encoded[24 + 8 * i..24 + 8 * i + 8] == Words(b.links)[8 * i..8 * i + 8];
    SliceOfSlice(file, b.address, b.End(), 24 + 8 * i, 24 + 8 * i + 8);
  }

  lemma ReadData(file: seq<byte>, b: Block)
    requires Holds(file, b) && b.Length() < TWO64
    ensures WordAt(file, b.address + 8) == b.Length()
    ensures file[b.address + 24 + 8 * |b.links|..b.End()] == b.data
  {
    hide Words;
    hide Word;
    WordRoundTrip(b.Length());
    var encoded := Encode(b);
    assert encoded[8..16] == Word(b.Length());
    assert encoded[24 + 8 * |b.links|..b.Length()] == b.data;
    SliceOfSlice(file, b.address, b.End(), 8, 16);
    SliceOfSlice(file, b.address, b.End(), 24 + 8 * |b.links|, b.Length());
  }

  lemma ReadField(file: seq<byte>, b: Block, at: nat, value: nat)
    requires Holds(file, b) && b.Length() < TWO64 && at + 8 <= |b.data| && b.data[at..at + 8] == Word(value) && value < TWO64
    ensures WordAt(file, b.address + 24 + 8 * |b.links| + at) == value
  {
    hide Encode;
    hide Word;
    ReadData(file, b);
    WordRoundTrip(value);
    var from := b.address + 24 + 8 * |b.links|;
    SliceOfSlice(file, from, b.End(), at, at + 8);
  }

  // ---- Chains ----------------------------------------------------------------------------

  /** Following first links through the bytes of a file; the writer's links always lead forward. */
  function Follow(file: seq<byte>, address: nat): (found: seq<nat>)
    decreases if address <= |file| then |file| - address else 0
  {
    if address == 0 || address + 32 > |file| then []
    else
      var next := WordAt(file, address + 24);
      [address] + if next > address then Follow(file, next) else []
  }

  function Addresses(blocks: seq<Block>, list: seq<nat>): (addresses: seq<nat>)
    requires forall i :: 0 <= i < |list| ==> list[i] < |blocks|
    ensures |addresses| == |list|
  {
    seq(|list|, i requires 0 <= i < |list| => blocks[list[i]].address)
  }

  ghost predicate Ordered(blocks: seq<Block>, list: seq<nat>) {
    && (forall i :: 0 <= i < |list| ==> list[i] < |blocks| && |blocks[list[i]].links| > 0)
    && (forall i, j :: 0 <= i < j < |list| ==> list[i] < list[j])
  }

  function Target(blocks: seq<Block>, list: seq<nat>, i: nat): nat
    requires forall k :: 0 <= k < |list| ==> list[k] < |blocks|
  {
    if i < |list| then blocks[list[i]].address else 0
  }

  /** Each block of the list links to the next one, and the last one to nothing. */
  ghost predicate Chained(blocks: seq<Block>, list: seq<nat>) {
    && Ordered(blocks, list)
    && forall i :: 0 <= i < |list| ==> blocks[list[i]].links[0] == Target(blocks, list, i + 1)
  }

  /** A reader that follows the links finds exactly the blocks of the list, in order. */
  lemma {:induction false} FollowFinds(file: seq<byte>, blocks: seq<Block>, list: seq<nat>, i: nat)
    requires Laid(file, blocks) && Chained(blocks, list) && Ordered(blocks, list) && i <= |list| && |file| < TWO64
    ensures Follow(file, Target(blocks, list, i)) == Addresses(blocks, list)[i..]
    decreases |list| - i
  {
    hide Laid;
    hide Chained;
    hide WordAt;
    if i < |list| {
      NextIsAhead(file, blocks, list, i);
      NextIsRead(file, blocks, list, i);
      FollowFinds(file, blocks, list, i + 1);
      AddressesSplit(blocks, list, i);
      assert Follow(file, 0) == [];
    } else {
      assert Follow(file, 0) == [];
    }
  }

  lemma AddressesSplit(blocks: seq<Block>, list: seq<nat>, i: nat)
    requires (forall k :: 0 <= k < |list| ==> list[k] < |blocks|) && i < |list|
    ensures Addresses(blocks, list)[i..] == [blocks[list[i]].address] + Addresses(blocks, list)[i + 1..]
    ensures i + 1 == |list| ==> Addresses(blocks, list)[i + 1..] == []
  {
  }

  lemma NextIsRead(file: seq<byte>, blocks: seq<Block>, list: seq<nat>, i: nat)
    requires Laid(file, blocks) && Chained(blocks, list) && i < |list| && |file| < TWO64
    ensures blocks[list[i]].address + 32 <= |file|
    ensures WordAt(file, blocks[list[i]].address + 24) == Target(blocks, list, i + 1)
  {
    hide Encode;
    hide WordAt;
    NextIsAhead(file, blocks, list, i);
    assert Holds(file, blocks[list[i]]);
    ReadBlock(file, blocks[list[i]], 0);
  }

  lemma NextIsAhead(file: seq<byte>, blocks: seq<Block>, list: seq<nat>, i: nat)
    requires Laid(file, blocks) && Chained(blocks, list) && i < |list| && |file| < TWO64
    ensures list[i] < |blocks| && |blocks[list[i]].links| > 0 && blocks[list[i]].links[0] == Target(blocks, list, i + 1) < TWO64
    ensures 64 <= blocks[list[i]].address && (i + 1 < |list| ==> blocks[list[i]].address < Target(blocks, list, i + 1))
  {
    hide Encode;
    assert Holds(file, blocks[list[i]]);
    if i + 1 < |list| {
      assert Holds(file, blocks[list[i + 1]]);
      assert list[i] < list[i + 1];
    }
  }
}

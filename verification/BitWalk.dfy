/** Payload bits addressed by position, and writing a list of them (the setDataBit loops of dbc and cdd). */
module BitWalk {
  import opened Frames
  import opened Bits

  predicate DataBit(data: seq<byte>, bit: nat)
    requires bit < 8 * |data|
  {
    BitOf(data[bit / 8], bit % 8)
  }

  predicate Inside(positions: seq<nat>, length: nat) {
    forall i :: 0 <= i < |positions| ==> positions[i] < 8 * length
  }

  ghost predicate Distinct(positions: seq<nat>) {
    forall i, j :: 0 <= i < j < |positions| ==> positions[i] != positions[j]
  }

  /** `after` is `before` with the given bits at the given positions, and every other bit as it was. */
  ghost predicate Wrote(before: seq<byte>, after: seq<byte>, positions: seq<nat>, bits: seq<bool>)
    requires |bits| == |positions| && Inside(positions, |before|)
  {
    && |after| == |before|
    && (forall i :: 0 <= i < |positions| ==> DataBit(after, positions[i]) == bits[i])
    && (forall bit :: 0 <= bit < 8 * |before| && bit !in positions ==> DataBit(after, bit) == DataBit(before, bit))
  }

  ghost predicate SetOne(before: seq<byte>, after: seq<byte>, bit: nat, value: bool)
    requires bit < 8 * |before|
  {
    && |after| == |before|
    && (forall other :: 0 <= other < 8 * |before| ==>
          DataBit(after, other) == if other == bit then value else DataBit(before, other))
  }

  method SetDataBit(data: array<byte>, bit: nat, value: bool)
    requires bit < 8 * data.Length
    modifies data
    ensures SetOne(old(data[..]), data[..], bit, value)
  {
    var word := data[bit / 8];
    assert Pow2(8) == 256;
    WithBitFits(word, bit % 8, value, 8);
    data[bit / 8] := WithBit(word, bit % 8, value);
    forall other | 0 <= other < 8 * data.Length
      ensures DataBit(data[..], other) == if other == bit then value else old(DataBit(data[..], other))
    {
      if other / 8 == bit / 8 {
        WithBitBits(word, bit % 8, value, other % 8);
      }
    }
  }

  lemma WroteNothing(data: seq<byte>)
    ensures Wrote(data, data, [], [])
  {
  }

  lemma WriteStep(before: seq<byte>, middle: seq<byte>, after: seq<byte>, positions: seq<nat>, bits: seq<bool>, k: nat)
    requires |bits| == |positions| && k < |positions| && Inside(positions, |before|) && Distinct(positions)
    requires Wrote(before, middle, positions[..k], bits[..k])
    requires SetOne(middle, after, positions[k], bits[k])
    ensures Wrote(before, after, positions[..k + 1], bits[..k + 1])
  {
    hide BitOf;
    hide DataBit;
    var (done, next) := (positions[..k], positions[..k + 1]);
    assert next == done + [positions[k]];
    forall i | 0 <= i < k + 1
      ensures DataBit(after, next[i]) == bits[..k + 1][i]
    {
      if i < k {
        assert done[i] == positions[i] != positions[k];
        assert DataBit(middle, done[i]) == bits[..k][i];
      }
    }
  }

  lemma SameDataBits(left: seq<byte>, right: seq<byte>)
    requires |left| == |right|
    requires forall bit :: 0 <= bit < 8 * |left| ==> DataBit(left, bit) == DataBit(right, bit)
    ensures left == right
  {
    forall i | 0 <= i < |left|
      ensures left[i] == right[i]
    {
      SameByte(left, right, i);
    }
  }

  lemma SameByte(left: seq<byte>, right: seq<byte>, i: nat)
    requires i < |left| && i < |right|
    requires forall bit :: 8 * i <= bit < 8 * i + 8 ==> DataBit(left, bit) == DataBit(right, bit)
    ensures left[i] == right[i]
  {
    assert Pow2(8) == 256;
    forall k | 0 <= k < 8
      ensures BitOf(left[i], k) == BitOf(right[i], k)
    {
      assert (8 * i + k) / 8 == i && (8 * i + k) % 8 == k;
      assert DataBit(left, 8 * i + k) == DataBit(right, 8 * i + k);
    }
    SameBits(left[i], right[i], 8);
  }

  /** The bits found at the given positions. */
  function Gathered(data: seq<byte>, positions: seq<nat>): (bits: seq<bool>)
    requires Inside(positions, |data|)
    ensures |bits| == |positions|
  {
    seq(|positions|, i requires 0 <= i < |positions| => DataBit(data, positions[i]))
  }

  lemma WriteThenGather(before: seq<byte>, after: seq<byte>, positions: seq<nat>, bits: seq<bool>)
    requires |bits| == |positions| && Inside(positions, |before|) && Wrote(before, after, positions, bits)
    ensures Gathered(after, positions) == bits
  {
  }

  ghost predicate Disjoint(left: seq<nat>, right: seq<nat>) {
    forall bit :: bit in left ==> bit !in right
  }

  lemma WriteElsewhere(before: seq<byte>, after: seq<byte>, positions: seq<nat>, bits: seq<bool>, other: seq<nat>)
    requires |bits| == |positions| && Inside(positions, |before|) && Wrote(before, after, positions, bits)
    requires Inside(other, |before|) && Disjoint(positions, other)
    ensures Gathered(after, other) == Gathered(before, other)
  {
    forall i | 0 <= i < |other|
      ensures DataBit(after, other[i]) == DataBit(before, other[i])
    {
      assert other[i] in other;
    }
  }
}

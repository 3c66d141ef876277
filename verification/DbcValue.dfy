/**
 * What a signal's raw value is, said of the payload as one integer: a field of the little-endian integer for Intel
 * order and of the big-endian integer for Motorola order (dbc/codec.go).
 */
module DbcValue {
  import opened Frames
  import opened Bits
  import opened BitWalk
  import opened Bytes
  import opened DbcLayout

  /** The payload as one integer in the byte order of the signal. */
  function Whole(data: seq<byte>, s: Signal): nat {
    FromLittle(if s.littleEndian then data else Reversed(data))
  }

  /** How far the field of a signal lies above the lowest bit of that integer. */
  function Shift(length: nat, s: Signal): int {
    if s.littleEndian then s.startBit else 8 * length - Linear(s.startBit) - s.bitLength
  }

  lemma {:induction false} ReversedBits(data: seq<byte>, bit: nat)
    requires bit < 8 * |data|
    ensures 0 <= 8 * |data| - 1 - Linear(bit) < 8 * |data|
    ensures BitOf(FromLittle(Reversed(data)), 8 * |data| - 1 - Linear(bit)) == DataBit(data, bit)
  {
    hide BitOf;
    hide FromLittle;
    hide Linear;
    LinearSplits(|data|, bit);
    FromLittleBits(Reversed(data), 8 * |data| - 1 - Linear(bit));
  }

  lemma LinearSplits(length: nat, bit: nat)
    requires bit < 8 * length
    ensures var p := 8 * length - 1 - Linear(bit); 0 <= p < 8 * length && p / 8 == length - 1 - bit / 8 && p % 8 == bit % 8
  {
    assert 8 * length - 1 - Linear(bit) == 8 * (length - 1 - bit / 8) + bit % 8;
  }

  lemma FieldFits(length: nat, s: Signal)
    requires Placed(s, length)
    ensures 0 <= Shift(length, s)
  {
    hide WideBit;
    var last := WideBit(s, s.bitLength - 1);
    assert last < 8 * length;
    if !s.littleEndian {
      WideBitIsLinear(s, s.bitLength - 1);
      LinearFits(length, last);
    }
  }

  lemma LinearFits(length: nat, bit: nat)
    requires bit < 8 * length
    ensures Linear(bit) < 8 * length
  {
  }

  /** The k-th value bit is the bit that lies k above the lowest bit of the field. */
  lemma {:induction false} ValueBit(data: seq<byte>, s: Signal, k: nat)
    requires Placed(s, |data|) && k < s.bitLength
    ensures Available(s, |data|) && 0 <= Shift(|data|, s)
    ensures BitOf(RawValue(data, s), k) == BitOf(Whole(data, s), Shift(|data|, s) + k)
  {
    hide BitOf;
    hide FromLittle;
    hide WideBit;
    hide Linear;
    PlacedIsAvailable(s, |data|);
    FieldFits(|data|, s);
    FromWalkBits(s, Gathered(data, Walk(s)));
    var i := ValueIndex(s, k);
    BitAtIsWide(|data|, s, i);
    assert Gathered(data, Walk(s))[i] == DataBit(data, WideBit(s, i));
    if s.littleEndian {
      WideBitIsStraight(s, i);
      FromLittleBits(data, s.startBit + k);
    } else {
      WideBitIsLinear(s, i);
      ReversedBits(data, WideBit(s, i));
    }
  }

  lemma {:induction false} WideBitIsStraight(s: Signal, i: nat)
    requires s.littleEndian
    ensures WideBit(s, i) == s.startBit + i
  {
  }

  lemma RawFitsWidth(data: seq<byte>, s: Signal)
    requires Available(s, |data|)
    ensures RawValue(data, s) < Pow2(s.bitLength)
  {
    FromWalkBits(s, Gathered(data, Walk(s)));
  }

  /** The raw value is the payload's integer, shifted down to the field and cut to its width. */
  lemma RawIsShiftedAndMasked(data: seq<byte>, s: Signal)
    requires Placed(s, |data|)
    ensures Available(s, |data|) && 0 <= Shift(|data|, s)
    ensures RawValue(data, s) == ShiftRight(Whole(data, s), Shift(|data|, s)) % Pow2(s.bitLength)
  {
    hide *;
    PlacedIsAvailable(s, |data|);
    FieldFits(|data|, s);
    RawFitsWidth(data, s);
    var shifted := ShiftRight(Whole(data, s), Shift(|data|, s));
    LowBits(shifted, s.bitLength, 0);
    forall k | 0 <= k < s.bitLength
      ensures BitOf(RawValue(data, s), k) == BitOf(shifted % Pow2(s.bitLength), k)
    {
      ValueBit(data, s, k);
      LowBits(shifted, s.bitLength, k);
      ShiftedBits(Whole(data, s), Shift(|data|, s), k);
    }
    SameBits(RawValue(data, s), shifted % Pow2(s.bitLength), s.bitLength);
  }
}

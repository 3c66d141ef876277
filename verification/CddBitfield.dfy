/**
 * Packed fields: a field of a STRUCT is a run of bits of the container's integer value, counted from its
 * least significant bit, whatever the container's byte order (cdd/bitfield.go).
 */
module CddBitfield {
  import opened Wrappers
  import opened Frames
  import opened Bits
  import opened BitWalk
  import opened Bytes
  import opened CddModel

  /** A field that lies inside its byte-aligned container. */
  predicate Packed(f: Field) {
    && f.container.Some?
    && f.container.value.bitOffset % 8 == 0
    && f.container.value.bitLength % 8 == 0
    && f.bitOffset + f.bitLength <= f.container.value.bitLength
  }

  function Start(c: Bitfield): nat {
    c.bitOffset / 8
  }

  function Width(c: Bitfield): nat {
    c.bitLength / 8
  }

  /** The payload bit that carries bit `position` of the container's value. */
  function ContainerBit(c: Bitfield, position: nat): nat
    requires c.bitLength % 8 == 0 && position < c.bitLength
  {
    var index := position / 8;
    var placed := if c.order == BigEndian then Width(c) - 1 - index else index;
    8 * (Start(c) + placed) + position % 8
  }

  function PackedBit(f: Field, bit: nat): nat
    requires Packed(f) && bit < f.bitLength
  {
    ContainerBit(f.container.value, f.bitOffset + bit)
  }

  function PackedWalk(f: Field): (walk: seq<nat>)
    requires Packed(f)
    ensures |walk| == f.bitLength
  {
    seq(f.bitLength, i requires 0 <= i < f.bitLength => PackedBit(f, i))
  }

  function RawBits(raw: nat, width: nat): (bits: seq<bool>)
    ensures |bits| == width
  {
    seq(width, i requires 0 <= i => BitOf(raw, i))
  }

  lemma ContainerBitIsExact(c: Bitfield, left: nat, right: nat)
    requires c.bitLength % 8 == 0 && left < c.bitLength && right < c.bitLength
    ensures Start(c) <= ContainerBit(c, left) / 8 < Start(c) + Width(c)
    ensures ContainerBit(c, left) == ContainerBit(c, right) ==> left == right
  {
  }

  lemma PackedWalkIsExact(f: Field, length: nat)
    requires Packed(f) && Start(f.container.value) + Width(f.container.value) <= length
    ensures Inside(PackedWalk(f), length) && Distinct(PackedWalk(f))
  {
    hide ContainerBit;
    forall i, j | 0 <= i <= j < f.bitLength
      ensures PackedWalk(f)[i] < 8 * length
      ensures i < j ==> PackedWalk(f)[i] != PackedWalk(f)[j]
    {
      ContainerBitIsExact(f.container.value, f.bitOffset + i, f.bitOffset + j);
    }
  }

  /** readPacked as one expression. */
  function PackedValue(payload: seq<byte>, f: Field): nat
    requires Packed(f) && Inside(PackedWalk(f), |payload|)
  {
    FromBits(Gathered(payload, PackedWalk(f)))
  }

  method ReadPacked(payload: seq<byte>, f: Field) returns (raw: nat)
    requires Packed(f) && Inside(PackedWalk(f), |payload|)
    ensures raw == PackedValue(payload, f)
  {
    ghost var bits := Gathered(payload, PackedWalk(f));
    PowZero();
    raw := 0;
    var bit := 0;
    while bit < f.bitLength
      invariant 0 <= bit <= f.bitLength
      invariant raw < Pow2(bit)
      invariant forall k :: 0 <= k < bit ==> BitOf(raw, k) == bits[k]
    {
      hide BitOf;
      hide Pow2;
      var position := PackedBit(f, bit);
      assert PackedWalk(f)[bit] == position;
      AddTopBit(raw, bit);
      if BitOf(payload[position / 8], position % 8) {
        raw := WithBit(raw, bit, true);
      }
      bit := bit + 1;
    }
    FromBitsBits(bits);
    SameBits(raw, PackedValue(payload, f), f.bitLength);
  }

  method WritePacked(payload: array<byte>, f: Field, raw: nat)
    requires Packed(f) && Start(f.container.value) + Width(f.container.value) <= payload.Length
    modifies payload
    ensures Inside(PackedWalk(f), payload.Length)
    ensures Wrote(old(payload[..]), payload[..], PackedWalk(f), RawBits(raw, f.bitLength))
  {
    PackedWalkIsExact(f, payload.Length);
    ghost var (before, walk, bits) := (payload[..], PackedWalk(f), RawBits(raw, f.bitLength));
    WroteNothing(before);
    assert walk[..0] == [] && bits[..0] == [];
    var bit := 0;
    while bit < f.bitLength
      invariant 0 <= bit <= f.bitLength
      invariant Wrote(before, payload[..], walk[..bit], bits[..bit])
    {
      hide Wrote;
      hide SetOne;
      hide BitOf;
      hide ContainerBit;
      hide Packed;
      var position := PackedBit(f, bit);
      assert walk[bit] == position && bits[bit] == BitOf(raw, bit);
      ghost var middle := payload[..];
      SetDataBit(payload, position, BitOf(raw, bit));
      WriteStep(before, middle, payload[..], walk, bits, bit);
      bit := bit + 1;
    }
    assert walk[..bit] == walk && bits[..bit] == bits;
  }

  // ---- The container as one integer --------------------------------------------------------

  function ContainerBytes(payload: seq<byte>, c: Bitfield): seq<byte>
    requires Start(c) + Width(c) <= |payload|
  {
    payload[Start(c)..Start(c) + Width(c)]
  }

  function ContainerValue(payload: seq<byte>, c: Bitfield): nat
    requires Start(c) + Width(c) <= |payload|
  {
    var data := ContainerBytes(payload, c);
    FromLittle(if c.order == BigEndian then Reversed(data) else data)
  }

  lemma {:induction false} ContainerValueBits(payload: seq<byte>, c: Bitfield, position: nat)
    requires c.bitLength % 8 == 0 && position < c.bitLength
    requires Start(c) + Width(c) <= |payload|
    ensures BitOf(ContainerValue(payload, c), position) == DataBit(payload, ContainerBit(c, position))
  {
    hide BitOf;
    hide FromLittle;
    var data := ContainerBytes(payload, c);
    var ordered := if c.order == BigEndian then Reversed(data) else data;
    FromLittleBits(ordered, position);
    var bit := ContainerBit(c, position);
    assert bit % 8 == position % 8;
    assert ordered[position / 8] == payload[bit / 8];
  }

  /** A packed field is the container's value, shifted down by the field's offset and cut to its width. */
  lemma PackedIsShiftedAndMasked(payload: seq<byte>, f: Field)
    requires Packed(f) && Start(f.container.value) + Width(f.container.value) <= |payload|
    ensures Inside(PackedWalk(f), |payload|)
    ensures PackedValue(payload, f)
         == ShiftRight(ContainerValue(payload, f.container.value), f.bitOffset) % Pow2(f.bitLength)
  {
    hide ContainerBit;
    hide ContainerValue;
    PackedWalkIsExact(f, |payload|);
    var c := f.container.value;
    var whole := ContainerValue(payload, c);
    var shifted := ShiftRight(whole, f.bitOffset);
    var bits := Gathered(payload, PackedWalk(f));
    FromBitsBits(bits);
    LowBits(shifted, f.bitLength, 0);
    forall k | 0 <= k < f.bitLength
      ensures BitOf(PackedValue(payload, f), k) == BitOf(shifted % Pow2(f.bitLength), k)
    {
      hide BitOf;
      hide DataBit;
      hide Pow2;
      LowBits(shifted, f.bitLength, k);
      ShiftedBits(whole, f.bitOffset, k);
      ContainerValueBits(payload, c, f.bitOffset + k);
      assert PackedWalk(f)[k] == PackedBit(f, k);
    }
    SameBits(PackedValue(payload, f), shifted % Pow2(f.bitLength), f.bitLength);
  }

  lemma {:induction false} RawBitsValue(raw: nat, width: nat)
    requires raw < Pow2(width)
    ensures FromBits(RawBits(raw, width)) == raw
  {
    FromBitsBits(RawBits(raw, width));
    SameBits(FromBits(RawBits(raw, width)), raw, width);
  }

  /** Writing a packed field puts its value into the container and changes no other bit of the container. */
  lemma PackedRoundTrip(before: seq<byte>, after: seq<byte>, f: Field, raw: nat)
    requires Packed(f) && Start(f.container.value) + Width(f.container.value) <= |before|
    requires raw < Pow2(f.bitLength)
    requires Inside(PackedWalk(f), |before|)
    requires Wrote(before, after, PackedWalk(f), RawBits(raw, f.bitLength))
    ensures PackedValue(after, f) == raw
    ensures var (was, now) := (ContainerValue(before, f.container.value), ContainerValue(after, f.container.value));
      && ShiftRight(now, f.bitOffset) % Pow2(f.bitLength) == raw
      && forall k :: 0 <= k < f.container.value.bitLength && !(f.bitOffset <= k < f.bitOffset + f.bitLength) ==>
           BitOf(now, k) == BitOf(was, k)
  {
    hide ContainerValue;
    hide ContainerBit;
    hide BitOf;
    var c := f.container.value;
    WriteThenGather(before, after, PackedWalk(f), RawBits(raw, f.bitLength));
    RawBitsValue(raw, f.bitLength);
    PackedIsShiftedAndMasked(after, f);
    forall k | 0 <= k < c.bitLength && !(f.bitOffset <= k < f.bitOffset + f.bitLength)
      ensures BitOf(ContainerValue(after, c), k) == BitOf(ContainerValue(before, c), k)
    {
      ContainerValueBits(before, c, k);
      ContainerValueBits(after, c, k);
      NotOnWalk(f, k, |before|);
    }
  }

  lemma NotOnWalk(f: Field, k: nat, length: nat)
    requires Packed(f) && k < f.container.value.bitLength && !(f.bitOffset <= k < f.bitOffset + f.bitLength)
    requires Start(f.container.value) + Width(f.container.value) <= length
    ensures ContainerBit(f.container.value, k) !in PackedWalk(f)
    ensures ContainerBit(f.container.value, k) < 8 * length
  {
    hide ContainerBit;
    var c := f.container.value;
    ContainerBitIsExact(c, k, k);
    forall i | 0 <= i < f.bitLength
      ensures PackedWalk(f)[i] != ContainerBit(c, k)
    {
      ContainerBitIsExact(c, f.bitOffset + i, k);
    }
  }
}

/**
 * Where a DBC signal's bits lie in a payload: the Intel and Motorola walks, writing and reading a raw
 * value along them, and the two-word masks that tell whether two signals share a bit
 * (dbc/codec.go, dbc/resolve.go).
 */
module DbcLayout {
  import opened Wrappers
  import opened Frames
  import opened Bits
  import opened BitWalk

  const UINT32_LIMIT: nat := 0x1_0000_0000

  datatype Range = Range(first: nat, last: nat)

  datatype Condition = Condition(selector: string, ranges: seq<Range>)

  // `scaled` stands for a finite nonzero factor, a finite offset and minimum <= maximum.
  datatype Signal = Signal(
    name: string,
    startBit: nat,
    bitLength: nat,
    littleEndian: bool,
    unsignedInteger: bool,
    scaled: bool,
    isMultiplexer: bool,
    multiplex: Option<Condition>)

  // ---- Walks -----------------------------------------------------------------------------

  // Positions are uint32 in the codec.
  function NextBigEndianBit(bit: nat): nat {
    if bit % 8 == 0 then (bit + 15) % UINT32_LIMIT else bit - 1
  }

  /** The i-th data bit that visitSignalBits, readSignalBits and writeSignalBits touch. */
  function BitAt(s: Signal, i: nat): nat {
    if s.littleEndian then (s.startBit + i) % UINT32_LIMIT
    else if i == 0 then s.startBit
    else NextBigEndianBit(BitAt(s, i - 1))
  }

  /** The value bit that the i-th data bit carries. */
  function ValueIndex(s: Signal, i: nat): nat
    requires i < s.bitLength
  {
    if s.littleEndian then i else s.bitLength - 1 - i
  }

  function Walk(s: Signal): (walk: seq<nat>)
    ensures |walk| == s.bitLength
  {
    seq(s.bitLength, i requires 0 <= i => BitAt(s, i))
  }

  ghost predicate Visits(s: Signal, bit: nat) {
    exists i :: 0 <= i < s.bitLength && BitAt(s, i) == bit
  }

  /** signalAvailable: every bit lies in the payload. */
  predicate Available(s: Signal, payloadLength: nat) {
    Inside(Walk(s), payloadLength)
  }

  // The walk validateSignalLayout takes, on uint64 positions.
  function WideBit(s: Signal, i: nat): nat {
    if s.littleEndian then s.startBit + i
    else if i == 0 then s.startBit
    else WideNext(WideBit(s, i - 1))
  }

  function WideNext(bit: nat): nat {
    if bit % 8 == 0 then bit + 15 else bit - 1
  }

  ghost predicate LaidOut(messageLength: nat, s: Signal) {
    0 < s.bitLength && forall i :: 0 <= i < s.bitLength ==> WideBit(s, i) < 8 * messageLength
  }

  method ValidateSignalLayout(messageLength: nat, s: Signal) returns (ok: bool)
    ensures ok <==> LaidOut(messageLength, s)
  {
    if s.bitLength == 0 {
      return false;
    }
    var messageBits := messageLength * 8;
    if s.littleEndian {
      var end := s.startBit + s.bitLength;
      assert WideBit(s, s.bitLength - 1) == end - 1;
      return end <= messageBits;
    }
    var bit := s.startBit;
    var index := 0;
    while index < s.bitLength
      invariant 0 <= index <= s.bitLength
      invariant index < s.bitLength ==> bit == WideBit(s, index)
      invariant forall i :: 0 <= i < index ==> WideBit(s, i) < messageBits
    {
      if bit >= messageBits {
        return false;
      }
      if index + 1 == s.bitLength {
        break;
      }
      bit := WideNext(bit);
      index := index + 1;
    }
    return true;
  }

  // A Motorola walk moves one step at a time through bytes read from their most significant bit.
  function Linear(bit: nat): nat {
    bit / 8 * 8 + (7 - bit % 8)
  }

  lemma LinearStep(bit: nat)
    ensures Linear(WideNext(bit)) == Linear(bit) + 1
  {
  }

  lemma {:induction false} WideBitIsLinear(s: Signal, i: nat)
    requires !s.littleEndian
    ensures Linear(WideBit(s, i)) == Linear(s.startBit) + i
  {
    hide Linear;
    if i > 0 {
      WideBitIsLinear(s, i - 1);
      LinearStep(WideBit(s, i - 1));
    }
  }

  lemma {:induction false} WideBitIsInjective(s: Signal, i: nat, j: nat)
    requires WideBit(s, i) == WideBit(s, j)
    ensures i == j
  {
    if !s.littleEndian {
      WideBitIsLinear(s, i);
      WideBitIsLinear(s, j);
    }
  }

  /** While every position fits 32 bits, the codec walks the bits that were laid out, each once. */
  lemma {:induction false} BitAtIsWide(messageLength: nat, s: Signal, i: nat)
    requires LaidOut(messageLength, s) && 8 * messageLength <= UINT32_LIMIT && i < s.bitLength
    ensures BitAt(s, i) == WideBit(s, i) < 8 * messageLength
  {
    hide WideNext;
    hide NextBigEndianBit;
    assert WideBit(s, i) < 8 * messageLength;
    if !s.littleEndian && i > 0 {
      BitAtIsWide(messageLength, s, i - 1);
      NextIsWide(WideBit(s, i - 1));
    }
  }

  ghost predicate Placed(s: Signal, payloadLength: nat) {
    && 8 * payloadLength <= UINT32_LIMIT
    && LaidOut(payloadLength, s)
  }

  lemma PlacedIsAvailable(s: Signal, payloadLength: nat)
    requires Placed(s, payloadLength)
    ensures Available(s, payloadLength) && Distinct(Walk(s))
  {
    forall i | 0 <= i < s.bitLength
      ensures BitAt(s, i) == WideBit(s, i) < 8 * payloadLength
    {
      BitAtIsWide(payloadLength, s, i);
    }
    forall i, j | 0 <= i < j < s.bitLength
      ensures Walk(s)[i] != Walk(s)[j]
    {
      if WideBit(s, i) == WideBit(s, j) {
        WideBitIsInjective(s, i, j);
      }
    }
  }

  lemma BitAtNext(s: Signal, i: nat)
    ensures s.littleEndian ==> BitAt(s, i) == (s.startBit + i) % UINT32_LIMIT
    ensures !s.littleEndian ==> BitAt(s, 0) == s.startBit && BitAt(s, i + 1) == NextBigEndianBit(BitAt(s, i))
  {
  }

  // ---- Writing and reading ---------------------------------------------------------------

  /** The bits of a raw value in the order of the walk. */
  function Carried(s: Signal, value: nat): (bits: seq<bool>)
    ensures |bits| == s.bitLength
  {
    seq(s.bitLength, i requires 0 <= i < s.bitLength => BitOf(value, ValueIndex(s, i)))
  }

  method WriteSignalBits(data: array<byte>, s: Signal, value: nat)
    requires Placed(s, data.Length)
    modifies data
    ensures Available(s, data.Length)
    ensures Wrote(old(data[..]), data[..], Walk(s), Carried(s, value))
  {
    PlacedIsAvailable(s, data.Length);
    ghost var (before, walk, bits) := (data[..], Walk(s), Carried(s, value));
    WroteNothing(before);
    BitAtNext(s, 0);
    assert walk[..0] == [] && bits[..0] == [];
    var next := s.startBit;
    var index := 0;
    while index < s.bitLength
      invariant 0 <= index <= s.bitLength
      invariant !s.littleEndian ==> next == BitAt(s, index)
      invariant Wrote(before, data[..], walk[..index], bits[..index])
    {
      hide Wrote;
      hide BitAt;
      hide BitOf;
      hide Placed;
      hide SetOne;
      BitAtNext(s, index);
      var dataBit := if s.littleEndian then (s.startBit + index) % UINT32_LIMIT else next;
      var shift := if s.littleEndian then index else s.bitLength - 1 - index;
      assert walk[index] == BitAt(s, index) == dataBit && bits[index] == BitOf(value, shift);
      ghost var middle := data[..];
      SetDataBit(data, dataBit, BitOf(value, shift));
      WriteStep(before, middle, data[..], walk, bits, index);
      next := NextBigEndianBit(dataBit);
      index := index + 1;
    }
    assert walk[..index] == walk && bits[..index] == bits;
  }

  /** The raw value a payload holds for a signal. */
  function RawValue(data: seq<byte>, s: Signal): nat
    requires Available(s, |data|)
  {
    FromWalk(s, Gathered(data, Walk(s)))
  }

  function FromWalk(s: Signal, bits: seq<bool>): nat
    requires |bits| == s.bitLength
  {
    FromBits(seq(s.bitLength, k requires 0 <= k < s.bitLength => bits[ValueIndex(s, k)]))
  }

  lemma FromWalkBits(s: Signal, bits: seq<bool>)
    requires |bits| == s.bitLength
    ensures FromWalk(s, bits) < Pow2(s.bitLength)
    ensures forall k :: 0 <= k < s.bitLength ==> BitOf(FromWalk(s, bits), k) == bits[ValueIndex(s, k)]
  {
    FromBitsBits(seq(s.bitLength, k requires 0 <= k < s.bitLength => bits[ValueIndex(s, k)]));
  }

  /** Reading along a walk undoes writing along it, for every value of the signal's width. */
  lemma CarriedValue(s: Signal, value: nat)
    requires value < Pow2(s.bitLength)
    ensures FromWalk(s, Carried(s, value)) == value
  {
    FromWalkBits(s, Carried(s, value));
    SameBits(FromWalk(s, Carried(s, value)), value, s.bitLength);
  }

  method ReadSignalBits(data: array<byte>, s: Signal) returns (value: nat)
    requires Available(s, data.Length)
    ensures value == RawValue(data[..], s)
  {
    if s.littleEndian {
      value := ReadLittleEndian(data, s);
    } else {
      value := ReadBigEndian(data, s);
    }
  }

  // value |= 1 << valueBit
  method ReadLittleEndian(data: array<byte>, s: Signal) returns (value: nat)
    requires Available(s, data.Length) && s.littleEndian
    ensures value == RawValue(data[..], s)
  {
    ghost var bits := Gathered(data[..], Walk(s));
    PowZero();
    value := 0;
    var index := 0;
    while index < s.bitLength
      invariant 0 <= index <= s.bitLength
      invariant value < Pow2(index)
      invariant forall k :: 0 <= k < index ==> BitOf(value, k) == bits[k]
    {
      hide BitAt;
      hide BitOf;
      hide Pow2;
      BitAtNext(s, index);
      var dataBit := (s.startBit + index) % UINT32_LIMIT;
      assert Walk(s)[index] == dataBit;
      AddTopBit(value, index);
      if BitOf(data[dataBit / 8], dataBit % 8) {
        value := WithBit(value, index, true);
      }
      index := index + 1;
    }
    FromWalkBits(s, bits);
    SameBits(value, RawValue(data[..], s), s.bitLength);
  }

  // value <<= 1; value |= 1
  method ReadBigEndian(data: array<byte>, s: Signal) returns (value: nat)
    requires Available(s, data.Length) && !s.littleEndian
    ensures value == RawValue(data[..], s)
  {
    ghost var bits := Gathered(data[..], Walk(s));
    PowZero();
    BitAtNext(s, 0);
    value := 0;
    var dataBit := s.startBit;
    var index := 0;
    while index < s.bitLength
      invariant 0 <= index <= s.bitLength
      invariant dataBit == BitAt(s, index)
      invariant value < Pow2(index)
      invariant forall k :: 0 <= k < index ==> BitOf(value, k) == bits[index - 1 - k]
    {
      hide BitAt;
      hide NextBigEndianBit;
      hide BitOf;
      hide Pow2;
      assert Walk(s)[index] == dataBit;
      var bit := BitOf(data[dataBit / 8], dataBit % 8);
      ShiftIn(value, index, bit);
      BitAtNext(s, index);
      value := 2 * value + (if bit then 1 else 0);
      dataBit := NextBigEndianBit(dataBit);
      index := index + 1;
    }
    FromWalkBits(s, bits);
    SameBits(value, RawValue(data[..], s), s.bitLength);
  }

  lemma ShiftIn(value: nat, width: nat, bit: bool)
    requires value < Pow2(width)
    ensures var next := 2 * value + (if bit then 1 else 0);
      && next < Pow2(width + 1) && BitOf(next, 0) == bit
      && forall k :: 0 < k <= width ==> BitOf(next, k) == BitOf(value, k - 1)
  {
    var next := 2 * value + (if bit then 1 else 0);
    assert next / 2 == value;
  }

  ghost predicate SharesBit(left: Signal, right: Signal) {
    exists bit :: Visits(left, bit) && Visits(right, bit)
  }

  lemma ApartIsDisjoint(left: Signal, right: Signal)
    requires !SharesBit(left, right)
    ensures Disjoint(Walk(left), Walk(right))
  {
    forall bit | bit in Walk(left)
      ensures bit !in Walk(right)
    {
      assert Visits(left, bit);
      assert bit in Walk(right) ==> Visits(right, bit);
    }
  }

  // ---- The overlap masks -----------------------------------------------------------------

  datatype SignalMask = SignalMask(first: nat, low: nat, high: nat)

  // The walk of a signal moved into the first two 64-bit words.
  function Relative(s: Signal): Signal {
    s.(startBit := s.startBit % 64)
  }

  ghost predicate IsMask(s: Signal, m: SignalMask) {
    && m.first == s.startBit / 64
    && (forall b :: 0 <= b < 64 ==> (BitOf(m.low, b) <==> Visits(Relative(s), b)))
    && (forall b :: 0 <= b < 64 ==> (BitOf(m.high, b) <==> Visits(Relative(s), 64 + b)))
    && m.low < Pow2(64) && m.high < Pow2(64)
  }

  lemma LinearBound(bit: nat)
    requires Linear(bit) < 127
    ensures bit < 128
  {
  }

  lemma NextIsWide(bit: nat)
    requires WideNext(bit) < UINT32_LIMIT
    ensures NextBigEndianBit(bit) == WideNext(bit)
  {
  }

  lemma WideNextShifts(word: nat, bit: nat)
    ensures WideNext(64 * word + bit) == 64 * word + WideNext(bit)
  {
    assert 64 * word + bit == 8 * (8 * word) + bit;
  }

  /** A signal of at most 64 bits, moved to start in the first word, never leaves the first two. */
  lemma {:induction false} RelativeFits(s: Signal, i: nat)
    requires s.bitLength <= 64 && i < s.bitLength
    ensures WideBit(Relative(s), i) < 128
  {
    if !s.littleEndian {
      hide WideBit;
      WideBitIsLinear(Relative(s), i);
      LinearBound(WideBit(Relative(s), i));
    }
  }

  lemma {:induction false} RelativeSteps(s: Signal, i: nat)
    requires s.bitLength <= 64 && i < s.bitLength
    ensures BitAt(Relative(s), i) == WideBit(Relative(s), i) < 128
    ensures WideBit(s, i) == 64 * (s.startBit / 64) + WideBit(Relative(s), i)
  {
    hide WideNext;
    hide NextBigEndianBit;
    RelativeFits(s, i);
    if !s.littleEndian && i > 0 {
      RelativeSteps(s, i - 1);
      NextIsWide(WideBit(Relative(s), i - 1));
      WideNextShifts(s.startBit / 64, WideBit(Relative(s), i - 1));
    }
  }

  ghost predicate Touched(s: Signal, count: nat, bit: nat) {
    exists i :: 0 <= i < count && BitAt(s, i) == bit
  }

  method MaskOf(s: Signal) returns (m: SignalMask)
    requires s.bitLength <= 64
    ensures IsMask(s, m)
  {
    hide BitAt;
    hide NextBigEndianBit;
    hide BitOf;
    hide Pow2;
    var relative := Relative(s);
    var words := new nat[2](_ => 0);
    BitAtNext(relative, 0);
    NoBits();
    var next := relative.startBit;
    var index := 0;
    while index < s.bitLength
      invariant 0 <= index <= s.bitLength && words.Length == 2
      invariant !s.littleEndian ==> next == BitAt(relative, index)
      invariant words[0] < Pow2(64) && words[1] < Pow2(64)
      invariant forall b :: 0 <= b < 64 ==> (BitOf(words[0], b) <==> Touched(relative, index, b))
      invariant forall b :: 0 <= b < 64 ==> (BitOf(words[1], b) <==> Touched(relative, index, 64 + b))
    {
      BitAtNext(relative, index);
      var bit := if s.littleEndian then (relative.startBit + index) % UINT32_LIMIT else next;
      assert bit == BitAt(relative, index);
      RelativeSteps(s, index);
      SetWordBit(words[bit / 64], bit % 64);
      words[bit / 64] := WithBit(words[bit / 64], bit % 64, true);
      forall b | 0 <= b < 128
        ensures Touched(relative, index + 1, b) <==> Touched(relative, index, b) || b == bit
      {
      }
      next := NextBigEndianBit(bit);
      index := index + 1;
    }
    m := SignalMask(s.startBit / 64, words[0], words[1]);
    forall b | 0 <= b < 128
      ensures Touched(relative, s.bitLength, b) <==> Visits(relative, b)
    {
    }
  }

  lemma NoBits()
    ensures 0 < Pow2(64) && forall b :: 0 <= b < 64 ==> !BitOf(0, b)
  {
    forall b | 0 <= b < 64
      ensures !BitOf(0, b)
    {
      HighBitsClear(0, 0, b);
    }
  }

  lemma {:induction false} SetWordBit(word: nat, k: nat)
    requires word < Pow2(64) && k < 64
    ensures WithBit(word, k, true) < Pow2(64)
    ensures forall b :: 0 <= b < 64 ==> BitOf(WithBit(word, k, true), b) == (b == k || BitOf(word, b))
  {
    WithBitFits(word, k, true, 64);
    forall b | 0 <= b < 64
      ensures BitOf(WithBit(word, k, true), b) == (b == k || BitOf(word, b))
    {
      WithBitBits(word, k, true, b);
    }
  }

  /** The comparison validateOverlaps makes, on the masks in order of their word offset. */
  predicate MasksOverlap(left: SignalMask, right: SignalMask) {
    var (a, b) := if left.first > right.first then (right, left) else (left, right);
    var distance := b.first - a.first;
    || (distance == 0 && (And(a.low, b.low) != 0 || And(a.high, b.high) != 0))
    || (distance == 1 && And(a.high, b.low) != 0)
  }

  // The data bits a mask stands for: 128 of them, from its first word on.
  ghost predicate Covers(m: SignalMask, bit: nat) {
    var r := bit - 64 * m.first;
    (0 <= r < 64 && BitOf(m.low, r)) || (64 <= r < 128 && BitOf(m.high, r - 64))
  }

  lemma VisitsByMask(s: Signal, m: SignalMask, payloadLength: nat, bit: nat)
    requires Placed(s, payloadLength) && s.bitLength <= 64 && IsMask(s, m)
    ensures Visits(s, bit) <==> Covers(m, bit)
  {
    hide BitOf;
    hide BitAt;
    hide WideBit;
    hide Pow2;
    var relative := Relative(s);
    if Visits(s, bit) {
      var i :| 0 <= i < s.bitLength && BitAt(s, i) == bit;
      BitAtIsWide(payloadLength, s, i);
      RelativeSteps(s, i);
      assert Visits(relative, BitAt(relative, i));
    }
    var r := bit - 64 * m.first;
    if Covers(m, bit) {
      assert 64 <= r ==> Visits(relative, 64 + (r - 64));
      assert Visits(relative, r);
      var i :| 0 <= i < s.bitLength && BitAt(relative, i) == r;
      BitAtIsWide(payloadLength, s, i);
      RelativeSteps(s, i);
    }
  }

  lemma {:induction false} SharedMaskBits(left: nat, right: nat)
    requires left < Pow2(64) && right < Pow2(64)
    ensures And(left, right) != 0 <==> exists k :: 0 <= k < 64 && BitOf(left, k) && BitOf(right, k)
  {
    AndIsShared(left, right);
    forall k | k >= 64
      ensures !BitOf(left, k)
    {
      HighBitsClear(left, 64, k);
    }
  }

  lemma OrderedMasks(a: SignalMask, b: SignalMask)
    requires a.first <= b.first
    requires a.low < Pow2(64) && a.high < Pow2(64) && b.low < Pow2(64) && b.high < Pow2(64)
    ensures MasksOverlap(a, b) <==> exists bit: nat :: Covers(a, bit) && Covers(b, bit)
  {
    hide BitOf;
    hide And;
    hide Pow2;
    var distance := b.first - a.first;
    if MasksOverlap(a, b) {
      SharedMaskBits(a.low, b.low);
      SharedMaskBits(a.high, b.high);
      SharedMaskBits(a.high, b.low);
      var bit: nat;
      if distance == 1 {
        var k :| 0 <= k < 64 && BitOf(a.high, k) && BitOf(b.low, k);
        bit := 64 * b.first + k;
      } else if And(a.low, b.low) != 0 {
        var k :| 0 <= k < 64 && BitOf(a.low, k) && BitOf(b.low, k);
        bit := 64 * b.first + k;
      } else {
        var k :| 0 <= k < 64 && BitOf(a.high, k) && BitOf(b.high, k);
        bit := 64 * b.first + 64 + k;
      }
      assert Covers(a, bit) && Covers(b, bit);
    }
    forall bit: nat | Covers(a, bit) && Covers(b, bit)
      ensures MasksOverlap(a, b)
    {
      var r := bit - 64 * b.first;
      if distance == 1 {
        SharedBit(a.high, b.low, r);
      } else if r < 64 {
        SharedBit(a.low, b.low, r);
      } else {
        SharedBit(a.high, b.high, r - 64);
      }
    }
  }

  lemma {:induction false} SharedBit(left: nat, right: nat, k: nat)
    requires BitOf(left, k) && BitOf(right, k)
    ensures And(left, right) != 0
  {
    hide BitOf;
    hide And;
    AndIsShared(left, right);
  }

  /** The masks overlap exactly when the two walks share a data bit, whatever their byte orders. */
  lemma MasksAreExact(left: Signal, right: Signal, leftMask: SignalMask, rightMask: SignalMask, payloadLength: nat)
    requires Placed(left, payloadLength) && left.bitLength <= 64 && IsMask(left, leftMask)
    requires Placed(right, payloadLength) && right.bitLength <= 64 && IsMask(right, rightMask)
    ensures MasksOverlap(leftMask, rightMask) <==> SharesBit(left, right)
  {
    forall bit: nat
      ensures Visits(left, bit) <==> Covers(leftMask, bit)
      ensures Visits(right, bit) <==> Covers(rightMask, bit)
    {
      VisitsByMask(left, leftMask, payloadLength, bit);
      VisitsByMask(right, rightMask, payloadLength, bit);
    }
    hide BitOf;
    hide And;
    hide Visits;
    hide Covers;
    hide Pow2;
    if leftMask.first > rightMask.first {
      OrderedMasks(rightMask, leftMask);
      assert MasksOverlap(leftMask, rightMask) == MasksOverlap(rightMask, leftMask);
    } else {
      OrderedMasks(leftMask, rightMask);
    }
  }
}

/** Encode and Decode are inverse to each other. */
module CddRoundTrip {
  import opened Wrappers
  import opened Frames
  import opened Bits
  import opened BitWalk
  import opened Bytes
  import opened CddModel
  import opened CddBitfield
  import opened CddRaw
  import opened CddCodec
  import Layout = CddLayout

  // ---- Encode, then Decode ---------------------------------------------------------------------

  lemma ElementsAreUnique(f: Field, data: seq<byte>, raws: seq<nat>)
    requires Codable(f) && f.container.None? && HasElements(f, data, raws)
    ensures Elements(f, data) == raws
  {
    hide Codable;
    hide ReadRaw;
    QuotientIs(|data|, ElementBytes(f), |raws|, 0);
  }

  lemma HeldIsRead(f: Field, payload: seq<byte>, values: seq<int>)
    requires Codable(f) && FieldAccepts(f, values) && FieldHolds(f, payload, Raws(f, values))
    ensures FieldReadable(f, payload) && FieldValues(f, payload) == values
  {
    var raws := Raws(f, values);
    assert FieldRaws(f, payload) == raws by {
      if f.container.None? {
        ElementsAreUnique(f, payload[First(f)..End(f, |payload|)], raws);
      }
    }
    hide FieldRaws;
    hide FieldHolds;
    forall i | 0 <= i < |values|
      ensures Readable(f, raws[i]) && DecodeValue(f, raws[i]) == values[i]
    {
      hide Readable;
      hide DecodeValue;
      hide EncodeScalar;
      ScalarRoundTrip(f, values[i]);
    }
  }

  lemma EncodedLengthFits(record: Record, bits: nat, values: map<string, seq<int>>, payload: seq<byte>)
    requires Layout.Spans(record, bits) && Usable(record.fields) && Encodes(record.fields, values)
    requires Encoded(record, values, payload)
    ensures LengthFits(record, |payload|)
  {
    if VariableRecord(record) {
      var n := |record.fields| - 1;
      FieldsFit(record, bits, n);
      var f := record.fields[n];
      var raws := Raws(f, values[f.name]);
      assert FieldHolds(f, payload, raws);
      assert |payload| == ElementsEnd(f, |raws|);
    }
  }

  /** Decoding an encoded record returns exactly the values that were encoded. */
  lemma EncodeThenDecode(record: Record, bits: nat, values: map<string, seq<int>>, payload: seq<byte>)
    requires Layout.Spans(record, bits) && Usable(record.fields) && Encodes(record.fields, values)
    requires Encoded(record, values, payload)
    ensures LengthFits(record, |payload|) && AllFit(record, |payload|)
    ensures ReadableUpTo(record, |record.fields|, payload)
    ensures DecodedUpTo(record, |record.fields|, payload, values)
  {
    EncodedLengthFits(record, bits, values, payload);
    forall i | 0 <= i < |record.fields|
      ensures Fits(record.fields[i], |payload|)
      ensures FieldReadable(record.fields[i], payload)
      ensures FieldValues(record.fields[i], payload) == values[record.fields[i].name]
    {
      var f := record.fields[i];
      assert Codable(f) && FieldHolds(f, payload, Raws(f, values[f.name]));
      HeldIsRead(f, payload, values[f.name]);
    }
    hide FieldValues;
    hide FieldReadable;
    assert record.fields[..|record.fields|] == record.fields;
  }

  // ---- Decode, then Encode ---------------------------------------------------------------------

  predicate FiniteRaws(f: Field, raws: seq<nat>) {
    f.encoding in {Float, Double} ==> forall k :: 0 <= k < |raws| ==> Finite(raws[k], f.bitLength)
  }

  lemma RawsFitWidth(f: Field, payload: seq<byte>)
    requires Fits(f, |payload|)
    ensures forall k :: 0 <= k < |FieldRaws(f, payload)| ==> FieldRaws(f, payload)[k] < Pow2(f.bitLength)
  {
    hide ReadRaw;
    hide Pow2;
    if f.container.Some? {
      PackedWalkIsExact(f, |payload|);
      FromBitsBits(Gathered(payload, PackedWalk(f)));
    } else {
      var (data, size) := (payload[First(f)..End(f, |payload|)], ElementBytes(f));
      forall k | 0 <= k < |data| / size
        ensures Elements(f, data)[k] < Pow2(f.bitLength)
      {
        WholePiece(data, k, size);
        BytesRoundTrip(Piece(data, k, size), f.order);
      }
    }
  }

  lemma RawsHaveValidCount(record: Record, bits: nat, i: nat, payload: seq<byte>)
    requires Layout.Spans(record, bits) && Usable(record.fields) && LengthFits(record, |payload|)
    requires i < |record.fields| && Fits(record.fields[i], |payload|)
    ensures ValidCount(record.fields[i], |FieldRaws(record.fields[i], payload)|)
  {
    hide Layout.Tidy;
    FieldsFit(record, bits, i);
    hide Usable;
    var f := record.fields[i];
    if f.container.Some? {
      assert Layout.IsChild(f);
    } else if f.variable.None? {
      SizeInBytes(f);
      QuotientIs(f.count * ElementBytes(f), ElementBytes(f), f.count, 0);
    } else {
      var count: nat :| ValidCount(f, count) && |payload| == ElementsEnd(f, count);
      VariableReadLength(f, payload, count);
    }
  }

  // The raw values that a field's decoded values encode to are the ones they were decoded from.
  lemma ReadIsAccepted(f: Field, payload: seq<byte>)
    requires Fits(f, |payload|) && FieldReadable(f, payload) && ValidCount(f, |FieldRaws(f, payload)|)
    ensures FieldAccepts(f, FieldValues(f, payload)) <==> FiniteRaws(f, FieldRaws(f, payload))
    ensures FieldAccepts(f, FieldValues(f, payload)) ==> Raws(f, FieldValues(f, payload)) == FieldRaws(f, payload)
  {
    RawsFitWidth(f, payload);
    var (raws, values) := (FieldRaws(f, payload), FieldValues(f, payload));
    assert forall k :: 0 <= k < |values| ==> values[k] == DecodeValue(f, raws[k]);
    assert AllReadable(f, raws);
    hide FieldRaws;
    hide FieldValues;
    hide EncodeScalar;
    hide DecodeValue;
    hide Readable;
    hide Finite;
    hide Pow2;
    forall k | 0 <= k < |raws|
      ensures EncodeScalar(f, values[k])
           == if f.encoding in {Float, Double} && !Finite(raws[k], f.bitLength) then Err(NotFinite) else Ok(raws[k])
    {
      ReadScalarRoundTrip(f, raws[k]);
    }
    if AllEncode(f, values) {
      forall k | 0 <= k < |raws|
        ensures f.encoding in {Float, Double} ==> Finite(raws[k], f.bitLength)
      {
        assert EncodeScalar(f, values[k]).Ok?;
      }
    }
  }

  ghost predicate AllFinite(record: Record, payload: seq<byte>)
    requires AllFit(record, |payload|)
  {
    forall i :: 0 <= i < |record.fields| ==> FiniteRaws(record.fields[i], FieldRaws(record.fields[i], payload))
  }

  /** What was decoded can be encoded again exactly when no floating-point element is infinite or NaN. */
  lemma DecodeThenEncode(record: Record, bits: nat, payload: seq<byte>, values: map<string, seq<int>>)
    requires Layout.Spans(record, bits) && Usable(record.fields)
    requires LengthFits(record, |payload|) && AllFit(record, |payload|)
    requires ReadableUpTo(record, |record.fields|, payload)
    requires DecodedUpTo(record, |record.fields|, payload, values)
    ensures Encodes(record.fields, values) <==> AllFinite(record, payload)
  {
    var fields := record.fields;
    assert fields[..|fields|] == fields;
    forall i | 0 <= i < |fields|
      ensures Codable(fields[i]) && fields[i].name in values
      ensures FieldAccepts(fields[i], values[fields[i].name]) <==> FiniteRaws(fields[i], FieldRaws(fields[i], payload))
    {
      RawsHaveValidCount(record, bits, i, payload);
      assert FieldReadable(fields[i], payload);
      hide FieldReadable;
      hide FieldRaws;
      hide FieldValues;
      ReadIsAccepted(fields[i], payload);
    }
    hide FieldAccepts;
    hide FiniteRaws;
    hide FieldRaws;
    hide FieldValues;
    hide Codable;
  }

  // ---- A payload that reads but does not write -------------------------------------------------

  function FloatField(name: string): Field {
    Field(name, 0, 32, 1, None, BigEndian, Encoding.Float, None, None)
  }

  // A record of one 32-bit floating-point number, and the four bytes of positive infinity.
  function FloatRecord(name: string): Record {
    Record(4, 4, [FloatField(name)])
  }

  const INFINITY: seq<byte> := [0x7f, 0x80, 0, 0]
  const INFINITE: nat := 0x7f80_0000

  lemma InfinityReads(source: seq<byte>)
    requires source == INFINITY
    ensures ReadRaw(source, BigEndian) == INFINITE
  {
    ReadRawValue(source, BigEndian);
    var r0 := Reversed(source);
    assert r0 == [0, 0, 0x80, 0x7f];
    assert r0[1..] == [0, 0x80, 0x7f] && r0[1..][1..] == [0x80, 0x7f] && r0[1..][1..][1..] == [0x7f];
    assert FromLittle(r0[1..][1..][1..]) == 0x7f;
    assert FromLittle(r0[1..][1..]) == 0x80 + 256 * 0x7f;
    assert FromLittle(r0[1..]) == 256 * (0x80 + 256 * 0x7f);
  }

  lemma FloatFieldFits(name: string)
    ensures Fits(FloatField(name), 4)
    ensures FieldRaws(FloatField(name), INFINITY) == [INFINITE]
  {
    var f := FloatField(name);
    assert Fits(f, 4);
    var data := INFINITY[First(f)..End(f, 4)];
    assert data == INFINITY;
    assert Piece(data, 0, 4) == INFINITY;
    InfinityReads(Piece(data, 0, 4));
    hide ReadRaw;
    assert Elements(f, data) == [INFINITE];
  }

  lemma FloatRecordIsUsable(name: string)
    ensures Layout.Spans(FloatRecord(name), 32) && Usable(FloatRecord(name).fields)
    ensures Names(FloatRecord(name).fields) == {name} && LengthFits(FloatRecord(name), 4) && AllFit(FloatRecord(name), 4)
  {
    FloatFieldFits(name);
    hide FieldRaws;
    assert FloatRecord(name).fields[0] == FloatField(name);
  }

  lemma InfinityIsRefused(name: string)
    ensures Codable(FloatField(name)) && Readable(FloatField(name), INFINITE) && DecodeValue(FloatField(name), INFINITE) == INFINITE
    ensures EncodeScalar(FloatField(name), INFINITE) == Err(NotFinite)
  {
    Pow2Of32();
    ReadScalarRoundTrip(FloatField(name), INFINITE);
  }

  /** Positive infinity decodes; the value it decodes to cannot be encoded. */
  lemma InfinityIsReadOnly(name: string)
    ensures var (record, f, values) := (FloatRecord(name), FloatField(name), map[name := [INFINITE]]);
      && Layout.Spans(record, 32) && Usable(record.fields)
      && LengthFits(record, 4) && AllFit(record, 4) && ReadableUpTo(record, 1, INFINITY)
      && DecodedUpTo(record, 1, INFINITY, values)
      && !Encodes(record.fields, values) && EncodeScalar(f, INFINITE) == Err(NotFinite)
  {
    var (record, f, values) := (FloatRecord(name), FloatField(name), map[name := [INFINITE]]);
    FloatRecordIsUsable(name);
    FloatFieldFits(name);
    InfinityIsRefused(name);
    hide FieldRaws;
    hide EncodeScalar;
    hide Readable;
    hide DecodeValue;
    hide Codable;
    hide Fits;
    hide Layout.Spans;
    hide LengthFits;
    assert record.fields[0] == f && record.fields[..1] == record.fields;
    assert FieldReadable(f, INFINITY) && FieldValues(f, INFINITY) == [INFINITE];
    assert values[name][0] == INFINITE && !FieldAccepts(f, values[name]);
  }

  lemma Pow2Of32()
    ensures Pow2(32) == 0x1_0000_0000
  {
    assert Pow2(8) == 0x100;
    assert Pow2(16) == 0x1_0000;
    assert Pow2(24) == 0x100_0000;
  }

  // ---- The bits that carry a value ---------------------------------------------------------------

  lemma SameRawsSameBits(f: Field, left: seq<byte>, right: seq<byte>, bit: nat)
    requires |left| == |right| && Fits(f, |left|) && FieldRaws(f, left) == FieldRaws(f, right)
    requires f.container.None? ==> (End(f, |left|) - First(f)) % ElementBytes(f) == 0
    requires bit < 8 * |left| && Occupies(f, bit)
    ensures DataBit(left, bit) == DataBit(right, bit)
  {
    hide FieldRaws;
    hide BitOf;
    hide Codable;
    if f.container.Some? {
      SamePackedBit(f, left, right, bit);
    } else {
      ByteOfBit(f, |left|, bit);
      SameElementByte(f, left, right, bit / 8);
    }
  }

  lemma ByteOfBit(f: Field, length: nat, bit: nat)
    requires Fits(f, length) && f.container.None? && bit < 8 * length && Occupies(f, bit)
    ensures First(f) <= bit / 8 < End(f, length)
  {
    SizeInBytes(f);
    hide Layout.WellFormed;
    hide Field.BitSize;
  }

  lemma SamePackedBit(f: Field, left: seq<byte>, right: seq<byte>, bit: nat)
    requires |left| == |right| && Fits(f, |left|) && f.container.Some? && FieldRaws(f, left) == FieldRaws(f, right)
    requires bit in PackedWalk(f)
    ensures bit < 8 * |left| && DataBit(left, bit) == DataBit(right, bit)
  {
    hide PackedBit;
    PackedWalkIsExact(f, |left|);
    var (walk, i) := (PackedWalk(f), IndexOf(PackedWalk(f), bit));
    FromBitsBits(Gathered(left, walk));
    FromBitsBits(Gathered(right, walk));
    assert FieldRaws(f, left)[0] == FieldRaws(f, right)[0];
    assert Gathered(left, walk)[i] == Gathered(right, walk)[i];
  }

  function IndexOf(s: seq<nat>, x: nat): (i: nat)
    requires x in s
    ensures i < |s| && s[i] == x
  {
    if s[0] == x then 0 else 1 + IndexOf(s[1..], x)
  }

  lemma SameElementByte(f: Field, left: seq<byte>, right: seq<byte>, i: nat)
    requires |left| == |right| && Fits(f, |left|) && f.container.None? && FieldRaws(f, left) == FieldRaws(f, right)
    requires (End(f, |left|) - First(f)) % ElementBytes(f) == 0
    requires First(f) <= i < End(f, |left|)
    ensures left[i] == right[i]
  {
    hide Elements;
    var (first, end) := (First(f), End(f, |left|));
    SameElements(f, left[first..end], right[first..end], i - first);
  }

  lemma SameElements(f: Field, a: seq<byte>, b: seq<byte>, j: nat)
    requires Codable(f) && f.container.None? && |a| == |b| && |a| % ElementBytes(f) == 0
    requires Elements(f, a) == Elements(f, b) && j < |a|
    ensures a[j] == b[j]
  {
    hide ReadRaw;
    hide WriteRaw;
    hide Codable;
    hide Piece;
    var size := ElementBytes(f);
    var k := j / size;
    ElementOfByte(|a|, size, j);
    WholePiece(a, k, size);
    WholePiece(b, k, size);
    assert Element(f, a, k) == Elements(f, a)[k] == Elements(f, b)[k] == Element(f, b, k);
    BytesRoundTrip(Piece(a, k, size), f.order);
    BytesRoundTrip(Piece(b, k, size), f.order);
    PieceByte(a, k, size, j % size);
    PieceByte(b, k, size, j % size);
  }

  lemma PieceByte(data: seq<byte>, k: nat, size: nat, j: nat)
    requires (k + 1) * size <= |data| && j < size
    ensures k * size + j < |data| && Piece(data, k, size)[j] == data[k * size + j]
  {
    assert (k + 1) * size == k * size + size;
  }

  lemma ElementOfByte(length: nat, size: nat, offset: nat)
    requires size > 0 && length % size == 0 && offset < length
    ensures offset / size < length / size
    ensures offset == offset / size * size + offset % size
  {
    assert length == length / size * size;
    var (piece, count) := (offset / size, length / size);
    assert piece >= count ==> piece * size >= count * size;
  }

  lemma DecodedLengthIsUnique(
      record: Record, bits: nat, payload: seq<byte>, values: map<string, seq<int>>, again: seq<byte>)
    requires Layout.Spans(record, bits) && Usable(record.fields)
    requires LengthFits(record, |payload|) && AllFit(record, |payload|)
    requires DecodedUpTo(record, |record.fields|, payload, values)
    requires Encodes(record.fields, values) && Encoded(record, values, again)
    ensures |again| == |payload|
  {
    if VariableRecord(record) {
      var n := |record.fields| - 1;
      var f := record.fields[n];
      FieldsFit(record, bits, n);
      assert Codable(f) && FieldHolds(f, again, Raws(f, values[f.name]));
      assert f.name in values && values[f.name] == FieldValues(f, payload);
      var count: nat :| ValidCount(f, count) && |payload| == ElementsEnd(f, count);
      hide Layout.Spans;
      hide Usable;
      hide Encoded;
      hide Encodes;
      hide DecodedUpTo;
      VariableReadLength(f, payload, count);
      VariableHeldLength(f, again, Raws(f, values[f.name]));
    }
  }

  lemma VariableHeldLength(f: Field, payload: seq<byte>, raws: seq<nat>)
    requires FieldHolds(f, payload, raws) && f.variable.Some?
    ensures |payload| == ElementsEnd(f, |raws|)
  {
  }

  lemma VariableReadLength(f: Field, payload: seq<byte>, count: nat)
    requires Fits(f, |payload|) && f.variable.Some? && |payload| == ElementsEnd(f, count)
    ensures |FieldRaws(f, payload)| == count
  {
    QuotientIs(count * ElementBytes(f), ElementBytes(f), count, 0);
  }

  // The last field of a payload of an accepted length holds whole elements, like every other.
  lemma FieldsHoldWholeElements(record: Record, bits: nat, i: nat, length: nat)
    requires Layout.Spans(record, bits) && Usable(record.fields) && LengthFits(record, length)
    requires i < |record.fields| && Fits(record.fields[i], length) && record.fields[i].container.None?
    ensures (End(record.fields[i], length) - First(record.fields[i])) % ElementBytes(record.fields[i]) == 0
  {
    hide Layout.Tidy;
    FieldsFit(record, bits, i);
    var f := record.fields[i];
    hide Codable;
    hide Usable;
    hide Layout.WellFormed;
    if f.variable.None? {
      SizeInBytes(f);
      QuotientIs(f.count * ElementBytes(f), ElementBytes(f), f.count, 0);
    } else {
      var count: nat :| ValidCount(f, count) && length == ElementsEnd(f, count);
      QuotientIs(count * ElementBytes(f), ElementBytes(f), count, 0);
    }
  }

  // What the record says about the values of its i-th field, before and after.
  lemma FieldReturns(
      record: Record, bits: nat, payload: seq<byte>, values: map<string, seq<int>>, again: seq<byte>, i: nat)
    requires Layout.Spans(record, bits) && Usable(record.fields)
    requires LengthFits(record, |payload|) && AllFit(record, |payload|)
    requires ReadableUpTo(record, |record.fields|, payload)
    requires DecodedUpTo(record, |record.fields|, payload, values)
    requires Encodes(record.fields, values) && Encoded(record, values, again) && |again| == |payload|
    requires i < |record.fields|
    ensures Fits(record.fields[i], |payload|)
    ensures FieldRaws(record.fields[i], again) == FieldRaws(record.fields[i], payload)
  {
    var f := record.fields[i];
    assert Codable(f) && FieldReadable(f, payload) && f.name in values && FieldValues(f, payload) == values[f.name];
    assert FieldAccepts(f, values[f.name]) && FieldHolds(f, again, Raws(f, values[f.name]));
    RawsHaveValidCount(record, bits, i, payload);
    hide Layout.Spans;
    hide Usable;
    hide Encoded;
    hide Encodes;
    hide DecodedUpTo;
    hide ReadableUpTo;
    hide FieldReadable;
    hide FieldValues;
    hide FieldRaws;
    hide FieldHolds;
    ReadIsAccepted(f, payload);
    HeldRaws(f, again, FieldRaws(f, payload));
  }

  lemma FieldBitsReturn(
      record: Record, bits: nat, payload: seq<byte>, values: map<string, seq<int>>, again: seq<byte>, i: nat, bit: nat)
    requires Layout.Spans(record, bits) && Usable(record.fields)
    requires LengthFits(record, |payload|) && AllFit(record, |payload|)
    requires ReadableUpTo(record, |record.fields|, payload)
    requires DecodedUpTo(record, |record.fields|, payload, values)
    requires Encodes(record.fields, values) && Encoded(record, values, again) && |again| == |payload|
    requires i < |record.fields| && bit < 8 * |payload| && Occupies(record.fields[i], bit)
    ensures DataBit(again, bit) == DataBit(payload, bit)
  {
    hide Layout.Spans;
    hide Usable;
    hide Encoded;
    hide Encodes;
    hide DecodedUpTo;
    hide ReadableUpTo;
    hide FieldRaws;
    hide Occupies;
    hide Codable;
    var f := record.fields[i];
    FieldReturns(record, bits, payload, values, again, i);
    if f.container.None? {
      FieldsHoldWholeElements(record, bits, i, |payload|);
    }
    SameRawsSameBits(f, again, payload, bit);
  }

  lemma HeldRaws(f: Field, payload: seq<byte>, raws: seq<nat>)
    requires FieldHolds(f, payload, raws)
    ensures FieldRaws(f, payload) == raws
  {
    if f.container.None? {
      ElementsAreUnique(f, payload[First(f)..End(f, |payload|)], raws);
    }
  }

  /** Encoding what was decoded gives the payload back, with the bits that belong to no field cleared. */
  lemma ReencodedIsTheSame(
      record: Record, bits: nat, payload: seq<byte>, values: map<string, seq<int>>, again: seq<byte>)
    requires Layout.Spans(record, bits) && Usable(record.fields)
    requires LengthFits(record, |payload|) && AllFit(record, |payload|)
    requires ReadableUpTo(record, |record.fields|, payload)
    requires DecodedUpTo(record, |record.fields|, payload, values)
    requires Encodes(record.fields, values) && Encoded(record, values, again)
    ensures |again| == |payload|
    ensures forall bit :: 0 <= bit < 8 * |payload| ==>
      DataBit(again, bit) == (Occupied(record.fields, |record.fields|, bit) && DataBit(payload, bit))
    ensures Blank(record.fields, |record.fields|, payload) ==> again == payload
  {
    DecodedLengthIsUnique(record, bits, payload, values, again);
    forall bit | 0 <= bit < 8 * |payload|
      ensures DataBit(again, bit) == (Occupied(record.fields, |record.fields|, bit) && DataBit(payload, bit))
    {
      if Occupied(record.fields, |record.fields|, bit) {
        var i :| 0 <= i < |record.fields| && Occupies(record.fields[i], bit);
        FieldBitsReturn(record, bits, payload, values, again, i, bit);
      }
    }
    if Blank(record.fields, |record.fields|, payload) {
      SameDataBits(again, payload);
    }
  }
}

/** Encoding and decoding one complete data record (cdd/codec.go). */
module CddCodec {
  import opened Wrappers
  import opened Frames
  import opened Bits
  import opened BitWalk
  import opened CddModel
  import opened CddBitfield
  import opened CddRaw
  import Layout = CddLayout

  // ---- compileRecordCodec --------------------------------------------------------------------

  datatype Codec = Codec(names: set<string>, err: Option<Error>)

  /** validateConversionRange: some raw value of this width lies within the limits. */
  predicate LimitsReach(f: Field)
    requires 1 <= f.bitLength && f.limits.Some?
  {
    var lowest := if f.encoding == Signed then 0 - Pow2(f.bitLength - 1) else 0;
    var highest := if f.encoding == Signed then Pow2(f.bitLength - 1) - 1 else Pow2(f.bitLength) - 1;
    && (f.limits.value.minimum.Some? ==> f.limits.value.minimum.value <= highest)
    && (f.limits.value.maximum.Some? ==> lowest <= f.limits.value.maximum.value)
  }

  predicate Whole(f: Field) {
    f.bitOffset % 8 == 0 && f.bitLength % 8 == 0
  }

  predicate Codable(f: Field) {
    && (f.container.None? ==> Whole(f))
    && 1 <= f.bitLength <= 64
    && Supported(f)
    && (f.limits.Some? ==> f.encoding in {Unsigned, Signed} && LimitsReach(f))
  }

  ghost predicate DistinctNames(fields: seq<Field>) {
    forall i, j :: 0 <= i < j < |fields| ==> fields[i].name != fields[j].name
  }

  ghost predicate Usable(fields: seq<Field>) {
    DistinctNames(fields) && forall i :: 0 <= i < |fields| ==> Codable(fields[i])
  }

  function Names(fields: seq<Field>): set<string> {
    set i | 0 <= i < |fields| :: fields[i].name
  }

  ghost predicate Compiled(record: Record, codec: Codec) {
    && (codec.err.None? <==> Usable(record.fields))
    && (codec.err.None? ==> codec.names == Names(record.fields))
  }

  method CompileRecordCodec(record: Record) returns (codec: Codec)
    requires forall i :: 0 <= i < |record.fields| ==> record.fields[i].bitLength > 0
    ensures Compiled(record, codec)
  {
    var names: set<string> := {};
    var index := 0;
    while index < |record.fields|
      invariant 0 <= index <= |record.fields|
      invariant names == Names(record.fields[..index])
      invariant Usable(record.fields[..index])
    {
      hide Codable;
      var f := record.fields[index];
      if f.name in names {
        return Codec(names, Some(RepeatedField));
      }
      var problem := FieldProblem(f);
      if problem.Some? {
        return Codec(names, problem);
      }
      assert record.fields[..index + 1] == record.fields[..index] + [f];
      names := names + {f.name};
      index := index + 1;
    }
    assert record.fields[..index] == record.fields;
    return Codec(names, None);
  }

  function FieldProblem(f: Field): (problem: Option<Error>)
    requires f.bitLength > 0
    ensures problem.None? <==> Codable(f)
  {
    if f.container.None? && !Whole(f) then Some(NotAligned)
    else if f.bitLength > 64 then Some(TooWide)
    else if !Supported(f) then Some(EncodingUnsupported)
    else if f.limits.Some? && f.encoding !in {Unsigned, Signed} then Some(EncodingUnsupported)
    else if f.limits.Some? && !LimitsReach(f) then Some(OutsideLimits)
    else None
  }

  // ---- Elements ------------------------------------------------------------------------------

  function ElementBytes(f: Field): (n: nat)
    requires Codable(f)
    ensures f.container.None? ==> 1 <= n <= 8 && f.bitLength == 8 * n
  {
    f.bitLength / 8
  }

  /** validateElementCount */
  predicate ValidCount(f: Field, count: nat) {
    if f.variable.Some? then f.variable.value.minCount <= count <= f.variable.value.maxCount else count == f.count
  }

  predicate AllEncode(f: Field, values: seq<int>)
    requires Codable(f)
  {
    forall i :: 0 <= i < |values| ==> EncodeScalar(f, values[i]).Ok?
  }

  predicate FieldAccepts(f: Field, values: seq<int>)
    requires Codable(f)
  {
    ValidCount(f, |values|) && AllEncode(f, values)
  }

  /** A field accepts as many values as it has room for, each one that it can carry. */
  lemma FieldAcceptsExactly(f: Field, values: seq<int>)
    requires Codable(f)
    ensures FieldAccepts(f, values) <==>
      && (f.variable.None? ==> |values| == f.count)
      && (f.variable.Some? ==> f.variable.value.minCount <= |values| <= f.variable.value.maxCount)
      && forall i :: 0 <= i < |values| ==>
           && Carries(f, values[i])
           && (f.limits.Some? && f.limits.value.minimum.Some? ==> f.limits.value.minimum.value <= values[i])
           && (f.limits.Some? && f.limits.value.maximum.Some? ==> values[i] <= f.limits.value.maximum.value)
  {
    hide EncodeScalar;
    hide Carries;
    forall i | 0 <= i < |values|
      ensures EncodeScalar(f, values[i]).Ok? <==>
        && Carries(f, values[i])
        && (f.limits.Some? && f.limits.value.minimum.Some? ==> f.limits.value.minimum.value <= values[i])
        && (f.limits.Some? && f.limits.value.maximum.Some? ==> values[i] <= f.limits.value.maximum.value)
    {
      EncodesExactly(f, values[i]);
    }
  }

  function Raws(f: Field, values: seq<int>): (raws: seq<nat>)
    requires Codable(f) && AllEncode(f, values)
    ensures |raws| == |values|
  {
    seq(|values|, i requires 0 <= i < |values| => EncodeScalar(f, values[i]).value)
  }

  function Element(f: Field, data: seq<byte>, i: nat): nat
    requires Codable(f) && f.container.None? && (i + 1) * ElementBytes(f) <= |data|
  {
    ReadRaw(Piece(data, i, ElementBytes(f)), f.order)
  }

  function Piece(data: seq<byte>, i: nat, size: nat): (piece: seq<byte>)
    requires (i + 1) * size <= |data|
    ensures |piece| == size
  {
    assert (i + 1) * size == i * size + size;
    data[i * size..(i + 1) * size]
  }

  lemma PieceFits(data: seq<byte>, i: nat, size: nat, count: nat)
    requires i < count && count * size <= |data|
    ensures (i + 1) * size <= |data|
  {
    assert (i + 1) * size <= count * size;
  }

  // data holds exactly these raw elements, one behind the other.
  ghost predicate HasElements(f: Field, data: seq<byte>, raws: seq<nat>)
    requires Codable(f) && f.container.None?
  {
    && |data| == |raws| * ElementBytes(f)
    && forall i :: 0 <= i < |raws| ==>
         (i + 1) * ElementBytes(f) <= |data| && Element(f, data, i) == raws[i]
  }

  lemma AppendElement(f: Field, data: seq<byte>, raws: seq<nat>, raw: nat)
    requires Codable(f) && f.container.None? && HasElements(f, data, raws) && raw < Pow2(f.bitLength)
    ensures HasElements(f, data + WriteRaw(ElementBytes(f), raw, f.order), raws + [raw])
  {
    hide Codable;
    hide ReadRaw;
    hide WriteRaw;
    var size := ElementBytes(f);
    var piece := WriteRaw(size, raw, f.order);
    var (data', raws') := (data + piece, raws + [raw]);
    assert |raws'| * size == |raws| * size + size;
    RawRoundTrip(size, raw, f.order);
    forall i | 0 <= i < |raws'|
      ensures (i + 1) * size <= |data'| && Element(f, data', i) == raws'[i]
    {
      PieceFits(data', i, size, |raws'|);
      if i < |raws| {
        assert Element(f, data, i) == raws[i];
        assert Piece(data', i, size) == Piece(data, i, size);
      } else {
        assert Piece(data', i, size) == piece;
      }
    }
  }

  lemma NoElements(f: Field)
    requires Codable(f) && f.container.None?
    ensures HasElements(f, [], [])
  {
  }

  method EncodeField(f: Field, values: seq<int>) returns (r: Result<seq<byte>, Error>)
    requires Codable(f) && f.container.None?
    ensures r.Ok? <==> FieldAccepts(f, values)
    ensures r.Ok? ==> HasElements(f, r.value, Raws(f, values))
  {
    hide EncodeScalar;
    hide HasElements;
    hide WriteRaw;
    hide Supported;
    if !ValidCount(f, |values|) {
      return Err(WrongCount);
    }
    var encoded: seq<byte> := [];
    NoElements(f);
    var index := 0;
    while index < |values|
      invariant 0 <= index <= |values|
      invariant AllEncode(f, values[..index])
      invariant HasElements(f, encoded, Raws(f, values[..index]))
    {
      var raw := EncodeScalar(f, values[index]);
      if raw.Err? {
        return Err(raw.error);
      }
      ScalarRoundTrip(f, values[index]);
      AppendElement(f, encoded, Raws(f, values[..index]), raw.value);
      assert Raws(f, values[..index + 1]) == Raws(f, values[..index]) + [raw.value];
      encoded := encoded + WriteRaw(ElementBytes(f), raw.value, f.order);
      index := index + 1;
    }
    assert values[..index] == values;
    return Ok(encoded);
  }

  // ---- One field in a payload ------------------------------------------------------------------

  function First(f: Field): nat {
    f.bitOffset / 8
  }

  function End(f: Field, length: nat): nat {
    if f.variable.Some? then length else First(f) + f.BitSize() / 8
  }

  // A resolved field that the codec accepts, lying inside a payload of this length.
  predicate Fits(f: Field, length: nat) {
    && Codable(f) && Layout.WellFormed(f)
    && if f.container.Some? then Start(f.container.value) + Width(f.container.value) <= length
       else First(f) <= End(f, length) <= length
  }

  ghost predicate FieldHolds(f: Field, payload: seq<byte>, raws: seq<nat>) {
    && Fits(f, |payload|)
    && if f.container.Some? then
         Inside(PackedWalk(f), |payload|) && raws == [PackedValue(payload, f)]
       else HasElements(f, payload[First(f)..End(f, |payload|)], raws)
  }

  /** The bits that belong to a field. */
  predicate Occupies(f: Field, bit: nat)
    requires Layout.WellFormed(f)
  {
    if f.container.Some? then bit in PackedWalk(f)
    else f.bitOffset <= bit && (f.variable.None? ==> bit < f.bitOffset + f.BitSize())
  }

  /** `after` holds the field's values, and every bit that is not the field's is as it was. */
  ghost predicate Stored(f: Field, before: seq<byte>, after: seq<byte>, raws: seq<nat>) {
    && |before| <= |after|
    && (f.variable.None? ==> |after| == |before|)
    && FieldHolds(f, after, raws)
    && forall bit :: 0 <= bit < 8 * |after| && !Occupies(f, bit) ==>
         bit < 8 * |before| && DataBit(after, bit) == DataBit(before, bit)
  }

  method WriteField(payload: array<byte>, f: Field, values: seq<int>, maxLength: nat)
    returns (r: Result<array<byte>, Error>)
    requires Fits(f, payload.Length)
    requires f.variable.Some? ==> payload.Length == First(f) + f.variable.value.minCount * ElementBytes(f)
    requires f.variable.Some? ==> First(f) + f.variable.value.maxCount * ElementBytes(f) <= maxLength
    modifies payload
    ensures r.Ok? <==> FieldAccepts(f, values)
    ensures r.Ok? ==> (r.value == payload || fresh(r.value))
    ensures r.Ok? ==> Stored(f, old(payload[..]), r.value[..], Raws(f, values))
  {
    if f.container.Some? {
      r := WritePackedField(payload, f, values);
    } else {
      r := WritePlainField(payload, f, values, maxLength);
    }
  }

  method WritePackedField(payload: array<byte>, f: Field, values: seq<int>) returns (r: Result<array<byte>, Error>)
    requires Fits(f, payload.Length) && f.container.Some?
    modifies payload
    ensures r.Ok? <==> FieldAccepts(f, values)
    ensures r.Ok? ==> r.value == payload
    ensures r.Ok? ==> Stored(f, old(payload[..]), payload[..], Raws(f, values))
  {
    hide EncodeScalar;
    if |values| != 1 {
      return Err(WrongCount);
    }
    var raw := EncodeScalar(f, values[0]);
    if raw.Err? {
      return Err(raw.error);
    }
    ScalarRoundTrip(f, values[0]);
    WritePacked(payload, f, raw.value);
    PackedRoundTrip(old(payload[..]), payload[..], f, raw.value);
    assert Raws(f, values) == [raw.value];
    return Ok(payload);
  }

  method WritePlainField(payload: array<byte>, f: Field, values: seq<int>, maxLength: nat)
    returns (r: Result<array<byte>, Error>)
    requires Fits(f, payload.Length) && f.container.None?
    requires f.variable.Some? ==> payload.Length == First(f) + f.variable.value.minCount * ElementBytes(f)
    requires f.variable.Some? ==> First(f) + f.variable.value.maxCount * ElementBytes(f) <= maxLength
    modifies payload
    ensures r.Ok? <==> FieldAccepts(f, values)
    ensures r.Ok? ==> (r.value == payload || fresh(r.value))
    ensures r.Ok? ==> Stored(f, old(payload[..]), r.value[..], Raws(f, values))
  {
    hide HasElements;
    hide EncodeScalar;
    var encoded := EncodeField(f, values);
    if encoded.Err? {
      return Err(encoded.error);
    }
    EncodedLength(f, encoded.value, Raws(f, values));
    var start := First(f);
    var end := start + |encoded.value|;
    var target := payload;
    if end > payload.Length {
      if f.variable.None? || end > maxLength {
        return Err(TooLong);
      }
      target := Grown(payload, end);
    }
    ghost var grown := target[..];
    CopyInto(target, start, encoded.value);
    PlainIsStored(f, old(payload[..]), grown, target[..], encoded.value, Raws(f, values));
    return Ok(target);
  }

  lemma EncodedLength(f: Field, data: seq<byte>, raws: seq<nat>)
    requires Codable(f) && Layout.WellFormed(f) && f.container.None? && HasElements(f, data, raws) && ValidCount(f, |raws|)
    ensures f.variable.None? ==> |data| == f.BitSize() / 8
    ensures f.variable.Some? ==>
      f.variable.value.minCount * ElementBytes(f) <= |data| <= f.variable.value.maxCount * ElementBytes(f)
  {
    var size := ElementBytes(f);
    if f.variable.None? {
      assert f.BitSize() == 8 * (f.count * size);
    } else {
      assert f.variable.value.minCount * size <= |raws| * size <= f.variable.value.maxCount * size;
    }
  }

  // append(payload, make([]byte, end-len(payload))...)
  method Grown(payload: array<byte>, end: nat) returns (grown: array<byte>)
    requires payload.Length <= end
    ensures fresh(grown) && grown[..] == payload[..] + Zeros(end - payload.Length)
  {
    grown := new byte[end](i requires 0 <= i < end reads payload => if i < payload.Length then payload[i] else 0);
  }

  method CopyInto(target: array<byte>, start: nat, data: seq<byte>)
    requires start + |data| <= target.Length
    modifies target
    ensures target[..] == old(target[..start]) + data + old(target[start + |data|..])
  {
    var index := 0;
    while index < |data|
      invariant 0 <= index <= |data|
      invariant forall i :: 0 <= i < target.Length ==>
        target[i] == if start <= i < start + index then data[i - start] else old(target[i])
    {
      target[start + index] := data[index];
      index := index + 1;
    }
    assert target[..start] == old(target[..start]) && target[start..start + index] == data;
    assert target[start + index..] == old(target[start + index..]);
    assert target[..] == target[..start] + target[start..start + index] + target[start + index..];
  }

  lemma PlainIsStored(f: Field, before: seq<byte>, grown: seq<byte>, after: seq<byte>, data: seq<byte>, raws: seq<nat>)
    requires Fits(f, |before|) && f.container.None? && HasElements(f, data, raws)
    requires before <= grown && First(f) + |data| <= |grown| && (f.variable.None? ==> grown == before)
    requires f.variable.None? ==> |data| == f.BitSize() / 8
    requires f.variable.Some? ==> First(f) + |data| == |grown|
    requires after == grown[..First(f)] + data + grown[First(f) + |data|..]
    ensures Stored(f, before, after, raws)
  {
    hide HasElements;
    hide BitOf;
    assert after[First(f)..End(f, |after|)] == data;
    assert f.variable.None? ==> f.BitSize() % 8 == 0 by {
      assert f.BitSize() == 8 * (f.count * ElementBytes(f));
    }
    forall bit | 0 <= bit < 8 * |after| && !Occupies(f, bit)
      ensures bit < 8 * |before| && DataBit(after, bit) == DataBit(before, bit)
    {
      assert bit / 8 < First(f) || (f.variable.None? && First(f) + |data| <= bit / 8);
      assert after[bit / 8] == grown[bit / 8];
    }
  }

  // ---- Fields that lie apart -------------------------------------------------------------------

  lemma ApartHaveNoBitInCommon(f: Field, g: Field, bit: nat)
    requires Layout.WellFormed(f) && Layout.WellFormed(g) && Layout.Before(f, g) && f.variable.None?
    ensures !(Occupies(f, bit) && Occupies(g, bit))
  {
    hide Layout.WellFormed;
    if Occupies(f, bit) && Occupies(g, bit) {
      if Layout.High(f) <= Layout.Low(g) {
        hide Occupies;
        OccupiedSpan(f, bit);
        OccupiedSpan(g, bit);
      } else {
        SiblingsHaveNoBitInCommon(f, g, bit);
      }
    }
  }

  lemma SiblingsHaveNoBitInCommon(f: Field, g: Field, bit: nat)
    requires Layout.WellFormed(f) && Layout.WellFormed(g)
    requires f.container.Some? && f.container == g.container && f.bitOffset + f.bitLength <= g.bitOffset
    ensures !(bit in PackedWalk(f) && bit in PackedWalk(g))
  {
    hide ContainerBit;
    if bit in PackedWalk(f) && bit in PackedWalk(g) {
      var i :| 0 <= i < f.bitLength && PackedWalk(f)[i] == bit;
      var j :| 0 <= j < g.bitLength && PackedWalk(g)[j] == bit;
      ContainerBitIsExact(f.container.value, f.bitOffset + i, g.bitOffset + j);
    }
  }

  lemma OccupiedSpan(f: Field, bit: nat)
    requires Layout.WellFormed(f) && Occupies(f, bit)
    ensures Layout.Low(f) <= bit && (f.variable.None? ==> bit < Layout.High(f))
  {
    if f.container.Some? {
      var c := f.container.value;
      var i :| 0 <= i < f.bitLength && PackedWalk(f)[i] == bit;
      ContainerBitIsExact(c, f.bitOffset + i, f.bitOffset + i);
      assert c.bitOffset == 8 * Start(c) && c.bitLength == 8 * Width(c);
    }
  }

  /** What a payload holds for a field depends on the field's own bits only. */
  lemma HoldsDependsOnOwnBits(f: Field, before: seq<byte>, after: seq<byte>, raws: seq<nat>)
    requires FieldHolds(f, before, raws)
    requires |before| <= |after| && (f.variable.Some? ==> |before| == |after|)
    requires forall bit :: 0 <= bit < 8 * |before| && Occupies(f, bit) ==> DataBit(after, bit) == DataBit(before, bit)
    ensures FieldHolds(f, after, raws)
  {
    hide HasElements;
    hide BitOf;
    if f.container.Some? {
      PackedWalkIsExact(f, |after|);
      assert Gathered(after, PackedWalk(f)) == Gathered(before, PackedWalk(f)) by {
        forall i | 0 <= i < f.bitLength
          ensures DataBit(after, PackedWalk(f)[i]) == DataBit(before, PackedWalk(f)[i])
        {
          assert PackedWalk(f)[i] in PackedWalk(f);
        }
      }
    } else {
      var (first, end) := (First(f), End(f, |before|));
      assert f.variable.None? ==> f.BitSize() == 8 * (f.count * ElementBytes(f));
      forall i | first <= i < end
        ensures after[i] == before[i]
      {
        SameByte(after, before, i);
      }
      assert after[first..end] == before[first..end];
    }
  }

  lemma StoringKeepsEarlier(f: Field, g: Field, before: seq<byte>, after: seq<byte>, raws: seq<nat>, stored: seq<nat>)
    requires FieldHolds(f, before, raws) && Stored(g, before, after, stored)
    requires Layout.Before(f, g) && f.variable.None?
    ensures FieldHolds(f, after, raws)
  {
    hide FieldHolds;
    hide DataBit;
    assert Fits(f, |before|) && Fits(g, |after|) by {
      HoldsFits(f, before, raws);
      HoldsFits(g, after, stored);
    }
    forall bit | 0 <= bit < 8 * |before| && Occupies(f, bit)
      ensures DataBit(after, bit) == DataBit(before, bit)
    {
      ApartHaveNoBitInCommon(f, g, bit);
    }
    HoldsDependsOnOwnBits(f, before, after, raws);
  }

  lemma HoldsFits(f: Field, payload: seq<byte>, raws: seq<nat>)
    requires FieldHolds(f, payload, raws)
    ensures Fits(f, |payload|)
  {
  }

  // ---- Encode ------------------------------------------------------------------------------------

  // What a resolved record with a usable codec says about one of its fields.
  lemma FieldsFit(record: Record, bits: nat, i: nat)
    requires Layout.Spans(record, bits) && Usable(record.fields) && i < |record.fields|
    ensures Fits(record.fields[i], record.length) && Codable(record.fields[i])
    ensures var f := record.fields[i];
      f.variable.Some? ==>
        && i == |record.fields| - 1 && f.container.None?
        && record.length == First(f) + f.variable.value.minCount * ElementBytes(f)
        && record.maxLength == First(f) + f.variable.value.maxCount * ElementBytes(f)
  {
    var f := record.fields[i];
    assert Codable(f) && Layout.WellFormed(f) && Layout.High(f) <= bits;
    if f.container.Some? {
      hide Codable;
      hide Layout.Tidy;
      var c := f.container.value;
      assert c.bitOffset == 8 * Start(c) && c.bitLength == 8 * Width(c);
    } else {
      WholeFieldFits(f, bits, record.length);
      if f.variable.Some? {
        assert i == |record.fields| - 1 && Layout.High(f) == bits;
        VariableFieldFits(f, bits, record.length, record.maxLength);
      }
    }
  }

  /** A field of whole bytes takes up whole elements. */
  lemma SizeInBytes(f: Field)
    requires Codable(f) && f.container.None?
    ensures f.BitSize() == 8 * (f.count * ElementBytes(f))
    ensures f.BitSize() / 8 == f.count * ElementBytes(f) && f.BitSize() % 8 == 0
  {
  }

  lemma WholeFieldFits(f: Field, bits: nat, length: nat)
    requires Codable(f) && Layout.WellFormed(f) && f.container.None? && Layout.High(f) <= bits
    requires length == (bits + 7) / 8
    ensures Fits(f, length)
  {
    assert f.BitSize() == 8 * (f.count * ElementBytes(f));
  }

  lemma VariableFieldFits(f: Field, bits: nat, length: nat, maxLength: nat)
    requires Codable(f) && Layout.WellFormed(f) && f.container.None? && f.variable.Some? && Layout.High(f) == bits
    requires length == (bits + 7) / 8 && maxLength == (bits + f.MaxBitSize() - f.BitSize() + 7) / 8
    ensures length == First(f) + f.variable.value.minCount * ElementBytes(f)
    ensures maxLength == First(f) + f.variable.value.maxCount * ElementBytes(f)
  {
    var size := ElementBytes(f);
    assert f.BitSize() == 8 * (f.count * size);
    assert f.MaxBitSize() == 8 * (f.variable.value.maxCount * size);
  }

  ghost predicate Encodes(fields: seq<Field>, values: map<string, seq<int>>)
    requires Usable(fields)
  {
    && values.Keys == Names(fields)
    && AcceptedUpTo(fields, values, |fields|)
  }

  ghost predicate AcceptedUpTo(fields: seq<Field>, values: map<string, seq<int>>, n: nat)
    requires n <= |fields| && Usable(fields)
  {
    forall i :: 0 <= i < n ==> fields[i].name in values && FieldAccepts(fields[i], values[fields[i].name])
  }

  ghost predicate Occupied(fields: seq<Field>, n: nat, bit: nat)
    requires n <= |fields| && forall i :: 0 <= i < |fields| ==> Layout.WellFormed(fields[i])
  {
    exists i :: 0 <= i < n && Occupies(fields[i], bit)
  }

  // Bits that belong to none of the first n fields are zero.
  ghost predicate Blank(fields: seq<Field>, n: nat, payload: seq<byte>)
    requires n <= |fields| && forall i :: 0 <= i < |fields| ==> Layout.WellFormed(fields[i])
  {
    forall bit :: 0 <= bit < 8 * |payload| && !Occupied(fields, n, bit) ==> !DataBit(payload, bit)
  }

  ghost predicate HoldsUpTo(fields: seq<Field>, values: map<string, seq<int>>, n: nat, payload: seq<byte>)
    requires n <= |fields| && Usable(fields) && AcceptedUpTo(fields, values, n)
  {
    forall i :: 0 <= i < n ==> FieldHolds(fields[i], payload, Raws(fields[i], values[fields[i].name]))
  }

  lemma StoringKeepsHolds(
      record: Record, bits: nat, values: map<string, seq<int>>, n: nat, before: seq<byte>, after: seq<byte>)
    requires Layout.Spans(record, bits) && Usable(record.fields) && n < |record.fields|
    requires AcceptedUpTo(record.fields, values, n + 1)
    requires HoldsUpTo(record.fields, values, n, before) && Blank(record.fields, n, before)
    requires Stored(record.fields[n], before, after, Raws(record.fields[n], values[record.fields[n].name]))
    ensures HoldsUpTo(record.fields, values, n + 1, after) && Blank(record.fields, n + 1, after)
  {
    var fields := record.fields;
    var f := fields[n];
    forall i | 0 <= i < n + 1
      ensures FieldHolds(fields[i], after, Raws(fields[i], values[fields[i].name]))
    {
      hide FieldHolds;
      hide Usable;
      hide FieldAccepts;
      if i < n {
        StoringKeepsEarlier(fields[i], f, before, after, Raws(fields[i], values[fields[i].name]), Raws(f, values[f.name]));
      }
    }
    StoringKeepsBlank(fields, n, before, after, Raws(f, values[f.name]));
  }

  lemma StoringKeepsBlank(fields: seq<Field>, n: nat, before: seq<byte>, after: seq<byte>, raws: seq<nat>)
    requires forall i :: 0 <= i < |fields| ==> Layout.WellFormed(fields[i])
    requires n < |fields| && Blank(fields, n, before) && Stored(fields[n], before, after, raws)
    ensures Blank(fields, n + 1, after)
  {
    hide FieldHolds;
    hide DataBit;
    hide Occupies;
    hide Layout.WellFormed;
    forall bit | 0 <= bit < 8 * |after| && !Occupied(fields, n + 1, bit)
      ensures !DataBit(after, bit)
    {
      assert !Occupies(fields[n], bit);
      assert !Occupied(fields, n, bit);
    }
  }

  lemma ZerosAreBlank(fields: seq<Field>, payload: seq<byte>)
    requires forall i :: 0 <= i < |fields| ==> Layout.WellFormed(fields[i])
    requires forall i :: 0 <= i < |payload| ==> payload[i] == 0
    ensures Blank(fields, 0, payload)
  {
    forall bit | 0 <= bit < 8 * |payload|
      ensures !DataBit(payload, bit)
    {
      HighBitsClear(0, 0, bit % 8);
    }
  }

  /** A complete payload: every field holds its values, and every other bit is zero. */
  ghost predicate Encoded(record: Record, values: map<string, seq<int>>, payload: seq<byte>)
    requires Usable(record.fields) && Encodes(record.fields, values)
    requires forall i :: 0 <= i < |record.fields| ==> Layout.WellFormed(record.fields[i])
  {
    && (|payload| == record.length || VariableRecord(record))
    && HoldsUpTo(record.fields, values, |record.fields|, payload)
    && Blank(record.fields, |record.fields|, payload)
  }

  predicate VariableRecord(record: Record) {
    record.fields != [] && record.fields[|record.fields| - 1].variable.Some?
  }

  method Encode(record: Record, codec: Codec, values: map<string, seq<int>>, ghost bits: nat)
    returns (r: Result<seq<byte>, Error>)
    requires Layout.Spans(record, bits) && Compiled(record, codec)
    ensures r.Ok? <==> Usable(record.fields) && Encodes(record.fields, values)
    ensures r.Ok? ==> Encoded(record, values, r.value)
  {
    hide Layout.WellFormed;
    hide Layout.Tidy;
    hide Codable;
    hide FieldAccepts;
    hide FieldHolds;
    hide Stored;
    hide Blank;
    hide HoldsUpTo;
    hide AcceptedUpTo;
    hide Fits;
    hide Usable;
    hide Names;
    assert forall i :: 0 <= i < |record.fields| ==> Layout.WellFormed(record.fields[i]) by {
      SpansWellFormed(record, bits);
    }
    if codec.err.Some? {
      return Err(codec.err.value);
    }
    if !(values.Keys <= codec.names) {
      return Err(UnknownField);
    }
    var payload := new byte[record.length](_ => 0);
    NothingEncoded(record.fields, values, payload[..]);
    var index := 0;
    while index < |record.fields|
      invariant 0 <= index <= |record.fields|
      invariant fresh(payload)
      invariant payload.Length == record.length || (index == |record.fields| && VariableRecord(record))
      invariant AcceptedUpTo(record.fields, values, index)
      invariant HoldsUpTo(record.fields, values, index, payload[..])
      invariant Blank(record.fields, index, payload[..])
    {
      var f := record.fields[index];
      NameIsListed(record.fields, index);
      if f.name !in values {
        return Err(MissingField);
      }
      FieldsFit(record, bits, index);
      ghost var before := payload[..];
      var written := WriteField(payload, f, values[f.name], record.maxLength);
      AcceptNext(record.fields, values, index);
      if written.Err? {
        return Err(written.error);
      }
      payload := written.value;
      AcceptedEncodes(f, values[f.name]);
      StoredLength(f, before, payload[..], Raws(f, values[f.name]));
      StoringKeepsHolds(record, bits, values, index, before, payload[..]);
      index := index + 1;
    }
    AllAccepted(record.fields, values);
    return Ok(payload[..]);
  }

  lemma AcceptedEncodes(f: Field, values: seq<int>)
    requires Codable(f) && FieldAccepts(f, values)
    ensures AllEncode(f, values)
  {
  }

  lemma SpansWellFormed(record: Record, bits: nat)
    requires Layout.Spans(record, bits)
    ensures forall i :: 0 <= i < |record.fields| ==> Layout.WellFormed(record.fields[i])
  {
  }

  lemma NothingEncoded(fields: seq<Field>, values: map<string, seq<int>>, payload: seq<byte>)
    requires Usable(fields) && forall i :: 0 <= i < |fields| ==> Layout.WellFormed(fields[i])
    requires forall i :: 0 <= i < |payload| ==> payload[i] == 0
    ensures AcceptedUpTo(fields, values, 0) && HoldsUpTo(fields, values, 0, payload) && Blank(fields, 0, payload)
  {
    ZerosAreBlank(fields, payload);
  }

  lemma NameIsListed(fields: seq<Field>, i: nat)
    requires i < |fields|
    ensures fields[i].name in Names(fields)
  {
  }

  lemma AcceptNext(fields: seq<Field>, values: map<string, seq<int>>, n: nat)
    requires Usable(fields) && n < |fields| && fields[n].name in values && Codable(fields[n])
    requires AcceptedUpTo(fields, values, n)
    ensures AcceptedUpTo(fields, values, n + 1) <==> FieldAccepts(fields[n], values[fields[n].name])
    ensures AcceptedUpTo(fields, values, |fields|) ==> AcceptedUpTo(fields, values, n + 1)
  {
    hide FieldAccepts;
  }

  lemma AllAccepted(fields: seq<Field>, values: map<string, seq<int>>)
    requires Usable(fields) && AcceptedUpTo(fields, values, |fields|) && values.Keys <= Names(fields)
    ensures values.Keys == Names(fields)
  {
    hide FieldAccepts;
  }

  lemma StoredLength(f: Field, before: seq<byte>, after: seq<byte>, raws: seq<nat>)
    requires Stored(f, before, after, raws)
    ensures f.variable.None? ==> |after| == |before|
  {
  }

  // ---- Decode ------------------------------------------------------------------------------------

  /** The lengths a payload of this record can have. */
  ghost predicate LengthFits(record: Record, length: nat)
    requires Usable(record.fields)
  {
    if VariableRecord(record) then
      var last := record.fields[|record.fields| - 1];
      exists count: nat :: ValidCount(last, count) && length == ElementsEnd(last, count)
    else length == record.length
  }

  function ElementsEnd(f: Field, count: nat): nat
    requires Codable(f)
  {
    First(f) + count * ElementBytes(f)
  }

  method ValidatePayloadLength(record: Record, length: nat, ghost bits: nat) returns (ok: bool)
    requires Layout.Spans(record, bits) && Usable(record.fields)
    ensures ok <==> LengthFits(record, length)
  {
    if record.fields != [] {
      FieldsFit(record, bits, |record.fields| - 1);
    }
    if VariableRecord(record) {
      VariableLength(record, bits, length);
    }
    if length < record.length || length > record.maxLength {
      return false;
    }
    if record.length == record.maxLength {
      return true;
    }
    var last := record.fields[|record.fields| - 1];
    var elementBytes := last.bitLength / 8;
    var start := last.bitOffset / 8;
    if length < start || (length - start) % elementBytes != 0 {
      return false;
    }
    var count := (length - start) / elementBytes;
    return last.variable.value.minCount <= count <= last.variable.value.maxCount;
  }

  lemma VariableLength(record: Record, bits: nat, length: nat)
    requires Layout.Spans(record, bits) && Usable(record.fields) && VariableRecord(record)
    ensures record.length < record.maxLength
    ensures var last := record.fields[|record.fields| - 1];
      LengthFits(record, length) <==>
        && record.length <= length <= record.maxLength
        && (length - First(last)) % ElementBytes(last) == 0
        && last.variable.value.minCount <= (length - First(last)) / ElementBytes(last) <= last.variable.value.maxCount
  {
    hide Layout.Spans;
    hide Usable;
    hide Codable;
    var last := record.fields[|record.fields| - 1];
    VariableLast(record, bits);
    var (first, size, extent) := (First(last), ElementBytes(last), last.variable.value);
    LengthIsCounted(first, size, extent.minCount, extent.maxCount, length);
    if LengthFits(record, length) {
      var count: nat :| ValidCount(last, count) && length == ElementsEnd(last, count);
      assert Counts(first, size, extent.minCount, extent.maxCount, length, count);
    }
    if count: nat :| Counts(first, size, extent.minCount, extent.maxCount, length, count) {
      assert ValidCount(last, count) && length == ElementsEnd(last, count);
    }
  }

  lemma VariableLast(record: Record, bits: nat)
    requires Layout.Spans(record, bits) && Usable(record.fields) && VariableRecord(record)
    ensures var last := record.fields[|record.fields| - 1]; var (size, extent) := (ElementBytes(last), last.variable.value);
      && Codable(last) && size > 0 && extent.minCount < extent.maxCount
      && record.length == First(last) + extent.minCount * size && record.maxLength == First(last) + extent.maxCount * size
  {
    hide Layout.Tidy;
    FieldsFit(record, bits, |record.fields| - 1);
  }

  // The length is that of so many elements.
  predicate Counts(first: nat, size: nat, low: nat, high: nat, length: nat, count: nat) {
    low <= count <= high && length == first + count * size
  }

  lemma LengthIsCounted(first: nat, size: nat, low: nat, high: nat, length: nat)
    requires size > 0 && low < high
    ensures first + low * size < first + high * size
    ensures (exists count: nat :: Counts(first, size, low, high, length, count)) <==>
      && first + low * size <= length <= first + high * size && (length - first) % size == 0
      && low <= (length - first) / size <= high
  {
    CountsGrow(low, high, size);
    if count: nat :| Counts(first, size, low, high, length, count) {
      CountsGrow(low, count, size);
      CountsGrow(count, high, size);
      QuotientIs(count * size, size, count, 0);
    }
    if first + low * size <= length && (length - first) % size == 0 && low <= (length - first) / size <= high {
      assert Counts(first, size, low, high, length, (length - first) / size);
    }
  }

  lemma CountsGrow(a: nat, b: nat, size: nat)
    requires a <= b && size > 0
    ensures a * size <= b * size
    ensures a < b ==> a * size < b * size
  {
  }

  function Elements(f: Field, data: seq<byte>): (raws: seq<nat>)
    requires Codable(f) && f.container.None?
    ensures |raws| == |data| / ElementBytes(f)
  {
    var size := ElementBytes(f);
    seq(|data| / size, i requires 0 <= i < |data| / size =>
      WholePiece(data, i, size);
      Element(f, data, i))
  }

  lemma WholePiece(data: seq<byte>, i: nat, size: nat)
    requires size > 0 && i < |data| / size
    ensures (i + 1) * size <= |data|
  {
    PieceFits(data, i, size, |data| / size);
  }

  function FieldRaws(f: Field, payload: seq<byte>): (raws: seq<nat>)
    requires Fits(f, |payload|)
  {
    if f.container.Some? then
      PackedWalkIsExact(f, |payload|);
      [PackedValue(payload, f)]
    else Elements(f, payload[First(f)..End(f, |payload|)])
  }

  /** The value the payload holds for a field. */
  function FieldValues(f: Field, payload: seq<byte>): (values: seq<int>)
    requires Fits(f, |payload|)
    ensures |values| == |FieldRaws(f, payload)|
  {
    var raws := FieldRaws(f, payload);
    seq(|raws|, i requires 0 <= i < |raws| => DecodeValue(f, raws[i]))
  }

  predicate AllReadable(f: Field, raws: seq<nat>)
    requires Codable(f)
  {
    forall i :: 0 <= i < |raws| ==> Readable(f, raws[i])
  }

  predicate FieldReadable(f: Field, payload: seq<byte>)
    requires Fits(f, |payload|)
  {
    AllReadable(f, FieldRaws(f, payload))
  }

  lemma FieldsStillFit(record: Record, bits: nat, i: nat, length: nat)
    requires Layout.Spans(record, bits) && Usable(record.fields) && i < |record.fields| && LengthFits(record, length)
    ensures Codable(record.fields[i]) && Fits(record.fields[i], length)
  {
    FieldsFit(record, bits, i);
    if VariableRecord(record) {
      VariableLength(record, bits, length);
    }
  }

  // The values of the first n fields.
  ghost predicate DecodedUpTo(record: Record, n: nat, payload: seq<byte>, values: map<string, seq<int>>)
    requires n <= |record.fields| && forall i :: 0 <= i < |record.fields| ==> Fits(record.fields[i], |payload|)
  {
    && values.Keys == Names(record.fields[..n])
    && forall i :: 0 <= i < n ==>
         && record.fields[i].name in values && values[record.fields[i].name] == FieldValues(record.fields[i], payload)
  }

  ghost predicate ReadableUpTo(record: Record, n: nat, payload: seq<byte>)
    requires n <= |record.fields| && forall i :: 0 <= i < |record.fields| ==> Fits(record.fields[i], |payload|)
  {
    forall i :: 0 <= i < n ==> FieldReadable(record.fields[i], payload)
  }

  ghost predicate AllFit(record: Record, length: nat) {
    forall i :: 0 <= i < |record.fields| ==> Fits(record.fields[i], length)
  }

  method Decode(record: Record, codec: Codec, payload: seq<byte>, ghost bits: nat)
    returns (r: Result<map<string, seq<int>>, Error>)
    requires Layout.Spans(record, bits) && Compiled(record, codec)
    ensures r.Ok? <==>
      && Usable(record.fields) && LengthFits(record, |payload|)
      && AllFit(record, |payload|) && ReadableUpTo(record, |record.fields|, payload)
    ensures r.Ok? ==> DecodedUpTo(record, |record.fields|, payload, r.value)
  {
    hide Fits;
    hide LengthFits;
    hide Layout.Tidy;
    hide FieldReadable;
    hide FieldValues;
    hide DecodedUpTo;
    hide Codable;
    if codec.err.Some? {
      return Err(codec.err.value);
    }
    var fits := ValidatePayloadLength(record, |payload|, bits);
    if !fits {
      return Err(InvalidLength);
    }
    forall i | 0 <= i < |record.fields|
      ensures Fits(record.fields[i], |payload|)
    {
      FieldsStillFit(record, bits, i, |payload|);
    }
    assert DistinctNames(record.fields);
    hide Usable;
    hide DistinctNames;
    var values: map<string, seq<int>> := map[];
    NothingDecoded(record, payload);
    var index := 0;
    while index < |record.fields|
      invariant 0 <= index <= |record.fields|
      invariant ReadableUpTo(record, index, payload)
      invariant DecodedUpTo(record, index, payload, values)
    {
      var f := record.fields[index];
      var read := ReadField(f, payload);
      if read.Err? {
        return Err(read.error);
      }
      DecodeNext(record, index, payload, values);
      values := values[f.name := read.value];
      index := index + 1;
    }
    return Ok(values);
  }

  lemma NothingDecoded(record: Record, payload: seq<byte>)
    requires AllFit(record, |payload|)
    ensures DecodedUpTo(record, 0, payload, map[])
  {
  }

  lemma DecodeNext(record: Record, n: nat, payload: seq<byte>, values: map<string, seq<int>>)
    requires AllFit(record, |payload|) && DistinctNames(record.fields) && n < |record.fields|
    requires DecodedUpTo(record, n, payload, values)
    ensures DecodedUpTo(record, n + 1, payload, values[record.fields[n].name := FieldValues(record.fields[n], payload)])
  {
    hide FieldValues;
    hide Fits;
    hide Names;
    NextName(record.fields, n);
    var name := record.fields[n].name;
    var values' := values[name := FieldValues(record.fields[n], payload)];
    assert values'.Keys == values.Keys + {name};
    forall i | 0 <= i < n + 1
      ensures record.fields[i].name in values'
      ensures values'[record.fields[i].name] == FieldValues(record.fields[i], payload)
    {
      if i < n {
        assert record.fields[i].name != name;
      }
    }
  }

  lemma NextName(fields: seq<Field>, n: nat)
    requires n < |fields|
    ensures Names(fields[..n + 1]) == Names(fields[..n]) + {fields[n].name}
  {
    var (shorter, longer) := (fields[..n], fields[..n + 1]);
    forall name | name in Names(longer)
      ensures name in Names(shorter) + {fields[n].name}
    {
      var i :| 0 <= i < n + 1 && longer[i].name == name;
      assert i < n ==> shorter[i].name == name;
    }
    forall name | name in Names(shorter) + {fields[n].name}
      ensures name in Names(longer)
    {
      if name in Names(shorter) {
        var i :| 0 <= i < n && shorter[i].name == name;
        assert longer[i].name == name;
      } else {
        assert longer[n].name == name;
      }
    }
  }

  method ReadField(f: Field, payload: seq<byte>) returns (r: Result<seq<int>, Error>)
    requires Fits(f, |payload|)
    ensures r.Ok? <==> FieldReadable(f, payload)
    ensures r.Ok? ==> r.value == FieldValues(f, payload)
  {
    if f.container.Some? {
      hide Readable;
      hide DecodeValue;
      PackedWalkIsExact(f, |payload|);
      var raw := ReadPacked(payload, f);
      assert FieldRaws(f, payload) == [raw];
      assert FieldRaws(f, payload)[0] == raw;
      if !Readable(f, raw) {
        return Err(OutsideLimits);
      }
      return Ok([DecodeValue(f, raw)]);
    }
    var start := First(f);
    var end := if f.variable.Some? then |payload| else start + f.BitSize() / 8;
    r := DecodeField(f, payload[start..end]);
  }

  method DecodeField(f: Field, encoded: seq<byte>) returns (r: Result<seq<int>, Error>)
    requires Codable(f) && f.container.None?
    ensures r.Ok? <==> AllReadable(f, Elements(f, encoded))
    ensures r.Ok? ==> |r.value| == |Elements(f, encoded)|
    ensures r.Ok? ==> forall i :: 0 <= i < |r.value| ==> r.value[i] == DecodeValue(f, Elements(f, encoded)[i])
  {
    var elementBytes := ElementBytes(f);
    var count := |encoded| / elementBytes;
    ghost var raws := Elements(f, encoded);
    var values: seq<int> := [];
    var index := 0;
    while index < count
      invariant 0 <= index <= count == |raws| && |values| == index
      invariant forall i :: 0 <= i < index ==> Readable(f, raws[i]) && values[i] == DecodeValue(f, raws[i])
    {
      hide Readable;
      hide DecodeValue;
      hide ReadRaw;
      WholePiece(encoded, index, elementBytes);
      var raw := ReadRaw(Piece(encoded, index, elementBytes), f.order);
      assert raw == raws[index];
      if !Readable(f, raw) {
        return Err(OutsideLimits);
      }
      values := values + [DecodeValue(f, raw)];
      index := index + 1;
    }
    return Ok(values);
  }
}

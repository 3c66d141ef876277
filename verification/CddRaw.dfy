/** Whole elements as bytes, and values as raw integers (cdd/codec.go, cdd/conversion.go). */
module CddRaw {
  import opened Wrappers
  import opened Frames
  import opened Bits
  import opened Bytes
  import opened CddModel
  import opened CddBitfield
  import Scalar

  // ---- writeRaw and readRaw ----------------------------------------------------------------

  /** writeRaw: the last or the first bytes of the eight that PutUint64 lays out. */
  function WriteRaw(width: nat, raw: nat, order: ByteOrder): (data: seq<byte>)
    requires width <= 8
    ensures |data| == width
  {
    if order == LittleEndian then Little(raw, 8)[..width] else Reversed(Little(raw, 8))[8 - width..]
  }

  function Zeros(n: nat): (data: seq<byte>)
    ensures |data| == n
  {
    seq(n, _ => 0)
  }

  function ReadRaw(source: seq<byte>, order: ByteOrder): nat
    requires |source| <= 8
  {
    if order == LittleEndian then FromLittle(source + Zeros(8 - |source|))
    else FromLittle(Reversed(Zeros(8 - |source|) + source))
  }

  lemma {:induction false} LittlePrefix(raw: nat, n: nat, k: nat)
    requires k <= n
    ensures Little(raw, n)[..k] == Little(raw, k)
  {
    if k > 0 {
      LittlePrefix(raw / 256, n - 1, k - 1);
      assert Little(raw, n)[..k] == [raw % 256] + Little(raw / 256, n - 1)[..k - 1];
    }
  }

  lemma {:induction false} FromLittlePadded(data: seq<byte>, n: nat)
    ensures FromLittle(data + Zeros(n)) == FromLittle(data)
  {
    if data == [] {
      assert data + Zeros(n) == Zeros(n);
      if n > 0 {
        assert Zeros(n)[1..] == Zeros(n - 1) == [] + Zeros(n - 1);
        FromLittlePadded([], n - 1);
      }
    } else {
      assert (data + Zeros(n))[1..] == data[1..] + Zeros(n);
      FromLittlePadded(data[1..], n);
    }
  }

  lemma {:induction false} LittleOfFromLittle(data: seq<byte>)
    ensures Little(FromLittle(data), |data|) == data
    ensures FromLittle(data) < Power256(|data|)
  {
    if data != [] {
      LittleOfFromLittle(data[1..]);
      var first: nat := data[0];
      var rest := FromLittle(data[1..]);
      assert (first + 256 * rest) / 256 == rest && (first + 256 * rest) % 256 == first;
    }
  }

  /** One element's bytes in its own order are its value in base 256. */
  lemma {:induction false} RawBytes(width: nat, raw: nat, order: ByteOrder)
    requires width <= 8
    ensures WriteRaw(width, raw, order) == if order == LittleEndian then Little(raw, width) else Reversed(Little(raw, width))
  {
    LittlePrefix(raw, 8, width);
    assert Reversed(Little(raw, 8))[8 - width..] == Reversed(Little(raw, 8)[..width]);
  }

  lemma {:induction false} ReadRawValue(source: seq<byte>, order: ByteOrder)
    requires |source| <= 8
    ensures ReadRaw(source, order) == FromLittle(if order == LittleEndian then source else Reversed(source))
  {
    hide FromLittle;
    var pad := 8 - |source|;
    ReversedPadding(source, pad);
    hide Reversed;
    hide Zeros;
    if order == LittleEndian {
      FromLittlePadded(source, pad);
    } else {
      FromLittlePadded(Reversed(source), pad);
    }
  }

  lemma ReversedPadding(s: seq<byte>, n: nat)
    ensures Reversed(Zeros(n) + s) == Reversed(s) + Zeros(n)
  {
  }

  lemma {:induction false} Power256IsPow2(n: nat)
    ensures Power256(n) == Pow2(8 * n)
  {
    if n > 0 {
      Power256IsPow2(n - 1);
      Scalar.Pow2Sum(8, 8 * (n - 1));
      assert Pow2(8) == 256;
    }
  }

  lemma ReversedTwice(s: seq<byte>)
    ensures Reversed(Reversed(s)) == s
  {
  }

  /** Elements survive being written and read, and bytes survive being read and written. */
  lemma {:induction false} RawRoundTrip(width: nat, raw: nat, order: ByteOrder)
    requires width <= 8 && raw < Pow2(8 * width)
    ensures ReadRaw(WriteRaw(width, raw, order), order) == raw
  {
    Power256IsPow2(width);
    RawBytes(width, raw, order);
    ReadRawValue(WriteRaw(width, raw, order), order);
    ReversedTwice(Little(raw, width));
    LittleRoundTrip(raw, width);
  }

  lemma {:induction false} BytesRoundTrip(source: seq<byte>, order: ByteOrder)
    requires |source| <= 8
    ensures ReadRaw(source, order) < Pow2(8 * |source|)
    ensures WriteRaw(|source|, ReadRaw(source, order), order) == source
  {
    var ordered := if order == LittleEndian then source else Reversed(source);
    Power256IsPow2(|source|);
    ReadRawValue(source, order);
    LittleOfFromLittle(ordered);
    RawBytes(|source|, ReadRaw(source, order), order);
    ReversedTwice(source);
  }

  // ---- Values and raw integers ---------------------------------------------------------------

  // A value is the integer an element stands for before any linear conversion; for a floating-point
  // element it is the bit pattern, and for a text element the octet.
  datatype Error =
    | DoesNotFit
    | NotFinite
    | NotAscii
    | OutsideLimits
    | WrongCount
    | UnknownField
    | MissingField
    | RepeatedField
    | NotAligned
    | TooWide
    | EncodingUnsupported
    | TooLong
    | InvalidLength

  predicate Finite(raw: nat, bits: nat) {
    if bits == 32 then raw / 0x80_0000 % 0x100 != 0xff else raw / 0x10_0000_0000_0000 % 0x800 != 0x7ff
  }

  /** encodeScalarValue and, for text, the octet check of encodeField. */
  function EncodeValue(f: Field, value: int): Result<nat, Error>
    requires 1 <= f.bitLength <= 64
  {
    match f.encoding
    case Signed =>
      if !Scalar.Int64(value) then Err(DoesNotFit)
      else
        (match Scalar.EncodeSigned(f.bitLength, value)
         case Ok(raw) => Ok(raw)
         case Err(_) => Err(DoesNotFit))
    case Unsigned =>
      if value < 0 || value >= Pow2(64) then Err(DoesNotFit)
      else
        (match Scalar.EncodeUnsigned(f.bitLength, value)
         case Ok(raw) => Ok(raw)
         case Err(_) => Err(DoesNotFit))
    case Ascii => if 0 <= value <= 0x7f then Ok(value) else Err(NotAscii)
    case _ =>
      if value < 0 || value >= Pow2(f.bitLength) then Err(DoesNotFit)
      else if !Finite(value, f.bitLength) then Err(NotFinite)
      else Ok(value)
  }

  function DecodeValue(f: Field, raw: nat): int
    requires 1 <= f.bitLength <= 64
  {
    if f.encoding == Signed then Scalar.DecodeSigned(f.bitLength, raw) else raw
  }

  predicate Admits(limits: Limits, value: int) {
    && (limits.minimum.Some? ==> limits.minimum.value <= value)
    && (limits.maximum.Some? ==> value <= limits.maximum.value)
  }

  /** validateConversionRaw, and for text the octet check of decodeField. */
  predicate Readable(f: Field, raw: nat)
    requires 1 <= f.bitLength <= 64
  {
    if f.encoding == Ascii then raw <= 0x7f
    else f.limits.Some? ==> Admits(f.limits.value, DecodeValue(f, raw))
  }

  /** encodeScalar */
  function EncodeScalar(f: Field, value: int): Result<nat, Error>
    requires 1 <= f.bitLength <= 64
  {
    var raw :- EncodeValue(f, value);
    if Readable(f, raw) then Ok(raw) else Err(OutsideLimits)
  }

  // The encodings that validateFieldEncoding lets through, at the widths it asks of them.
  predicate Supported(f: Field) {
    match f.encoding
    case Unsigned => true
    case Signed => true
    case Float => f.bitLength == 32
    case Double => f.bitLength == 64
    case Ascii => f.bitLength == 8
    case _ => false
  }

  lemma ScalarRoundTrip(f: Field, value: int)
    requires 1 <= f.bitLength <= 64 && Supported(f) && EncodeScalar(f, value).Ok?
    ensures var raw := EncodeScalar(f, value).value;
      raw < Pow2(f.bitLength) && Readable(f, raw) && DecodeValue(f, raw) == value
  {
    assert f.encoding == Ascii ==> Pow2(8) == 256;
    if f.encoding == Signed {
      Scalar.SignedRoundTrip(f.bitLength, value);
    }
  }

  /** The values that a width and an encoding can carry; floating point is given by its bits, and must be finite. */
  predicate Carries(f: Field, value: int)
    requires 1 <= f.bitLength
  {
    match f.encoding
    case Unsigned => 0 <= value < Pow2(f.bitLength)
    case Signed =>
      var half: int := Pow2(f.bitLength - 1);
      -half <= value < half
    case Ascii => 0 <= value < 128
    case Float => 0 <= value < Pow2(f.bitLength) && value / 0x80_0000 % 256 != 255
    case Double => 0 <= value < Pow2(f.bitLength) && value / 0x10_0000_0000_0000 % 2048 != 2047
    case _ => false
  }

  lemma ValuesExactly(f: Field, value: int)
    requires 1 <= f.bitLength <= 64 && Supported(f)
    ensures EncodeValue(f, value).Ok? <==> Carries(f, value)
    ensures EncodeValue(f, value).Ok? ==> DecodeValue(f, EncodeValue(f, value).value) == value
    ensures EncodeValue(f, value).Ok? && f.encoding == Ascii ==> EncodeValue(f, value).value <= 0x7f
  {
    Scalar.Pow2Of64();
    PowGrows(f.bitLength, 64);
    if f.encoding == Signed {
      PowGrows(f.bitLength - 1, 63);
      if Carries(f, value) {
        Scalar.SignedRoundTrip(f.bitLength, value);
      }
    }
  }

  /** A value is accepted exactly if it can be carried and lies within the limits, both ends included. */
  lemma EncodesExactly(f: Field, value: int)
    requires 1 <= f.bitLength <= 64 && Supported(f)
    ensures EncodeScalar(f, value).Ok? <==>
      && Carries(f, value)
      && (f.encoding != Ascii && f.limits.Some? ==>
            && (f.limits.value.minimum.Some? ==> f.limits.value.minimum.value <= value)
            && (f.limits.value.maximum.Some? ==> value <= f.limits.value.maximum.value))
  {
    hide EncodeValue;
    hide DecodeValue;
    hide Carries;
    ValuesExactly(f, value);
  }

  /** Whatever can be read can be written back, except a floating-point element that is not finite. */
  lemma ReadScalarRoundTrip(f: Field, raw: nat)
    requires 1 <= f.bitLength <= 64 && Supported(f) && raw < Pow2(f.bitLength) && Readable(f, raw)
    ensures EncodeScalar(f, DecodeValue(f, raw))
         == if f.encoding in {Float, Double} && !Finite(raw, f.bitLength) then Err(NotFinite) else Ok(raw)
  {
    if f.encoding == Signed {
      ReadSignedRoundTrip(f.bitLength, raw);
    } else {
      PowGrows(f.bitLength, 64);
    }
  }

  lemma {:induction false} ReadSignedRoundTrip(bits: nat, raw: nat)
    requires 1 <= bits <= 64 && raw < Pow2(bits)
    ensures Scalar.Int64(Scalar.DecodeSigned(bits, raw))
    ensures Scalar.EncodeSigned(bits, Scalar.DecodeSigned(bits, raw)) == Result.Ok(raw)
  {
    hide BitOf;
    hide Scalar.EncodeSigned;
    hide Scalar.DecodeSigned;
    Scalar.Pow2Of64();
    var value := Scalar.DecodeSigned(bits, raw);
    Scalar.SignedValue(bits, raw);
    PowGrows(bits - 1, 63);
    Scalar.SignedRoundTrip(bits, value);
    Scalar.SignedIsInjective(bits, Scalar.EncodeSigned(bits, value).value, raw);
  }

  lemma {:induction false} PowGrows(a: nat, b: nat)
    requires a <= b
    ensures Pow2(a) <= Pow2(b)
  {
    if a < b {
      PowGrows(a, b - 1);
    }
  }
}

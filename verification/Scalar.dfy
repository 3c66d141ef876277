/** Integer raw values of a given width (internal/scalar/scalar.go). */
module Scalar {
  import opened Wrappers
  import opened Bits

  datatype Error = DoesNotFit

  predicate Int64(value: int) {
    -0x8000_0000_0000_0000 <= value < 0x8000_0000_0000_0000
  }

  function EncodeUnsigned(bits: nat, value: nat): (r: Result<nat, Error>)
    requires bits <= 64 && value < Pow2(64)
    ensures r == (if value < Pow2(bits) then Ok(value) else Err(DoesNotFit))
  {
    if bits < 64 && value >= Pow2(bits) then Err(DoesNotFit) else Ok(value)
  }

  function EncodeSigned(bits: nat, value: int): (r: Result<nat, Error>)
    requires 1 <= bits <= 64 && Int64(value)
  {
    if bits == 64 then Ok(value % Pow2(64))
    else if value < 0 - Pow2(bits - 1) || value > Pow2(bits - 1) - 1 then Err(DoesNotFit)
    else Ok(value % Pow2(bits))
  }

  function DecodeSigned(bits: nat, raw: nat): int
    requires 1 <= bits <= 64
  {
    var low := raw % Pow2(bits);
    if BitOf(low, bits - 1) then low - Pow2(bits) else low
  }

  lemma {:induction false} TopBit(word: nat, width: nat)
    requires 1 <= width && word < Pow2(width)
    ensures BitOf(word, width - 1) <==> word >= Pow2(width - 1)
  {
    if width > 1 {
      TopBit(word / 2, width - 1);
    }
  }

  lemma Pow2Of64()
    ensures Pow2(63) == 0x8000_0000_0000_0000
  {
    assert Pow2(8) == 256 && Pow2(16) == 65536 by {
      assert Pow2(4) == 16;
      assert Pow2(12) == 4096;
    }
    Pow2Sum(16, 16);
    Pow2Sum(32, 31);
    Pow2Sum(16, 15);
  }

  lemma {:induction false} Pow2Sum(a: nat, b: nat)
    ensures Pow2(a + b) == Pow2(a) * Pow2(b)
  {
    if a > 0 {
      Pow2Sum(a - 1, b);
      assert Pow2(a + b) == 2 * Pow2(a - 1 + b);
    }
  }

  /** Two's complement: accepted exactly in range, within the width, and read back as the same integer. */
  lemma SignedRoundTrip(bits: nat, value: int)
    requires 1 <= bits <= 64 && Int64(value)
    ensures EncodeSigned(bits, value).Ok? <==> 0 - Pow2(bits - 1) <= value < Pow2(bits - 1)
    ensures EncodeSigned(bits, value).Ok? ==>
      && EncodeSigned(bits, value).value < Pow2(bits)
      && DecodeSigned(bits, EncodeSigned(bits, value).value) == value
  {
    Pow2Of64();
    if 0 - Pow2(bits - 1) <= value < Pow2(bits - 1) {
      var raw := value % Pow2(bits);
      WrappedMod(value, Pow2(bits));
      SignedValue(bits, raw);
    }
  }

  lemma SignedValue(bits: nat, raw: nat)
    requires 1 <= bits <= 64 && raw < Pow2(bits)
    ensures DecodeSigned(bits, raw) == if raw >= Pow2(bits - 1) then raw - Pow2(bits) else raw
  {
    SmallMod(raw, Pow2(bits));
    TopBit(raw, bits);
  }

  lemma SmallMod(x: nat, m: nat)
    requires x < m
    ensures x % m == x
  {
  }

  lemma WrappedMod(x: int, m: nat)
    requires m > 0 && 0 - m <= x < m
    ensures x % m == if x < 0 then x + m else x
  {
  }

  /** Two raw values of the same width never stand for the same signed integer. */
  lemma {:induction false} SignedIsInjective(bits: nat, left: nat, right: nat)
    requires 1 <= bits <= 64 && left < Pow2(bits) && right < Pow2(bits)
    requires DecodeSigned(bits, left) == DecodeSigned(bits, right)
    ensures left == right
  {
    SignedValue(bits, left);
    SignedValue(bits, right);
  }
}

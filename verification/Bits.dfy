/**
 * Bits of machine words. A word is a natural number; testing, setting and clearing one bit, and the
 * conjunction of two words, are defined bit by bit, so they mean what `&`, `|=`, `&^=` and `<<` mean.
 */
module Bits {

  function Pow2(n: nat): (p: nat)
    ensures p > 0
  {
    if n == 0 then 1 else 2 * Pow2(n - 1)
  }

  /** word & (1 << k) != 0 */
  predicate BitOf(word: nat, k: nat) {
    if k == 0 then word % 2 == 1 else BitOf(word / 2, k - 1)
  }

  /** word |= 1 << k, or word &^= 1 << k */
  function WithBit(word: nat, k: nat, value: bool): nat {
    if k == 0 then word / 2 * 2 + (if value then 1 else 0)
    else WithBit(word / 2, k - 1, value) * 2 + word % 2
  }

  /** left & right */
  function And(left: nat, right: nat): nat {
    if left == 0 || right == 0 then 0
    else And(left / 2, right / 2) * 2 + (left % 2) * (right % 2)
  }

  lemma {:induction false} WithBitBits(word: nat, k: nat, value: bool, j: nat)
    ensures BitOf(WithBit(word, k, value), j) == if j == k then value else BitOf(word, j)
  {
    var after := WithBit(word, k, value);
    if k > 0 {
      assert after / 2 == WithBit(word / 2, k - 1, value) && after % 2 == word % 2;
      if j > 0 {
        WithBitBits(word / 2, k - 1, value, j - 1);
      }
    } else {
      assert after / 2 == word / 2;
    }
  }

  lemma {:induction false} WithBitFits(word: nat, k: nat, value: bool, width: nat)
    requires word < Pow2(width) && k < width
    ensures WithBit(word, k, value) < Pow2(width)
  {
    if k > 0 {
      WithBitFits(word / 2, k - 1, value, width - 1);
    }
  }

  lemma {:induction false} HighBitsClear(word: nat, width: nat, k: nat)
    requires word < Pow2(width) && width <= k
    ensures !BitOf(word, k)
  {
    if k > 0 {
      if width == 0 {
        HighBitsClear(word / 2, 0, k - 1);
      } else {
        HighBitsClear(word / 2, width - 1, k - 1);
      }
    }
  }

  /** A word is determined by its bits. */
  lemma {:induction false} SameBits(left: nat, right: nat, width: nat)
    requires left < Pow2(width) && right < Pow2(width)
    requires forall k :: 0 <= k < width ==> BitOf(left, k) == BitOf(right, k)
    ensures left == right
  {
    if width > 0 {
      assert BitOf(left, 0) == BitOf(right, 0);
      forall k | 0 <= k < width - 1
        ensures BitOf(left / 2, k) == BitOf(right / 2, k)
      {
        assert BitOf(left, k + 1) == BitOf(right, k + 1);
      }
      SameBits(left / 2, right / 2, width - 1);
    }
  }

  lemma PowZero()
    ensures Pow2(0) == 1
  {
  }

  lemma {:induction false} AddTopBit(value: nat, width: nat)
    requires value < Pow2(width)
    ensures value < Pow2(width + 1) && WithBit(value, width, true) < Pow2(width + 1)
    ensures !BitOf(value, width) && BitOf(WithBit(value, width, true), width)
    ensures forall k :: 0 <= k < width ==> BitOf(WithBit(value, width, true), k) == BitOf(value, k)
  {
    HighBitsClear(value, width, width);
    WithBitFits(value, width, true, width + 1);
    forall k | 0 <= k <= width
      ensures BitOf(WithBit(value, width, true), k) == (k == width || BitOf(value, k))
    {
      WithBitBits(value, width, true, k);
    }
  }

  /** word >> distance */
  function ShiftRight(word: nat, distance: nat): nat {
    Quotient(word, Pow2(distance))
  }

  function Quotient(word: nat, divisor: nat): nat
    requires divisor > 0
  {
    word / divisor
  }

  lemma {:induction false} ShiftedBits(word: nat, distance: nat, k: nat)
    ensures BitOf(ShiftRight(word, distance), k) == BitOf(word, distance + k)
  {
    if distance > 0 {
      ShiftedBits(word / 2, distance - 1, k);
      HalvedQuotient(word, Pow2(distance - 1));
    }
  }

  lemma HalvedQuotient(word: nat, divisor: nat)
    requires divisor > 0
    ensures word / (2 * divisor) == word / 2 / divisor
  {
    var q := word / 2 / divisor;
    var r := word / 2 % divisor;
    var low := word % 2;
    assert word / 2 == divisor * q + r;
    assert word == (2 * divisor) * q + (2 * r + low);
    QuotientIs(word, 2 * divisor, q, 2 * r + low);
  }

  lemma QuotientIs(word: nat, divisor: nat, q: nat, r: nat)
    requires r < divisor && word == divisor * q + r
    ensures word / divisor == q && word % divisor == r
  {
    var q' := word / divisor;
    assert word == divisor * q' + word % divisor;
    assert q' < q ==> divisor * (q' + 1) <= divisor * q;
    assert q' > q ==> divisor * (q + 1) <= divisor * q';
  }

  lemma {:induction false} LowBits(word: nat, width: nat, k: nat)
    ensures BitOf(word % Pow2(width), k) == (k < width && BitOf(word, k))
    ensures word % Pow2(width) < Pow2(width)
  {
    if width == 0 {
      HighBitsClear(0, 0, k);
    } else {
      HalvedRemainder(word, Pow2(width - 1));
      if k > 0 {
        LowBits(word / 2, width - 1, k - 1);
      }
    }
  }

  lemma HalvedRemainder(word: nat, divisor: nat)
    requires divisor > 0
    ensures word % (2 * divisor) / 2 == word / 2 % divisor
    ensures word % (2 * divisor) % 2 == word % 2
  {
    var q := word / 2 / divisor;
    var r := word / 2 % divisor;
    var low := word % 2;
    assert word / 2 == divisor * q + r;
    assert word == (2 * divisor) * q + (2 * r + low);
    QuotientIs(word, 2 * divisor, q, 2 * r + low);
  }

  lemma {:induction false} AndBits(left: nat, right: nat, k: nat)
    ensures BitOf(And(left, right), k) == (BitOf(left, k) && BitOf(right, k))
  {
    if left == 0 || right == 0 {
      HighBitsClear(0, 0, k);
    } else {
      var both := And(left, right);
      assert both / 2 == And(left / 2, right / 2) && both % 2 == (left % 2) * (right % 2);
      if k > 0 {
        AndBits(left / 2, right / 2, k - 1);
      }
    }
  }

  lemma {:induction false} SomeBitSet(word: nat) returns (k: nat)
    requires word != 0
    ensures BitOf(word, k)
  {
    if word % 2 == 1 {
      k := 0;
    } else {
      k := SomeBitSet(word / 2);
      k := k + 1;
    }
  }

  /** left & right != 0 exactly when the words share a bit. */
  lemma {:induction false} AndIsShared(left: nat, right: nat)
    ensures And(left, right) != 0 <==> exists k :: BitOf(left, k) && BitOf(right, k)
  {
    if And(left, right) != 0 {
      var k := SomeBitSet(And(left, right));
      AndBits(left, right, k);
    } else {
      forall k | BitOf(left, k) && BitOf(right, k)
        ensures false
      {
        AndBits(left, right, k);
        HighBitsClear(0, 0, k);
      }
    }
  }

  /** The word whose bit k is bits[k]. */
  function FromBits(bits: seq<bool>): (word: nat)
  {
    if bits == [] then 0 else (if bits[0] then 1 else 0) + 2 * FromBits(bits[1..])
  }

  lemma {:induction false} FromBitsBits(bits: seq<bool>)
    ensures FromBits(bits) < Pow2(|bits|)
    ensures forall k :: 0 <= k < |bits| ==> BitOf(FromBits(bits), k) == bits[k]
  {
    if bits != [] {
      FromBitsBits(bits[1..]);
      forall k | 0 <= k < |bits|
        ensures BitOf(FromBits(bits), k) == bits[k]
      {
        if k > 0 {
          assert FromBits(bits) / 2 == FromBits(bits[1..]);
          assert bits[k] == bits[1..][k - 1];
        }
      }
    }
  }
}

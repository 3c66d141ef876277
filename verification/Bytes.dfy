/** Integers as bytes, least significant byte first, and the bits of both. */
module Bytes {
  import opened Frames
  import opened Bits

  function Little(value: nat, n: nat): (data: seq<byte>)
    ensures |data| == n
  {
    if n == 0 then [] else [value % 256] + Little(value / 256, n - 1)
  }

  function FromLittle(data: seq<byte>): nat {
    if data == [] then 0 else
      var first: nat := data[0];
      first + 256 * FromLittle(data[1..])
  }

  function Power256(n: nat): (p: nat)
    ensures p > 0
  {
    if n == 0 then 1 else 256 * Power256(n - 1)
  }

  lemma {:induction false} LittleRoundTrip(value: nat, n: nat)
    requires value < Power256(n)
    ensures FromLittle(Little(value, n)) == value
  {
    if n > 0 {
      LittleRoundTrip(value / 256, n - 1);
      assert Little(value, n)[1..] == Little(value / 256, n - 1);
    }
  }

  function Reversed(s: seq<byte>): (r: seq<byte>)
    ensures |r| == |s|
  {
    seq(|s|, i requires 0 <= i < |s| => s[|s| - 1 - i])
  }

  lemma AppendedByteBits(first: byte, rest: nat, p: nat)
    ensures BitOf(first + 256 * rest, p) == if p < 8 then BitOf(first, p) else BitOf(rest, p - 8)
  {
    hide BitOf;
    assert Pow2(8) == 256;
    hide Pow2;
    var word: nat := first + 256 * rest;
    assert word % 256 == first && word / 256 == rest;
    if p < 8 {
      LowBits(word, 8, p);
    } else {
      ShiftedBits(word, 8, p - 8);
    }
  }

  lemma {:induction false} FromLittleBits(data: seq<byte>, p: nat)
    requires p < 8 * |data|
    ensures BitOf(FromLittle(data), p) == BitOf(data[p / 8], p % 8)
  {
    AppendedByteBits(data[0], FromLittle(data[1..]), p);
    if p >= 8 {
      FromLittleBits(data[1..], p - 8);
    }
  }
}

/** Bitwise operators on unsigned values of a given width, defined one bit
    at a time from the least significant bit, so that their laws follow by
    induction on the width. */
module Bits {

  function Pow2(k: nat): (p: nat)
    ensures p >= 1
  {
    if k == 0 then 1 else 2 * Pow2(k - 1)
  }

  /** The width of a byte. */
  lemma ByteWidth()
    ensures Pow2(8) == 0x100
  {
  }

  /** a | b on w bits; the result covers both operands. */
  function Or(a: nat, b: nat, w: nat): (r: nat)
    requires a < Pow2(w) && b < Pow2(w)
    ensures r < Pow2(w)
    ensures a <= r && b <= r
  {
    if w == 0 then 0
    else (if a % 2 == 1 || b % 2 == 1 then 1 else 0) + 2 * Or(a / 2, b / 2, w - 1)
  }

  /** a & b on w bits; the result lies below both operands. */
  function And(a: nat, b: nat, w: nat): (r: nat)
    requires a < Pow2(w) && b < Pow2(w)
    ensures r <= a && r <= b
  {
    if w == 0 then 0
    else (if a % 2 == 1 && b % 2 == 1 then 1 else 0) + 2 * And(a / 2, b / 2, w - 1)
  }

  /** a ^ b on w bits. */
  function Xor(a: nat, b: nat, w: nat): (r: nat)
    requires a < Pow2(w) && b < Pow2(w)
    ensures r < Pow2(w)
  {
    if w == 0 then 0
    else (if a % 2 != b % 2 then 1 else 0) + 2 * Xor(a / 2, b / 2, w - 1)
  }

  /** XOR with the same operand twice gives the original value back. */
  lemma {:induction false} XorCancels(a: nat, b: nat, w: nat)
    requires a < Pow2(w) && b < Pow2(w)
    ensures Xor(Xor(a, b, w), b, w) == a
  {
    if w > 0 {
      XorCancels(a / 2, b / 2, w - 1);
    }
  }

  /** OR and AND of a value with itself are that value; XOR is 0. */
  lemma {:induction false} SelfOperands(a: nat, w: nat)
    requires a < Pow2(w)
    ensures Or(a, a, w) == a && And(a, a, w) == a && Xor(a, a, w) == 0
  {
    if w > 0 {
      SelfOperands(a / 2, w - 1);
    }
  }

  /** Masking twice with the same mask is masking once: the result of
      a & k has no bit outside k. */
  lemma {:induction false} AndIdempotent(a: nat, k: nat, w: nat)
    requires a < Pow2(w) && k < Pow2(w)
    ensures And(And(a, k, w), k, w) == And(a, k, w)
  {
    if w > 0 {
      AndIdempotent(a / 2, k / 2, w - 1);
    }
  }
}

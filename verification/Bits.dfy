/** The bit operations on `u64` that proof.rs uses, defined one bit at a time. */
module Bits {
  import opened Prelude

  function Pow2(e: nat): (r: nat)
    ensures r >= 1
  {
    if e == 0 then 1 else 2 * Pow2(e - 1)
  }

  predicate IsPow2(n: nat) {
    n == 1 || (n > 1 && n % 2 == 0 && IsPow2(n / 2))
  }

  /** `a ^ b`. */
  function Xor(a: nat, b: nat): nat
    decreases a + b
  {
    if a == 0 && b == 0 then 0
    else 2 * Xor(a / 2, b / 2) + (if a % 2 == b % 2 then 0 else 1)
  }

  /** The number of bits up to the highest one that is set. */
  function BitLen(n: nat): nat {
    if n == 0 then 0 else 1 + BitLen(n / 2)
  }

  /** `n.leading_zeros()` on 64 bits. */
  function LeadingZeros(n: U64): nat {
    PowerOf64();
    BitLenBound(n, 64);
    64 - BitLen(n)
  }

  /** `n.count_ones()`. */
  function PopCount(n: nat): nat {
    if n == 0 then 0 else n % 2 + PopCount(n / 2)
  }

  /** `n.trailing_zeros()` for a non-zero `n`. */
  function TrailingZeros(n: nat): nat
    requires n > 0
  {
    if n % 2 == 1 then 0 else 1 + TrailingZeros(n / 2)
  }

  /** `n >> s`; Rust panics on (or masks) a shift of 64 or more, hence the precondition. */
  function Shr(n: U64, s: nat): U64
    requires s < 64
  {
    ShiftDown(n, s)
  }

  /** Right shift without a bound on the distance, one bit at a time. */
  function ShiftDown(n: nat, s: nat): (r: nat)
    ensures r <= n
    decreases s
  {
    if s == 0 then n else ShiftDown(n / 2, s - 1)
  }

  lemma {:induction false} BitLenBound(n: nat, w: nat)
    requires n < Pow2(w)
    ensures BitLen(n) <= w
  {
    if n != 0 { BitLenBound(n / 2, w - 1); }
  }

  lemma {:induction false} XorBound(a: nat, b: nat, w: nat)
    requires a < Pow2(w) && b < Pow2(w)
    ensures Xor(a, b) < Pow2(w)
    decreases w
  {
    if w > 0 { XorBound(a / 2, b / 2, w - 1); }
  }

  lemma {:induction false} XorZero(a: nat, b: nat)
    ensures Xor(a, b) == 0 <==> a == b
    decreases a + b
  {
    if a != 0 || b != 0 { XorZero(a / 2, b / 2); }
  }

  lemma {:induction false} ShiftDownBits(n: nat, s: nat)
    ensures ShiftDown(n, s + 1) == ShiftDown(n, s) / 2
    decreases s
  {
    if s > 0 { ShiftDownBits(n / 2, s - 1); }
  }

  lemma {:induction false} ShiftDownAll(n: nat, s: nat)
    requires n < Pow2(s)
    ensures ShiftDown(n, s) == 0
    decreases s
  {
    if s > 0 { ShiftDownAll(n / 2, s - 1); }
  }

  lemma {:induction false} ShiftDownAdd(n: nat, s: nat, t: nat)
    ensures ShiftDown(ShiftDown(n, s), t) == ShiftDown(n, s + t)
    decreases s
  {
    if s > 0 { ShiftDownAdd(n / 2, s - 1, t); }
  }

  lemma {:induction false} PowerOf64()
    ensures Pow2(64) == U64_LIMIT
  {
    PowAdd(2, 2);
    assert Pow2(4) == 0x10;
    PowAdd(4, 4);
    assert Pow2(8) == 0x100;
    PowAdd(8, 8);
    assert Pow2(16) == 0x1_0000;
    PowAdd(16, 16);
    assert Pow2(32) == 0x1_0000_0000;
    PowAdd(32, 32);
  }

  lemma {:induction false} PowAdd(a: nat, b: nat)
    ensures Pow2(a + b) == Pow2(a) * Pow2(b)
  {
    if a > 0 { PowAdd(a - 1, b); }
  }
}

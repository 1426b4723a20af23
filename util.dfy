/**
 * Assorted utilities of the C library: the size_t range and the alignment
 * helper `align_pow2` used by the string buffer to grow in 64-byte steps.
 */
module Util {

  /** A value or its absence: a C pointer that may be NULL. */
  datatype Option<T> = None | Some(value: T)

  /** 2^64: size_t and uint64_t arithmetic is modulo this value. */
  const SIZE_MOD: nat := 0x1_0000_0000_0000_0000

  /** Largest number of bits `-1 << power` can shift a C `int` by. */
  const INT_BITS: nat := 32

  function Pow2(n: nat): (r: nat)
    ensures r >= 1
  {
    if n == 0 then 1 else 2 * Pow2(n - 1)
  }

  lemma {:induction false} Pow2Monotone(m: nat, n: nat)
    requires m <= n
    ensures Pow2(m) <= Pow2(n)
  {
    if m < n {
      Pow2Monotone(m, n - 1);
    }
  }

  /**
   * `align_pow2(value, power)` computes `(value + ~(-1 << power)) & (-1 << power)`.
   * With `power` below the width of `int`, `~(-1 << power)` is 2^power - 1, the
   * sum wraps modulo 2^64, and the mask `-1 << power` (sign-extended to size_t)
   * clears the low `power` bits, which is subtracting the remainder modulo 2^power.
   */
  function AlignPow2(value: nat, power: nat): (r: nat)
    requires value < SIZE_MOD && power < INT_BITS
    ensures r < SIZE_MOD
  {
    var d := Pow2(power);
    var sum := (value + d - 1) % SIZE_MOD;
    RemainderAtMost(sum, d);
    sum - sum % d
  }

  lemma {:induction false} RemainderAtMost(a: nat, d: nat)
    requires d >= 1
    ensures a % d <= a
  {
    if a >= d {
      assert a % d < d;
    }
  }

  /** The result is always a multiple of 2^power (never, in general, a power of two). */
  lemma {:induction false} AlignIsMultiple(value: nat, power: nat)
    requires value < SIZE_MOD && power < INT_BITS
    ensures AlignPow2(value, power) % Pow2(power) == 0
  {
    SubtractRemainder((value + Pow2(power) - 1) % SIZE_MOD, Pow2(power));
  }

  /**
   * Without wrap-around of `value + 2^power - 1`, the result is the least
   * multiple of 2^power that is not below `value`.
   */
  lemma {:induction false} AlignRoundsUp(value: nat, power: nat)
    requires value < SIZE_MOD && power < INT_BITS
    requires value + Pow2(power) - 1 < SIZE_MOD
    ensures value <= AlignPow2(value, power)
    ensures AlignPow2(value, power) - value < Pow2(power)
  {
    var d := Pow2(power);
    var sum := value + d - 1;
    assert (value + d - 1) % SIZE_MOD == sum;
    assert sum % d < d;
  }

  /** A value that already is a multiple of 2^power is returned unchanged. */
  lemma {:induction false} AlignKeepsMultiples(value: nat, power: nat)
    requires value < SIZE_MOD && power < INT_BITS
    requires value % Pow2(power) == 0
    ensures AlignPow2(value, power) == value
  {
    var d := Pow2(power);
    Pow2Divides(power, 64);
    // value and 2^64 are both multiples of d, so value + d - 1 does not wrap.
    NextMultiple(value, SIZE_MOD, d);
    var sum := value + d - 1;
    DivModUnique(sum, 0, sum, SIZE_MOD);
    var q := value / d;
    MultipleOf(value, d);
    DivModUnique(sum, q, d - 1, d);
  }

  lemma {:induction false} AlignIdempotent(value: nat, power: nat)
    requires value < SIZE_MOD && power < INT_BITS
    ensures AlignPow2(AlignPow2(value, power), power) == AlignPow2(value, power)
  {
    AlignIsMultiple(value, power);
    AlignKeepsMultiples(AlignPow2(value, power), power);
  }

  /** 2^m divides 2^n for m <= n; in particular every 2^power divides 2^64. */
  lemma {:induction false} Pow2Divides(m: nat, n: nat)
    requires m <= n
    ensures Pow2(n) % Pow2(m) == 0
    ensures n == 64 ==> Pow2(n) == SIZE_MOD
  {
    if m < n {
      Pow2Divides(m, n - 1);
      var q := Pow2(n - 1) / Pow2(m);
      DivModUnique(Pow2(n - 1), q, 0, Pow2(m));
      DivModUnique(Pow2(n), 2 * q, 0, Pow2(m));
    }
    if n == 64 {
      Pow2Value64();
    }
  }

  lemma {:induction false} Pow2Add(a: nat, b: nat)
    ensures Pow2(a + b) == Pow2(a) * Pow2(b)
  {
    if a > 0 {
      Pow2Add(a - 1, b);
    }
  }

  lemma {:induction false} Pow2Value64()
    ensures Pow2(64) == SIZE_MOD
  {
    assert Pow2(8) == 0x100;
    Pow2Add(8, 8);
    assert Pow2(16) == 0x1_0000;
    Pow2Add(16, 16);
    assert Pow2(32) == 0x1_0000_0000;
    Pow2Add(32, 32);
  }

  /** The sign facts about k * d that the division lemmas below rest on. */
  lemma {:induction false} MulSign(k: int, d: int)
    requires d > 0
    ensures k <= 0 ==> k * d <= 0
    ensures k >= 1 ==> k * d >= d
  {
    var i := 0;
    if k >= 1 {
      i := 1;
      while i < k
        invariant 1 <= i <= k && i * d >= d
      {
        i := i + 1;
      }
    } else {
      while i > k
        invariant k <= i <= 0 && i * d <= 0
      {
        i := i - 1;
      }
    }
  }

  lemma {:induction false} MulDistributes(a: int, b: int, d: int)
    ensures (a - b) * d == a * d - b * d
  {
  }

  /** Euclidean division is unique. */
  lemma {:induction false} DivModUnique(x: int, q: int, r: int, d: int)
    requires d > 0 && 0 <= r < d && x == q * d + r
    ensures x / d == q && x % d == r
  {
    var q0, r0 := x / d, x % d;
    MulDistributes(q, q0, d);
    MulDistributes(q0, q, d);
    MulSign(q - q0, d);
    MulSign(q0 - q, d);
  }

  lemma {:induction false} SubtractRemainder(a: int, d: int)
    requires d > 0
    ensures (a - a % d) % d == 0
  {
    DivModUnique(a - a % d, a / d, 0, d);
  }

  /** A multiple of d is its quotient times d. */
  lemma {:induction false} MultipleOf(x: int, d: int)
    requires d > 0 && x % d == 0
    ensures x == (x / d) * d
  {
  }

  /** Two distinct multiples of d are at least d apart. */
  lemma {:induction false} NextMultiple(a: int, b: int, d: int)
    requires d > 0 && a % d == 0 && b % d == 0 && a < b
    ensures a + d <= b
  {
    var qa, qb := a / d, b / d;
    assert a == qa * d && b == qb * d;
    MulDistributes(qb, qa, d);
    MulSign(qb - qa, d);
  }
}

/**
 * Binary arithmetic on vertex indices.
 *
 * A vertex index `i` of the n-cube doubles as a bit vector: its bit `j`
 * chooses coordinate `j`.  The source reads that bit with the JavaScript
 * expression `i & Math.pow(2, j)`, whose operands are first truncated to
 * 32-bit integers; `MaskHit` models exactly that test.
 */
module Bits {

  /** Width of the operands of JavaScript's bitwise operators. */
  const WordBits: nat := 32

  /** 2 to the power n. */
  function Pow2(n: nat): (r: nat)
    ensures r >= 1
  {
    if n == 0 then 1 else 2 * Pow2(n - 1)
  }

  /** Bit `j` of the binary representation of `i`. */
  predicate BitSet(i: nat, j: nat)
  {
    if j == 0 then i % 2 == 1 else BitSet(i / 2, j - 1)
  }

  /**
   * Whether `i & 2^j` is non-zero under JavaScript's 32-bit bitwise
   * arithmetic: `2^j` truncates to 0 once `j` reaches the word width, and
   * below it the low 32 bits of `i` keep bit `j`.
   */
  predicate MaskHit(i: nat, j: nat)
  {
    j < WordBits && BitSet(i, j)
  }

  /** A positive multiple of a positive number is at least that number. */
  lemma {:induction false} MulAtLeast(d: int, k: int)
    requires d > 0 && k >= 1
    ensures d * k >= d
    decreases k
  {
    if k > 1 {
      MulAtLeast(d, k - 1);
      assert d * k == d * (k - 1) + d;
    }
  }

  /** Quotient uniqueness: `x == d * q + s` with `0 <= s < d` fixes `x / d`. */
  lemma DivUnique(x: int, d: int, q: int, s: int)
    requires d > 0 && 0 <= s < d && x == d * q + s
    ensures x / d == q
  {
    var q', s' := x / d, x % d;
    assert x == d * q' + s';
    if q' < q {
      assert d * q - d * q' == d * (q - q');
      MulAtLeast(d, q - q');
    } else if q' > q {
      assert d * q' - d * q == d * (q' - q);
      MulAtLeast(d, q' - q);
    }
  }

  /** Dividing by 2p is halving and then dividing by p. */
  lemma DivHalf(i: nat, p: nat)
    requires p >= 1
    ensures i / (2 * p) == (i / 2) / p
  {
    var q, r := (i / 2) / p, (i / 2) % p;
    assert i / 2 == p * q + r;
    assert i == (2 * p) * q + (2 * r + i % 2);
    DivUnique(i, 2 * p, q, 2 * r + i % 2);
  }

  /** `BitSet` agrees with the arithmetic reading of bit `j`: `(i / 2^j) mod 2`. */
  lemma {:induction false} BitSetByDivision(i: nat, j: nat)
    ensures BitSet(i, j) <==> (i / Pow2(j)) % 2 == 1
  {
    if j > 0 {
      BitSetByDivision(i / 2, j - 1);
      DivHalf(i, Pow2(j - 1));
    }
  }

  /** A number below 2^j has bit j clear. */
  lemma {:induction false} BelowPowerClear(i: nat, j: nat)
    requires i < Pow2(j)
    ensures !BitSet(i, j)
  {
    if j > 0 {
      BelowPowerClear(i / 2, j - 1);
    }
  }

  /** Adding 2^j to a number below 2^j sets bit j. */
  lemma {:induction false} TopBitSet(a: nat, j: nat)
    requires a < Pow2(j)
    ensures BitSet(Pow2(j) + a, j)
  {
    if j > 0 {
      assert (Pow2(j) + a) / 2 == Pow2(j - 1) + a / 2;
      TopBitSet(a / 2, j - 1);
    }
  }

  /** Adding 2^n leaves every bit below n unchanged. */
  lemma {:induction false} LowBitsUnchanged(a: nat, n: nat, j: nat)
    requires j < n
    ensures BitSet(Pow2(n) + a, j) == BitSet(a, j)
  {
    if j > 0 {
      assert (Pow2(n) + a) / 2 == Pow2(n - 1) + a / 2;
      LowBitsUnchanged(a / 2, n - 1, j - 1);
    }
  }

  /** A number with bit j set is at least 2^j. */
  lemma {:induction false} BitSetAtLeast(i: nat, j: nat)
    requires BitSet(i, j)
    ensures i >= Pow2(j)
  {
    if j > 0 {
      BitSetAtLeast(i / 2, j - 1);
    }
  }

  /** Setting a clear bit j < n of a number below 2^n stays below 2^n. */
  lemma {:induction false} SetClearBitStaysBelow(i: nat, n: nat, j: nat)
    requires i < Pow2(n) && j < n && !BitSet(i, j)
    ensures i + Pow2(j) < Pow2(n)
  {
    var h := Pow2(n - 1);
    assert Pow2(n) == 2 * h;
    if j == 0 {
      assert i % 2 == 0;
    } else {
      assert i / 2 < h;
      SetClearBitStaysBelow(i / 2, n - 1, j - 1);
      assert i + Pow2(j) == 2 * (i / 2 + Pow2(j - 1)) + i % 2;
    }
  }
}

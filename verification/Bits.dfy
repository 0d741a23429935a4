// The two pieces of machine arithmetic the audio path relies on: masking a
// free-running counter, and assembling a sample word from three bytes.
module Bits {

  /** The number a 64-bit word stands for, read bit by bit from the low end. */
  function Value(x: bv64): (n: nat)
    ensures x == 0 <==> n == 0
  {
    if x == 0 then 0 else 2 * Value(x >> 1) + (if x & 1 == 1 then 1 else 0)
  }

  /** A run of ones from bit 0 upwards: one less than a power of two. */
  predicate IsMask(m: bv64) { m & (m + 1) == 0 }

  lemma HalfOfMask(m: bv64)
    requires IsMask(m) && m != 0
    ensures IsMask(m >> 1) && m & 1 == 1
  {
  }

  lemma HalfOfAnd(x: bv64, m: bv64)
    ensures (x & m) >> 1 == (x >> 1) & (m >> 1)
    ensures m & 1 == 1 ==> (x & m) & 1 == x & 1
  {
  }

  lemma ModOfDouble(h: nat, b: nat, n: nat)
    requires b < 2 && n > 0
    ensures (2 * h + b) % (2 * n) == 2 * (h % n) + b
  {
    var q, r := h / n, h % n;
    assert 2 * h + b == (2 * n) * q + (2 * r + b) by {
      assert h == n * q + r;
      assert (2 * n) * q == 2 * (n * q);
    }
    RemainderIsUnique(2 * h + b, 2 * n, q, 2 * r + b);
  }

  lemma RemainderIsUnique(x: int, d: int, q: int, r: int)
    requires d > 0 && 0 <= r < d && x == d * q + r
    ensures x % d == r && x / d == q
  {
    var q', r' := x / d, x % d;
    assert x == d * q' + r';
    if q > q' {
      MulMonotone(d, q' + 1, q);
    } else if q < q' {
      MulMonotone(d, q + 1, q');
    }
  }

  lemma MulMonotone(d: nat, x: int, y: int)
    requires x <= y
    ensures d * x <= d * y
  {
    assert d * y - d * x == d * (y - x);
  }

  lemma MulOrders(x: int, y: int, d: nat)
    requires x <= y
    ensures x * d <= y * d
    ensures d > 0 && x * d == y * d ==> x == y
  {
    MulMonotone(d, x, y);
    if x < y {
      MulMonotone(d, x + 1, y);
    }
  }

  lemma Distribute(d: int, x: int, y: int)
    ensures (x + y) * d == d * x + y * d
  {
  }

  function Quotient(n: nat, d: nat): (q: nat)
    requires d > 0
    ensures q * d <= n < q * d + d
  {
    n / d
  }

  lemma DivideSum(a: nat, b: nat, d: nat)
    requires d > 0 && a % d == 0
    ensures (a + b) / d == a / d + b / d && (a + b) % d == b % d
  {
    var x, y := a / d, b / d;
    assert d * (x + y) == d * x + d * y;
    assert a == d * x && b == d * y + b % d;
    RemainderIsUnique(a + b, d, x + y, b % d);
  }

  /** Masking with 2^n - 1 is reduction modulo 2^n, for every word and every such mask. */
  lemma {:induction false} MaskIsModulo(x: bv64, m: bv64)
    requires IsMask(m)
    ensures Value(x & m) == Value(x) % (Value(m) + 1)
    decreases m
  {
    hide Value;
    if m == 0 {
      assert x & m == 0;
    } else {
      HalfOfMask(m);
      HalfOfAnd(x, m);
      var h := Value(x >> 1);
      var b := if x & 1 == 1 then 1 else 0;
      assert m >> 1 < m;
      MaskIsModulo(x >> 1, m >> 1);
      ValueUnfolds(x);
      ValueUnfolds(m);
      ValueUnfolds(x & m);
      ModOfDouble(h, b, Value(m >> 1) + 1);
    }
  }

  lemma ValueUnfolds(x: bv64)
    ensures Value(x) == 2 * Value(x >> 1) + (if x & 1 == 1 then 1 else 0)
  {
    if x == 0 {
      assert x >> 1 == 0;
    }
  }

  lemma FourOnes(m: bv64)
    requires m & 0xF == 0xF
    ensures Value(m) == 16 * Value(m >> 4) + 15
  {
    ShiftTwice(m);
    ValueUnfolds(m);
    ValueUnfolds(m >> 1);
    ValueUnfolds(m >> 2);
    ValueUnfolds(m >> 3);
  }

  lemma ShiftTwice(m: bv64)
    requires m & 0xF == 0xF
    ensures m & 1 == (m >> 1) & 1 == (m >> 2) & 1 == (m >> 3) & 1 == 1
    ensures (m >> 1) >> 1 == m >> 2 && (m >> 2) >> 1 == m >> 3 && (m >> 3) >> 1 == m >> 4
  {
  }

  /** Or-ing three shifted bytes adds them: the bit ranges do not meet. */
  lemma OrOfDisjointBytes(b0: bv32, b1: bv32, b2: bv32)
    requires b0 <= 0xFF && b1 <= 0xFF && b2 <= 0xFF
    ensures b0 | (b1 << 8) | (b2 << 16) == b0 + 0x100 * b1 + 0x1_0000 * b2
  {
  }
}

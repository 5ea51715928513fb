/** Division with remainder by a variable divisor, which the solver needs spelled out. */
module Arith {
  /** Offsets are 64-bit numbers. */
  const WORD64: nat := 0x1_0000_0000_0000_0000

  const MAX_UINT64: nat := 0xFFFF_FFFF_FFFF_FFFF

  /** a - b in 64-bit arithmetic. */
  function Minus(a: nat, b: nat): nat {
    (a - b) % WORD64
  }

  function Min(a: nat, b: nat): nat {
    if a < b then a else b
  }

  lemma MulNonNeg(a: nat, b: nat)
    ensures a * b >= 0
  {
  }

  lemma Distribute(a: int, b: int, d: int)
    ensures (a + b) * d == a * d + b * d
  {
  }

  lemma DivNonNeg(x: nat, d: nat)
    requires d > 0
    ensures x / d >= 0
  {
  }

  function Quotient(x: nat, d: nat): nat
    requires d > 0
  {
    x / d
  }

  lemma WholeMultiple(x: nat, d: nat)
    requires d > 0 && x % d == 0
    ensures x / d * d == x
  {
  }

  lemma SmallMod(a: nat, d: nat)
    requires a < d
    ensures a % d == a
  {
  }

  lemma MulAtLeast(k: int, d: nat)
    requires d > 0
    ensures k >= 1 ==> k * d >= d
    ensures k <= -1 ==> k * d + d <= 0
  {
    if k >= 1 {
      assert k * d == (k - 1) * d + d;
    } else if k <= -1 {
      assert k * d == (k + 1) * d - d;
      assert (-(k + 1)) * d >= 0;
    }
  }

  /** Quotient and remainder are unique. */
  lemma DivModUnique(x: int, q: int, d: nat, r: nat)
    requires d > 0 && r < d && x == q * d + r
    ensures x / d == q && x % d == r
  {
    var k := x / d - q;
    assert x == (x / d) * d + x % d;
    assert k * d == r - x % d;
    MulAtLeast(k, d);
  }

  lemma ModOfMultiple(q: int, d: nat)
    requires d > 0
    ensures (q * d) % d == 0 && (q * d) / d == q
  {
    DivModUnique(q * d, q, d, 0);
  }

  lemma ModAdd(a: int, b: int, d: nat)
    requires d > 0 && a % d == 0 && b % d == 0
    ensures (a + b) % d == 0 && (a - b) % d == 0
  {
    var p, q := a / d, b / d;
    assert a == p * d && b == q * d;
    assert a + b == (p + q) * d && a - b == (p - q) * d;
    ModOfMultiple(p + q, d);
    ModOfMultiple(p - q, d);
  }

  lemma ModMul(a: int, k: int, d: nat)
    requires d > 0 && a % d == 0
    ensures (a * k) % d == 0
  {
    var p := a / d;
    assert a == p * d;
    assert a * k == (p * k) * d;
    ModOfMultiple(p * k, d);
  }

  /** Two multiples of d that differ, differ by at least d. */
  lemma MultiplesApart(a: int, b: int, d: nat)
    requires d > 0 && a % d == 0 && b % d == 0 && a < b
    ensures a + d <= b
  {
    var p, q := a / d, b / d;
    assert a == p * d && b == q * d;
    assert b - a == (q - p) * d;
    MulAtLeast(q - p, d);
  }
}

/** The integer widths of the program, and facts about division with remainder that the
    ring indices rest on. */
module Modular {

  const U32_MAX := 0xFFFF_FFFF
  const U32_RANGE := 0x1_0000_0000
  const U64_MAX := 0xFFFF_FFFF_FFFF_FFFF

  lemma MulOutside(n: nat, k: int)
    ensures k >= 1 ==> n * k >= n
    ensures k <= -1 ==> n * k <= 0 - n
  {
    if k >= 1 {
      assert n * k == n * (k - 1) + n;
    } else if k <= -1 {
      assert n * k == n * (k + 1) - n;
    }
  }

  lemma DivModUnique(a: nat, n: nat, q: int, r: nat)
    requires r < n && a == n * q + r
    ensures a / n == q && a % n == r
  {
    assert a == n * (a / n) + a % n;
    assert n * (q - a / n) == a % n - r;
    MulOutside(n, q - a / n);
  }

  function Quotient(a: nat, b: nat): (q: nat)
    requires b >= 1
    ensures b * q <= a < b * q + b && (a >= b ==> q >= 1)
  {
    assert a == b * (a / b) + a % b;
    MulOutside(b, a / b);
    a / b
  }

  lemma MulMonotone(a: nat, b: nat, n: nat)
    requires a <= b
    ensures a * n <= b * n
  {
    assert b * n - a * n == (b - a) * n;
  }

  lemma QuotientMonotone(a: nat, b: nat, n: nat)
    requires n >= 1 && a <= b
    ensures Quotient(a, n) <= Quotient(b, n)
  {
    var q: int, p: int := Quotient(a, n), Quotient(b, n);
    assert n * (q - p) == n * q - n * p;
    MulOutside(n, q - p);
  }

  /** Numbers less than `n` apart have different remainders. */
  lemma ModDistinct(a: nat, d: nat, n: nat)
    requires 0 < d < n
    ensures a % n != (a + d) % n
  {
    var q, m := a / n, a % n;
    assert a == n * q + m;
    if m + d < n {
      DivModUnique(a + d, n, q, m + d);
    } else {
      assert n * (q + 1) == n * q + n;
      DivModUnique(a + d, n, q + 1, m + d - n);
    }
  }

  lemma ModShift(a: nat, n: nat, d: nat)
    requires n >= 1
    ensures (a + n * d) % n == a % n
  {
    var q := a / n;
    assert a == n * q + a % n;
    assert n * (q + d) == n * q + n * d;
    DivModUnique(a + n * d, n, q + d, a % n);
  }

  /** The largest number up to `top` with the remainder of `a`. */
  function Latest(top: nat, a: nat, n: nat): (b: nat)
    requires n >= 1 && a <= top
    ensures a <= b <= top < b + n && b % n == a % n
  {
    var d := (top - a) / n;
    assert top - a == n * d + (top - a) % n;
    ModShift(a, n, d);
    a + n * d
  }
}

// The binary greatest common divisor of common/hackrf_core.c.

module BinaryGcd {
  import opened Machine

  ghost predicate Divides(d: nat, n: nat) {
    exists k: nat :: Times(d, k) == n
  }

  function Times(d: nat, k: nat): nat {
    d * k
  }

  /** Common divisors of u and v are exactly the divisors of g. */
  ghost predicate IsGcd(g: nat, u: nat, v: nat) {
    Divides(g, u) && Divides(g, v) && forall d: nat :: Divides(d, u) && Divides(d, v) ==> Divides(d, g)
  }

  /** Euclid's definition by subtraction; Gcd(0, n) == Gcd(n, 0) == n. */
  function Gcd(u: nat, v: nat): nat
    decreases u + v
  {
    if u == 0 then v
    else if v == 0 then u
    else if u > v then Gcd(u - v, v)
    else Gcd(u, v - u)
  }

  lemma DividesSum(d: nat, a: nat, b: nat)
    requires Divides(d, a)
    ensures Divides(d, b) <==> Divides(d, a + b)
  {
    var i: nat :| Times(d, i) == a;
    if Divides(d, b) {
      var j: nat :| Times(d, j) == b;
      assert Times(d, i + j) == a + b;
    }
    if Divides(d, a + b) {
      var j: nat :| Times(d, j) == a + b;
      if j >= i {
        assert Times(d, j - i) == b;
      } else {
        MulAtLeast(d, i - j);
        assert d * i == d * j + d * (i - j);
        assert Times(d, 0) == b;
      }
    }
  }

  lemma DividesBasics(n: nat)
    ensures Divides(n, n) && Divides(n, 0)
  {
    assert Times(n, 1) == n && Times(n, 0) == 0;
  }

  lemma DividesAntisymmetric(a: nat, b: nat)
    requires Divides(a, b) && Divides(b, a)
    ensures a == b
  {
    var i: nat :| Times(a, i) == b;
    var j: nat :| Times(b, j) == a;
    if a > 0 && b > 0 {
      MulAtLeast(a, i);
      MulAtLeast(b, j);
    }
  }

  lemma {:induction false} GcdIsGcd(u: nat, v: nat)
    ensures IsGcd(Gcd(u, v), u, v)
    decreases u + v
  {
    var g := Gcd(u, v);
    if u == 0 || v == 0 {
      DividesBasics(g);
    } else if u > v {
      GcdIsGcd(u - v, v);
      forall d: nat | Divides(d, v) ensures Divides(d, u - v) <==> Divides(d, u) {
        DividesSum(d, v, u - v);
      }
    } else {
      GcdIsGcd(u, v - u);
      forall d: nat | Divides(d, u) ensures Divides(d, v - u) <==> Divides(d, v) {
        DividesSum(d, u, v - u);
      }
    }
  }

  /** There is only one greatest common divisor. */
  lemma GcdUnique(g: nat, u: nat, v: nat)
    requires IsGcd(g, u, v)
    ensures g == Gcd(u, v)
  {
    GcdIsGcd(u, v);
    DividesAntisymmetric(g, Gcd(u, v));
  }

  lemma GcdSymmetric(u: nat, v: nat)
    ensures Gcd(u, v) == Gcd(v, u)
  {
    GcdIsGcd(u, v);
    GcdUnique(Gcd(u, v), v, u);
  }

  lemma {:induction false} GcdScale(k: nat, u: nat, v: nat)
    requires k > 0
    ensures Gcd(k * u, k * v) == k * Gcd(u, v)
    decreases u + v
  {
    if u == 0 || v == 0 {
    } else if u > v {
      assert k * u - k * v == k * (u - v) && k * (u - v) > 0;
      GcdScale(k, u - v, v);
    } else {
      assert k * v - k * u == k * (v - u) && k * (v - u) >= 0;
      GcdScale(k, u, v - u);
    }
  }

  /** A factor two of one argument is lost when the other is odd. */
  lemma GcdHalve(u: nat, v: nat)
    requires u % 2 == 1 && v % 2 == 0
    ensures Gcd(u, v) == Gcd(u, v / 2)
  {
    GcdIsGcd(u, v);
    GcdIsGcd(u, v / 2);
    var g, h := Gcd(u, v), Gcd(u, v / 2);
    OddDividesHalf(g, u, v);
    var i: nat :| Times(h, i) == v / 2;
    assert Times(h, 2 * i) == v;
    DividesAntisymmetric(g, h);
  }

  lemma OddProduct(a: nat, b: nat)
    ensures a * b % 2 == 1 <==> a % 2 == 1 && b % 2 == 1
  {
    var h := a / 2;
    EvenPart(h, a % 2, b);
    assert a * b == (2 * h + a % 2) * b;
    if a % 2 == 1 {
      assert a * b == 2 * (h * b) + b;
    } else {
      assert a * b == 2 * (h * b);
    }
  }

  lemma EvenPart(h: nat, bit: nat, b: nat)
    ensures (2 * h + bit) * b == 2 * (h * b) + bit * b
  {
  }

  lemma OddDividesHalf(g: nat, u: nat, v: nat)
    requires u % 2 == 1 && v % 2 == 0 && Divides(g, u) && Divides(g, v)
    ensures Divides(g, v / 2)
  {
    var i: nat :| Times(g, i) == u;
    var j: nat :| Times(g, j) == v;
    OddProduct(g, i);
    OddProduct(g, j);
    assert g * j == g * (2 * (j / 2));
    assert v == 2 * (g * (j / 2));
    assert Times(g, j / 2) == v / 2;
  }

  /** If n and r have no common factor and n divides c * r, then n divides c. */
  lemma CoprimeDivides(n: nat, r: nat, c: nat)
    requires c > 0 && Gcd(n, r) == 1 && Divides(n, c * r)
    ensures Divides(n, c)
  {
    GcdScale(c, n, r);
    DividesMultiple(n, c);
    CommonDivides(n, c * n, c * r);
  }

  lemma DividesMultiple(n: nat, c: nat)
    ensures Divides(n, c * n)
  {
    assert Times(n, c) == c * n;
  }

  lemma CommonDivides(d: nat, u: nat, v: nat)
    requires Divides(d, u) && Divides(d, v)
    ensures Divides(d, Gcd(u, v))
  {
    GcdIsGcd(u, v);
  }

  lemma ShiftBoth(s: nat, u: nat, v: nat)
    requires u % 2 == 0 && v % 2 == 0
    ensures Pow2(s + 1) * Gcd(u / 2, v / 2) == Pow2(s) * Gcd(u, v)
  {
    GcdScale(2, u / 2, v / 2);
    SwapFactor(Pow2(s), 2, Gcd(u / 2, v / 2));
  }

  /** Shifting the odd gcd back up cannot overflow: the result divides u0. */
  lemma FinalShiftFits(u0: u32, v0: u32, r: nat)
    requires u0 > 0 && r == Gcd(u0, v0)
    ensures r < W32
  {
    GcdIsGcd(u0, v0);
    DividesAtMost(r, u0);
  }

  /** gcd: the other argument when one is zero, else the greatest common divisor, for all inputs. */
  method BinGcd(u0: u32, v0: u32) returns (r: u32)
    ensures r == Gcd(u0, v0) && IsGcd(r, u0, v0)
  {
    GcdIsGcd(u0, v0);
    if u0 == 0 || v0 == 0 {
      return if u0 == 0 then v0 else u0;  // u | v
    }
    var u: nat, v: nat, s: nat := u0, v0, 0;
    while u % 2 == 0 && v % 2 == 0
      invariant u > 0 && v > 0
      invariant Pow2(s) * Gcd(u, v) == Gcd(u0, v0)
      decreases u
    {
      ShiftBoth(s, u, v);
      u, v, s := u / 2, v / 2, s + 1;
    }
    ghost var g := Gcd(u, v);
    while u % 2 == 0
      invariant u > 0 && v > 0 && (u % 2 == 1 || v % 2 == 1)
      invariant Gcd(u, v) == g
      decreases u
    {
      GcdSymmetric(u, v);
      GcdHalve(v, u);
      GcdSymmetric(u / 2, v);
      u := u / 2;
    }
    u := OddPhase(u, v);
    FinalShiftFits(u0, v0, Pow2(s) * u);
    r := Pow2(s) * u;
  }

  /** The subtract-and-shift loop on an odd first argument. */
  method OddPhase(u0: nat, v0: nat) returns (u: nat)
    requires u0 % 2 == 1 && v0 > 0
    ensures u == Gcd(u0, v0)
  {
    u := u0;
    var v := v0;
    var again := true;
    while again
      invariant u % 2 == 1 && v >= 0 && (again <==> v > 0)
      invariant Gcd(u, v) == Gcd(u0, v0)
      decreases u + v
    {
      while v % 2 == 0
        invariant v > 0 && Gcd(u, v) == Gcd(u0, v0)
        decreases v
      {
        GcdHalve(u, v);
        v := v / 2;
      }
      if u > v {
        GcdSymmetric(u, v);
        u, v := v, u;
      }
      v := v - u;
      again := v != 0;
    }
  }

  lemma DividesAtMost(d: nat, n: nat)
    requires n > 0 && Divides(d, n)
    ensures 0 < d <= n
  {
    var k: nat :| Times(d, k) == n;
    MulAtLeast(d, k);
  }
}

// Fixed-width machine arithmetic.
//
// The firmware computes in uint32_t and uint64_t. Values are modelled as
// integers, and every operation that can leave its width is wrapped here
// explicitly. Shifts by k are multiplications and divisions by Pow2(k).

module Machine {
  const W32: int := 0x1_0000_0000
  const W64: int := 0x1_0000_0000_0000_0000

  type u8 = x: int | 0 <= x < 0x100
  type u16 = x: int | 0 <= x < 0x1_0000
  type u32 = x: int | 0 <= x < 0x1_0000_0000
  type u64 = x: int | 0 <= x < 0x1_0000_0000_0000_0000

  /** Conversion to uint32_t: reduction modulo 2^32, also of negative differences. */
  function U32(x: int): u32 {
    if 0 <= x < W32 then x else x % W32
  }

  /** Conversion to uint64_t. */
  function U64(x: int): u64 {
    if 0 <= x < W64 then x else x % W64
  }

  function Pow2(k: nat): (p: nat)
    ensures p > 0
  {
    if k == 0 then 1 else 2 * Pow2(k - 1)
  }

  /** x >> k on uint64_t. */
  function Shr(x: u64, k: nat): u64 {
    DivAtMost(x, Pow2(k));
    x / Pow2(k)
  }

  /** x << k on uint64_t: the bits shifted out are lost. */
  function Shl(x: u64, k: nat): u64 {
    U64(x * Pow2(k))
  }

  lemma DivAtMost(x: nat, d: nat)
    requires d > 0
    ensures 0 <= x / d <= x
  {
    assert x == d * (x / d) + x % d;
    if x / d > x {
      MulAtLeast(x / d, d);
    }
  }

  lemma {:induction false} Pow2Add(a: nat, b: nat)
    ensures Pow2(a + b) == Pow2(a) * Pow2(b)
  {
    if a > 0 {
      Pow2Add(a - 1, b);
      assert Pow2(a + b) == 2 * (Pow2(a - 1) * Pow2(b));
    }
  }

  lemma {:induction false} Pow2Monotone(a: nat, b: nat)
    requires a <= b
    ensures Pow2(a) <= Pow2(b)
  {
    if a < b {
      Pow2Monotone(a, b - 1);
    }
  }

  lemma Pow2Values()
    ensures Pow2(6) == 0x40 && Pow2(8) == 0x100 && Pow2(16) == 0x1_0000 && Pow2(19) == 0x8_0000 && Pow2(20) == 0x10_0000
  {
    assert Pow2(6) == 64;
    assert Pow2(8) == 256;
    Pow2Add(8, 8);
    assert Pow2(19) == 8 * Pow2(16);
  }

  /** The quotient is the only q with n == d * q + r and 0 <= r < d. */
  lemma DivUnique(n: int, d: int, q: int, r: int)
    requires 0 <= r < d && n == d * q + r
    ensures n / d == q && n % d == r
  {
    var q', r' := n / d, n % d;
    assert n == d * q' + r';
    assert d * (q - q') == r' - r;
    if q > q' {
      MulAtLeast(d, q - q');
    } else if q < q' {
      MulAtLeast(d, q' - q);
    }
  }

  lemma MulAtLeast(d: int, k: int)
    requires d >= 0 && k >= 1
    ensures d * k >= d
  {
  }

  lemma MulMonotone(k: int, x: int, y: int)
    requires k >= 0 && x <= y
    ensures k * x <= k * y
  {
  }

  lemma LessFromMul(k: int, x: int, y: int)
    requires k >= 0 && k * x < k * y
    ensures x < y
  {
    if x >= y {
      MulMonotone(k, y, x);
    }
  }

  lemma MulCancel(k: int, x: int, y: int)
    requires k > 0 && k * x == k * y
    ensures x == y
  {
  }

  /** Dividing in two stages is dividing by the product. */
  lemma DivDiv(n: int, a: int, b: int)
    requires n >= 0 && a > 0 && b > 0
    ensures a * b > 0 && n / a / b == n / (a * b) && n % (a * b) == a * (n / a % b) + n % a
  {
    var q, r := n / a, n % a;
    var q2, r2 := q / b, q % b;
    Distribute(a, b, q2, r2);
    assert n == (a * b) * q2 + (a * r2 + r);
    MulMonotone(a, r2, b - 1);
    Distribute(a, b, 1, -1);
    MulMonotone(a, 0, r2);
    MulMonotone(a, 1, b);
    DivUnique(n, a * b, q2, a * r2 + r);
  }

  lemma Distribute(a: int, b: int, x: int, y: int)
    ensures a * (b * x + y) == (a * b) * x + a * y
  {
  }

  lemma SwapFactor(x: int, g: int, y: int)
    ensures x * (g * y) == (g * x) * y
  {
  }

  lemma DivShift(n: int, d: int, c: int)
    requires d > 0
    ensures n / d + c == (n + d * c) / d
  {
    var q, r := n / d, n % d;
    assert n + d * c == d * (q + c) + r;
    DivUnique(n + d * c, d, q + c, r);
  }

  /** A common factor cancels. */
  lemma DivCancel(n: int, d: int, k: int)
    requires d > 0 && k > 0
    ensures d * k > 0 && (n * k) / (d * k) == n / d
  {
    var q, r := n / d, n % d;
    calc {
      n * k;
      (d * q + r) * k;
      d * q * k + r * k;
      { MulSwap(d, q, k); }
      (d * k) * q + r * k;
    }
    assert r * k < d * k by { MulLess(r, d, k); }
    assert 0 <= r * k by { MulLess(-1, r, k); }
    DivUnique(n * k, d * k, q, r * k);
  }

  lemma MulSwap(a: int, b: int, c: int)
    ensures a * b * c == (a * c) * b
  {
  }

  lemma MulLess(a: int, b: int, k: int)
    requires a < b && k > 0
    ensures a * k < b * k && (a == -1 ==> 0 <= b * k)
  {
  }
}

// The fractional sample clock divider (common/hackrf_core.c,
// sample_rate_frac_set): 800 MHz * denom / num is approximated as a + b/c and
// encoded for the clock generator.

module SampleRate {
  import opened Machine
  import opened BinaryGcd
  import Si5351

  const VCO_FREQ: int := 800_000_000
  const FRAC_LIMIT: int := 0x10_0000 // 2^20

  /** The denominator of rem / num in lowest terms (1 when rem is 0). */
  function ReducedDenominator(rem: nat, num: nat): nat
    requires num > 0
  {
    GcdPositive(rem, num);
    num / Gcd(rem, num)
  }

  lemma GcdPositive(u: nat, v: nat)
    requires v > 0
    ensures Gcd(u, v) > 0
  {
    GcdIsGcd(u, v);
    DividesAtMost(Gcd(u, v), v);
  }

  /** Dividing by the gcd leaves exact, coprime quotients. */
  lemma Reduce(u: nat, v: nat)
    requires v > 0
    ensures var g := Gcd(u, v); g > 0 && u == g * (u / g) && v == g * (v / g) && Gcd(u / g, v / g) == 1 && v / g > 0
  {
    GcdPositive(u, v);
    GcdIsGcd(u, v);
    var g := Gcd(u, v);
    var i: nat :| Times(g, i) == u;
    var j: nat :| Times(g, j) == v;
    DivUnique(u, g, i, 0);
    DivUnique(v, g, j, 0);
    GcdScale(g, i, j);
    assert g * Gcd(i, j) == g * 1;
    MulCancel(g, Gcd(i, j), 1);
  }

  /** b/c is rem/num, exactly or up to 1/(2^20 - 1) from below. */
  ghost predicate Approximates(rem: nat, num: nat, b: nat, c: nat)
    requires num > 0
  {
    && b < c < 0x10_0000
    && (if ReducedDenominator(rem, num) < 0x10_0000 then b * num == rem * c
        else b * num < rem * c && (rem * c - b * num) * 0xF_FFFF < num * c)
  }

  /** No fraction with a small denominator equals one whose lowest-terms denominator is large. */
  lemma NoExactFraction(rem: nat, num: nat, b: nat, c: nat)
    requires num > 0 && 0 < c < FRAC_LIMIT <= ReducedDenominator(rem, num)
    ensures b * num != rem * c
  {
    Reduce(rem, num);
    var g := Gcd(rem, num);
    if b * num == rem * c {
      ReducedEquality(g, rem / g, num / g, b, c);
      LargeCoprime(rem / g, num / g, b, c);
    }
  }

  lemma ReducedEquality(g: nat, r: nat, n: nat, b: nat, c: nat)
    requires g > 0 && b * (g * n) == g * r * c
    ensures b * n == c * r
  {
    assert g * (b * n) == g * (c * r);
    MulCancel(g, b * n, c * r);
  }

  lemma LargeCoprime(r: nat, n: nat, b: nat, c: nat)
    requires Gcd(r, n) == 1 && 0 < c < n
    ensures b * n != c * r
  {
    if b * n == c * r {
      GcdSymmetric(r, n);
      assert Times(n, b) == c * r;
      CoprimeDivides(n, r, c);
      DividesAtMost(n, c);
    }
  }

  lemma FloorFraction(r: nat, n: nat, c: nat)
    requires r < n && 0 < c
    ensures var b := c * r / n; 0 <= b < c && b * n <= r * c < b * n + n
  {
    var b := c * r / n;
    assert c * r == n * b + c * r % n;
    MulLess(r, n, c);
    LessFromMul(n, b, c);
    LessFromMul(n, -1, b);
  }

  /** Cross-multiplied statements survive reducing b/c and scaling r/n. */
  lemma ScaleBound(b1: nat, c1: nat, g: nat, r: nat, n: nat, k: nat)
    requires g > 0 && k > 0 && c1 > 0 && g * b1 * n <= r * (g * c1) < g * b1 * n + n
    ensures b1 * (k * n) <= (k * r) * c1
    ensures ((k * r) * c1 - b1 * (k * n)) * (g * c1) < (k * n) * c1
  {
    var e := r * c1 - b1 * n;
    ErrorTimesG(b1, c1, g, r, n);
    LessFromMul(g, -1, e);
    assert (k * r) * c1 - b1 * (k * n) == k * e;
    MulMonotone(k, 0, e);
    ScaleStrict(e, g, c1, n, k);
  }

  lemma ErrorTimesG(b1: nat, c1: nat, g: nat, r: nat, n: nat)
    ensures g * (r * c1 - b1 * n) == r * (g * c1) - g * b1 * n
  {
  }

  lemma ScaleStrict(e: nat, g: nat, c1: nat, n: nat, k: nat)
    requires k > 0 && c1 > 0 && g * e < n
    ensures (k * e) * (g * c1) < (k * n) * c1
  {
    var m := k * c1;
    assert (k * e) * (g * c1) == (g * e) * m;
    MulLess(g * e, n, m);
    assert n * m == (k * n) * c1;
  }

  /** The fraction search. Its result is meaningful when rem0 is a remainder modulo rateNum. */
  method BestFraction(rem0: u32, rateNum: u32) returns (b: u32, c: u32)
    requires rateNum > 0
    ensures c > 0
    ensures rem0 < rateNum ==> Approximates(rem0, rateNum, b, c)
  {
    if rem0 == 0 {
      ZeroRemainder(rateNum);
      return 0, 1;
    }
    var g := BinGcd(rem0, rateNum);
    Reduce(rem0, rateNum);
    DivAtMost(rem0, g);
    DivAtMost(rateNum, g);
    var rem, num := rem0 / g, rateNum / g;
    if num < FRAC_LIMIT {
      b, c := rem, num;
      if rem0 < rateNum {
        ExactFraction(rem0, rateNum);
      }
    } else {
      c := FRAC_LIMIT - 1;
      b := U32(c * rem / num);
      var h := BinGcd(b, c);
      Reduce(b, c);
      if rem0 < rateNum {
        NearFraction(rem0, rateNum);
      }
      DivAtMost(b, h);
      DivAtMost(c, h);
      b, c := b / h, c / h;
    }
  }

  lemma ZeroRemainder(num: nat)
    requires num > 0
    ensures Approximates(0, num, 0, 1)
  {
    DivUnique(num, num, 1, 0);
  }

  lemma ExactFraction(rem0: nat, num0: nat)
    requires rem0 < num0 && ReducedDenominator(rem0, num0) < FRAC_LIMIT
    ensures var g := Gcd(rem0, num0); g > 0 && Approximates(rem0, num0, rem0 / g, num0 / g)
  {
    Reduce(rem0, num0);
    var g := Gcd(rem0, num0);
    var rem, num := rem0 / g, num0 / g;
    LessFromMul(g, rem, num);
    SwapFactor(rem, g, num);
  }

  lemma NearFraction(rem0: nat, num0: nat)
    requires rem0 < num0 && FRAC_LIMIT <= ReducedDenominator(rem0, num0)
    ensures var g := Gcd(rem0, num0);
            && g > 0 && num0 / g > 0
            && var b := U32((FRAC_LIMIT - 1) * (rem0 / g) / (num0 / g));
            && var h := Gcd(b, FRAC_LIMIT - 1);
            && h > 0 && Approximates(rem0, num0, b / h, (FRAC_LIMIT - 1) / h)
  {
    Reduce(rem0, num0);
    var g := Gcd(rem0, num0);
    var rem, num, c := rem0 / g, num0 / g, FRAC_LIMIT - 1;
    LessFromMul(g, rem, num);
    FloorFraction(rem, num, c);
    var b := c * rem / num;
    var h := Gcd(b, c);
    Reduce(b, c);
    ScaleBound(b / h, c / h, h, rem, num, g);
    DivAtMost(c, h);
    LessFromMul(h, b / h, c / h);
    NoExactFraction(rem0, num0, b / h, c / h);
  }

  /** If the integer quotient fits 32 bits, the wrapped subtraction is still the true remainder. */
  lemma WrappedRemainder(product: nat, num: nat)
    requires 0 < num < W32 && product < W64 && product / num < W32
    ensures 0 <= product / num && U32(U64(product - U32(product / num * num))) == product % num
  {
    var q := product / num;
    assert product == q * num + product % num;
    DivAtMost(product, num);
    WrapTwice(product, q * num);
  }

  lemma WrapTwice(x: nat, y: nat)
    requires y <= x < W64 && x - y < W32
    ensures U32(U64(x - U32(y))) == x - y
  {
    var k := y / W32;
    assert U32(y) == y - W32 * k;
    var d := x - U32(y);
    assert d == (x - y) + W32 * k;
    assert 0 <= d < W64;
    DivUnique(d, W32, k, x - y);
  }

  /** The chip's divider ((P1 + 512) / 128 + P2 / (128 * P3)) equals a + b/c. */
  ghost predicate DividesBy(ms: Si5351.Multisynth, a: nat, b: nat, c: nat) {
    ms.p3 > 0 && ((ms.p1 + 512) * ms.p3 + ms.p2) * c == 128 * ms.p3 * (a * c + b)
  }

  /** The parameter P1 as the source computes it on uint32_t. */
  function EncodeP1(a: u32, b: u32, c: u32): u32
    requires c > 0
  {
    U32(U32(128 * a) + U32(128 * b) / c - 512)
  }

  function EncodeP2(b: u32, c: u32): (p2: u32)
    requires c > 0
    ensures p2 < c
  {
    U32(128 * b) % c
  }

  /** The encoding of a + b/c is read back exactly if and only if 4 <= a <= 2051. */
  lemma EncodingRoundTrip(a: u32, b: u32, c: u32, rDiv: u8)
    requires b < c < FRAC_LIMIT
    ensures 4 <= a <= 2051 <==>
            DividesBy(Si5351.Unpack(Si5351.Pack(EncodeP1(a, b, c), EncodeP2(b, c), c, rDiv)), a, b, c)
  {
    var p1, p2 := EncodeP1(a, b, c), EncodeP2(b, c);
    var ms := Si5351.Multisynth(p1 % 0x4_0000, p2, c, rDiv % 8);
    EncodedDivider(ms, a, b, c);
    ReadBack(p1, p2, c, rDiv, ms);
  }

  lemma ReadBack(p1: u32, p2: u32, p3: u32, rDiv: u8, ms: Si5351.Multisynth)
    requires p2 < FRAC_LIMIT && p3 < FRAC_LIMIT && ms == Si5351.Multisynth(p1 % 0x4_0000, p2, p3, rDiv % 8)
    ensures Si5351.Unpack(Si5351.Pack(p1, p2, p3, rDiv)) == ms
  {
    hide Si5351.Pack, Si5351.Unpack;
    Si5351.UnpackPack(p1, p2, p3, rDiv);
  }

  lemma EncodedDivider(ms: Si5351.Multisynth, a: u32, b: u32, c: u32)
    requires b < c < FRAC_LIMIT
    requires ms.p1 == EncodeP1(a, b, c) % 0x4_0000 && ms.p2 == EncodeP2(b, c) && ms.p3 == c
    ensures 4 <= a <= 2051 <==> DividesBy(ms, a, b, c)
  {
    FloorFraction128(b, c);
    var q := 128 * b / c;
    DecodedP1(a, q);
    CrossMultiplied(ms.p1, a, b, c, q, ms.p2);
  }

  lemma FloorFraction128(b: nat, c: nat)
    requires b < c
    ensures 0 <= 128 * b / c < 128 && 128 * b == c * (128 * b / c) + 128 * b % c
  {
    var q := 128 * b / c;
    assert 128 * b == c * q + 128 * b % c;
    LessFromMul(c, q, 128);
    LessFromMul(c, -1, q);
  }

  lemma DecodedP1(a: u32, q: nat)
    requires q < 128
    ensures U32(U32(128 * a) + q - 512) % 0x4_0000 + 512 == 128 * a + q <==> 4 <= a <= 2051
  {
  }

  lemma CrossMultiplied(m: nat, a: nat, b: nat, c: nat, q: nat, p2: nat)
    requires c > 0 && 128 * b == c * q + p2
    ensures m + 512 == 128 * a + q <==> ((m + 512) * c + p2) * c == 128 * c * (a * c + b)
  {
    assert 128 * c * (a * c + b) == c * (128 * a * c + 128 * b) == c * ((128 * a + q) * c + p2);
    if ((m + 512) * c + p2) * c == 128 * c * (a * c + b) {
      MulCancel(c, (m + 512) * c + p2, (128 * a + q) * c + p2);
      MulCancel(c, m + 512, 128 * a + q);
    }
  }

  /** a + b/c against 800 MHz * denom / num: exact when the reduced denominator is below 2^20,
      and otherwise below it by less than 1 / (2^20 - 1). */
  ghost predicate Divider(num: nat, denom: nat, a: nat, b: nat, c: nat)
    requires num > 0
  {
    a == 800_000_000 * denom / num && Approximates(800_000_000 * denom % num, num, b, c)
  }

  /** The same statement about the whole divider instead of its fraction, in both directions. */
  lemma DividerError(num: nat, denom: nat, a: nat, b: nat, c: nat)
    requires num > 0 && Divider(num, denom, a, b, c)
    ensures 0 <= VCO_FREQ * denom * c - (a * c + b) * num
    ensures (VCO_FREQ * denom * c - (a * c + b) * num) * (FRAC_LIMIT - 1) < num * c
    ensures (a * c + b) * num == VCO_FREQ * denom * c
            <==> ReducedDenominator(VCO_FREQ * denom % num, num) < FRAC_LIMIT
  {
    var product := VCO_FREQ * denom;
    WholeDivider(product, num, a, product % num, b, c);
    MulLess(0, num, c);
  }

  lemma WholeDivider(product: nat, num: nat, a: nat, rem: nat, b: nat, c: nat)
    requires product == num * a + rem
    ensures product * c - (a * c + b) * num == rem * c - b * num
  {
    assert product * c == (num * a) * c + rem * c;
    assert (a * c + b) * num == (num * a) * c + b * num;
  }

  /** Integer mode needs an even integer divider. */
  predicate EvenInteger(a: u32, b: u32) {
    a % 2 == 0 && b == 0
  }

  /** The chip's divider is an even integer exactly when a is even and b is zero. */
  lemma EvenDivider(a: u32, b: u32, c: u32, rDiv: u8)
    requires b < c < FRAC_LIMIT && 4 <= a <= 2051
    ensures var ms := Si5351.Unpack(Si5351.Pack(EncodeP1(a, b, c), EncodeP2(b, c), c, rDiv));
            ms.p2 == 0 && (ms.p1 + 512) % 256 == 0 <==> EvenInteger(a, b)
  {
    var p1, p2 := EncodeP1(a, b, c), EncodeP2(b, c);
    ReadBack(p1, p2, c, rDiv, Si5351.Multisynth(p1 % 0x4_0000, p2, c, rDiv % 8));
    FloorFraction128(b, c);
    DecodedP1(a, 128 * b / c);
    EvenSum(a, 128 * b / c, b, c);
  }

  lemma EvenSum(a: nat, q: nat, b: nat, c: nat)
    requires b < c && q == 128 * b / c < 128 && 128 * b == c * q + 128 * b % c
    ensures 128 * b % c == 0 && (128 * a + q) % 256 == 0 <==> a % 2 == 0 && b == 0
  {
    if q == 0 && 128 * b % c == 0 {
      assert b == 0;
    }
    if b == 0 {
      assert q == 0 && 128 * b % c == 0;
    }
  }

  /** The sample clocks that are not fed here: on r9 they are left alone, elsewhere cleared. */
  ghost predicate Others(clockGen: Si5351.ClockGenerator, isR9: bool, ms0: seq<u8>, ms2: seq<u8>)
    requires clockGen.Valid()
    reads clockGen
  {
    if isR9 then clockGen.At(0) == ms0 && clockGen.At(2) == ms2
    else clockGen.At(1) == clockGen.At(2) == Si5351.Pack(0, 0, 0, 0)
  }

  /** sample_rate_frac_set. The multisynth that feeds the clocks is in integer mode exactly for an even
      integer, except on revision r9, where its mode is whatever it was. The divider fits when
      800 MHz * denom / num lies in [4, 2052). */
  method FracSet(clockGen: Si5351.ClockGenerator, rateNum: u32, rateDenom: u32, isR9: bool)
    returns (a: u32, b: u32, c: u32)
    requires clockGen.Valid() && rateNum > 0
    modifies clockGen
    ensures clockGen.Valid() && c > 0
    ensures VCO_FREQ * rateDenom / rateNum < W32 ==> Divider(rateNum, rateDenom, a, b, c)
    ensures VCO_FREQ * rateDenom / rateNum < W32 ==>
              (4 <= a <= 2051 <==> DividesBy(Si5351.Unpack(clockGen.At(if isR9 then 1 else 0)), a, b, c))
    ensures Si5351.Unpack(clockGen.At(if isR9 then 1 else 0)).rDiv == if isR9 then 0 else 1
    ensures Others(clockGen, isR9, old(clockGen.At(0)), old(clockGen.At(2)))
    ensures forall m :: 3 <= m < 6 ==> clockGen.At(m) == old(clockGen.At(m))
    ensures clockGen.IntMode(0) <==> EvenInteger(a, b)
    ensures clockGen.IntMode(1) == old(clockGen.IntMode(1))
    ensures (clockGen.IntMode(if isR9 then 1 else 0) <==> EvenInteger(a, b))
            <==> !isR9 || (old(clockGen.IntMode(1)) <==> EvenInteger(a, b))
  {
    hide Si5351.Pack, Si5351.Unpack, EncodeP1, EncodeP2;
    a, b, c := FindDivider(rateNum, rateDenom);
    SetDivider(clockGen, a, b, c, isR9);
    Si5351.UnpackPack(EncodeP1(a, b, c), EncodeP2(b, c), c, if isR9 then 0 else 1);
    if b < c < FRAC_LIMIT {
      EncodingRoundTrip(a, b, c, if isR9 then 0 else 1);
    }
  }

  /** The part that writes to the chip. */
  method SetDivider(clockGen: Si5351.ClockGenerator, a: u32, b: u32, c: u32, isR9: bool)
    requires clockGen.Valid() && c > 0
    modifies clockGen
    ensures clockGen.Valid()
    ensures clockGen.At(if isR9 then 1 else 0)
            == Si5351.Pack(EncodeP1(a, b, c), EncodeP2(b, c), c, if isR9 then 0 else 1)
    ensures Others(clockGen, isR9, old(clockGen.At(0)), old(clockGen.At(2)))
    ensures forall m :: 3 <= m < 6 ==> clockGen.At(m) == old(clockGen.At(m))
    ensures clockGen.IntMode(0) <==> EvenInteger(a, b)
    ensures clockGen.IntMode(1) == old(clockGen.IntMode(1))
  {
    hide Si5351.Pack, EncodeP1, EncodeP2;
    clockGen.SetIntMode(0, !(a % 2 == 1 || b != 0));
    ghost var mode0, mode1 := clockGen.regs[..42][16], clockGen.regs[..42][17];
    ProgramMultisynths(clockGen, EncodeP1(a, b, c), EncodeP2(b, c), c, isR9);
    assert clockGen.regs[..42][16] == mode0 && clockGen.regs[..42][17] == mode1;
  }

  /** The sample clock multisynth is the only one on revision r9, and the source of three clocks elsewhere. */
  method ProgramMultisynths(clockGen: Si5351.ClockGenerator, p1: u32, p2: u32, p3: u32, isR9: bool)
    requires clockGen.Valid()
    modifies clockGen
    ensures clockGen.Valid() && clockGen.regs[..42] == old(clockGen.regs[..42])
    ensures clockGen.At(if isR9 then 1 else 0) == Si5351.Pack(p1, p2, p3, if isR9 then 0 else 1)
    ensures Others(clockGen, isR9, old(clockGen.At(0)), old(clockGen.At(2)))
    ensures forall m :: 3 <= m < 6 ==> clockGen.At(m) == old(clockGen.At(m))
  {
    if isR9 {
      clockGen.ConfigureMultisynth(1, p1, p2, p3, 0);
    } else {
      clockGen.ConfigureMultisynth(0, p1, p2, p3, 1);
      clockGen.ConfigureMultisynth(1, 0, 0, 0, 0);
      clockGen.ConfigureMultisynth(2, 0, 0, 0, 0);
    }
  }

  /** Integer part, wrapped remainder and fraction. */
  method FindDivider(rateNum: u32, rateDenom: u32) returns (a: u32, b: u32, c: u32)
    requires rateNum > 0
    ensures c > 0
    ensures VCO_FREQ * rateDenom / rateNum < W32 ==> Divider(rateNum, rateDenom, a, b, c)
  {
    var product := VCO_FREQ * rateDenom;
    a := U32(product / rateNum);
    var rem := U32(U64(product - U32(a * rateNum)));
    if product / rateNum < W32 {
      WrappedRemainder(product, rateNum);
    }
    b, c := BestFraction(rem, rateNum);
  }
}

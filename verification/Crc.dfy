// The CRC-32 of common/crc.c: a shift register that divides the message by the
// CRC-32 generator polynomial (section 8 of RFC 1952).
//
// A polynomial over GF(2) is the sequence of its coefficients, highest degree
// first. The register is the sequence of its bits, least significant bit first:
// the algorithm is bit-reversed, so bit 0 is the coefficient of x^31.

module Crc {
  import opened Bytes

  type Word = w: seq<bool> | |w| == 32 witness Zeros(32)

  /** 0xedb88320, least significant byte first. */
  const REVERSED_POLYNOMIAL: seq<bv8> := [0x20, 0x83, 0xb8, 0xed]

  const POLY: Word := Bits(REVERSED_POLYNOMIAL)
  const ONES: Word := Bits([0xff, 0xff, 0xff, 0xff])

  /** x^32 + x^26 + ... + 1: the exponents below 32 of the CRC-32 generator. */
  const GENERATOR: set<int> := {26, 23, 22, 16, 12, 11, 10, 8, 7, 5, 4, 2, 1, 0}

  /** The constant is the generator's coefficient list, x^31 at bit 0. */
  lemma PolyIsGenerator(i: nat)
    requires i < 32
    ensures POLY[i] <==> 31 - i in GENERATOR
  {
    var b := REVERSED_POLYNOMIAL[i / 8];
    assert POLY[i] == BitOf(b, i % 8);
  }

  /** One iteration of the bit loop. */
  function Step(r: Word, bitIn: bool): Word {
    var bitOut := r[0] != bitIn;
    var shifted := r[1..] + [false];
    if bitOut then Xor(shifted, POLY) else shifted
  }

  function Run(r: Word, bits: seq<bool>): Word
    decreases |bits|
  {
    if bits == [] then r else Run(Step(r, bits[0]), bits[1..])
  }

  /** Updating with one chunk after another is updating with their concatenation. */
  lemma {:induction false} RunConcat(r: Word, a: seq<bool>, b: seq<bool>)
    ensures Run(r, a + b) == Run(Run(r, a), b)
    decreases |a|
  {
    if a == [] {
      assert a + b == b;
    } else {
      assert (a + b)[1..] == a[1..] + b;
      RunConcat(Step(r, a[0]), a[1..], b);
    }
  }

  lemma RunSnoc(r: Word, bits: seq<bool>, b: bool)
    ensures Run(r, bits + [b]) == Step(Run(r, bits), b)
  {
    RunConcat(r, bits, [b]);
    assert Run(Run(r, bits), [b]) == Run(Step(Run(r, bits), b), []);
  }

  lemma RunNext(r: Word, bits: seq<bool>, n: nat)
    requires n < |bits|
    ensures Run(r, bits[..n + 1]) == Step(Run(r, bits[..n]), bits[n])
  {
    RunSnoc(r, bits[..n], bits[n]);
    assert bits[..n + 1] == bits[..n] + [bits[n]];
  }

  function DigestOf(bits: seq<bool>): Word {
    Xor(Run(ONES, bits), ONES)
  }

  lemma OnesAreSet(i: nat)
    requires i < 32
    ensures ONES[i]
  {
    assert ONES[i] == BitOf(0xff, i % 8);
  }

  /** The digest is the complement of the register. */
  lemma DigestBit(bits: seq<bool>, i: nat)
    requires i < 32
    ensures DigestOf(bits)[i] == !Run(ONES, bits)[i]
  {
    hide Run;
    OnesAreSet(i);
  }

  // ----- polynomial division

  /** The product of the quotient polynomial q with the generator; it has |q| + 32 coefficients. */
  function Multiple(q: seq<bool>): (p: seq<bool>)
    ensures |p| == |q| + 32
  {
    if q == [] then Zeros(32)
    else Times(q[0], POLY, Multiple(q[1..]))
  }

  /** rem is a remainder of dividing the polynomial p by the generator. */
  ghost predicate IsRemainder(p: seq<bool>, rem: Word)
    requires |p| >= 32
  {
    exists q: seq<bool> :: |q| == |p| - 32 && Division(p, q, rem)
  }

  predicate Division(p: seq<bool>, q: seq<bool>, rem: Word)
    requires |p| == |q| + 32
  {
    p == Xor(Multiple(q), Zeros(|q|) + rem)
  }

  /** The quotient bits: what the loop shifts out. */
  function Quotient(r: Word, bits: seq<bool>): (q: seq<bool>)
    ensures |q| == |bits|
    decreases |bits|
  {
    if bits == [] then [] else [r[0] != bits[0]] + Quotient(Step(r, bits[0]), bits[1..])
  }

  /** The message times x^32, plus the initial register over its first 32 coefficients. */
  function Dividend(r: Word, bits: seq<bool>): (p: seq<bool>)
    ensures |p| == |bits| + 32
  {
    Xor(bits + Zeros(32), r + Zeros(|bits|))
  }

  /** The register after the loop is the remainder. */
  lemma {:induction false} LoopDivides(r: Word, bits: seq<bool>)
    ensures Division(Dividend(r, bits), Quotient(r, bits), Run(r, bits))
    decreases |bits|
  {
    if bits == [] {
      assert Dividend(r, bits) == r;
      assert Xor(Zeros(32), Zeros(0) + r) == r;
    } else {
      LoopDivides(Step(r, bits[0]), bits[1..]);
      DivisionStep(r, bits);
    }
  }

  lemma DivisionStep(r: Word, bits: seq<bool>)
    requires bits != []
    requires Division(Dividend(Step(r, bits[0]), bits[1..]), Quotient(Step(r, bits[0]), bits[1..]), Run(r, bits))
    ensures Division(Dividend(r, bits), Quotient(r, bits), Run(r, bits))
  {
    var p, p' := Dividend(r, bits), Dividend(Step(r, bits[0]), bits[1..]);
    forall i | 0 <= i < |p|
      ensures p[i] == if i == 0 then r[0] != bits[0] else p'[i - 1] != (i <= 32 && (r[0] != bits[0]) && POLY[i - 1])
    {
      DividendAt(r, bits, i);
    }
    PrependQuotient(p, p', r[0] != bits[0], Quotient(Step(r, bits[0]), bits[1..]), Run(r, bits));
  }

  lemma PrependQuotient(p: seq<bool>, p': seq<bool>, lead: bool, q': seq<bool>, rem: Word)
    requires |p'| == |q'| + 32 && |p| == |p'| + 1 && Division(p', q', rem)
    requires forall i :: 0 <= i < |p| ==>
               p[i] == if i == 0 then lead else p'[i - 1] != (i <= 32 && lead && POLY[i - 1])
    ensures Division(p, [lead] + q', rem)
  {
    hide Multiple;
    var q := [lead] + q';
    assert q[1..] == q';
    var rest := Zeros(|q|) + rem;
    forall i | 0 <= i < |p| ensures p[i] == (Multiple(q)[i] != rest[i]) {
      MultipleAt(q, i);
      if i > 0 {
        assert p'[i - 1] == (Multiple(q')[i - 1] != (Zeros(|q'|) + rem)[i - 1]);
      }
    }
    SameSum(p, Multiple(q), rest);
  }

  lemma MultipleAt(q: seq<bool>, i: nat)
    requires q != [] && i < |q| + 32
    ensures Multiple(q)[i] ==
            if i == 0 then q[0] else Multiple(q[1..])[i - 1] != (i <= 32 && q[0] && POLY[i - 1])
  {
    var m := Multiple(q[1..]);
    assert Multiple(q) == Times(q[0], POLY, m);
    TimesAt(q[0], POLY, m, i);
  }

  /** One coefficient more of the quotient. */
  function Times(lead: bool, poly: Word, m: seq<bool>): (p: seq<bool>)
    requires |m| >= 32
    ensures |p| == |m| + 1
  {
    Xor((if lead then [true] + poly else Zeros(33)) + Zeros(|m| - 32), [false] + m)
  }

  lemma TimesAt(lead: bool, poly: Word, m: seq<bool>, i: nat)
    requires 32 <= |m| && i <= |m|
    ensures Times(lead, poly, m)[i] == if i == 0 then lead else m[i - 1] != (i <= 32 && lead && poly[i - 1])
  {
    SumAt(if lead then [true] + poly else Zeros(33), m, |m| - 32, i);
  }

  lemma SumAt(first: seq<bool>, rest: seq<bool>, n: nat, i: nat)
    requires |first| == 33 && |rest| == 32 + n && i < 33 + n
    ensures Xor(first + Zeros(n), [false] + rest)[i] == ((i <= 32 && first[i]) != (i > 0 && rest[i - 1]))
  {
  }

  lemma DividendAt(r: Word, bits: seq<bool>, i: nat)
    requires bits != [] && i < |bits| + 32
    ensures Dividend(r, bits)[i] ==
            if i == 0 then r[0] != bits[0]
            else Dividend(Step(r, bits[0]), bits[1..])[i - 1] != (i <= 32 && r[0] != bits[0] && POLY[i - 1])
  {
  }

  /** Quotient and remainder are unique: a multiple of the generator below x^32 is zero. */
  lemma {:induction false} DivisionUnique(p: seq<bool>, q1: seq<bool>, q2: seq<bool>, r1: Word, r2: Word)
    requires |p| == |q1| + 32 == |q2| + 32
    requires Division(p, q1, r1) && Division(p, q2, r2)
    ensures q1 == q2 && r1 == r2
    decreases |q1|
  {
    if q1 == [] {
      assert p == r1 && p == r2;
    } else {
      LeadingCoefficient(p, q1, r1);
      LeadingCoefficient(p, q2, r2);
      var p' := Lower(p, q1[0]);
      assert p' == Lower(p, q2[0]);
      DivisionUnique(p', q1[1..], q2[1..], r1, r2);
      assert q1 == [q1[0]] + q1[1..] && q2 == [q2[0]] + q2[1..];
    }
  }

  /** p without its leading term's multiple of the generator. */
  function Lower(p: seq<bool>, lead: bool): (p': seq<bool>)
    requires |p| >= 33
    ensures |p'| == |p| - 1
  {
    if lead then Xor(p[1..], POLY + Zeros(|p| - 33)) else p[1..]
  }

  lemma LeadingCoefficient(p: seq<bool>, q: seq<bool>, r: Word)
    requires q != [] && |p| == |q| + 32 && Division(p, q, r)
    ensures q[0] == p[0]
    ensures Division(Lower(p, q[0]), q[1..], r)
  {
    hide Lower, Multiple;
    MultipleAt(q, 0);
    var p', m' := Lower(p, q[0]), Multiple(q[1..]);
    var rest, rest' := Zeros(|q|) + r, Zeros(|q| - 1) + r;
    forall i | 0 <= i < |p'| ensures p'[i] == (m'[i] != rest'[i]) {
      MultipleAt(q, i + 1);
      LowerAt(p, q[0], i);
      assert p[i + 1] == (Multiple(q)[i + 1] != rest[i + 1]);
    }
    SameSum(p', m', rest');
  }

  lemma LowerAt(p: seq<bool>, lead: bool, i: nat)
    requires |p| >= 33 && i < |p| - 1
    ensures Lower(p, lead)[i] == (p[i + 1] != (i < 32 && lead && POLY[i]))
  {
  }

  lemma SameSum(p: seq<bool>, a: seq<bool>, b: seq<bool>)
    requires |p| == |a| == |b| && forall i :: 0 <= i < |p| ==> p[i] == (a[i] != b[i])
    ensures p == Xor(a, b)
  {
  }

  /** A value is the digest if and only if its complement is the remainder of the dividend. */
  lemma DigestIsRemainder(bits: seq<bool>, d: Word)
    ensures d == DigestOf(bits) <==> IsRemainder(Dividend(ONES, bits), Xor(d, ONES))
  {
    LoopDivides(ONES, bits);
    ComplementTwice(d);
    ComplementTwice(Run(ONES, bits));
    if IsRemainder(Dividend(ONES, bits), Xor(d, ONES)) {
      RemainderIsRun(bits, Xor(d, ONES));
    }
  }

  lemma RemainderIsRun(bits: seq<bool>, rem: Word)
    requires IsRemainder(Dividend(ONES, bits), rem)
    ensures rem == Run(ONES, bits)
  {
    var p := Dividend(ONES, bits);
    LoopDivides(ONES, bits);
    var q: seq<bool> :| |q| == |p| - 32 && Division(p, q, rem);
    DivisionUnique(p, q, Quotient(ONES, bits), rem, Run(ONES, bits));
  }

  lemma ComplementTwice(w: Word)
    ensures Xor(Xor(w, ONES), ONES) == w
  {
  }

  // ----- error detection

  lemma StepInjective(r1: Word, r2: Word, b: bool)
    requires Step(r1, b) == Step(r2, b)
    ensures r1 == r2
  {
    assert POLY[31] by { PolyIsGenerator(31); }
    assert Step(r1, b)[31] == (r1[0] != b) && Step(r2, b)[31] == (r2[0] != b);
    forall i | 1 <= i < 32 ensures r1[i] == r2[i] {
      assert Step(r1, b)[i - 1] == (r1[i] != ((r1[0] != b) && POLY[i - 1]));
      assert Step(r2, b)[i - 1] == (r2[i] != ((r2[0] != b) && POLY[i - 1]));
    }
  }

  lemma {:induction false} RunInjective(r1: Word, r2: Word, bits: seq<bool>)
    requires Run(r1, bits) == Run(r2, bits)
    ensures r1 == r2
    decreases |bits|
  {
    if bits != [] {
      RunInjective(Step(r1, bits[0]), Step(r2, bits[0]), bits[1..]);
      StepInjective(r1, r2, bits[0]);
    }
  }

  /** Feeding at most 32 bits is adding them to the register first and then feeding zeros. */
  lemma {:induction false} FeedIsAdd(r: Word, w: seq<bool>)
    requires |w| <= 32
    ensures Run(r, w) == Run(Xor(r, w + Zeros(32 - |w|)), Zeros(|w|))
    decreases |w|
  {
    if w == [] {
      assert Xor(r, w + Zeros(32)) == r;
    } else {
      var r1 := Xor(r, w + Zeros(32 - |w|));
      FeedIsAdd(Step(r, w[0]), w[1..]);
      StepAdds(r, w);
      assert Zeros(|w|)[1..] == Zeros(|w| - 1);
      assert Run(r1, Zeros(|w|)) == Run(Step(r1, false), Zeros(|w| - 1));
    }
  }

  lemma StepAdds(r: Word, w: seq<bool>)
    requires 1 <= |w| <= 32
    ensures Step(Xor(r, w + Zeros(32 - |w|)), false) == Xor(Step(r, w[0]), w[1..] + Zeros(33 - |w|))
  {
    var s, t := Step(Xor(r, w + Zeros(32 - |w|)), false), Xor(Step(r, w[0]), w[1..] + Zeros(33 - |w|));
    forall i | 0 <= i < 32 ensures s[i] == t[i] {
    }
  }

  /** Messages of equal length that differ only within 32 consecutive bits have different digests. */
  lemma BurstDetected(a: seq<bool>, b: seq<bool>, start: nat)
    requires |a| == |b| && a != b
    requires forall i :: 0 <= i < |a| && !(start <= i < start + 32) ==> a[i] == b[i]
    ensures DigestOf(a) != DigestOf(b)
  {
    var lo := if start < |a| then start else |a|;
    var hi := if start + 32 < |a| then start + 32 else |a|;
    assert a == a[..lo] + a[lo..hi] + a[hi..];
    assert b == b[..lo] + b[lo..hi] + b[hi..];
    assert a[..lo] == b[..lo] && a[hi..] == b[hi..];
    var x := Run(ONES, a[..lo]);
    SplitRun(a, lo, hi);
    SplitRun(b, lo, hi);
    if DigestOf(a) == DigestOf(b) {
      XorOnesInjective(Run(ONES, a), Run(ONES, b));
      RunInjective(Run(x, a[lo..hi]), Run(x, b[lo..hi]), a[hi..]);
      WindowInjective(x, a[lo..hi], b[lo..hi]);
    }
  }

  lemma XorOnesInjective(r1: Word, r2: Word)
    requires Xor(r1, ONES) == Xor(r2, ONES)
    ensures r1 == r2
  {
    assert forall i :: 0 <= i < 32 ==> Xor(r1, ONES)[i] == Xor(r2, ONES)[i];
  }

  lemma SplitRun(a: seq<bool>, lo: nat, hi: nat)
    requires lo <= hi <= |a|
    ensures Run(ONES, a) == Run(Run(Run(ONES, a[..lo]), a[lo..hi]), a[hi..])
  {
    var front, window, back, tail := a[..lo], a[lo..hi], a[hi..], a[lo..];
    assert a == front + tail;
    assert tail == window + back;
    RunConcat(ONES, front, tail);
    RunConcat(Run(ONES, front), window, back);
  }

  lemma WindowInjective(x: Word, v: seq<bool>, w: seq<bool>)
    requires |v| == |w| <= 32 && Run(x, v) == Run(x, w)
    ensures v == w
  {
    FeedIsAdd(x, v);
    FeedIsAdd(x, w);
    var pad := Zeros(32 - |v|);
    RunInjective(Xor(x, v + pad), Xor(x, w + pad), Zeros(|v|));
    forall i | 0 <= i < |v| ensures v[i] == w[i] {
      assert Xor(x, v + pad)[i] == Xor(x, w + pad)[i];
    }
  }
}

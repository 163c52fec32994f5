// Length-prefixed byte strings of the XSVF player (common/xapp058/lenval.c): a
// big-endian number whose most significant byte comes first. Bit 0 is the least
// significant bit of the last byte.

module Lenval {
  import opened Bytes
  import Machine

  const MAX_LEN: nat := 256

  function Pow256(n: nat): (p: nat)
    ensures p >= 1
  {
    if n == 0 then 1 else 256 * Pow256(n - 1)
  }

  /** The number that the bytes write in base 256. */
  function Number(s: seq<bv8>): (v: nat)
  {
    if s == [] then 0 else (s[0] as nat) * Pow256(|s| - 1) + Number(s[1..])
  }

  lemma {:induction false} NumberBound(s: seq<bv8>)
    ensures Number(s) < Pow256(|s|)
  {
    if s != [] {
      NumberBound(s[1..]);
      DigitBound(s[0] as nat, Pow256(|s| - 1), Number(s[1..]));
    }
  }

  lemma DigitBound(d: nat, p: nat, n: nat)
    requires d <= 255 && n < p
    ensures d * p + n < 256 * p
  {
    assert d * p <= 255 * p;
  }

  /** A number below 256^|s| is written in one way. */
  lemma {:induction false} NumberInjective(s: seq<bv8>, t: seq<bv8>)
    requires |s| == |t| && Number(s) == Number(t)
    ensures s == t
  {
    if s != [] {
      NumberBound(s[1..]);
      NumberBound(t[1..]);
      SameDigit(s[0] as nat, t[0] as nat, Pow256(|s| - 1), Number(s[1..]), Number(t[1..]));
      SameByteAgain(s[0]);
      SameByteAgain(t[0]);
      NumberInjective(s[1..], t[1..]);
      assert s == [s[0]] + s[1..] && t == [t[0]] + t[1..];
    }
  }

  lemma SameDigit(a: nat, b: nat, p: nat, x: nat, y: nat)
    requires x < p && y < p && a * p + x == b * p + y
    ensures a == b && x == y
  {
    Machine.DivUnique(a * p + x, p, a, x);
    Machine.DivUnique(a * p + x, p, b, y);
  }

  /** A number in k bytes, modulo 256^k. */
  function Digits(n: nat, k: nat): (s: seq<bv8>)
    ensures |s| == k
  {
    if k == 0 then [] else Digits(n / 256, k - 1) + [Byte(n % 256)]
  }

  lemma {:induction false} DigitsNumber(n: nat, k: nat)
    ensures Number(Digits(n, k)) == n % Pow256(k)
  {
    hide Byte;
    if k > 0 {
      DigitsNumber(n / 256, k - 1);
      NumberAppend(Digits(n / 256, k - 1), Byte(n % 256));
      ByteRoundTrip(n % 256);
      Machine.DivDiv(n, 256, Pow256(k - 1));
    }
  }

  /** The sum of two values, in as many bytes. */
  function Sum(a: seq<bv8>, b: seq<bv8>): (s: seq<bv8>)
    requires |a| == |b|
    ensures |s| == |a| && Number(s) == (Number(a) + Number(b)) % Pow256(|a|)
  {
    DigitsNumber(Number(a) + Number(b), |a|);
    Digits(Number(a) + Number(b), |a|)
  }

  lemma {:induction false} NumberAppend(s: seq<bv8>, b: bv8)
    ensures Number(s + [b]) == 256 * Number(s) + b as nat
  {
    if s == [] {
      assert [b][1..] == [];
    } else {
      NumberAppend(s[1..], b);
      assert (s + [b])[1..] == s[1..] + [b];
      ScaleDigit(s[0] as nat, Pow256(|s| - 1));
    }
  }

  lemma ScaleDigit(d: nat, p: nat)
    ensures d * (256 * p) == 256 * (d * p)
  {
  }

  /** A 32-bit two's complement word. */
  function Signed32(v: int): (w: int)
    ensures -0x8000_0000 <= w < 0x8000_0000 && (w - v) % 0x1_0000_0000 == 0
  {
    var u := v % 0x1_0000_0000;
    if u < 0x8000_0000 then u else u - 0x1_0000_0000
  }

  /** Bits in order of significance. */
  function LsbBits(s: seq<bv8>): (r: seq<bool>)
    ensures |r| == 8 * |s|
  {
    seq(8 * |s|, q requires 0 <= q < 8 * |s| => BitOf(s[|s| - 1 - q / 8], q % 8))
  }

  lemma LsbBitsPrepend(b: bv8, s: seq<bv8>)
    ensures LsbBits([b] + s) == LsbBits(s) + Bits([b])
  {
    var r := LsbBits([b] + s);
    forall q | 0 <= q < 8 * |s| + 8 ensures r[q] == (LsbBits(s) + Bits([b]))[q] {
      var i := |s| - q / 8;
      assert ([b] + s)[i] == if i == 0 then b else s[i - 1];
    }
  }

  /** Bits in order of significance determine the bytes. */
  lemma LsbBitsInjective(s: seq<bv8>, t: seq<bv8>)
    requires |s| == |t| && LsbBits(s) == LsbBits(t)
    ensures s == t
  {
    hide BitOf, LsbBits;
    forall i | 0 <= i < |s| ensures s[i] == t[i] {
      forall k | 0 <= k < 8 ensures BitOf(s[i], k) == BitOf(t[i], k) {
        LsbBitAt(s, i, k);
        LsbBitAt(t, i, k);
      }
      SameBits(s[i], t[i]);
    }
  }

  /** The bytes with these bits. */
  lemma NoBits()
    ensures LsbBits([]) == []
  {
  }

  function Pack(bits: seq<bool>, n: nat): (s: seq<bv8>)
    requires |bits| == 8 * n
    ensures |s| == n && LsbBits(s) == bits
  {
    hide LsbBits, Bits;
    if n == 0 then NoBits(); []
    else
      var first, rest := ByteOfBits(bits[8 * n - 8..]), Pack(bits[..8 * n - 8], n - 1);
      LsbBitsPrepend(first, rest);
      [first] + rest
  }

  /** What a buffer holds: a length, and all its bytes, of which those beyond the length are old. */
  datatype Buffer = Buffer(len: nat, bytes: seq<bv8>)
  {
    function Contents(): (s: seq<bv8>)
      requires len <= |bytes|
      ensures |s| == len
    {
      bytes[..len]
    }
  }

  type Storage = b: Buffer | b.len <= MAX_LEN && |b.bytes| == MAX_LEN + 1
    witness Buffer(0, seq(MAX_LEN + 1, _ => 0))

  /** The buffer when a value has been read into it. */
  function Loaded(b: Storage, data: seq<bv8>): (c: Storage)
    requires |data| <= MAX_LEN
    ensures c.Contents() == data
  {
    Buffer(|data|, data + b.bytes[|data|..])
  }

  class LenVal {
    var len: nat
    const val: array<bv8>

    ghost function Stored(): (b: Storage)
      requires Valid()
      reads this, val
    {
      Buffer(len, val[..])
    }

    ghost predicate Valid()
      reads this
    {
      val.Length == MAX_LEN + 1 && len <= MAX_LEN
    }

    ghost function Contents(): (s: seq<bv8>)
      requires Valid()
      reads this, val
      ensures |s| == len
    {
      val[..len]
    }

    constructor ()
      ensures Valid() && fresh(val) && len == 0
    {
      val := new bv8[MAX_LEN + 1];
      len := 0;
    }

    /** The value as a long: modulo 2^32, in two's complement. */
    method Value() returns (v: int)
      requires Valid()
      ensures v == Signed32(Number(Contents()))
    {
      v := 0;
      for sIndex := 0 to len
        invariant v == Signed32(Number(val[..sIndex]))
      {
        NumberAppend(val[..sIndex], val[sIndex]);
        assert val[..sIndex + 1] == val[..sIndex] + [val[sIndex]];
        ShiftWraps(Number(val[..sIndex]), val[sIndex] as nat);
        v := Signed32(256 * v + val[sIndex] as int);
      }
    }
  }

  // ----- comparison

  predicate EqualByte(a: bv8, b: bv8, m: bv8) {
    a & m == b & m
  }

  lemma SameUnderMask(a: bv8, b: bv8, m: bv8)
    ensures EqualByte(a, b, m) <==> !SignificantDifference(b, a, m)
  {
  }

  lemma LsbBitAt(s: seq<bv8>, i: nat, k: nat)
    requires i < |s| && k < 8
    ensures LsbBits(s)[8 * (|s| - 1 - i) + k] == BitOf(s[i], k)
  {
    var q := 8 * (|s| - 1 - i) + k;
    assert q / 8 == |s| - 1 - i && q % 8 == k;
  }

  function Reversed(s: seq<bv8>): (r: seq<bv8>)
    ensures |r| == |s|
  {
    seq(|s|, i requires 0 <= i < |s| => s[|s| - 1 - i])
  }

  lemma LsbBitsReversed(s: seq<bv8>)
    ensures LsbBits(s) == Bits(Reversed(s))
  {
  }

  lemma ReversedAt(actual: seq<bv8>, expected: seq<bv8>, mask: seq<bv8>, i: nat)
    requires |actual| == |expected| == |mask| && i < |mask|
    ensures var j := |mask| - 1 - i;
            EqualByte(expected[i], actual[i], mask[i])
            <==> !SignificantDifference(Reversed(actual)[j], Reversed(expected)[j], Reversed(mask)[j])
  {
    SameUnderMask(expected[i], actual[i], mask[i]);
  }

  /** Comparing bytes under a mask is comparing bits, in this order too. */
  lemma LsbBytesMatch(actual: seq<bv8>, expected: seq<bv8>, mask: seq<bv8>)
    requires |actual| == |expected| == |mask|
    ensures (forall i :: 0 <= i < |mask| ==> EqualByte(expected[i], actual[i], mask[i]))
            <==> Matches(LsbBits(actual), LsbBits(expected), LsbBits(mask))
  {
    hide EqualByte, SignificantDifference, LsbBits, Bits, Matches, Reversed;
    LsbBitsReversed(actual);
    LsbBitsReversed(expected);
    LsbBitsReversed(mask);
    var a, e, m := Reversed(actual), Reversed(expected), Reversed(mask);
    BytesMatch(a, e, m);
    if forall i :: 0 <= i < |mask| ==> EqualByte(expected[i], actual[i], mask[i]) {
      forall j | 0 <= j < |m| ensures !SignificantDifference(a[j], e[j], m[j]) {
        ReversedAt(actual, expected, mask, |m| - 1 - j);
      }
    } else {
      var i :| 0 <= i < |mask| && !EqualByte(expected[i], actual[i], mask[i]);
      ReversedAt(actual, expected, mask, i);
      var j := |m| - 1 - i;
      assert SignificantDifference(a[j], e[j], m[j]);
    }
  }

  /** The mask of an absent mask argument: everything is compared. */
  ghost function MaskBytes(mask: LenVal?, n: nat): (m: seq<bv8>)
    requires n <= MAX_LEN && (mask != null ==> mask.Valid())
    reads mask, if mask == null then {} else {mask.val}
    ensures |m| == n
  {
    if mask == null then seq(n, _ => 0xff) else mask.val[..n]
  }

  method EqualAt(expected: LenVal, captured: LenVal, mask: LenVal?, i: nat) returns (same: bool)
    requires expected.Valid() && captured.Valid() && (mask != null ==> mask.Valid()) && i < MAX_LEN
    ensures same <==> EqualByte(expected.val[i], captured.val[i], MaskBytes(mask, i + 1)[i])
  {
    var byte1, byte2 := expected.val[i], captured.val[i];
    FullMask(byte1, byte2);
    if mask != null {
      var byteMask := mask.val[i];
      byte1, byte2 := byte1 & byteMask, byte2 & byteMask;
    }
    same := byte1 == byte2;
  }

  lemma FullMask(a: bv8, b: bv8)
    ensures EqualByte(a, b, 0xff) <==> a == b
  {
  }

  /** Compares as many bytes as are expected, under the mask if there is one. */
  method EqualLenVal(expected: LenVal, captured: LenVal, mask: LenVal?) returns (equal: bool)
    requires expected.Valid() && captured.Valid() && (mask != null ==> mask.Valid())
    ensures equal <==> Matches(LsbBits(captured.val[..expected.len]), LsbBits(expected.Contents()),
                               LsbBits(MaskBytes(mask, expected.len)))
  {
    hide EqualByte, Matches, LsbBits;
    equal := true;
    var sIndex := expected.len;
    ghost var e, c, m := expected.Contents(), captured.val[..expected.len], MaskBytes(mask, expected.len);
    while equal && sIndex > 0
      invariant 0 <= sIndex <= expected.len
      invariant equal ==> forall i :: sIndex <= i < expected.len ==> EqualByte(e[i], c[i], m[i])
      invariant !equal ==> exists i :: sIndex <= i < expected.len && !EqualByte(e[i], c[i], m[i])
    {
      sIndex := sIndex - 1;
      equal := EqualAt(expected, captured, mask, sIndex);
    }
    LsbBytesMatch(c, e, m);
  }

  // ----- addition

  lemma ColumnSum(a: nat, b: nat, carry: nat, p: nat, x: nat, y: nat, z: nat, digit: nat, out: nat)
    requires z + carry * p == x + y && a + b + carry == digit + 256 * out
    ensures (digit * p + z) + out * (256 * p) == (a * p + x) + (b * p + y)
  {
    assert (a + b + carry) * p == (digit + 256 * out) * p;
  }

  /** Big-endian addition modulo 256^len, byte by byte from the least significant end. The result may be
      either addend. */
  method AddVal(result: LenVal, val1: LenVal, val2: LenVal)
    requires result.Valid() && val1.Valid() && val2.Valid()
    modifies result, result.val
    ensures result.Valid() && result.len == old(val1.len)
    ensures result.Contents() == Sum(old(val1.Contents()), old(val2.val[..val1.len]))
    ensures result.val[result.len..] == old(result.val[val1.len..])
  {
    hide Number;
    var n := val1.len;
    ghost var a, b, r := val1.val[..], val2.val[..], result.val[..];
    result.len := n;
    var carry, sIndex := 0, n;
    NumberOfNone(result.val[n..n], a[n..n], b[n..n]);
    while sIndex > 0
      invariant 0 <= sIndex <= n && 0 <= carry <= 1
      invariant result.len == n && result.val[n..] == r[n..]
      invariant val1.val[..sIndex] == a[..sIndex] && val2.val[..sIndex] == b[..sIndex]
      invariant Number(result.val[sIndex..n]) + carry * Pow256(n - sIndex)
                == Number(a[sIndex..n]) + Number(b[sIndex..n])
    {
      sIndex := sIndex - 1;
      carry := AddByte(result, val1, val2, sIndex, n, carry, a, b);
    }
    FinalCarry(result.val[..n], a[..n], b[..n], carry);
    NumberInjective(result.val[..n], Sum(a[..n], b[..n]));
  }

  /** One column of the addition. */
  method AddByte(result: LenVal, val1: LenVal, val2: LenVal, i: nat, n: nat, carry: int,
                 ghost a: seq<bv8>, ghost b: seq<bv8>) returns (out: int)
    requires result.Valid() && val1.Valid() && val2.Valid() && i < n <= MAX_LEN && 0 <= carry <= 1
    requires |a| == |b| == MAX_LEN + 1
    requires val1.val[..i + 1] == a[..i + 1] && val2.val[..i + 1] == b[..i + 1]
    requires Number(result.val[i + 1..n]) + carry * Pow256(n - (i + 1)) == Number(a[i + 1..n]) + Number(b[i + 1..n])
    modifies result.val
    ensures 0 <= out <= 1
    ensures result.val[n..] == old(result.val[n..])
    ensures val1.val[..i] == a[..i] && val2.val[..i] == b[..i]
    ensures Number(result.val[i..n]) + out * Pow256(n - i) == Number(a[i..n]) + Number(b[i..n])
  {
    hide Number;
    assert val1.val[i] == a[i] && val2.val[i] == b[i];
    ghost var before := result.val[i + 1..n];
    var digit;
    digit, out := AddDigits(val1.val[i], val2.val[i], carry);
    result.val[i] := digit;
    assert result.val[i..n] == [digit] + before;
    Column(a, b, i, n, carry, before, digit, out);
  }

  function Byte(n: nat): bv8
    requires n < 256
  {
    n as bv8
  }

  lemma ByteRoundTrip(n: nat)
    requires n < 256
    ensures Byte(n) as nat == n
  {
    var c := ByteOf(n);
    SameByteAgain(c);
    assert Byte(n) == Byte(c as nat);
  }

  /** Every number below 256 is some byte's value: counting reaches it. */
  lemma ByteOf(n: nat) returns (b: bv8)
    requires n < 256
    ensures b as nat == n
  {
    if n == 0 {
      b := 0;
    } else {
      var c := ByteOf(n - 1);
      ByteSuccessor(c);
      b := c + 1;
    }
  }

  lemma ByteSuccessor(c: bv8)
    requires c as nat < 255
    ensures (c + 1) as nat == c as nat + 1
  {
  }

  lemma SameByteAgain(c: bv8)
    ensures (c as nat) as bv8 == c
  {
  }

  method AddDigits(x: bv8, y: bv8, carry: int) returns (digit: bv8, out: int)
    requires 0 <= carry <= 1
    ensures 0 <= out <= 1 && x as nat + y as nat + carry == digit as nat + 256 * out
  {
    hide Byte;
    var usSum := x as int + y as int + carry;
    out := if usSum > 255 then 1 else 0;
    ByteRoundTrip(usSum - 256 * out);
    digit := Byte(usSum - 256 * out);
  }

  lemma Column(a: seq<bv8>, b: seq<bv8>, i: nat, n: nat, carry: nat, before: seq<bv8>, digit: bv8, out: nat)
    requires i < n <= |a| == |b| && |before| == n - (i + 1)
    requires Number(before) + carry * Pow256(n - (i + 1)) == Number(a[i + 1..n]) + Number(b[i + 1..n])
    requires a[i] as nat + b[i] as nat + carry == digit as nat + 256 * out
    ensures Number([digit] + before) + out * Pow256(n - i) == Number(a[i..n]) + Number(b[i..n])
  {
    SplitNumber(a, i, n);
    SplitNumber(b, i, n);
    SplitNumber([digit] + before, 0, n - i);
    assert ([digit] + before)[0..n - i] == [digit] + before && ([digit] + before)[1..n - i] == before;
    ColumnSum(a[i] as nat, b[i] as nat, carry, Pow256(n - (i + 1)),
              Number(a[i + 1..n]), Number(b[i + 1..n]), Number(before), digit as nat, out);
  }

  lemma SplitNumber(s: seq<bv8>, i: nat, n: nat)
    requires i < n <= |s|
    ensures Number(s[i..n]) == s[i] as nat * Pow256(n - (i + 1)) + Number(s[i + 1..n])
  {
    assert s[i..n][1..] == s[i + 1..n];
  }

  lemma NumberOfNone(r: seq<bv8>, a: seq<bv8>, b: seq<bv8>)
    requires |r| == |a| == |b| == 0
    ensures Number(r) + 0 * Pow256(0) == Number(a) + Number(b)
  {
  }

  lemma FinalCarry(r: seq<bv8>, a: seq<bv8>, b: seq<bv8>, carry: nat)
    requires |r| == |a| == |b| && Number(r) + carry * Pow256(|r|) == Number(a) + Number(b)
    ensures Number(r) == (Number(a) + Number(b)) % Pow256(|r|)
  {
    NumberBound(r);
    Machine.DivUnique(Number(a) + Number(b), Pow256(|r|), carry, Number(r));
  }

  // ----- reading

  /** The byte stream that the player reads. */
  class Input {
    const bytes: seq<bv8>
    var pos: nat

    ghost predicate Valid()
      reads this
    {
      pos <= |bytes|
    }

    constructor (bytes: seq<bv8>)
      ensures Valid() && this.bytes == bytes && pos == 0
    {
      this.bytes := bytes;
      pos := 0;
    }

    method ReadByte() returns (b: bv8)
      requires pos < |bytes|
      modifies this
      ensures pos == old(pos) + 1 && b == bytes[old(pos)]
    {
      b := bytes[pos];
      pos := pos + 1;
    }
  }

  /** Reads numBytes bytes: the value is the next bytes of the stream. */
  method ReadVal(input: Input, lv: LenVal, numBytes: nat)
    requires lv.Valid() && numBytes <= MAX_LEN && input.pos + numBytes <= |input.bytes|
    modifies input, lv, lv.val
    ensures lv.Valid() && input.pos == old(input.pos) + numBytes
    ensures lv.Contents() == input.bytes[old(input.pos)..input.pos]
    ensures lv.Stored() == Loaded(old(lv.Stored()), input.bytes[old(input.pos)..input.pos])
  {
    lv.len := numBytes;
    for i := 0 to numBytes
      invariant lv.len == numBytes && input.pos == old(input.pos) + i
      invariant lv.val[..i] == input.bytes[old(input.pos)..input.pos]
      invariant lv.val[i..] == old(lv.val[..])[i..]
    {
      var b := input.ReadByte();
      lv.val[i] := b;
    }
    assert lv.val[..] == lv.val[..numBytes] + lv.val[numBytes..];
  }

  lemma ShiftWraps(n: int, b: nat)
    ensures Signed32(256 * Signed32(n) + b) == Signed32(256 * n + b)
  {
    var w, m := Signed32(n), 0x1_0000_0000;
    var k := (w - n) / m;
    assert w == n + k * m;
    assert 256 * w + b == 256 * n + b + 256 * k * m;
    ModPlus(256 * n + b, 256 * k);
  }

  lemma ModPlus(x: int, k: int)
    ensures (x + k * 0x1_0000_0000) % 0x1_0000_0000 == x % 0x1_0000_0000
  {
  }
}

// Single bits of bytes. Bytes are 8-bit vectors; bit 0 is the least significant.

module Bytes {
  function BitMask(k: nat): bv8
    requires k < 8
  {
    if k == 0 then 1 else if k == 1 then 2 else if k == 2 then 4 else if k == 3 then 8
    else if k == 4 then 16 else if k == 5 then 32 else if k == 6 then 64 else 128
  }

  predicate BitOf(b: bv8, k: nat)
    requires k < 8
  {
    b & BitMask(k) != 0
  }

  function WithBit(b: bv8, k: nat, v: bool): bv8
    requires k < 8
  {
    (b & !BitMask(k)) | (if v then BitMask(k) else 0)
  }

  lemma WithBitOf(b: bv8, k: nat, v: bool, j: nat)
    requires k < 8 && j < 8
    ensures BitOf(WithBit(b, k, v), j) == if j == k then v else BitOf(b, j)
  {
  }

  lemma ShiftedRight(b: bv8, k: nat)
    requires k < 8
    ensures BitOf(b >> 1, k) == (k < 7 && BitOf(b, k + 1))
  {
  }

  lemma SameBits(a: bv8, b: bv8)
    requires forall k :: 0 <= k < 8 ==> BitOf(a, k) == BitOf(b, k)
    ensures a == b
  {
    assert BitOf(a, 0) == BitOf(b, 0) && BitOf(a, 1) == BitOf(b, 1) && BitOf(a, 2) == BitOf(b, 2);
    assert BitOf(a, 3) == BitOf(b, 3) && BitOf(a, 4) == BitOf(b, 4) && BitOf(a, 5) == BitOf(b, 5);
    assert BitOf(a, 6) == BitOf(b, 6) && BitOf(a, 7) == BitOf(b, 7);
  }

  /** The bits of a byte string, least significant bit of the first byte first. */
  function Bits(data: seq<bv8>): (s: seq<bool>)
    ensures |s| == 8 * |data|
  {
    seq(8 * |data|, i requires 0 <= i < 8 * |data| => BitOf(data[i / 8], i % 8))
  }

  function Zeros(n: nat): (s: seq<bool>)
    ensures |s| == n && forall i :: 0 <= i < n ==> !s[i]
  {
    seq(n, _ => false)
  }

  function Xor(a: seq<bool>, b: seq<bool>): (s: seq<bool>)
    requires |a| == |b|
    ensures |s| == |a| && forall i :: 0 <= i < |s| ==> s[i] == (a[i] != b[i])
  {
    seq(|a|, i requires 0 <= i < |a| => a[i] != b[i])
  }

  /** The bits agree wherever the mask is set. */
  predicate Matches(actual: seq<bool>, expected: seq<bool>, mask: seq<bool>)
    requires |actual| == |expected| == |mask|
  {
    forall i :: 0 <= i < |mask| && mask[i] ==> actual[i] == expected[i]
  }

  predicate SignificantDifference(read: bv8, expected: bv8, mask: bv8) {
    (read ^ expected) & mask != 0
  }

  lemma DifferenceIsABit(read: bv8, expected: bv8, mask: bv8)
    ensures SignificantDifference(read, expected, mask) <==>
              exists k :: 0 <= k < 8 && BitOf(mask, k) && BitOf(read, k) != BitOf(expected, k)
  {
    if SignificantDifference(read, expected, mask) {
      if forall k :: 0 <= k < 8 && BitOf(mask, k) ==> BitOf(read, k) == BitOf(expected, k) {
        forall k | 0 <= k < 8 ensures BitOf((read ^ expected) & mask, k) == BitOf(0, k) {
          AndXor(read, expected, mask, k);
        }
        SameBits((read ^ expected) & mask, 0);
      }
    }
    if k :| 0 <= k < 8 && BitOf(mask, k) && BitOf(read, k) != BitOf(expected, k) {
      AndXor(read, expected, mask, k);
    }
  }

  lemma AndXor(read: bv8, expected: bv8, mask: bv8, k: nat)
    requires k < 8
    ensures BitOf((read ^ expected) & mask, k) == (BitOf(mask, k) && BitOf(read, k) != BitOf(expected, k))
  {
  }

  /** Comparing bytes under a mask is comparing bits. */
  lemma BytesMatch(read: seq<bv8>, expected: seq<bv8>, mask: seq<bv8>)
    requires |read| == |expected| == |mask|
    ensures (forall i :: 0 <= i < |mask| ==> !SignificantDifference(read[i], expected[i], mask[i]))
            <==> Matches(Bits(read), Bits(expected), Bits(mask))
  {
    if forall i :: 0 <= i < |mask| ==> !SignificantDifference(read[i], expected[i], mask[i]) {
      forall j | 0 <= j < 8 * |mask| && Bits(mask)[j] ensures Bits(read)[j] == Bits(expected)[j] {
        DifferenceIsABit(read[j / 8], expected[j / 8], mask[j / 8]);
      }
    }
    if Matches(Bits(read), Bits(expected), Bits(mask)) {
      forall i | 0 <= i < |mask| ensures !SignificantDifference(read[i], expected[i], mask[i]) {
        DifferenceIsABit(read[i], expected[i], mask[i]);
        BitsOfByte(read, i);
        BitsOfByte(expected, i);
        BitsOfByte(mask, i);
      }
    }
  }

  lemma BitsOfByte(s: seq<bv8>, i: nat)
    requires i < |s|
    ensures forall k :: 0 <= k < 8 ==> Bits(s)[8 * i + k] == BitOf(s[i], k)
  {
  }

  /** The byte with the given bits. */
  function ByteOfBits(b: seq<bool>): (r: bv8)
    requires |b| == 8
    ensures Bits([r]) == b
  {
    var r := ByteUpTo(b, 8);
    assert Bits([r]) == b;
    r
  }

  function ByteUpTo(b: seq<bool>, n: nat): (r: bv8)
    requires n <= |b| == 8
    ensures forall k :: 0 <= k < n ==> BitOf(r, k) == b[k]
  {
    if n == 0 then 0
    else
      var r := ByteUpTo(b, n - 1);
      assert forall k :: 0 <= k < n ==> BitOf(WithBit(r, n - 1, b[n - 1]), k) == b[k] by {
        forall k | 0 <= k < n ensures BitOf(WithBit(r, n - 1, b[n - 1]), k) == b[k] {
          WithBitOf(r, n - 1, b[n - 1], k);
        }
      }
      WithBit(r, n - 1, b[n - 1])
  }

  /** A byte as a number. */
  function AsNat(b: bv8): (n: nat)
    ensures n <= 255
  {
    b as nat
  }

  /** Bits to bytes, the last byte perhaps not full. */
  function AsBytes(bits: nat): (n: nat)
    ensures 8 * n - 8 < bits <= 8 * n || bits == n == 0
  {
    (bits + 7) / 8
  }
}

// The masked increment of XSDRINC (xsvfDoSDRMasking of common/xapp058/micro.c):
// the address mask is added to the value, and then the bits of the next data are
// deposited, least significant first, where the data mask is set.

module XsvfMask {
  import opened Bytes
  import opened Lenval

  /** The number of set bits before position q. */
  function Rank(mask: seq<bool>, q: nat): (r: nat)
    requires q <= |mask|
    ensures r <= q
  {
    if q == 0 then 0 else Rank(mask, q - 1) + if mask[q - 1] then 1 else 0
  }

  lemma {:induction false} RankGrows(mask: seq<bool>, p: nat, q: nat)
    requires p <= q <= |mask|
    ensures Rank(mask, p) <= Rank(mask, q)
  {
    if p < q {
      RankGrows(mask, p, q - 1);
    }
  }

  lemma RankBelow(mask: seq<bool>, q: nat)
    requires q < |mask| && mask[q]
    ensures Rank(mask, q) < Rank(mask, |mask|)
  {
    RankGrows(mask, q + 1, |mask|);
  }

  lemma {:induction false} RankOfPrefix(a: seq<bool>, b: seq<bool>, q: nat)
    requires q <= |a|
    ensures Rank(a + b, q) == Rank(a, q)
  {
    if q > 0 {
      RankOfPrefix(a, b, q - 1);
    }
  }

  lemma {:induction false} RankConcat(a: seq<bool>, b: seq<bool>, q: nat)
    requires q <= |b|
    ensures Rank(a + b, |a| + q) == Rank(a, |a|) + Rank(b, q)
  {
    if q == 0 {
      RankOfPrefix(a, b, |a|);
    } else {
      RankConcat(a, b, q - 1);
    }
  }

  function Ones(mask: seq<bool>): (n: nat)
    ensures n <= |mask|
  {
    Rank(mask, |mask|)
  }

  /** The k-th data bit goes to the k-th set bit of the mask, below position n; all else stays. */
  function DepositBelow(value: seq<bool>, data: seq<bool>, mask: seq<bool>, n: nat): (r: seq<bool>)
    requires |value| == |mask| && Ones(mask) <= |data| && n <= |mask|
    ensures |r| == |value|
  {
    seq(|value|, q requires 0 <= q < |value| =>
      if q < n && mask[q] then RankBelow(mask, q); data[Rank(mask, q)] else value[q])
  }

  function Deposit(value: seq<bool>, data: seq<bool>, mask: seq<bool>): (r: seq<bool>)
    requires |value| == |mask| && Ones(mask) <= |data|
    ensures |r| == |value|
  {
    DepositBelow(value, data, mask, |mask|)
  }

  lemma DepositNext(value: seq<bool>, data: seq<bool>, mask: seq<bool>, n: nat)
    requires |value| == |mask| && Ones(mask) <= |data| && n < |mask|
    ensures mask[n] ==> Rank(mask, n) < |data|
    ensures DepositBelow(value, data, mask, n + 1)
            == DepositBelow(value, data, mask, n)[n := if mask[n] then data[Rank(mask, n)] else value[n]]
  {
    if mask[n] {
      RankBelow(mask, n);
    }
  }

  /** The bits of a value at the set bits of the mask below n. */
  function Extract(value: seq<bool>, mask: seq<bool>, n: nat): (r: seq<bool>)
    requires |value| == |mask| && n <= |mask|
    ensures |r| == Rank(mask, n)
  {
    if n == 0 then [] else Extract(value, mask, n - 1) + if mask[n - 1] then [value[n - 1]] else []
  }

  lemma DepositedBit(value: seq<bool>, data: seq<bool>, mask: seq<bool>, q: nat)
    requires |value| == |mask| && Ones(mask) <= |data| && q < |mask|
    ensures mask[q] ==> Rank(mask, q) < |data| && Deposit(value, data, mask)[q] == data[Rank(mask, q)]
    ensures !mask[q] ==> Deposit(value, data, mask)[q] == value[q]
  {
    if mask[q] {
      RankBelow(mask, q);
    }
  }

  /** Reading the masked bits back gives the data, and the other bits are untouched. */
  lemma {:induction false} DepositThenExtract(value: seq<bool>, data: seq<bool>, mask: seq<bool>, n: nat)
    requires |value| == |mask| && Ones(mask) <= |data| && n <= |mask|
    ensures Rank(mask, n) <= |data|
    ensures Extract(Deposit(value, data, mask), mask, n) == data[..Rank(mask, n)]
    ensures forall q :: 0 <= q < n && !mask[q] ==> Deposit(value, data, mask)[q] == value[q]
  {
    hide Deposit;
    RankGrows(mask, n, |mask|);
    if n > 0 {
      DepositThenExtract(value, data, mask, n - 1);
      DepositedBit(value, data, mask, n - 1);
    }
  }

  /** Past the last set bit nothing happens. */
  lemma {:induction false} DepositRest(value: seq<bool>, data: seq<bool>, mask: seq<bool>, n: nat)
    requires |value| == |mask| && Ones(mask) <= |data| && n <= |mask|
    requires forall q :: n <= q < |mask| ==> !mask[q]
    ensures Rank(mask, n) == Ones(mask) && DepositBelow(value, data, mask, n) == Deposit(value, data, mask)
    decreases |mask| - n
  {
    if n < |mask| {
      DepositRest(value, data, mask, n + 1);
    }
  }

  /** Depositing in two parts: the second continues with the rest of the data. */
  lemma DepositConcat(v: seq<bool>, w: seq<bool>, data: seq<bool>, m: seq<bool>, n: seq<bool>)
    requires |v| == |m| && |w| == |n| && Ones(m + n) <= |data|
    ensures Ones(m + n) == Ones(m) + Ones(n)
    ensures Deposit(v + w, data, m + n) == Deposit(v, data, m) + Deposit(w, data[Ones(m)..], n)
  {
    hide Rank;
    RankConcat(m, n, |n|);
    var whole, parts := Deposit(v + w, data, m + n), Deposit(v, data, m) + Deposit(w, data[Ones(m)..], n);
    forall q | 0 <= q < |v| + |w| ensures whole[q] == parts[q] {
      if q < |v| {
        RankOfPrefix(m, n, q);
      } else {
        RankConcat(m, n, q - |v|);
        if n[q - |v|] {
          RankBelow(n, q - |v|);
        }
      }
    }
  }

  // ----- taking data bits one at a time

  /** The byte being consumed after r data bits, its bit, and the bytes still unread. */
  ghost predicate Feeding(next: seq<bv8>, byte: bv8, bit: bv8, unread: int, r: nat) {
    && r <= 8 * |next| && unread == |next| - (r + 7) / 8
    && (if r % 8 == 0 then bit == 0 else bit == BitMask(r % 8) && byte == next[|next| - 1 - r / 8])
  }

  method TakeBit(next: LenVal, byte: bv8, bit: bv8, unread: int, ghost r: nat)
    returns (v: bool, byte': bv8, bit': bv8, unread': int)
    requires next.Valid() && r < 8 * next.len && Feeding(next.Contents(), byte, bit, unread, r)
    ensures v == LsbBits(next.Contents())[r] && Feeding(next.Contents(), byte', bit', unread', r + 1)
  {
    hide LsbBits, BitMask;
    byte', bit', unread' := byte, bit, unread;
    BitMaskIsNotZero(r % 8);
    LsbBitAt(next.Contents(), next.len - 1 - r / 8, r % 8);
    if bit' == 0 {
      unread' := unread' - 1;
      byte' := next.val[unread'];
      bit' := 1;
    }
    assert bit' == BitMask(r % 8) && byte' == next.Contents()[next.len - 1 - r / 8];
    v := byte' & bit' != 0;
    ShiftLeft(r % 8);
    bit' := bit' << 1;
    NextEighth(r);
  }

  lemma BitMaskIsNotZero(k: nat)
    requires k < 8
    ensures BitMask(k) != 0 && BitMask(0) == 1
  {
  }

  lemma ShiftLeft(k: nat)
    requires k < 8
    ensures BitMask(k) << 1 == if k == 7 then 0 else BitMask(k + 1)
  {
  }

  lemma NextEighth(r: nat)
    ensures (r + 1) % 8 == (if r % 8 == 7 then 0 else r % 8 + 1)
    ensures (r + 1) / 8 == (if r % 8 == 7 then r / 8 + 1 else r / 8)
    ensures (r + 8) / 8 == r / 8 + 1 && (r + 7) / 8 == if r % 8 == 0 then r / 8 else r / 8 + 1
  {
  }

  // ----- one byte of the mask

  /** What is left of the mask byte after k bits, zeros following. */
  predicate MaskLeft(rest: bv8, mask: bv8, k: nat)
    requires k <= 8
  {
    forall j :: 0 <= j < 8 ==> BitOf(rest, j) == (j + k < 8 && Bits([mask])[j + k])
  }

  lemma NextMaskBit(rest: bv8, mask: bv8, k: nat)
    requires k < 8 && MaskLeft(rest, mask, k)
    ensures (rest & 1 != 0) == Bits([mask])[k] && MaskLeft(rest >> 1, mask, k + 1)
  {
    hide BitOf;
    var next := rest >> 1;
    assert BitOf(rest, 0) == (rest & 1 != 0) by {
      LowestBit(rest);
    }
    forall j | 0 <= j < 8 ensures BitOf(next, j) == (j + (k + 1) < 8 && Bits([mask])[j + (k + 1)]) {
      ShiftedRight(rest, j);
      if j < 7 {
        assert BitOf(rest, j + 1) == (j + 1 + k < 8 && Bits([mask])[j + 1 + k]);
      }
    }
  }

  lemma LowestBit(b: bv8)
    ensures BitOf(b, 0) == (b & 1 != 0)
  {
  }

  lemma MaskExhausted(rest: bv8, mask: bv8, k: nat)
    requires k <= 8 && MaskLeft(rest, mask, k)
    ensures k == 8 ==> rest == 0
    ensures rest == 0 ==> forall q :: k <= q < 8 ==> !Bits([mask])[q]
  {
    hide BitOf;
    if k == 8 {
      forall j | 0 <= j < 8 ensures BitOf(rest, j) == BitOf(0, j) {
        NoBit(j);
      }
      SameBits(rest, 0);
    }
    if rest == 0 {
      forall q | k <= q < 8 ensures !Bits([mask])[q] {
        NoBit(q - k);
        assert BitOf(rest, q - k) == (q - k + k < 8 && Bits([mask])[q - k + k]);
      }
    }
  }

  lemma NoBit(j: nat)
    requires j < 8
    ensures !BitOf(0, j)
  {
  }

  lemma WriteBit(b: bv8, k: nat, v: bool)
    requires k < 8
    ensures Bits([if v then b | BitMask(k) else b & !BitMask(k)]) == Bits([b])[k := v]
  {
    hide BitOf, BitMask;
    var c := if v then b | BitMask(k) else b & !BitMask(k);
    forall j | 0 <= j < 8 ensures Bits([c])[j] == Bits([b])[k := v][j] {
      WriteBitOf(b, k, v, j);
    }
  }

  lemma WriteBitOf(b: bv8, k: nat, v: bool, j: nat)
    requires k < 8 && j < 8
    ensures BitOf(if v then b | BitMask(k) else b & !BitMask(k), j) == if j == k then v else BitOf(b, j)
  {
  }

  /** One turn of the inner loop: if the mask bit is set, the next data bit is stored at tdiMask. */
  method DepositBit(next: LenVal, tdi: bv8, tdiMask: bv8, isSet: bool, byte: bv8, bit: bv8, unread: int,
                    ghost value: seq<bool>, ghost m: seq<bool>, ghost k: nat, ghost r: nat)
    returns (tdi': bv8, byte': bv8, bit': bv8, unread': int)
    requires next.Valid() && |m| == |value| == 8 && k < 8 && r + Ones(m) <= 8 * next.len
    requires tdiMask == BitMask(k) && isSet == m[k]
    requires Feeding(next.Contents(), byte, bit, unread, r + Rank(m, k))
    requires Bits([tdi]) == DepositBelow(value, LsbBits(next.Contents())[r..], m, k)
    ensures Feeding(next.Contents(), byte', bit', unread', r + Rank(m, k + 1))
    ensures Bits([tdi']) == DepositBelow(value, LsbBits(next.Contents())[r..], m, k + 1)
  {
    hide Bits, Feeding, BitMask, DepositBelow, LsbBits;
    tdi', byte', bit', unread' := tdi, byte, bit, unread;
    ghost var data := LsbBits(next.Contents())[r..];
    DepositNext(value, data, m, k);
    if isSet {
      RankBelow(m, k);
      var v;
      v, byte', bit', unread' := TakeBit(next, byte', bit', unread', r + Rank(m, k));
      WriteBit(tdi', k, v);
      tdi' := if v then tdi' | tdiMask else tdi' & !tdiMask;
    } else {
      DepositStays(value, data, m, k);
    }
  }

  /** The inner loop: deposits into one byte of the value. */
  method MaskByte(next: LenVal, tdi: bv8, mask: bv8, byte: bv8, bit: bv8, unread: int, ghost r: nat)
    returns (tdi': bv8, byte': bv8, bit': bv8, unread': int)
    requires next.Valid() && r + Ones(Bits([mask])) <= 8 * next.len
    requires Feeding(next.Contents(), byte, bit, unread, r)
    ensures Feeding(next.Contents(), byte', bit', unread', r + Ones(Bits([mask])))
    ensures Bits([tdi']) == Deposit(Bits([tdi]), LsbBits(next.Contents())[r..], Bits([mask]))
  {
    hide Bits, Feeding, MaskLeft, BitMask, DepositBelow, LsbBits;
    tdi', byte', bit', unread' := tdi, byte, bit, unread;
    ghost var data, m, k := LsbBits(next.Contents())[r..], Bits([mask]), 0;
    var rest, tdiMask := mask, 1;
    MaskStart(Bits([tdi]), data, mask);
    MaskExhausted(rest, mask, k);
    while rest != 0
      invariant 0 <= k <= 8 && (k == 8 ==> rest == 0) && MaskLeft(rest, mask, k)
      invariant k < 8 ==> tdiMask == BitMask(k)
      invariant Feeding(next.Contents(), byte', bit', unread', r + Rank(m, k))
      invariant Bits([tdi']) == DepositBelow(Bits([tdi]), data, m, k)
      decreases 8 - k
    {
      NextMaskBit(rest, mask, k);
      tdi', byte', bit', unread' :=
        DepositBit(next, tdi', tdiMask, rest & 1 != 0, byte', bit', unread', Bits([tdi]), m, k, r);
      ShiftLeft(k);
      tdiMask, rest, k := tdiMask << 1, rest >> 1, k + 1;
      MaskExhausted(rest, mask, k);
    }
    MaskExhausted(rest, mask, k);
    DepositRest(Bits([tdi]), data, m, k);
  }

  lemma MaskStart(value: seq<bool>, data: seq<bool>, mask: bv8)
    requires |value| == 8 && Ones(Bits([mask])) <= |data|
    ensures MaskLeft(mask, mask, 0) && BitMask(0) == 1
    ensures DepositBelow(value, data, Bits([mask]), 0) == value
  {
    hide BitOf;
  }

  lemma DepositStays(value: seq<bool>, data: seq<bool>, mask: seq<bool>, n: nat)
    requires |value| == |mask| && Ones(mask) <= |data| && n < |mask| && !mask[n]
    ensures DepositBelow(value, data, mask, n)[n := value[n]] == DepositBelow(value, data, mask, n)
  {
  }

  // ----- the whole value

  lemma LsbBitsConcat(a: seq<bv8>, b: seq<bv8>)
    ensures LsbBits(a + b) == LsbBits(b) + LsbBits(a)
  {
    hide BitOf, LsbBits;
    forall q | 0 <= q < 8 * |a + b| ensures LsbBits(a + b)[q] == (LsbBits(b) + LsbBits(a))[q] {
      if q < 8 * |b| {
        LowBit(a, b, q);
      } else {
        HighBit(a, b, q - 8 * |b|);
      }
    }
  }

  lemma LowBit(a: seq<bv8>, b: seq<bv8>, q: nat)
    requires q < 8 * |b|
    ensures LsbBits(a + b)[q] == LsbBits(b)[q]
  {
    hide BitOf;
    assert (a + b)[|a + b| - 1 - q / 8] == b[|b| - 1 - q / 8];
  }

  lemma HighBit(a: seq<bv8>, b: seq<bv8>, q: nat)
    requires q < 8 * |a|
    ensures LsbBits(a + b)[q + 8 * |b|] == LsbBits(a)[q]
  {
    hide BitOf;
    var n := q + 8 * |b|;
    assert n / 8 == q / 8 + |b| && n % 8 == q % 8;
    assert (a + b)[|a + b| - 1 - n / 8] == a[|a| - 1 - q / 8];
  }

  lemma OnesOfTail(mask: seq<bv8>, i: nat)
    requires i <= |mask|
    ensures Ones(LsbBits(mask[i..])) <= Ones(LsbBits(mask))
  {
    hide LsbBits;
    assert mask == mask[..i] + mask[i..];
    LsbBitsConcat(mask[..i], mask[i..]);
    RankConcat(LsbBits(mask[i..]), LsbBits(mask[..i]), 8 * i);
  }

  /** One more byte in front. */
  lemma DepositByteBefore(v: bv8, w: bv8, m: bv8, vs: seq<bv8>, ws: seq<bv8>, ms: seq<bv8>, data: seq<bool>)
    requires |vs| == |ws| == |ms| && Ones(LsbBits([m] + ms)) <= |data| && Ones(LsbBits(ms)) <= |data|
    requires LsbBits(ws) == Deposit(LsbBits(vs), data, LsbBits(ms))
    requires Ones(Bits([m])) <= |data| - Ones(LsbBits(ms))
    requires Bits([w]) == Deposit(Bits([v]), data[Ones(LsbBits(ms))..], Bits([m]))
    ensures LsbBits([w] + ws) == Deposit(LsbBits([v] + vs), data, LsbBits([m] + ms))
  {
    hide LsbBits, Bits, Deposit, Rank;
    LsbBitsPrepend(v, vs);
    LsbBitsPrepend(w, ws);
    LsbBitsPrepend(m, ms);
    DepositConcat(LsbBits(vs), Bits([v]), data, LsbBits(ms), Bits([m]));
  }

  lemma OnesBefore(mask: seq<bv8>, i: nat)
    requires i < |mask|
    ensures mask[i..] == [mask[i]] + mask[i + 1..]
    ensures Ones(LsbBits(mask[i..])) == Ones(LsbBits(mask[i + 1..])) + Ones(Bits([mask[i]]))
    ensures Ones(LsbBits(mask[i..])) <= Ones(LsbBits(mask))
  {
    hide LsbBits, Bits;
    assert mask[i..] == [mask[i]] + mask[i + 1..];
    LsbBitsPrepend(mask[i], mask[i + 1..]);
    RankConcat(LsbBits(mask[i + 1..]), Bits([mask[i]]), 8);
    OnesOfTail(mask, i);
  }

  lemma EmptyMaskByte(value: bv8, data: seq<bool>)
    ensures Ones(Bits([0])) == 0 && Deposit(Bits([value]), data, Bits([0])) == Bits([value])
  {
    forall k | 0 <= k < 8 ensures !Bits([0])[k] {
      NoBit(k);
    }
    NoOnes(Bits([0]), 8);
  }

  lemma {:induction false} NoOnes(mask: seq<bool>, n: nat)
    requires n <= |mask| && forall q :: 0 <= q < |mask| ==> !mask[q]
    ensures Rank(mask, n) == 0
  {
    if n > 0 {
      NoOnes(mask, n - 1);
    }
  }

  ghost predicate Apart(tdi: LenVal, other: LenVal)
    reads tdi, other
  {
    tdi.Valid() && other.Valid() && tdi != other && tdi.val != other.val
  }

  /** One turn of the outer loop. */
  method DepositByte(tdi: LenVal, nextData: LenVal, dataMask: LenVal, i: nat, byte: bv8, bit: bv8, unread: int,
                     ghost sum: seq<bv8>)
    returns (byte': bv8, bit': bv8, unread': int)
    requires Apart(tdi, nextData) && Apart(tdi, dataMask) && i < dataMask.len && |sum| == MAX_LEN + 1
    requires var mask, n := dataMask.Contents(), dataMask.len;
             && Ones(LsbBits(mask)) <= 8 * nextData.len && Ones(LsbBits(mask[i + 1..])) <= 8 * nextData.len
             && Feeding(nextData.Contents(), byte, bit, unread, Ones(LsbBits(mask[i + 1..])))
             && LsbBits(tdi.val[i + 1..n])
                == Deposit(LsbBits(sum[i + 1..n]), LsbBits(nextData.Contents()), LsbBits(mask[i + 1..]))
    requires tdi.val[..i + 1] == sum[..i + 1] && tdi.val[dataMask.len..] == sum[dataMask.len..]
    modifies tdi.val
    ensures var mask, n := dataMask.Contents(), dataMask.len;
            && Ones(LsbBits(mask[i..])) <= 8 * nextData.len
            && Feeding(nextData.Contents(), byte', bit', unread', Ones(LsbBits(mask[i..])))
            && LsbBits(tdi.val[i..n])
               == Deposit(LsbBits(sum[i..n]), LsbBits(nextData.Contents()), LsbBits(mask[i..]))
    ensures tdi.val[..i] == sum[..i] && tdi.val[dataMask.len..] == sum[dataMask.len..]
  {
    hide LsbBits, Bits, Deposit, Rank, Feeding;
    ghost var mask, n, data := dataMask.Contents(), dataMask.len, LsbBits(nextData.Contents());
    ghost var done := tdi.val[i + 1..n];
    byte', bit', unread' := byte, bit, unread;
    assert tdi.val[i] == sum[i] && dataMask.val[i] == mask[i];
    var ucTdi := tdi.val[i];
    OnesBefore(mask, i);
    if dataMask.val[i] != 0 {
      ucTdi, byte', bit', unread' :=
        MaskByte(nextData, ucTdi, dataMask.val[i], byte, bit, unread, Ones(LsbBits(mask[i + 1..])));
      tdi.val[i] := ucTdi;
    } else {
      EmptyMaskByte(ucTdi, data[Ones(LsbBits(mask[i + 1..]))..]);
    }
    DepositByteBefore(sum[i], ucTdi, mask[i], sum[i + 1..n], done, mask[i + 1..], data);
    assert tdi.val[i..n] == [ucTdi] + done && sum[i..n] == [sum[i]] + sum[i + 1..n];
  }

  /** The masked increment of a value, as far as its buffer is concerned: the address mask is added modulo
      the width of the value, and the data deposited where the data mask is set. */
  function Masked(tdi: Storage, data: seq<bv8>, address: Storage, mask: Storage): (r: Storage)
    requires Ones(LsbBits(mask.Contents())) <= 8 * |data|
    ensures r.len == tdi.len
  {
    var sum := Sum(tdi.Contents(), address.bytes[..tdi.len]) + tdi.bytes[tdi.len..];
    Buffer(tdi.len, Deposited(sum, data, mask.Contents()))
  }

  function Deposited(sum: seq<bv8>, data: seq<bv8>, mask: seq<bv8>): (r: seq<bv8>)
    requires |mask| <= |sum| && Ones(LsbBits(mask)) <= 8 * |data|
    ensures |r| == |sum|
  {
    Pack(Deposit(LsbBits(sum[..|mask|]), LsbBits(data), LsbBits(mask)), |mask|) + sum[|mask|..]
  }

  /** Masks of the value's own length act on the value alone. */
  lemma MaskedContents(tdi: Storage, data: seq<bv8>, address: Storage, mask: Storage)
    requires address.len == mask.len == tdi.len && Ones(LsbBits(mask.Contents())) <= 8 * |data|
    ensures LsbBits(Masked(tdi, data, address, mask).Contents())
            == Deposit(LsbBits(Sum(tdi.Contents(), address.Contents())), LsbBits(data), LsbBits(mask.Contents()))
  {
    hide Ones, Deposit, Sum, LsbBits;
    var total := Sum(tdi.Contents(), address.bytes[..tdi.len]);
    var sum := total + tdi.bytes[tdi.len..];
    assert sum[..mask.len] == total;
    var low := Pack(Deposit(LsbBits(total), LsbBits(data), LsbBits(mask.Contents())), mask.len);
    assert (low + sum[mask.len..])[..tdi.len] == low;
  }

  /** Of the next data exactly the bytes that hold as many bits as the mask are used. */
  method DoSdrMasking(tdi: LenVal, nextData: LenVal, addressMask: LenVal, dataMask: LenVal)
    returns (ghost left: int)
    requires Apart(tdi, nextData) && Apart(tdi, addressMask) && Apart(tdi, dataMask)
    requires Ones(LsbBits(dataMask.Contents())) <= 8 * nextData.len
    modifies tdi, tdi.val
    ensures tdi.Valid()
    ensures tdi.Stored() == Masked(old(tdi.Stored()), nextData.Contents(), addressMask.Stored(), dataMask.Stored())
    ensures left == nextData.len - (Ones(LsbBits(dataMask.Contents())) + 7) / 8
  {
    hide LsbBits, Deposited, Ones, Sum;
    AddVal(tdi, tdi, addressMask);
    ghost var sum := tdi.val[..];
    assert sum == tdi.Contents() + tdi.val[tdi.len..];
    left := DepositAll(tdi, nextData, dataMask);
  }

  /** The loop over the bytes of the data mask. */
  method DepositAll(tdi: LenVal, nextData: LenVal, dataMask: LenVal) returns (ghost left: int)
    requires Apart(tdi, nextData) && Apart(tdi, dataMask)
    requires Ones(LsbBits(dataMask.Contents())) <= 8 * nextData.len
    modifies tdi.val
    ensures tdi.val[..] == Deposited(old(tdi.val[..]), nextData.Contents(), dataMask.Contents())
    ensures left == nextData.len - (Ones(LsbBits(dataMask.Contents())) + 7) / 8
  {
    hide LsbBits, Deposit, Rank;
    ghost var sum := tdi.val[..];
    ghost var mask, n := dataMask.Contents(), dataMask.len;
    var byte, bit, unread := 0, 0, nextData.len;
    var i := dataMask.len;
    NothingDeposited(tdi.val[n..n], sum[n..n], mask[n..], LsbBits(nextData.Contents()));
    while i > 0
      invariant 0 <= i <= n && Apart(tdi, nextData) && Apart(tdi, dataMask)
      invariant Ones(LsbBits(mask[i..])) <= 8 * nextData.len
      invariant Feeding(nextData.Contents(), byte, bit, unread, Ones(LsbBits(mask[i..])))
      invariant LsbBits(tdi.val[i..n]) == Deposit(LsbBits(sum[i..n]), LsbBits(nextData.Contents()), LsbBits(mask[i..]))
      invariant tdi.val[..i] == sum[..i] && tdi.val[n..] == sum[n..]
    {
      i := i - 1;
      byte, bit, unread := DepositByte(tdi, nextData, dataMask, i, byte, bit, unread, sum);
    }
    assert mask[0..] == mask && tdi.val[0..n] == tdi.val[..n] && sum[0..n] == sum[..n];
    left := unread;
    IsDeposited(tdi.val[..], sum, nextData.Contents(), mask);
  }

  lemma IsDeposited(result: seq<bv8>, sum: seq<bv8>, data: seq<bv8>, mask: seq<bv8>)
    requires |mask| <= |sum| == |result| && Ones(LsbBits(mask)) <= 8 * |data|
    requires LsbBits(result[..|mask|]) == Deposit(LsbBits(sum[..|mask|]), LsbBits(data), LsbBits(mask))
    requires result[|mask|..] == sum[|mask|..]
    ensures result == Deposited(sum, data, mask)
  {
    hide LsbBits, Deposit, Ones;
    var n := |mask|;
    LsbBitsInjective(result[..n], Pack(Deposit(LsbBits(sum[..n]), LsbBits(data), LsbBits(mask)), n));
    assert result == result[..n] + result[n..];
  }

  lemma NothingDeposited(w: seq<bv8>, v: seq<bv8>, mask: seq<bv8>, data: seq<bool>)
    requires |w| == |v| == |mask| == 0
    ensures Ones(LsbBits(mask)) == 0 && LsbBits(w) == Deposit(LsbBits(v), data, LsbBits(mask))
  {
  }

  /** The population count of a value, as XSDRINC takes it. Its index is an unsigned char, so the value
      must be shorter than 256 bytes for the loop to end. */
  method CountOnes(dataMask: LenVal) returns (count: nat)
    requires dataMask.Valid() && dataMask.len <= 255
    ensures count == Ones(LsbBits(dataMask.Contents()))
  {
    hide LsbBits, Bits, Rank;
    count := 0;
    var i := 0;
    ghost var mask := dataMask.Contents();
    NothingDeposited([], [], mask[..0], []);
    while i < dataMask.len
      invariant 0 <= i <= dataMask.len
      invariant count == Ones(LsbBits(mask[..i]))
    {
      var inByte := CountByte(dataMask.val[i]);
      assert mask[..i + 1] == mask[..i] + [mask[i]];
      CountConcat(mask[..i], mask[i]);
      count := count + inByte;
      i := (i + 1) % 256;
    }
    assert mask[..i] == mask;
  }

  lemma CountConcat(a: seq<bv8>, b: bv8)
    ensures Ones(LsbBits(a + [b])) == Ones(LsbBits(a)) + Ones(Bits([b]))
  {
    hide Rank, BitOf;
    LsbBitsConcat(a, [b]);
    RankConcat(LsbBits([b]), LsbBits(a), 8 * |a|);
    assert LsbBits([b]) == Bits([b]);
  }

  method CountByte(mask: bv8) returns (count: nat)
    ensures count == Ones(Bits([mask]))
  {
    hide Bits, MaskLeft;
    ghost var m, k := Bits([mask]), 0;
    var rest := mask;
    count := 0;
    MaskStart(m, m, mask);
    MaskExhausted(rest, mask, k);
    while rest != 0
      invariant 0 <= k <= 8 && (k == 8 ==> rest == 0) && MaskLeft(rest, mask, k) && count == Rank(m, k)
      decreases 8 - k
    {
      NextMaskBit(rest, mask, k);
      count := count + if rest & 1 != 0 then 1 else 0;
      rest, k := rest >> 1, k + 1;
      MaskExhausted(rest, mask, k);
    }
    MaskExhausted(rest, mask, k);
    DepositRest(m, m, m, k);
  }

  /** The unsigned char index after n increments. */
  function IndexAfter(n: nat): (i: nat)
    ensures i <= 255 && (n <= 255 ==> i == n)
  {
    if n == 0 then 0 else (IndexAfter(n - 1) + 1) % 256
  }

  /** The counting loop ends exactly for values of at most 255 bytes: with 256 its index wraps first. */
  lemma CountingEnds(len: nat)
    ensures (exists n :: IndexAfter(n) >= len) <==> len <= 255
  {
    if len <= 255 {
      assert IndexAfter(len) >= len;
    }
  }
}

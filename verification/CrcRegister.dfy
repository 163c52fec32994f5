// The CRC-32 of common/crc.c as the program computes it: in a 32-bit register,
// which stands for the polynomials of Crc, bit 0 first.

module CrcRegister {
  import opened Bytes
  import opened Crc

  /** Bit i alone; none beyond bit 31. */
  function Mask(i: nat): bv32 {
    if i == 0 then 1 else Twice(Mask(i - 1))
  }

  function Twice(m: bv32): bv32 {
    m << 1
  }

  function Half(v: bv32): bv32 {
    v >> 1
  }

  predicate Meets(v: bv32, m: bv32) {
    v & m != 0
  }

  predicate BitAt(v: bv32, i: nat) {
    Meets(v, Mask(i))
  }

  /** The bits of the register as the program holds it, least significant first. */
  function Unpacked(v: bv32): (w: Word)
    ensures forall i :: 0 <= i < 32 ==> w[i] == BitAt(v, i)
  {
    seq(32, i requires 0 <= i < 32 => BitAt(v, i))
  }

  /** One turn of the bit loop on such a register. */
  function Turn(v: bv32, bitIn: bool): bv32 {
    if (v & 1 != 0) != bitIn then Half(v) ^ 0xEDB8_8320 else Half(v)
  }

  lemma {:induction false} MaskIsPower(i: nat)
    ensures Mask(i) & (Mask(i) - 1) == 0
  {
    if i > 0 {
      MaskIsPower(i - 1);
      Doubled(Mask(i - 1));
    }
  }

  lemma Doubled(m: bv32)
    requires m & (m - 1) == 0
    ensures (m << 1) & ((m << 1) - 1) == 0
  {
  }

  lemma Added(a: bv32, b: bv32, m: bv32)
    requires m & (m - 1) == 0
    ensures ((a ^ b) & m != 0) == ((a & m != 0) != (b & m != 0))
  {
  }

  lemma Masks()
    ensures Mask(8) == 0x100 && Mask(16) == 0x1_0000 && Mask(24) == 0x100_0000 && Mask(32) == 0
  {
    assert Mask(4) == 0x10;
    assert Mask(8) == 0x100;
    assert Mask(12) == 0x1000;
    assert Mask(16) == 0x1_0000;
    assert Mask(20) == 0x10_0000;
    assert Mask(24) == 0x100_0000;
    assert Mask(28) == 0x1000_0000;
    assert Mask(31) == 0x8000_0000;
  }

  lemma PolyBits(i: nat)
    requires i < 32
    ensures POLY[i] == BitAt(0xEDB8_8320, i)
  {
    hide BitOf, BitMask;
    Masks();
    assert POLY[i] == BitOf(REVERSED_POLYNOMIAL[i / 8], i % 8);
    PolyByte(i / 8, i % 8);
  }

  lemma PolyByte(j: nat, k: nat)
    requires j < 4 && k < 8
    ensures BitOf(REVERSED_POLYNOMIAL[j], k) == (0xEDB8_8320 & Mask(8 * j + k) != 0)
  {
    Masks();
  }

  lemma HalvedBit(v: bv32, i: nat)
    ensures BitAt(Half(v), i) == BitAt(v, i + 1)
  {
    hide *;
    HalvedAt(v, Mask(i));
    NextMask(i);
    BitAtIs(Half(v), i);
    BitAtIs(v, i + 1);
  }

  lemma BitAtIs(v: bv32, i: nat)
    ensures BitAt(v, i) == Meets(v, Mask(i))
  {
  }

  lemma HalvedAt(v: bv32, m: bv32)
    ensures Meets(Half(v), m) == Meets(v, Twice(m))
  {
  }

  lemma NoBit32(v: bv32)
    ensures !BitAt(v, 32)
  {
    hide Mask;
    Masks();
  }

  lemma AddedBit(a: bv32, b: bv32, i: nat)
    ensures BitAt(a ^ b, i) == (BitAt(a, i) != BitAt(b, i))
  {
    hide Mask;
    MaskIsPower(i);
    Added(a, b, Mask(i));
  }

  lemma FirstBit(v: bv32)
    ensures BitAt(v, 0) == (v & 1 != 0)
  {
  }

  lemma TurnBit(v: bv32, bitIn: bool, i: nat)
    requires i < 32
    ensures BitAt(Turn(v, bitIn), i) == ((i < 31 && BitAt(v, i + 1)) != ((BitAt(v, 0) != bitIn) && POLY[i]))
  {
    hide BitAt, Half;
    FirstBit(v);
    PolyBits(i);
    HalvedBit(v, i);
    NoBit32(v);
    AddedBit(Half(v), 0xEDB8_8320, i);
  }

  lemma NextMask(i: nat)
    ensures Mask(i + 1) == Twice(Mask(i)) && Mask(0) == 1
  {
  }

  lemma StepBit(r: Word, bitIn: bool, i: nat)
    requires i < 32
    ensures Step(r, bitIn)[i] == ((i < 31 && r[i + 1]) != ((r[0] != bitIn) && POLY[i]))
  {
  }

  lemma TurnStepBit(v: bv32, bitIn: bool, i: nat)
    requires i < 32
    ensures Step(Unpacked(v), bitIn)[i] == Unpacked(Turn(v, bitIn))[i]
  {
    hide *;
    StepBit(Unpacked(v), bitIn, i);
    TurnBit(v, bitIn, i);
  }

  lemma TurnIsStep(v: bv32, bitIn: bool)
    ensures Step(Unpacked(v), bitIn) == Unpacked(Turn(v, bitIn))
  {
    hide Step, Turn, Unpacked;
    forall i | 0 <= i < 32 ensures Step(Unpacked(v), bitIn)[i] == Unpacked(Turn(v, bitIn))[i] {
      TurnStepBit(v, bitIn, i);
    }
  }

  /** All bits of one byte. */
  function ByteIn(v: bv32, b: bv8): bv32 {
    Turn(Turn(Turn(Turn(Turn(Turn(Turn(Turn(v, BitOf(b, 0)), BitOf(b, 1)), BitOf(b, 2)), BitOf(b, 3)), BitOf(b, 4)),
                        BitOf(b, 5)), BitOf(b, 6)), BitOf(b, 7))
  }

  function Fed(v: bv32, data: seq<bv8>): bv32
    decreases |data|
  {
    if data == [] then v else Fed(ByteIn(v, data[0]), data[1..])
  }

  lemma RunTurn(v: bv32, bits: seq<bool>)
    requires bits != []
    ensures Run(Unpacked(v), bits) == Run(Unpacked(Turn(v, bits[0])), bits[1..])
  {
    hide Step, Turn, Unpacked;
    TurnIsStep(v, bits[0]);
  }

  lemma FourTurns(v: bv32, bits: seq<bool>)
    requires |bits| >= 4
    ensures Run(Unpacked(v), bits)
            == Run(Unpacked(Turn(Turn(Turn(Turn(v, bits[0]), bits[1]), bits[2]), bits[3])), bits[4..])
  {
    hide Step, Turn, Unpacked, Run;
    var v1 := Turn(v, bits[0]);
    var v2 := Turn(v1, bits[1]);
    var v3 := Turn(v2, bits[2]);
    RunTurn(v, bits);
    RunTurn(v1, bits[1..]);
    assert bits[1..][1..] == bits[2..];
    RunTurn(v2, bits[2..]);
    assert bits[2..][1..] == bits[3..];
    RunTurn(v3, bits[3..]);
    assert bits[3..][1..] == bits[4..];
  }

  lemma ByteRuns(v: bv32, b: bv8)
    ensures Run(Unpacked(v), Bits([b])) == Unpacked(ByteIn(v, b))
  {
    hide Step, Turn, Unpacked, Run, BitOf;
    var bits := Bits([b]);
    var half := Turn(Turn(Turn(Turn(v, bits[0]), bits[1]), bits[2]), bits[3]);
    FourTurns(v, bits);
    FourTurns(half, bits[4..]);
    RunNothing(ByteIn(v, b), bits[4..][4..]);
  }

  lemma RunNothing(v: bv32, bits: seq<bool>)
    requires bits == []
    ensures Run(Unpacked(v), bits) == Unpacked(v)
  {
  }

  /** The register that the program computes stands for the one of the division. */
  lemma {:induction false} FedRuns(v: bv32, data: seq<bv8>)
    ensures Run(Unpacked(v), Bits(data)) == Unpacked(Fed(v, data))
    decreases |data|
  {
    hide Step, ByteIn, Unpacked, Run, BitOf;
    if data == [] {
      RunNothing(v, Bits(data));
    } else {
      assert Bits(data) == Bits([data[0]]) + Bits(data[1..]);
      RunConcat(Unpacked(v), Bits([data[0]]), Bits(data[1..]));
      ByteRuns(v, data[0]);
      FedRuns(ByteIn(v, data[0]), data[1..]);
    }
  }

  lemma {:induction false} MaskIsNotZero(i: nat)
    requires i < 32
    ensures Mask(i) != 0
  {
    Masks();
    if Mask(i) == 0 {
      NoMore(i, 31);
    }
  }

  lemma {:induction false} NoMore(i: nat, n: nat)
    requires i <= n && Mask(i) == 0
    ensures Mask(n) == 0
  {
    if i < n {
      NoMore(i, n - 1);
    }
  }

  lemma Inverted(v: bv32, m: bv32)
    requires m & (m - 1) == 0 && m != 0
    ensures (!v & m != 0) == !(v & m != 0)
  {
  }

  function Inverse(v: bv32): bv32 {
    !v
  }

  lemma InverseOfZero()
    ensures Inverse(0) == 0xFFFF_FFFF
  {
  }

  /** The complement, bit by bit. */
  lemma InvertedBit(v: bv32, i: nat)
    requires i < 32
    ensures BitAt(Inverse(v), i) == !BitAt(v, i)
  {
    hide Mask;
    MaskIsPower(i);
    MaskIsNotZero(i);
    Inverted(v, Mask(i));
  }

  lemma ZeroBit(i: nat)
    ensures !BitAt(0, i)
  {
    hide Mask;
  }

  lemma OnesUnpacked()
    ensures ONES == Unpacked(0xFFFF_FFFF)
  {
    hide *;
    forall i | 0 <= i < 32 ensures ONES[i] == Unpacked(0xFFFF_FFFF)[i] {
      OnesAreSet(i);
      ZeroBit(i);
      InvertedBit(0, i);
      InverseOfZero();
    }
  }

  lemma FedFromOnes(data: seq<bv8>)
    ensures Run(ONES, Bits(data)) == Unpacked(Fed(0xFFFF_FFFF, data))
  {
    hide *;
    OnesUnpacked();
    FedRuns(0xFFFF_FFFF, data);
  }

  lemma DigestAt(data: seq<bv8>, i: nat)
    requires i < 32
    ensures DigestOf(Bits(data))[i] == BitAt(Inverse(Fed(0xFFFF_FFFF, data)), i)
  {
    hide *;
    FedFromOnes(data);
    DigestBit(Bits(data), i);
    InvertedBit(Fed(0xFFFF_FFFF, data), i);
  }

  lemma SameWord(a: Word, b: Word)
    requires forall i :: 0 <= i < 32 ==> a[i] == b[i]
    ensures a == b
  {
  }

  /** The digest that the program computes. */
  lemma DigestIs(data: seq<bv8>)
    ensures DigestOf(Bits(data)) == Unpacked(Inverse(Fed(0xFFFF_FFFF, data)))
  {
    hide *;
    forall i | 0 <= i < 32 ensures DigestOf(Bits(data))[i] == Unpacked(Inverse(Fed(0xFFFF_FFFF, data)))[i] {
      DigestAt(data, i);
    }
    SameWord(DigestOf(Bits(data)), Unpacked(Inverse(Fed(0xFFFF_FFFF, data))));
  }

  lemma HighNibble(d: bv8)
    requires 0x30 <= d < 0x40
    ensures BitOf(d, 4) && BitOf(d, 5) && !BitOf(d, 6) && !BitOf(d, 7)
  {
  }

  lemma LowNibble(d: bv8)
    ensures BitOf(d, 0) == (d & 1 != 0) && BitOf(d, 1) == (d & 2 != 0)
    ensures BitOf(d, 2) == (d & 4 != 0) && BitOf(d, 3) == (d & 8 != 0)
  {
  }

  lemma Digit(d: bv8)
    requires 0x30 <= d < 0x40
    ensures forall v :: ByteIn(v, d) == Turn(Turn(Turn(Turn(Turn(Turn(Turn(Turn(v,
                          d & 1 != 0), d & 2 != 0), d & 4 != 0), d & 8 != 0), true), true), false), false)
  {
    hide BitOf, Turn;
    HighNibble(d);
    LowNibble(d);
  }

  lemma Digits123()
    ensures ByteIn(0xFFFF_FFFF, 0x31) == 0x7C23_1048
    ensures ByteIn(0x7C23_1048, 0x32) == 0xB0AC_BB32
    ensures ByteIn(0xB0AC_BB32, 0x33) == 0x77B7_9C2D
  {
    hide BitOf, ByteIn;
    Digit(0x31);
    Digit(0x32);
    Digit(0x33);
  }

  lemma Digits456()
    ensures ByteIn(0x77B7_9C2D, 0x34) == 0x641C_1F5C
    ensures ByteIn(0x641C_1F5C, 0x35) == 0x340A_C5E3
    ensures ByteIn(0x340A_C5E3, 0x36) == 0xF68D_2C9E
  {
    hide BitOf, ByteIn;
    Digit(0x34);
    Digit(0x35);
    Digit(0x36);
  }

  lemma Digits789()
    ensures ByteIn(0xF68D_2C9E, 0x37) == 0xAFFC_9660
    ensures ByteIn(0xAFFC_9660, 0x38) == 0x651F_2550
    ensures ByteIn(0x651F_2550, 0x39) == !0xCBF4_3926
  {
    hide BitOf, ByteIn;
    Digit(0x37);
    Digit(0x38);
    Digit(0x39);
  }

  lemma FedOn(v: bv32, data: seq<bv8>)
    requires data != []
    ensures Fed(v, data) == Fed(ByteIn(v, data[0]), data[1..])
  {
  }

  lemma CheckRegister()
    ensures Fed(0xFFFF_FFFF, [0x31, 0x32, 0x33, 0x34, 0x35, 0x36, 0x37, 0x38, 0x39]) == !0xCBF4_3926
  {
    hide ByteIn, Fed;
    Digits123();
    Digits456();
    Digits789();
    FedOn(0xFFFF_FFFF, [0x31, 0x32, 0x33, 0x34, 0x35, 0x36, 0x37, 0x38, 0x39]);
    FedOn(0x7C23_1048, [0x32, 0x33, 0x34, 0x35, 0x36, 0x37, 0x38, 0x39]);
    FedOn(0xB0AC_BB32, [0x33, 0x34, 0x35, 0x36, 0x37, 0x38, 0x39]);
    FedOn(0x77B7_9C2D, [0x34, 0x35, 0x36, 0x37, 0x38, 0x39]);
    FedOn(0x641C_1F5C, [0x35, 0x36, 0x37, 0x38, 0x39]);
    FedOn(0x340A_C5E3, [0x36, 0x37, 0x38, 0x39]);
    FedOn(0xF68D_2C9E, [0x37, 0x38, 0x39]);
    FedOn(0xAFFC_9660, [0x38, 0x39]);
    FedOn(0x651F_2550, [0x39]);
    NothingFed(!0xCBF4_3926, [0x39][1..]);
  }

  lemma NothingFed(v: bv32, data: seq<bv8>)
    requires data == []
    ensures Fed(v, data) == v
  {
  }

  /** The check value of CRC-32: the digest of the digits 1 to 9. */
  lemma CheckValue()
    ensures DigestOf(Bits([0x31, 0x32, 0x33, 0x34, 0x35, 0x36, 0x37, 0x38, 0x39])) == Unpacked(0xCBF4_3926)
  {
    hide Unpacked, Run, Fed;
    DigestIs([0x31, 0x32, 0x33, 0x34, 0x35, 0x36, 0x37, 0x38, 0x39]);
    CheckRegister();
  }

  // ----- the implementation

  class Crc32 {
    var remainder: bv32
    var reversedPolynomial: bv32
    var finalXor: bv32

    ghost predicate Valid()
      reads this
    {
      reversedPolynomial == 0xEDB8_8320 && finalXor == 0xFFFF_FFFF
    }

    constructor ()
      ensures Valid() && forall i :: 0 <= i < 32 ==> Unpacked(remainder)[i]
    {
      remainder, reversedPolynomial, finalXor := 0xFFFF_FFFF, 0xEDB8_8320, 0xFFFF_FFFF;
      new;
      hide Unpacked;
      OnesUnpacked();
      forall i | 0 <= i < 32 ensures Unpacked(0xFFFF_FFFF)[i] {
        OnesAreSet(i);
      }
    }

    /** The body of the bit loop is one step of the division. */
    static method ShiftIn(r0: bv32, bitIn: bool, polynomial: bv32) returns (r: bv32)
      requires polynomial == 0xEDB8_8320
      ensures Unpacked(r) == Step(Unpacked(r0), bitIn)
    {
      hide Unpacked, Step;
      r := r0 ^ if bitIn then 1 else 0;
      var bitOut := r & 1 != 0;
      r := r >> 1;
      if bitOut {
        r := r ^ polynomial;
      }
      LowBit(r0);
      TurnIsStep(r0, bitIn);
    }

    /** The division is continued over the data, least significant bit of each byte first. */
    method Update(data: seq<bv8>)
      requires Valid()
      modifies this
      ensures Valid() && Unpacked(remainder) == Run(old(Unpacked(remainder)), Bits(data))
    {
      hide Unpacked, Step, Run, BitOf;
      var r := remainder;
      var bitCount := |data| * 8;
      RunNothing(r, Bits(data)[..0]);
      for bitN := 0 to bitCount
        invariant Valid() && remainder == old(remainder)
        invariant Unpacked(r) == Run(Unpacked(remainder), Bits(data)[..bitN])
      {
        var bitIn := BitOf(data[bitN / 8], bitN % 8);
        r := ShiftIn(r, bitIn, reversedPolynomial);
        RunNext(Unpacked(remainder), Bits(data), bitN);
      }
      assert Bits(data)[..bitCount] == Bits(data);
      remainder := r;
    }

    /** The digest is the complement of the register. */
    method Digest() returns (d: bv32)
      requires Valid()
      ensures forall i :: 0 <= i < 32 ==> Unpacked(d)[i] == !Unpacked(remainder)[i]
    {
      d := remainder ^ finalXor;
      XorIsInverse(remainder);
      hide Unpacked, Inverse;
      forall i | 0 <= i < 32 ensures Unpacked(d)[i] == !Unpacked(remainder)[i] {
        InvertedBit(remainder, i);
      }
    }
  }

  lemma LowBit(r: bv32)
    ensures r ^ 0 == r && (r ^ 1) >> 1 == r >> 1 && ((r ^ 1) & 1 != 0 <==> r & 1 == 0)
  {
  }

  lemma XorIsInverse(r: bv32)
    ensures r ^ 0xFFFF_FFFF == Inverse(r)
  {
  }
}

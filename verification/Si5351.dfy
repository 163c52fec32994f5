// The clock generator's multisynth registers (common/si5351c.c).

module Si5351 {
  import opened Machine

  /** The divider parameters of one multisynth, as the chip reads them back from its registers. */
  datatype Multisynth = Multisynth(p1: nat, p2: nat, p3: nat, rDiv: nat)

  /** The eight register bytes of one multisynth. */
  function Pack(p1: u32, p2: u32, p3: u32, rDiv: u8): (bytes: seq<u8>)
    ensures |bytes| == 8
  {
    [ p3 / 0x100 % 0x100,
      p3 % 0x100,
      (rDiv * 0x10 + p1 / 0x1_0000 % 4) % 0x100,
      p1 / 0x100 % 0x100,
      p1 % 0x100,
      p3 / 0x1_0000 % 0x10 * 0x10 + p2 / 0x1_0000 % 0x10,
      p2 / 0x100 % 0x100,
      p2 % 0x100 ]
  }

  /** The chip's reading of those bytes: an 18-bit P1, 20-bit P2 and P3, a 3-bit R divider. */
  function Unpack(bytes: seq<u8>): Multisynth
    requires |bytes| == 8
  {
    var bytes: seq<int> := bytes;
    Multisynth(
      bytes[2] % 4 * 0x1_0000 + bytes[3] * 0x100 + bytes[4],
      bytes[5] % 0x10 * 0x1_0000 + bytes[6] * 0x100 + bytes[7],
      bytes[5] / 0x10 * 0x1_0000 + bytes[0] * 0x100 + bytes[1],
      bytes[2] / 0x10 % 8)
  }

  /** Packing keeps each parameter up to its register width, for all 32-bit parameters. */
  lemma UnpackPack(p1: u32, p2: u32, p3: u32, rDiv: u8)
    ensures Unpack(Pack(p1, p2, p3, rDiv)) == Multisynth(p1 % 0x4_0000, p2 % 0x10_0000, p3 % 0x10_0000, rDiv % 8)
  {
    SplitField(p1, 4);
    SplitField(p2, 0x10);
    SplitField(p3, 0x10);
    SharedByte(p1 / 0x1_0000 % 4, rDiv);
    SharedNibbles(p3 / 0x1_0000 % 0x10, p2 / 0x1_0000 % 0x10);
  }

  lemma SharedByte(low: int, rDiv: int)
    requires 0 <= low < 4 && 0 <= rDiv < 0x100
    ensures var b := (rDiv * 0x10 + low) % 0x100; b % 4 == low && b / 0x10 % 8 == rDiv % 8
  {
    var high, nibble := rDiv / 0x10, rDiv % 0x10;
    DivUnique(rDiv * 0x10 + low, 0x100, high, nibble * 0x10 + low);
    DivUnique(nibble * 0x10 + low, 0x10, nibble, low);
    DivUnique(nibble * 0x10 + low, 4, nibble * 4, low);
    LowerBits(rDiv);
  }

  lemma LowerBits(r: int)
    ensures r % 0x10 % 8 == r % 8
  {
  }

  lemma SharedNibbles(high: int, low: int)
    requires 0 <= low < 0x10 && 0 <= high < 0x10
    ensures (high * 0x10 + low) % 0x10 == low && (high * 0x10 + low) / 0x10 == high
  {
  }

  lemma SplitField(p: u32, top: int)
    requires top == 4 || top == 0x10
    ensures p / 0x1_0000 % top * 0x1_0000 + p / 0x100 % 0x100 * 0x100 + p % 0x100 == p % (top * 0x1_0000)
  {
    DivDiv(p, 0x100, 0x100);
    DivDiv(p, 0x1_0000, top);
  }

  const INT_MODE: int := 0x40

  /** The chip's register file. */
  class ClockGenerator {
    var regs: seq<u8>

    ghost predicate Valid()
      reads this
    {
      |regs| == 256
    }

    constructor ()
      ensures Valid()
    {
      regs := seq(256, _ => 0);
    }

    function At(msNumber: nat): (bytes: seq<u8>)
      requires Valid() && msNumber < 6
      reads this
      ensures |bytes| == 8
    {
      regs[42 + msNumber * 8..][..8]
    }

    predicate IntMode(msNumber: nat)
      requires Valid() && msNumber < 8
      reads this
    {
      regs[16 + msNumber] / INT_MODE % 2 == 1
    }

    method ConfigureMultisynth(msNumber: nat, p1: u32, p2: u32, p3: u32, rDiv: u8)
      requires Valid() && msNumber < 6
      modifies this
      ensures Valid() && At(msNumber) == Pack(p1, p2, p3, rDiv)
      ensures forall i :: 0 <= i < 256 && !(42 + msNumber * 8 <= i < 50 + msNumber * 8) ==> regs[i] == old(regs[i])
      ensures forall m :: 0 <= m < 6 && m != msNumber ==> At(m) == old(At(m))
    {
      var reg := 42 + msNumber * 8;
      regs := regs[..reg] + Pack(p1, p2, p3, rDiv) + regs[reg + 8..];
      assert regs[reg..][..8] == Pack(p1, p2, p3, rDiv);
    }

    /** Read-modify-write of the integer-mode bit of one clock; the other seven bits are kept. */
    method SetIntMode(msNumber: u8, on: bool)
      requires Valid()
      modifies this
      ensures Valid()
      ensures msNumber < 8 ==> IntMode(msNumber) == on
      ensures msNumber < 8 ==> regs[16 + msNumber] % INT_MODE == old(regs[16 + msNumber]) % INT_MODE
                               && regs[16 + msNumber] / 0x80 == old(regs[16 + msNumber]) / 0x80
      ensures forall i :: 0 <= i < 256 && (msNumber < 8 ==> i != 16 + msNumber) ==> regs[i] == old(regs[i])
    {
      if msNumber < 8 {
        var v: u8 := regs[16 + msNumber];
        if on && v / INT_MODE % 2 == 0 {
          v := v + INT_MODE;
        } else if !on && v / INT_MODE % 2 == 1 {
          v := v - INT_MODE;
        }
        regs := regs[16 + msNumber := v];
      }
    }
  }
}

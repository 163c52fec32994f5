// The mixer synthesizer driver (common/rffc5071.c): choice of the LO divider,
// rounding of the tuning word, and what the chip then synthesizes.

module Rffc5071 {
  import opened Machine

  const REF_FREQ: int := 40_000_000
  const LO_MAX: int := 5_400_000_000
  const LO_MIN: int := 84_375_000
  const STEP_LOG: nat := 6
  const STEP_HZ: int := 625_000

  // The rounding result below is stated up to this LO, far above LO_MAX: up to
  // here the tuning word fits the 9-bit N and 16-bit NMSB register fields.
  const LO_EXACT: int := 80_000_000_000

  /** The synthesizer fields of the register file, with their register widths. */
  datatype Registers = Registers(
    enbl: bool, pllcpl: nat, p2lodiv: nat, p2presc: nat, p2n: nat, p2nmsb: nat, p2nlsb: nat)
  {
    /** The 24-bit fixed-point feedback divider the chip assembles from three fields. */
    function Word(): nat {
      p2n * 0x100_0000 + p2nmsb * 0x100 + p2nlsb
    }

    /** The chip's LO output in Hz, when it is a whole number. */
    function LoHz(): int
      requires p2presc <= 24
    {
      Word() * 40_000_000 / Pow2(24 - p2presc + p2lodiv)
    }

    lemma LoIs(hz: nat)
      requires Synthesizes(hz)
      ensures LoHz() == hz
    {
      IsQuotient(Word() * REF_FREQ, Pow2(24 - p2presc + p2lodiv), hz);
    }

    /** The chip's LO output is exactly hz: Word/2^24 * 2^PRESC * REF / 2^LODIV. */
    ghost predicate Synthesizes(hz: int) {
      p2presc <= 24 && Word() * 40_000_000 == hz * Pow2(24 - p2presc + p2lodiv)
    }
  }

  lemma IsQuotient(n: int, d: nat, q: int)
    requires d > 0 && n == q * d
    ensures n / d == q
  {
    DivUnique(n, d, q, 0);
  }

  /** The multiple of 625 kHz nearest to lo (ties upwards). */
  function RoundToStep(lo: int): (r: int)
    ensures lo - STEP_HZ / 2 < r <= lo + STEP_HZ / 2 && r % STEP_HZ == 0
  {
    STEP_HZ * ((lo + STEP_HZ / 2) / STEP_HZ)
  }

  /** Only one multiple of 625 kHz is so near. */
  lemma RoundsToNearest(lo: int, r: int)
    ensures r == RoundToStep(lo) <==> lo - 312_500 < r <= lo + 312_500 && r % 625_000 == 0
  {
    if lo - 312_500 < r <= lo + 312_500 && r % 625_000 == 0 {
      var k := r / 625_000;
      assert r == 625_000 * k;
    }
  }

  /** The driver's divider choice: the fewest halvings that bring LO_MAX / 2 below lo, at most five. */
  function LoDivider(lo: int): (n: nat)
    ensures n <= 5
  {
    if lo > LO_MAX / 2 then 0
    else if lo > LO_MAX / 4 then 1
    else if lo > LO_MAX / 8 then 2
    else if lo > LO_MAX / 16 then 3
    else if lo > LO_MAX / 32 then 4
    else 5
  }

  /** The VCO stays inside its 2.7 to 5.4 GHz band exactly for LO_MIN <= lo <= LO_MAX. */
  lemma VcoInBand(lo: nat)
    ensures 2_700_000_000 <= lo * Pow2(LoDivider(lo)) <= 5_400_000_000 <==> 84_375_000 <= lo <= 5_400_000_000
  {
    assert Pow2(0) == 1 && Pow2(1) == 2 && Pow2(2) == 4 && Pow2(3) == 8;
    assert Pow2(4) == 16;
    assert Pow2(5) == 32;
  }

  /** One half-up rounding stands for the truncating division followed by half-up rounding at bit d. */
  lemma RoundedTwice(lo: nat, d: nat)
    requires d >= 1
    ensures (lo * Pow2(d + STEP_LOG) / REF_FREQ + Pow2(d - 1)) / Pow2(d) == (lo + STEP_HZ / 2) / STEP_HZ
  {
    var h := Pow2(d - 1);
    var a := lo * Pow2(d + STEP_LOG);
    assert Pow2(d) == 2 * h;
    assert Pow2(d + STEP_LOG) == 128 * h by {
      Pow2Add(STEP_LOG + 1, d - 1);
      assert Pow2(7) == 128;
    }
    var n := lo * 128 + REF_FREQ;
    assert a + REF_FREQ * h == n * h;
    calc {
      (a / REF_FREQ + h) / Pow2(d);
      { DivShift(a, REF_FREQ, h); }
      (n * h) / REF_FREQ / (2 * h);
      { DivDiv(n * h, REF_FREQ, 2 * h); assert REF_FREQ * (2 * h) == (2 * REF_FREQ) * h; }
      (n * h) / ((2 * REF_FREQ) * h);
      { DivCancel(n, 2 * REF_FREQ, h); }
      n / (2 * REF_FREQ);
      (lo + STEP_HZ / 2) / STEP_HZ;
    }
  }

  lemma VcoFits(lo: nat, nLo: nat)
    requires lo <= LO_EXACT && nLo <= 5
    ensures Shl(lo, nLo) == lo * Pow2(nLo)
  {
    Pow2Monotone(nLo, 5);
    assert Pow2(3) == 8;
    assert Pow2(5) == 32;
    assert lo * Pow2(nLo) <= lo * 32;
  }

  /** Every 64-bit intermediate is in range, for every LO up to LO_EXACT. */
  lemma StepsFit(lo: nat, nLo: nat, presc: nat)
    requires lo <= LO_EXACT && nLo == LoDivider(lo) && presc == (if lo * Pow2(nLo) > 3_200_000_000 then 2 else 1)
    ensures lo * Pow2(nLo) * Pow2(24 - presc) < W64
    ensures var d := 24 - presc + nLo - STEP_LOG;
            16 <= d <= 22 && Steps(lo) * Pow2(d) < 0x2_0000_0000 && Pow2(d - 1) < 0x40_0000
  {
    assert Pow2(0) == 1 && Pow2(1) == 2 && Pow2(2) == 4 && Pow2(3) == 8 && Pow2(4) == 16;
    assert Pow2(5) == 32;
    assert Pow2(8) == 256;
    Pow2Add(8, 8);
    assert Pow2(15) == 32_768 && Pow2(16) == 65_536;
    assert Pow2(17) == 131_072;
    assert Pow2(18) == 262_144;
    assert Pow2(19) == 524_288;
    assert Pow2(20) == 1_048_576;
    assert Pow2(21) == 2_097_152;
    assert Pow2(22) == 4_194_304;
    assert Pow2(23) == 8_388_608;
  }

  /** The number of 625 kHz steps in the rounded frequency. */
  function Steps(lo: nat): nat {
    (lo + STEP_HZ / 2) / STEP_HZ
  }

  lemma WordIsSteps(lo: nat, nLo: nat, presc: nat)
    requires 1 <= presc <= 2
    ensures var d := 24 - presc + nLo - STEP_LOG;
            (lo * Pow2(nLo) * Pow2(24 - presc) / REF_FREQ + Pow2(d - 1)) / Pow2(d) == Steps(lo)
  {
    var d := 24 - presc + nLo - STEP_LOG;
    Pow2Add(nLo, 24 - presc);
    assert lo * Pow2(nLo) * Pow2(24 - presc) == lo * Pow2(d + STEP_LOG);
    RoundedTwice(lo, d);
  }

  lemma WordIsExact(k: nat, d: nat)
    ensures k * Pow2(d) * REF_FREQ == (STEP_HZ * k) * Pow2(d + STEP_LOG)
    ensures k * Pow2(d) * REF_FREQ / Pow2(d + STEP_LOG) == STEP_HZ * k
  {
    Pow2Add(STEP_LOG, d);
    assert Pow2(6) == 64;
    assert k * Pow2(d) * REF_FREQ == (k * Pow2(d)) * (64 * STEP_HZ) == (STEP_HZ * k) * (64 * Pow2(d));
    DivUnique(k * Pow2(d) * REF_FREQ, Pow2(d + STEP_LOG), STEP_HZ * k, 0);
  }

  lemma LowByteIsZero(k: nat, d: nat)
    requires d >= 8
    ensures k * Pow2(d) % 0x100 == 0
  {
    Pow2Add(8, d - 8);
    assert Pow2(8) == 0x100;
    assert k * Pow2(d) == 0x100 * (k * Pow2(d - 8));
  }

  /** A word whose low byte is zero is carried by the 9-bit N and the 16-bit NMSB fields alone. */
  lemma FieldsSynthesize(r: Registers, word: nat, nLo: nat, hz: nat)
    requires word % 0x100 == 0 && word < 0x2_0000_0000 && nLo <= 5 && r.p2presc <= 2
    requires r.p2n == word / 0x100_0000 % 0x1_0000 % 0x200 && r.p2nmsb == word / 0x100 % 0x1_0000
    requires r.p2nlsb == 0 && r.p2lodiv == nLo % 8
    requires word * REF_FREQ == hz * Pow2(24 - r.p2presc + nLo)
    ensures r.Word() == word && r.Synthesizes(hz) && r.p2lodiv == nLo
  {
    SplitWord(word);
    assert r.Word() == word;
  }

  lemma SplitWord(word: nat)
    requires word % 0x100 == 0 && word < 0x2_0000_0000
    ensures word / 0x100_0000 % 0x1_0000 % 0x200 * 0x100_0000 + word / 0x100 % 0x1_0000 * 0x100 == word
  {
  }

  /** 64-bit wrap-around does nothing to values in range (v: VCO, p, h, q: powers of two, k: steps). */
  lemma NoWrap(v: nat, p: nat, h: nat, q: nat, k: nat)
    requires p >= 1 && v * p < W64 && h < 0x40_0000 && q > 0
    requires (v * p / REF_FREQ + h) / q == k && k * q < 0x2_0000_0000
    ensures U64(v) == v && U64(v * p) == v * p && U64(v * p / REF_FREQ + h) == v * p / REF_FREQ + h
    ensures U64(k * q) == k * q && U64(k * q * REF_FREQ) == k * q * REF_FREQ
  {
    assert v <= v * p;
  }

  /** The wrapped 64-bit computation of the tuning word yields Steps(lo) * 2^d. */
  lemma InRange(lo: nat, nLo: nat, presc: nat)
    requires lo <= LO_EXACT && nLo == LoDivider(lo) && presc == (if lo * Pow2(nLo) > 3_200_000_000 then 2 else 1)
    ensures var d := 24 - presc + nLo - STEP_LOG;
            && d >= 1
            && Shl(Shr(U64(Shl(Shl(lo, nLo), 24 - presc) / REF_FREQ + Pow2(d - 1)), d), d) == Steps(lo) * Pow2(d)
  {
    var d := 24 - presc + nLo - STEP_LOG;
    VcoFits(lo, nLo);
    StepsFit(lo, nLo, presc);
    WordIsSteps(lo, nLo, presc);
    NoWrap(lo * Pow2(nLo), Pow2(24 - presc), Pow2(d - 1), Pow2(d), Steps(lo));
  }

  lemma WordInRange(lo: nat, nLo: nat, presc: nat)
    requires lo <= LO_EXACT && nLo == LoDivider(lo) && presc == (if lo * Pow2(nLo) > 3_200_000_000 then 2 else 1)
    ensures var word := Steps(lo) * Pow2(24 - presc + nLo - STEP_LOG);
            && word % 0x100 == 0 && word < 0x2_0000_0000
            && word * REF_FREQ == RoundToStep(lo) * Pow2(24 - presc + nLo)
            && Shr(U64(word * REF_FREQ), 24 - presc + nLo) == RoundToStep(lo)
  {
    StepsFit(lo, nLo, presc);
    var d := 24 - presc + nLo - STEP_LOG;
    LowByteIsZero(Steps(lo), d);
    WordIsExact(Steps(lo), d);
  }

  /** Prescaler and charge pump go together: the higher settings exactly for a VCO above 3.2 GHz. */
  predicate HighSettings(r: Registers, lo: nat) {
    var vco := lo * Pow2(LoDivider(lo));
    && (r.pllcpl == 3 <==> vco > 3_200_000_000) && (r.p2presc == 2 <==> vco > 3_200_000_000)
    && (r.pllcpl == 3 || r.pllcpl == 2) && (r.p2presc == 2 || r.p2presc == 1)
  }

  class Synthesizer {
    var regs: Registers  // the driver's cache
    var chip: Registers  // what has been committed to the chip

    ghost predicate Valid()
      reads this
    {
      // The setup routine clears NLSB and nothing writes it afterwards.
      regs.p2nlsb == 0 && chip == regs && regs.p2presc <= 2
    }

    constructor ()
      ensures Valid() && !chip.enbl
    {
      var zero := Registers(false, 2, 0, 0, 0, 0, 0);
      regs, chip := zero, zero;
    }

    method Commit()
      modifies this
      ensures regs == old(regs) && chip == regs
    {
      chip := regs;
    }

    /** The LO divider loop: halve until below lo, at most five times. */
    method FindLoDivider(lo: u64) returns (nLo: nat)
      ensures nLo == LoDivider(lo)
    {
      nLo := 0;
      var x := LO_MAX / 2;
      while x >= lo && nLo < 5
        invariant nLo <= 5
        invariant x == [2_700_000_000, 1_350_000_000, 675_000_000, 337_500_000, 168_750_000, 84_375_000][nLo]
        invariant nLo > 0 ==> 2 * x >= lo
        decreases 5 - nLo
      {
        nLo := nLo + 1;
        x := x / 2;
      }
    }

    /** The rounded tuning word and the frequency it stands for. */
    static method TuningWord(ghost lo: u64, nLo: nat, fvco: u64, fbkdivlog: nat) returns (tmpN: u64, tune: u64)
      requires nLo == LoDivider(lo) && fvco == Shl(lo, nLo)
      requires fbkdivlog == if fvco > 3_200_000_000 then 2 else 1
      ensures lo <= LO_EXACT ==>
                && tmpN % 0x100 == 0 && tmpN < 0x2_0000_0000
                && tmpN * REF_FREQ == RoundToStep(lo) * Pow2(24 - fbkdivlog + nLo)
                && tune == RoundToStep(lo)
    {
      var d := 24 - fbkdivlog + nLo - STEP_LOG;
      if lo <= LO_EXACT {
        VcoFits(lo, nLo);
        InRange(lo, nLo, fbkdivlog);
        WordInRange(lo, nLo, fbkdivlog);
      }
      tmpN := Shl(fvco, 24 - fbkdivlog) / REF_FREQ;
      tmpN := Shl(Shr(U64(tmpN + Pow2(d - 1)), d), d);
      tune := Shr(U64(tmpN * REF_FREQ), 24 - fbkdivlog + nLo);
    }

    /** Configures the dividers for lo; the frequency the chip then produces is returned. */
    method ConfigSynth(lo: u64) returns (tune: u64)
      requires Valid()
      modifies this
      ensures Valid() && chip.enbl == old(chip.enbl)
      ensures lo <= LO_EXACT ==> tune == RoundToStep(lo)
      ensures lo <= LO_EXACT ==> chip.Synthesizes(tune) && chip.p2lodiv == LoDivider(lo)
      ensures lo <= LO_EXACT ==> HighSettings(chip, lo)
    {
      var nLo := FindLoDivider(lo);
      var fvco := Shl(lo, nLo);
      var fbkdivlog: nat;
      if fvco > 3_200_000_000 {
        fbkdivlog := 2;
        regs := regs.(pllcpl := 3);
      } else {
        fbkdivlog := 1;
        regs := regs.(pllcpl := 2);
      }

      var tmpN: u64;
      tmpN, tune := TuningWord(lo, nLo, fvco, fbkdivlog);
      var n := tmpN / 0x100_0000 % 0x1_0000;
      var p1nmsb := tmpN / 0x100 % 0x1_0000;
      // The step exponent STEP_LOG is not above 14, so NLSB is left alone.
      regs := regs.(p2lodiv := nLo % 8, p2n := n % 0x200, p2presc := fbkdivlog, p2nmsb := p1nmsb);
      if lo <= LO_EXACT {
        VcoFits(lo, nLo);
        FieldsSynthesize(regs, tmpN, nLo, tune);
      }
      Commit();
    }

    method SetFrequency(hz: u64) returns (tune: u32)
      requires Valid()
      modifies this
      ensures Valid() && chip.enbl
      ensures hz <= LO_EXACT ==> tune == U32(RoundToStep(hz)) && chip.Synthesizes(RoundToStep(hz))
      ensures hz <= LO_EXACT ==> chip.p2lodiv == LoDivider(hz) && HighSettings(chip, hz)
    {
      regs := regs.(enbl := false);
      Commit();
      var t := ConfigSynth(hz);
      tune := U32(t);
      regs := regs.(enbl := true);
      Commit();
    }
  }
}

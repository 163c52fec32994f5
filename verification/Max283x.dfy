// The IF transceiver drivers (common/max2837.c and common/max2839.c): a
// bit-serial division for the fractional divider, and the order in which the
// divider registers reach the chip.

module Max283x {
  import opened Machine

  const DIV_REF: int := 30_000_000
  const ROUNDING: int := 14       // 30000000 >> 21
  const FRAC_ONE: int := 0x10_0000 // 2^20
  const FREQ_EXACT: int := 0x1_0000_0000 - 15

  /** The divider fields that decide the chip's frequency and band. */
  datatype Fields = Fields(band: nat, lnaBand: nat, synInt: nat, fracHi: nat, fracLo: nat)
  {
    /** Divider in units of 2^-20. */
    function Divider(): nat {
      synInt * FRAC_ONE + fracHi * 0x400 + fracLo
    }

    /** Synthesized frequency in units of 2^-20 Hz. */
    function Freq20(): nat {
      Divider() * 30_000_000
    }
  }

  /** The divider the drivers are meant to program: (freq + 14) * 2^20 / 30 MHz, rounded down. */
  function WantedDivider(freq: nat): nat {
    (freq + ROUNDING) * FRAC_ONE / DIV_REF
  }

  /** The synthesized frequency lies in (freq - 14.62, freq + 14]. */
  lemma FrequencyError(freq: nat)
    ensures var f20 := WantedDivider(freq) * 30_000_000;
            f20 <= (freq + 14) * FRAC_ONE && (freq * 100 - 1462) * FRAC_ONE < 100 * f20
  {
  }

  function Band(freq: nat): nat {
    if freq < 2_400_000_000 then 0 else if freq < 2_500_000_000 then 1 else if freq < 2_600_000_000 then 2 else 3
  }

  /** The bands are 100 MHz wide from 2.3 GHz on; the first and the last have no other end. */
  predicate InBand(band: nat, freq: nat) {
    && band <= 3
    && (band > 0 ==> 2_300_000_000 + band * 100_000_000 <= freq)
    && (band < 3 ==> freq < 2_400_000_000 + band * 100_000_000)
  }

  lemma BandHolds(freq: nat)
    ensures forall band :: InBand(band, freq) <==> band == Band(freq)
  {
  }

  /** Twenty shift-and-subtract steps divide rem * 2^20 by DIV_REF; nothing exceeds 32 bits. */
  method FractionBits(rem: u32) returns (frac: u32)
    requires rem < DIV_REF
    ensures frac == rem * FRAC_ONE / DIV_REF && frac < FRAC_ONE
  {
    frac := 0;
    var divRem: u32 := rem;
    for i := 0 to 20
      invariant divRem < DIV_REF && frac < Pow2(i) <= FRAC_ONE
      invariant frac * DIV_REF + divRem == rem * Pow2(i)
    {
      NextBit(rem, i);
      frac := frac * 2;
      divRem := divRem * 2;
      if divRem >= DIV_REF {
        frac := frac + 1;  // the low bit is clear after the shift
        divRem := divRem - DIV_REF;
      }
    }
    Pow2Values();
  }

  lemma NextBit(rem: nat, i: nat)
    requires i < 20
    ensures Pow2(i + 1) == 2 * Pow2(i) <= FRAC_ONE
    ensures rem * Pow2(i + 1) == 2 * (rem * Pow2(i))
  {
    Pow2Monotone(i + 1, 20);
    Pow2Values();
    assert rem * (2 * Pow2(i)) == 2 * (rem * Pow2(i));
  }

  /** Splitting off the integer part first does not change the quotient. */
  lemma SplitDivision(f: nat)
    ensures f / DIV_REF * FRAC_ONE + (f % DIV_REF) * FRAC_ONE / DIV_REF == f * FRAC_ONE / DIV_REF
  {
  }

  /** The three register fields hold the whole divider: frac in two halves, the integer part in eight bits. */
  lemma FieldsHoldDivider(freq: nat, divInt: nat, frac: nat)
    requires freq <= FREQ_EXACT
    requires divInt == (freq + ROUNDING) / DIV_REF
    requires frac == (freq + ROUNDING) % DIV_REF * FRAC_ONE / DIV_REF
    ensures divInt < 0x100
    ensures divInt % 0x100 * FRAC_ONE + frac / 0x400 % 0x400 * 0x400 + frac % 0x400 == WantedDivider(freq)
  {
    SplitDivision(freq + ROUNDING);
    assert frac < FRAC_ONE;
    assert frac / 0x400 < 0x400;
    assert frac == frac / 0x400 * 0x400 + frac % 0x400;
  }

  class Transceiver {
    const isMax2839: bool
    var regs: Fields
    var chip: Fields
    var dirtyLo: bool
    ghost var selected: seq<Fields>  // chip contents at each VCO auto-select

    constructor (isMax2839: bool)
      ensures this.isMax2839 == isMax2839 && chip == regs && !dirtyLo && selected == []
    {
      this.isMax2839 := isMax2839;
      regs := Fields(0, 0, 0, 0, 0);
      chip := Fields(0, 0, 0, 0, 0);
      dirtyLo := false;
      selected := [];
    }

    /** Writes the cache to the chip. Writing FRAC_LO triggers VCO auto-select. */
    method Commit()
      modifies this
      ensures regs == old(regs) && !dirtyLo
      ensures chip == if old(dirtyLo) then regs else regs.(fracLo := old(chip.fracLo))
      ensures selected == if old(dirtyLo) then old(selected) + [chip] else old(selected)
    {
      if dirtyLo {
        chip := regs;
        selected := selected + [chip];
      } else {
        chip := regs.(fracLo := chip.fracLo);
      }
      dirtyLo := false;
    }

    /** One VCO auto-select happens, and at that moment the chip holds the complete new tuning. */
    method SetFrequency(freq: u32)
      requires !dirtyLo
      modifies this
      ensures !dirtyLo && selected == old(selected) + [chip]
      ensures chip.band == Band(freq) && InBand(chip.band, freq)
      ensures chip.lnaBand == if isMax2839 then old(regs.lnaBand) else if freq < 2_500_000_000 then 0 else 1
      ensures freq <= FREQ_EXACT ==> chip.Divider() == WantedDivider(freq)
      ensures freq <= FREQ_EXACT ==> chip.synInt < 0x100 && chip.fracHi < 0x400 && chip.fracLo < 0x400
    {
      hide WantedDivider, Band, InBand;
      BandHolds(freq);
      var f := U32(freq + ROUNDING);
      var divInt := f / DIV_REF;
      var frac := FractionBits(f % DIV_REF);
      if freq <= FREQ_EXACT {
        FieldsHoldDivider(freq, divInt, frac);
      }
      regs := regs.(band := Band(freq));
      if !isMax2839 {
        regs := regs.(lnaBand := if freq < 2_500_000_000 then 0 else 1);
      }
      regs := regs.(synInt := divInt % 0x100, fracHi := frac / 0x400 % 0x400);
      Commit();
      regs := regs.(fracLo := frac % 0x400);
      dirtyLo := true;
      Commit();
    }
  }
}

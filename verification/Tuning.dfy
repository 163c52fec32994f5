// Tuning the radio (common/tuning.c, HACKRF_ONE build): one request is split
// over the mixer LO and the IF synthesizer, and the IF absorbs the mixer's
// rounding.

module Tuning {
  import opened Machine
  import Rffc5071
  import Max283x

  const MHZ: int := 1_000_000
  const MAX_LP_MHZ: int := 2170
  const MAX_BYPASS_MHZ: int := 2740
  const MID1_HP_MHZ: int := 3600
  const MID2_HP_MHZ: int := 5100
  const MAX_HP_MHZ: int := 7250

  datatype Filter = LowPass | Bypass | HighPass

  /** The RF path a request selects. */
  function PathOf(freq: nat): Filter {
    if freq < MAX_LP_MHZ * MHZ then LowPass
    else if freq < MAX_BYPASS_MHZ * MHZ then Bypass
    else HighPass
  }

  /** The graduated IF of the low-pass and high-pass paths. */
  function NominalIf(freq: nat): int
    requires PathOf(freq) != Bypass
  {
    if freq < MAX_LP_MHZ * MHZ then 2650 * MHZ - freq / 7
    else if freq < MID1_HP_MHZ * MHZ then 2170 * MHZ + (freq - 2740 * MHZ) * 57 / 86
    else if freq < MID2_HP_MHZ * MHZ then 2350 * MHZ + (freq - 3600 * MHZ) / 5
    else 2500 * MHZ + (freq - 5100 * MHZ) / 9
  }

  /** What the source announces for a request below 7251 MHz: path, inversion, and in the low-pass and
      high-pass paths an IF in whole Hz that is graduated over each range, from the range's first value,
      by 1/7 downwards or by 57/86, 1/5 and 1/9 upwards. */
  predicate Planned(freq: nat, filter: Filter, invert: bool, nominal: int) {
    if freq < 2_170_000_000 then
      filter == LowPass && invert && 0 <= freq - 7 * (2_650_000_000 - nominal) < 7
    else if freq < 2_740_000_000 then filter == Bypass && !invert
    else
      && filter == HighPass && !invert
      && if freq < 3_600_000_000 then 0 <= 57 * (freq - 2_740_000_000) - 86 * (nominal - 2_170_000_000) < 86
         else if freq < 5_100_000_000 then 0 <= freq - 3_600_000_000 - 5 * (nominal - 2_350_000_000) < 5
         else 0 <= freq - 5_100_000_000 - 9 * (nominal - 2_500_000_000) < 9
  }

  /** The IF at the ends of each range: 2650 to 2340 MHz in the low-pass path, then 2170 to 2740,
      2350 to 2650 and 2500 to 2739 MHz; in between it is monotone. */
  lemma GraduationEnds(filter: Filter, invert: bool, nominal: int)
    ensures Planned(0, filter, invert, nominal) ==> nominal == 2_650_000_000
    ensures Planned(2_169_999_999, filter, invert, nominal) ==> nominal == 2_340_000_001
    ensures Planned(2_740_000_000, filter, invert, nominal) ==> nominal == 2_170_000_000
    ensures Planned(3_599_999_999, filter, invert, nominal) ==> nominal == 2_739_999_999
    ensures Planned(3_600_000_000, filter, invert, nominal) ==> nominal == 2_350_000_000
    ensures Planned(5_099_999_999, filter, invert, nominal) ==> nominal == 2_649_999_999
    ensures Planned(5_100_000_000, filter, invert, nominal) ==> nominal == 2_500_000_000
    ensures Planned(7_250_999_999, filter, invert, nominal) ==> nominal == 2_738_999_999
  {
  }

  lemma NominalIsPlanned(freq: nat)
    requires PathOf(freq) != Bypass
    ensures Planned(freq, PathOf(freq), PathOf(freq) == LowPass, NominalIf(freq))
  {
  }

  lemma BypassIsPlanned(freq: nat, nominal: int)
    requires PathOf(freq) == Bypass
    ensures Planned(freq, Bypass, false, nominal)
  {
  }

  /** The LO the mixer is asked for. */
  function WantedLo(freq: nat): int
    requires PathOf(freq) != Bypass
  {
    if PathOf(freq) == LowPass then freq + NominalIf(freq) else freq - NominalIf(freq)
  }

  /** Every request below 7251 MHz keeps the mixer inside its LO range and the IF inside 2.17 to 2.74 GHz. */
  lemma LoInRange(freq: nat)
    requires freq < (MAX_HP_MHZ + 1) * MHZ && PathOf(freq) != Bypass
    ensures Rffc5071.LO_MIN <= WantedLo(freq) <= Rffc5071.LO_MAX
    ensures 2170 * MHZ <= NominalIf(freq) <= 2740 * MHZ
  {
  }

  /** The IF request is exact although the mixer's answer has lost its top bits. */
  lemma TruncationIsHarmless(freq: nat, lo: nat)
    requires 0 <= lo - freq < W32 || 0 <= freq - lo < W32
    requires freq < W64
    ensures 0 <= lo - freq < W32 ==> U32(U64(U32(lo) - freq)) == lo - freq
    ensures 0 <= freq - lo < W32 ==> U32(U64(freq - U32(lo))) == freq - lo
  {
  }

  /** The 32-bit megahertz test accepts some requests far out of range. */
  lemma HugeRequestPassesTheTest()
    ensures var freq := W32 * MHZ; freq < W64 && freq >= (MAX_HP_MHZ + 1) * MHZ && U32(freq / MHZ) <= MAX_HP_MHZ
  {
  }

  lemma LowPassLo(freq: nat)
    requires freq < MAX_LP_MHZ * MHZ
    ensures U32(U64(2650 * MHZ - freq / 7)) == NominalIf(freq)
    ensures U64(NominalIf(freq) + freq) == WantedLo(freq)
  {
  }

  class Tuner {
    const mixer: Rffc5071.Synthesizer
    const transceiver: Max283x.Transceiver
    var nominalIf: u32
    var freqCache: u64
    var filter: Filter
    var invert: bool
    var mode: nat

    ghost predicate Valid()
      reads this, mixer, transceiver
    {
      mixer.Valid() && !transceiver.dirtyLo
    }

    constructor (mixer: Rffc5071.Synthesizer, transceiver: Max283x.Transceiver, mode: nat)
      requires mixer.Valid() && !transceiver.dirtyLo
      ensures Valid() && this.mixer == mixer && this.transceiver == transceiver && this.mode == mode
    {
      this.mixer, this.transceiver, this.mode := mixer, transceiver, mode;
      nominalIf, freqCache := 2_560_000_000, 100_000_000;
      filter, invert := Bypass, false;
    }

    /** The received frequency in units of 2^-20 Hz, as the two chips synthesize it. */
    ghost function Rf20(): int
      requires mixer.chip.p2presc <= 24
      reads this, mixer, transceiver
    {
      var if20 := transceiver.chip.Freq20();
      var lo20 := mixer.chip.LoHz() * Max283x.FRAC_ONE;
      match filter
      case LowPass => lo20 - if20
      case Bypass => if20
      case HighPass => lo20 + if20
    }

    /** Within 15 Hz, on the path and with the IF announced; the spectrum is inverted exactly when the LO is above
        the request. */
    ghost predicate Tuned(freq: nat)
      reads this, mixer, transceiver
    {
      && mixer.chip.p2presc <= 24
      && filter == PathOf(freq) && invert == (filter == LowPass)
      && (freq - 15) * Max283x.FRAC_ONE < Rf20() < (freq + 15) * Max283x.FRAC_ONE
      && (filter != Bypass ==>
            && mixer.chip.enbl
            && mixer.chip.LoHz()
               == Rffc5071.RoundToStep(if filter == LowPass then freq + nominalIf else freq - nominalIf))
      && Planned(freq, filter, invert, nominalIf)
    }

    /** What the two chips have been asked for is what the request wants. */
    lemma TunedBy(freq: nat)
      requires freq < (MAX_HP_MHZ + 1) * MHZ && PathOf(freq) != Bypass
      requires filter == PathOf(freq) && invert == (filter == LowPass) && nominalIf == NominalIf(freq)
      requires mixer.chip.enbl
      requires var lo := WantedLo(freq);
               0 <= lo <= Rffc5071.LO_EXACT ==> mixer.chip.Synthesizes(Rffc5071.RoundToStep(lo))
      requires var realLo := U32(Rffc5071.RoundToStep(WantedLo(freq)));
               var wanted := U32(U64(if filter == LowPass then realLo - freq else freq - realLo));
               wanted <= Max283x.FREQ_EXACT ==> transceiver.chip.Divider() == Max283x.WantedDivider(wanted)
      ensures Tuned(freq)
    {
      hide Rffc5071.RoundToStep, Max283x.WantedDivider, NominalIf, WantedLo, U32, U64, Planned, PathOf;
      LoInRange(freq);
      IfInRange(freq);
      NominalIsPlanned(freq);
      SuperheterodyneError(freq, mixer.chip, transceiver.chip);
      WantedIs(freq);
    }

    method TuneLowPass(freq: u64)
      requires Valid()
      modifies this, mixer, transceiver
      ensures Valid() && mode == old(mode) && freqCache == old(freqCache)
      ensures freq < MAX_LP_MHZ * MHZ ==> Tuned(freq)
    {
      hide Rffc5071.RoundToStep, Max283x.WantedDivider, NominalIf, WantedLo, U32, U64, Planned;
      filter := LowPass;
      nominalIf := U32(U64(2650 * MHZ - freq / 7));
      if freq < MAX_LP_MHZ * MHZ {
        LowPassLo(freq);
      }
      var lo := U64(nominalIf + freq);
      var realLo := mixer.SetFrequency(lo);
      transceiver.SetFrequency(U32(U64(realLo - freq)));
      invert := true;
      if freq < MAX_LP_MHZ * MHZ {
        LowPassPath(freq);
        LoInRange(freq);
        TunedBy(freq);
      }
    }

    method TuneBypass(freq: u64)
      requires Valid()
      modifies this, transceiver
      ensures Valid() && mode == old(mode) && freqCache == old(freqCache)
      ensures PathOf(freq) == Bypass ==> Tuned(freq)
    {
      filter := Bypass;
      transceiver.SetFrequency(U32(freq));
      invert := false;
      Max283x.FrequencyError(U32(freq));
      if PathOf(freq) == Bypass {
        BypassIsPlanned(freq, nominalIf);
      }
    }

    method TuneHighPass(freq: u64, freqMhz: nat)
      requires Valid()
      modifies this, mixer, transceiver
      ensures Valid() && mode == old(mode) && freqCache == old(freqCache)
      ensures freqMhz == freq / MHZ && MAX_BYPASS_MHZ <= freqMhz <= MAX_HP_MHZ ==> Tuned(freq)
    {
      hide Rffc5071.RoundToStep, Max283x.WantedDivider, NominalIf, WantedLo, U32, U64, Planned;
      ChooseIf(freq, freqMhz);
      filter := HighPass;
      var lo := U64(freq - nominalIf);
      var realLo := mixer.SetFrequency(lo);
      transceiver.SetFrequency(U32(U64(freq - realLo)));
      invert := false;
      if freqMhz == freq / MHZ && MAX_BYPASS_MHZ <= freqMhz <= MAX_HP_MHZ {
        LoInRange(freq);
        TunedBy(freq);
      }
    }

    /** The intermediate frequency of the three high-pass ranges. */
    method ChooseIf(freq: u64, freqMhz: nat)
      modifies this`nominalIf
      ensures freqMhz == freq / MHZ && MAX_BYPASS_MHZ <= freqMhz <= MAX_HP_MHZ ==>
                && U64(freq - nominalIf) == WantedLo(freq) && nominalIf == NominalIf(freq)
                && Planned(freq, HighPass, false, nominalIf)
    {
      if freqMhz < MID1_HP_MHZ {
        nominalIf := U32(U64(MAX_LP_MHZ * MHZ + U64(U64(freq - MAX_BYPASS_MHZ * MHZ) * 57) / 86));
      } else if freqMhz < MID2_HP_MHZ {
        nominalIf := U32(U64(2350 * MHZ + U64(freq - MID1_HP_MHZ * MHZ) / 5));
      } else {
        nominalIf := U32(U64(2500 * MHZ + U64(freq - MID2_HP_MHZ * MHZ) / 9));
      }
      if freqMhz == freq / MHZ && MAX_BYPASS_MHZ <= freqMhz <= MAX_HP_MHZ {
        LoInRange(freq);
        NominalIsPlanned(freq);
      }
    }

    /** Requests below 7251 MHz end within 15 Hz of the request. A request fails exactly when
        its megahertz, truncated to 32 bits, exceed 7250; then nothing is changed. */
    method SetFreq(freq: u64) returns (success: bool)
      requires Valid()
      modifies this, mixer, transceiver
      ensures Valid() && mode == old(mode)
      ensures success <==> U32(freq / 1_000_000) <= 7250
      ensures freq < 7_251_000_000 ==> success && Tuned(freq)
      ensures freqCache == if success then freq else old(freqCache)
      ensures !success ==> filter == old(filter) && invert == old(invert) && nominalIf == old(nominalIf)
                           && mixer.chip == old(mixer.chip) && transceiver.chip == old(transceiver.chip)
    {
      var freqMhz := U32(freq / MHZ);
      success := true;
      var priorMode := mode;
      mode := 0;  // standby
      if freqMhz < MAX_LP_MHZ {
        TuneLowPass(freq);
      } else if MAX_LP_MHZ <= freqMhz < MAX_BYPASS_MHZ {
        TuneBypass(freq);
      } else if MAX_BYPASS_MHZ <= freqMhz <= MAX_HP_MHZ {
        TuneHighPass(freq, freqMhz);
      } else {
        success := false;
      }
      mode := priorMode;
      if success {
        freqCache := freq;
      }
    }
  }

  lemma WantedIs(freq: nat)
    requires PathOf(freq) != Bypass
    ensures WantedLo(freq) == if PathOf(freq) == LowPass then freq + NominalIf(freq) else freq - NominalIf(freq)
  {
  }

  lemma LowPassPath(freq: nat)
    requires freq < MAX_LP_MHZ * MHZ
    ensures PathOf(freq) == LowPass
  {
  }

  lemma IfInRange(freq: nat)
    requires freq < (MAX_HP_MHZ + 1) * MHZ && PathOf(freq) != Bypass
    ensures var realLo := U32(Rffc5071.RoundToStep(WantedLo(freq)));
            U32(U64(if PathOf(freq) == LowPass then realLo - freq else freq - realLo)) <= Max283x.FREQ_EXACT
  {
    LoInRange(freq);
    TruncationIsHarmless(freq, Rffc5071.RoundToStep(WantedLo(freq)));
  }

  /** The two synthesizers compose: whatever the mixer rounds, the IF takes back. */
  lemma SuperheterodyneError(freq: nat, mixer: Rffc5071.Registers, ifChip: Max283x.Fields)
    requires freq < (MAX_HP_MHZ + 1) * MHZ && PathOf(freq) != Bypass
    requires var lo := Rffc5071.RoundToStep(WantedLo(freq));
             && mixer.Synthesizes(lo)
             && ifChip.Divider() == Max283x.WantedDivider(
                  if PathOf(freq) == LowPass then U32(U64(U32(lo) - freq)) else U32(U64(freq - U32(lo))))
    ensures mixer.LoHz() == Rffc5071.RoundToStep(WantedLo(freq))
    ensures var lo20 := mixer.LoHz() * Max283x.FRAC_ONE;
            var rf20 := if PathOf(freq) == LowPass then lo20 - ifChip.Freq20() else lo20 + ifChip.Freq20();
            (freq - 15) * Max283x.FRAC_ONE < rf20 < (freq + 15) * Max283x.FRAC_ONE
  {
    LoInRange(freq);
    var lo := Rffc5071.RoundToStep(WantedLo(freq));
    mixer.LoIs(lo);
    TruncationIsHarmless(freq, lo);
    Max283x.FrequencyError(if PathOf(freq) == LowPass then lo - freq else freq - lo);
  }
}

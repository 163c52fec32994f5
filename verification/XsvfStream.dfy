// The layout of an XSVF command stream: which operand bytes follow each command.
// A few operands change how later ones are read, so a cursor carries the shift
// length and the data mask's length and population count along.

module XsvfStream {
  import opened Bytes
  import opened Lenval
  import opened XsvfMask
  import opened XsvfTap

  const XCOMPLETE: bv8 := 0
  const XTDOMASK: bv8 := 1
  const XSIR: bv8 := 2
  const XSDR: bv8 := 3
  const XRUNTEST: bv8 := 4
  const XREPEAT: bv8 := 7
  const XSDRSIZE: bv8 := 8
  const XSDRTDO: bv8 := 9
  const XSETSDRMASKS: bv8 := 10
  const XSDRINC: bv8 := 11
  const XSDRB: bv8 := 12
  const XSDRC: bv8 := 13
  const XSDRE: bv8 := 14
  const XSDRTDOB: bv8 := 15
  const XSDRTDOC: bv8 := 16
  const XSDRTDOE: bv8 := 17
  const XSTATE: bv8 := 18
  const XENDIR: bv8 := 19
  const XENDDR: bv8 := 20
  const XSIR2: bv8 := 21
  const XCOMMENT: bv8 := 22
  const XWAIT: bv8 := 23

  const MAX_BITS: nat := 8 * MAX_LEN

  /** Conversion to a 16-bit two's complement short. */
  function Short(v: int): (w: int)
    ensures -0x8000 <= w < 0x8000
  {
    var u := v % 0x1_0000;
    if u < 0x8000 then u else u - 0x1_0000
  }

  /** Division by eight that truncates towards zero. */
  function Eighth(v: int): int {
    if v >= 0 then v / 8 else -(-v / 8)
  }

  /** xsvfGetAsNumBytes: the number of bytes is cut down to a short. */
  function NumBytes(bits: int): (n: int)
    ensures -0x8000 <= n < 0x8000
    ensures 0 <= bits <= 8 * 0x7FFF ==> n == AsBytes(bits)
  {
    Short(Eighth(bits + 7))
  }

  /** Lengths whose rounding up does not overflow a long. */
  predicate Computable(bits: int) {
    -0x8000_0000 <= bits && bits + 7 < 0x8000_0000
  }

  /** XSDRSIZE refuses a length beyond the buffers exactly when its number of bytes, modulo 2^16, is above
      the maximum and below 2^15. */
  lemma RefusedExactly(bits: int)
    requires MAX_BITS < bits && Computable(bits)
    ensures NumBytes(bits) > MAX_LEN <==> MAX_LEN < (bits + 7) / 8 % 0x1_0000 < 0x8000
  {
  }

  /** Up to 262136 bits every such length is refused; 262137 is the first that is not, and 0x80000 passes as
      a length of no bytes. */
  lemma NotAlwaysRefused(bits: int)
    ensures MAX_BITS < bits <= 8 * 0x7FFF ==> NumBytes(bits) > MAX_LEN
    ensures NumBytes(262137) == -0x8000 && NumBytes(0x80000) == 0 && Computable(0x80000)
  {
  }

  /** A shift of this length stays within the buffers. */
  predicate LengthFits(bits: int, bytes: int) {
    0 <= bits <= MAX_BITS && bytes == AsBytes(bits)
  }

  /** The shift length in bits and, as computed, in bytes; the data mask's population count and length. */
  datatype Cursor = Cursor(pos: nat, bits: int, bytes: int, ones: nat, maskLen: nat)
  {
    function Skip(n: nat): Cursor {
      this.(pos := pos + n)
    }

    /** A shift of the present length stays within the buffers. */
    predicate Fits() {
      LengthFits(bits, bytes)
    }

    /** A value of the present length can be read. */
    predicate Readable() {
      0 <= bytes <= MAX_LEN
    }
  }

  /** What the bytes at a cursor make: nothing playable, the last command, or one command and the rest. */
  datatype Parse = Malformed | Stop | More(c: Cursor)

  function ParseSkip(x: seq<bv8>, c: Cursor, n: nat): (p: Parse)
    ensures p.More? ==> c.pos <= p.c.pos <= |x|
  {
    if c.pos + n <= |x| then More(c.Skip(n)) else Malformed
  }

  /** One value of the present length, or two. */
  function ParseValues(x: seq<bv8>, c: Cursor, two: bool): (p: Parse)
    ensures p.More? ==> c.pos <= p.c.pos <= |x|
  {
    if c.Fits() then ParseSkip(x, c, if two then c.bytes + c.bytes else c.bytes) else Malformed
  }

  function ParseMask(x: seq<bv8>, c: Cursor): (p: Parse)
    ensures p.More? ==> c.pos <= p.c.pos <= |x|
  {
    if c.Readable() then ParseSkip(x, c, c.bytes) else Malformed
  }

  function ParseMasks(x: seq<bv8>, c: Cursor): (p: Parse)
    ensures p.More? ==> c.pos <= p.c.pos <= |x|
  {
    if c.Readable() && c.pos + 2 * c.bytes <= |x| then
      var n := c.bytes;
      More(Cursor(c.pos + 2 * n, c.bits, n, Ones(LsbBits(x[c.pos + n..c.pos + 2 * n])), n))
    else Malformed
  }

  /** A length that is accepted, or one that is refused. */
  function ParseSize(x: seq<bv8>, c: Cursor): (p: Parse)
    ensures p.More? ==> c.pos <= p.c.pos <= |x| && p.c.bytes <= MAX_LEN
  {
    if c.pos + 4 > |x| then Malformed
    else
      var v := Signed32(Number(x[c.pos..c.pos + 4]));
      if !Computable(v) then Malformed
      else if NumBytes(v) > MAX_LEN then Stop
      else More(c.Skip(4).(bits := v, bytes := NumBytes(v)))
  }

  function ParseIr(x: seq<bv8>, c: Cursor): (p: Parse)
    ensures p.More? ==> c.pos <= p.c.pos <= |x|
  {
    if c.pos >= |x| then Malformed else ParseSkip(x, c.Skip(1), AsBytes(AsNat(x[c.pos])))
  }

  function ParseIr2(x: seq<bv8>, c: Cursor): (p: Parse)
    ensures p.More? ==> c.pos <= p.c.pos <= |x|
  {
    if c.pos + 2 > |x| then Malformed
    else
      var n := AsBytes(Number(x[c.pos..c.pos + 2]));
      if n > MAX_LEN then Stop else ParseSkip(x, c.Skip(2), n)
  }

  function ParseState(x: seq<bv8>, c: Cursor): (p: Parse)
    ensures p.More? ==> c.pos <= p.c.pos <= |x|
  {
    if c.pos < |x| && x[c.pos] as nat <= LAST_STATE then More(c.Skip(1)) else Malformed
  }

  function ParseEnd(x: seq<bv8>, c: Cursor): (p: Parse)
    ensures p.More? ==> c.pos <= p.c.pos <= |x|
  {
    if c.pos >= |x| then Malformed else if x[c.pos] == 0 || x[c.pos] == 1 then More(c.Skip(1)) else Stop
  }

  function ParseComment(x: seq<bv8>, c: Cursor): (p: Parse)
    ensures p.More? ==> c.pos <= p.c.pos <= |x|
    ensures !p.Stop?
    decreases |x| - c.pos
  {
    if c.pos >= |x| then Malformed else if x[c.pos] == 0 then More(c.Skip(1)) else ParseComment(x, c.Skip(1))
  }

  predicate StableCode(s: nat) {
    s in {RESET, RUNTEST, SHIFT_DR, PAUSE_DR, SHIFT_IR, PAUSE_IR}
  }

  /** A wait state that can be held, or no time to wait: otherwise the TAP would move on unnoticed. */
  function ParseWait(x: seq<bv8>, c: Cursor): (p: Parse)
    ensures p.More? ==> c.pos <= p.c.pos <= |x|
  {
    if c.pos + 6 <= |x| && x[c.pos] as nat <= LAST_STATE && x[c.pos + 1] as nat <= LAST_STATE
       && (StableCode(x[c.pos] as nat) || Signed32(Number(x[c.pos + 2..c.pos + 6])) <= 0)
    then More(c.Skip(6)) else Malformed
  }

  /** The first value, the number of times, and so many pieces of data. */
  function ParseInc(x: seq<bv8>, c: Cursor): (p: Parse)
    ensures p.More? ==> c.pos <= p.c.pos <= |x|
  {
    if c.Fits() && c.pos + c.bytes < |x| && c.maskLen <= 255 then
      ParseSkip(x, c.Skip(c.bytes + 1), DataBytes(AsNat(x[c.pos + c.bytes]), AsBytes(c.ones)))
    else Malformed
  }

  /** All data of an XSDRINC. */
  function DataBytes(times: nat, k: nat): nat {
    if times == 0 then 0 else k + DataBytes(times - 1, k)
  }

  /** The operands of command k at a cursor behind the command byte. */
  function ParseOperands(x: seq<bv8>, c: Cursor, k: bv8): (p: Parse)
    ensures p.More? ==> c.pos <= p.c.pos <= |x|
  {
    if k == XTDOMASK then ParseMask(x, c)
    else if k == XSDR || k == XSDRB || k == XSDRC || k == XSDRE then ParseValues(x, c, false)
    else if k == XSDRTDO || k == XSDRTDOB || k == XSDRTDOC || k == XSDRTDOE then ParseValues(x, c, true)
    else if k == XRUNTEST then ParseSkip(x, c, 4)
    else if k == XREPEAT then ParseSkip(x, c, 1)
    else if k == XSIR then ParseIr(x, c)
    else if k == XSIR2 then ParseIr2(x, c)
    else if k == XSDRSIZE then ParseSize(x, c)
    else if k == XSETSDRMASKS then ParseMasks(x, c)
    else if k == XSDRINC then ParseInc(x, c)
    else if k == XSTATE then ParseState(x, c)
    else if k == XENDIR || k == XENDDR then ParseEnd(x, c)
    else if k == XCOMMENT then ParseComment(x, c)
    else if k == XWAIT then ParseWait(x, c)
    else Stop
  }

  function ParseCommand(x: seq<bv8>, c: Cursor): (p: Parse)
    ensures p.More? ==> c.pos < p.c.pos <= |x|
  {
    if c.pos >= |x| then Malformed else ParseOperands(x, c.Skip(1), x[c.pos])
  }

  /** Every command up to the last is playable. */
  predicate WellFormed(x: seq<bv8>, c: Cursor)
    decreases |x| - c.pos
  {
    match ParseCommand(x, c)
    case Malformed => false
    case Stop => true
    case More(next) => WellFormed(x, next)
  }
}

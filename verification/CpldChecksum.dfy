// The checksum of the CPLD's nonvolatile memory (common/cpld_xc2c.c): every row is
// read over JTAG, masked, and fed to the CRC. The identity and protection checks
// that guard it are not part of this model.

module CpldChecksum {
  import opened Bytes
  import opened Tap
  import opened Cpld
  import Crc
  import opened CrcRegister

  /** Ready for a scan of the nonvolatile memory. */
  predicate FlashReadable(d: Device) {
    d.state == Idle && d.enabled && d.ir == ISC_READ
  }

  const SETTLE: seq<Pulse> := Pulses(Stay(Idle, 100), false)

  /** The pulses of one row: the address with a pause, time for the row to be fetched, and the row. */
  function ReadRowPath(address: seq<bool>): seq<Pulse> {
    ScanPath(Idle, address, 20) + SETTLE + ScanPath(Idle, Repeat(true, ROW_BITS), 0) + SETTLE
  }

  /** A seven-bit scan latches the row address, and 100 clocks later a scan brings the row. The buffer is
      filled with ones first, so its bits beyond the row are ones. */
  method ReadRow(port: Port, address: bv8, dr: array<bv8>)
    requires port.Valid() && FlashReadable(port.dev) && dr.Length == BYTES_IN_ROW
    modifies port, dr
    ensures port.Valid() && FlashReadable(port.dev)
    ensures port.dev.sram == old(port.dev.sram) && port.dev.eeprom == old(port.dev.eeprom)
    ensures Bits(dr[..]) == ReadBack(old(port.dev).FlashRowAt(AddressBits(address)))
    ensures port.trace == old(port.trace) + ReadRowPath(AddressBits(address))
  {
    hide Bits, Exchanged, ScanPath, Shifted, EnteredShift, UpdatedIdle;
    LatchAddress(port, address);
    Clocks(port, 100);
    ghost var d := port.dev;
    for i := 0 to dr.Length
      invariant forall j :: 0 <= j < i ==> dr[j] == 0xff
      invariant port.Valid() && port.dev == d
      invariant port.trace == old(port.trace) + ScanPath(Idle, AddressBits(address), 20) + SETTLE
    {
      dr[i] := 0xff;
    }
    assert dr[..] == seq(BYTES_IN_ROW, _ => 0xff);
    AllOnes(BYTES_IN_ROW);
    assert Repeat(true, 8 * BYTES_IN_ROW)[..ROW_BITS] == Repeat(true, ROW_BITS);
    RowCaptured(d);
    ShiftDrIr(port, dr, ROW_BITS, 0);
    Clocks(port, 100);
  }

  /** The address is in the last seven bits of the register when it is updated. */
  method LatchAddress(port: Port, address: bv8)
    requires port.Valid() && FlashReadable(port.dev)
    modifies port
    ensures port.Valid() && FlashReadable(port.dev) && port.dev.address == AddressBits(address)
    ensures port.dev.sram == old(port.dev.sram) && port.dev.eeprom == old(port.dev.eeprom)
    ensures port.trace == old(port.trace) + ScanPath(Idle, AddressBits(address), 20)
  {
    hide Bits, Exchanged, ScanPath, Shifted, EnteredShift, UpdatedIdle;
    var buf := new bv8[1];
    buf[0] := address;
    assert buf[..] == [address];
    AddressScanned(port.dev, AddressBits(address));
    ShiftDrIr(port, buf, ADDRESS_BITS, 20);
  }

  lemma AddressScanned(d: Device, address: seq<bool>)
    requires FlashReadable(d) && |address| == ADDRESS_BITS
    ensures var e := EnteredShift(d);
            var u := UpdatedIdle(Shifted(e, address, ADDRESS_BITS).(state := NextState(e.state, true)));
            FlashReadable(u) && u.sram == d.sram && u.eeprom == d.eeprom && u.address == address
  {
    ReadIsItsOwn();
    var e := EnteredShift(d);
    var f := Shifted(e, address, ADDRESS_BITS);
    assert |e.reg| == DR_BITS;
    assert f.reg[ROW_BITS..] == address;
  }

  lemma ReadIsItsOwn()
    ensures ISC_READ != ISC_WRITE && ISC_READ != ISC_SRAM_READ && ISC_READ != ISC_DISABLE
  {
    assert !ISC_READ[0] && ISC_SRAM_READ[0];
    assert ISC_READ[3] && !ISC_WRITE[3];
    assert ISC_READ[1] && !ISC_DISABLE[1];
  }

  lemma RowCaptured(d: Device)
    requires FlashReadable(d)
    ensures var e, ones := EnteredShift(d), Repeat(true, ROW_BITS);
            var u := UpdatedIdle(Shifted(e, ones, ROW_BITS).(state := NextState(e.state, true)));
            && FlashReadable(u) && u.sram == d.sram && u.eeprom == d.eeprom
            && Exchanged(Repeat(true, 8 * BYTES_IN_ROW), 0, Stream(e, ones), ROW_BITS)
               == ReadBack(d.FlashRowAt(d.address))
  {
    hide Device.FlashRowAt;
    ReadIsItsOwn();
    var e := EnteredShift(d);
    assert e.reg == d.FlashRowAt(d.address) + Zeros(ADDRESS_BITS);
  }

  function And(a: seq<bool>, b: seq<bool>): (r: seq<bool>)
    requires |a| == |b|
    ensures |r| == |a|
  {
    seq(|a|, i requires 0 <= i < |a| => a[i] && b[i])
  }

  /** The mask applied to a row, byte by byte, in place. */
  method MaskRow(dr: array<bv8>, mask: seq<bv8>)
    requires dr.Length == |mask|
    modifies dr
    ensures Bits(dr[..]) == And(Bits(old(dr[..])), Bits(mask))
  {
    for i := 0 to dr.Length
      invariant forall j :: 0 <= j < i ==> dr[j] == old(dr[..])[j] & mask[j]
      invariant forall j :: i <= j < dr.Length ==> dr[j] == old(dr[..])[j]
    {
      dr[i] := dr[i] & mask[i];
    }
    BitsAnd(old(dr[..]), mask, dr[..]);
  }

  lemma BitsAnd(a: seq<bv8>, b: seq<bv8>, c: seq<bv8>)
    requires |a| == |b| == |c| && forall i :: 0 <= i < |c| ==> c[i] == a[i] & b[i]
    ensures Bits(c) == And(Bits(a), Bits(b))
  {
    forall j | 0 <= j < 8 * |c| ensures Bits(c)[j] == (Bits(a)[j] && Bits(b)[j]) {
      AndOfBit(a[j / 8], b[j / 8], j % 8);
    }
  }

  lemma AndOfBit(a: bv8, b: bv8, k: nat)
    requires k < 8
    ensures BitOf(a & b, k) <==> BitOf(a, k) && BitOf(b, k)
  {
  }

  /** What goes into the CRC: the first n rows in the order of the address table, under their masks. */
  function ChecksumBits(d: Device, verify: Verify, addresses: seq<bv8>, n: nat): seq<bool>
    requires verify.Valid() && n <= ROWS == |addresses|
  {
    if n == 0 then []
    else ChecksumBits(d, verify, addresses, n - 1)
         + And(ReadBack(d.FlashRowAt(AddressBits(addresses[n - 1]))), Bits(verify.RowMask(n - 1)))
  }

  /** Masks that select no bit beyond the row remove the ones that the buffer is filled with. */
  lemma PaddingMasked(row: Row, mask: seq<bool>)
    requires |mask| == 8 * BYTES_IN_ROW
    ensures And(ReadBack(row), mask) == And(row + Zeros(8 * BYTES_IN_ROW - ROW_BITS), mask)
            <==> forall i :: ROW_BITS <= i < |mask| ==> !mask[i]
  {
    var a, b := And(ReadBack(row), mask), And(row + Zeros(8 * BYTES_IN_ROW - ROW_BITS), mask);
    if a == b {
      forall i | ROW_BITS <= i < |mask| ensures !mask[i] {
        assert a[i] == mask[i] && !b[i];
      }
    }
  }

  /** The pulses of n enables, and of the whole preparation. */
  function EnablesPath(n: nat): seq<Pulse> {
    if n == 0 then [] else EnablesPath(n - 1) + (InstructionPath(0xE8, 0) + Pulses(Stay(Idle, 800), false))
  }

  function BeginReadPath(s: TapState): seq<Pulse> {
    ResetPath(s) + Pulses([Reset], false) + InstructionPath(0xFF, 0) + EnablesPath(3) + InstructionPath(0xEE, 1)
  }

  /** The pulses of the first n rows, and of the whole checksum. */
  function RowsPath(addresses: seq<bv8>, n: nat): seq<Pulse>
    requires n <= |addresses|
  {
    if n == 0 then [] else RowsPath(addresses, n - 1) + ReadRowPath(AddressBits(addresses[n - 1]))
  }

  function ChecksumPath(s: TapState, addresses: seq<bv8>): seq<Pulse>
    requires |addresses| == ROWS
  {
    BeginReadPath(s) + RowsPath(addresses, ROWS) + InitPath() + InstructionPath(0xC0, 0) + SETTLE
  }

  /** Enabling three times, and the read instruction. */
  method BeginRead(port: Port)
    requires port.Valid()
    modifies port
    ensures port.Valid() && FlashReadable(port.dev) && port.dev.eeprom == old(port.dev.eeprom)
    ensures port.trace == old(port.trace) + BeginReadPath(old(port.dev.state))
  {
    hide Bits, InstructionPath, ResetPath, Pulses;
    ReadIsItsOwn();
    ResetAndIdle(port);
    var _ := LoadInstruction(port, 0xFF, 0);
    ghost var t := port.trace;
    for k := 0 to 3
      invariant port.Valid() && port.dev.state == Idle && port.dev.eeprom == old(port.dev.eeprom)
      invariant port.trace == t + EnablesPath(k)
      invariant k > 0 ==> port.dev.enabled
    {
      LoadAndWait(port, 0xE8, 800);
    }
    var _ := LoadInstruction(port, 0xEE, 1);
  }

  /** The checksum is the CRC of the masked rows that the memory holds, in table order; the memory is not
      changed. */
  method Checksum(port: Port, verify: Verify, addresses: seq<bv8>) returns (crc: bv32)
    requires port.Valid() && |addresses| == ROWS && verify.Valid()
    modifies port
    ensures port.Valid() && port.dev.state == Idle && port.dev.eeprom == old(port.dev.eeprom)
    ensures Unpacked(crc) == Crc.DigestOf(ChecksumBits(old(port.dev), verify, addresses, ROWS))
    ensures port.trace == old(port.trace) + ChecksumPath(old(port.dev.state), addresses)
  {
    hide InstructionPath, InitPath, BeginReadPath, RowsPath, ChecksumBits, Bits, Pulses, Stay, ReadRowPath, Unpacked,
         Crc.DigestOf;
    BeginRead(port);
    crc := ChecksumRows(port, verify, addresses, old(port.dev));
    InitSpecial(port);
    LoadAndWait(port, 0xC0, 100);
  }

  /** The loop over the rows. */
  method ChecksumRows(port: Port, verify: Verify, addresses: seq<bv8>, ghost d: Device) returns (crc: bv32)
    requires port.Valid() && FlashReadable(port.dev) && |addresses| == ROWS && verify.Valid()
    requires port.dev.eeprom == d.eeprom
    modifies port
    ensures port.Valid() && FlashReadable(port.dev) && port.dev.eeprom == d.eeprom
    ensures Unpacked(crc) == Crc.DigestOf(ChecksumBits(d, verify, addresses, ROWS))
    ensures port.trace == old(port.trace) + RowsPath(addresses, ROWS)
  {
    hide Bits, ReadRowPath, AddressBits, And, ReadBack, Device.FlashRowAt, Crc.Run, Unpacked, Crc.DigestOf;
    var digest := new Crc32();
    var dr := new bv8[BYTES_IN_ROW];
    NothingRun(Crc.ONES);
    InitialRegister(Unpacked(digest.remainder));
    for row := 0 to ROWS
      invariant port.Valid() && FlashReadable(port.dev) && port.dev.eeprom == d.eeprom
      invariant port.trace == old(port.trace) + RowsPath(addresses, row)
      invariant digest.Valid() && fresh(digest)
      invariant Unpacked(digest.remainder) == Crc.Run(Crc.ONES, ChecksumBits(d, verify, addresses, row))
    {
      SameRow(port.dev, d, AddressBits(addresses[row]));
      ChecksumRow(port, verify.RowMask(row), addresses[row], dr, digest);
      Crc.RunConcat(Crc.ONES, ChecksumBits(d, verify, addresses, row),
                    And(ReadBack(d.FlashRowAt(AddressBits(addresses[row]))), Bits(verify.RowMask(row))));
    }
    crc := digest.Digest();
    IsDigest(crc, digest.remainder, ChecksumBits(d, verify, addresses, ROWS));
  }

  lemma IsDigest(crc: bv32, remainder: bv32, bits: seq<bool>)
    requires Unpacked(remainder) == Crc.Run(Crc.ONES, bits)
    requires forall i :: 0 <= i < 32 ==> Unpacked(crc)[i] == !Unpacked(remainder)[i]
    ensures Unpacked(crc) == Crc.DigestOf(bits)
  {
    hide *;
    forall i | 0 <= i < 32 ensures Unpacked(crc)[i] == Crc.DigestOf(bits)[i] {
      Crc.DigestBit(bits, i);
    }
    SameWord(Unpacked(crc), Crc.DigestOf(bits));
  }

  lemma InitialRegister(r: Crc.Word)
    requires forall i :: 0 <= i < 32 ==> r[i]
    ensures r == Crc.ONES
  {
    forall i | 0 <= i < 32 ensures r[i] == Crc.ONES[i] {
      Crc.OnesAreSet(i);
    }
  }

  lemma NothingRun(r: Crc.Word)
    ensures Crc.Run(r, []) == r
  {
  }

  lemma SameRow(d: Device, e: Device, address: seq<bool>)
    requires d.eeprom == e.eeprom
    ensures d.FlashRowAt(address) == e.FlashRowAt(address)
  {
  }

  /** One turn of the loop. */
  method ChecksumRow(port: Port, mask: seq<bv8>, address: bv8, dr: array<bv8>, digest: Crc32)
    requires port.Valid() && FlashReadable(port.dev) && dr.Length == BYTES_IN_ROW == |mask| && digest.Valid()
    modifies port, dr, digest
    ensures port.Valid() && FlashReadable(port.dev) && port.dev.eeprom == old(port.dev.eeprom) && digest.Valid()
    ensures Unpacked(digest.remainder) == Crc.Run(old(Unpacked(digest.remainder)),
                                        And(ReadBack(old(port.dev).FlashRowAt(AddressBits(address))), Bits(mask)))
    ensures port.trace == old(port.trace) + ReadRowPath(AddressBits(address))
  {
    hide Bits, AddressBits, ReadRowPath, Device.FlashRowAt, Unpacked, Crc.Run;
    ReadRow(port, address, dr);
    MaskRow(dr, mask);
    digest.Update(dr[..]);
  }
}

// The SPI flash driver (common/w25q80bv.c): an arbitrary write is split into
// page programs, none of which may cross a page.

module Flash {
  import opened Machine

  const PAGE_LEN: nat := 256
  const NUM_BYTES: nat := 1_048_576

  type Memory = m: seq<bv8> | |m| == NUM_BYTES witness seq(NUM_BYTES, _ => 0xFF)

  /** What writing data at addr should do: the region becomes old AND data, all else is unchanged. */
  function Programmed(mem: Memory, addr: nat, data: seq<bv8>): Memory {
    seq(NUM_BYTES, i requires 0 <= i < NUM_BYTES => ProgrammedByte(mem, addr, data, i))
  }

  function ProgrammedByte(mem: Memory, addr: nat, data: seq<bv8>, i: nat): bv8
    requires i < NUM_BYTES
  {
    if addr <= i < addr + |data| then mem[i] & data[i - addr] else mem[i]
  }

  /** The chip's page program: the address counter wraps to the start of the page. */
  function ChipProgram(mem: Memory, addr: nat, data: seq<bv8>): Memory
    requires data != [] ==> addr < NUM_BYTES
    decreases |data|
  {
    if data == [] then mem
    else
      ChipProgram(
        mem[addr := mem[addr] & data[0]],
        addr - addr % PAGE_LEN + (addr % PAGE_LEN + 1) % PAGE_LEN,
        data[1..])
  }

  /** Inside one page the chip does what a flat write should do. */
  lemma {:induction false} ChipProgramInPage(mem: Memory, addr: nat, data: seq<bv8>)
    requires addr + |data| <= NUM_BYTES && addr % PAGE_LEN + |data| <= PAGE_LEN
    ensures ChipProgram(mem, addr, data) == Programmed(mem, addr, data)
    decreases |data|
  {
    if data == [] {
      assert Programmed(mem, addr, data) == mem;
    } else {
      var mem' := mem[addr := mem[addr] & data[0]];
      if |data| == 1 {
        assert Programmed(mem, addr, data) == mem';
      } else {
        ChipProgramInPage(mem', addr + 1, data[1..]);
        ProgrammedStep(mem, addr, data);
      }
    }
  }

  lemma ProgrammedStep(mem: Memory, addr: nat, data: seq<bv8>)
    requires data != [] && addr < NUM_BYTES
    ensures Programmed(mem[addr := mem[addr] & data[0]], addr + 1, data[1..]) == Programmed(mem, addr, data)
  {
    var mem' := mem[addr := mem[addr] & data[0]];
    forall i | 0 <= i < NUM_BYTES
      ensures ProgrammedByte(mem', addr + 1, data[1..], i) == ProgrammedByte(mem, addr, data, i)
    {
    }
    assert Programmed(mem', addr + 1, data[1..]) == Programmed(mem, addr, data);
  }

  /** Consecutive writes are one write. */
  lemma ProgrammedSplit(mem: Memory, addr: nat, d1: seq<bv8>, d2: seq<bv8>)
    ensures Programmed(Programmed(mem, addr, d1), addr + |d1|, d2) == Programmed(mem, addr, d1 + d2)
  {
    var m1 := Programmed(mem, addr, d1);
    forall i | 0 <= i < NUM_BYTES
      ensures ProgrammedByte(m1, addr + |d1|, d2, i) == ProgrammedByte(mem, addr, d1 + d2, i)
    {
    }
    assert Programmed(m1, addr + |d1|, d2) == Programmed(mem, addr, d1 + d2);
  }

  /** The number of flash pages that [addr, addr + len) touches. */
  function PagesTouched(addr: nat, len: nat): nat {
    if len == 0 then 0 else (addr + len - 1) / PAGE_LEN - addr / PAGE_LEN + 1
  }

  predicate InRange(addr: nat, len: nat) {
    addr + len <= NUM_BYTES
  }

  class Driver {
    var mem: Memory
    ghost var programs: nat  // page programs the chip has executed

    constructor ()
    {
      mem := seq(NUM_BYTES, _ => 0xFF);
      programs := 0;
    }

    /** Two guards silently drop the request; otherwise the chip executes one page program. */
    method PageProgram(addr: u32, len: u16, data: seq<bv8>)
      requires |data| == len
      modifies this
      ensures if addr % PAGE_LEN + len <= PAGE_LEN && InRange(addr, len)
              then mem == Programmed(old(mem), addr, data) && programs == old(programs) + 1
              else mem == old(mem) && programs == old(programs)
    {
      if addr % 0x100 + len > PAGE_LEN {
        return;
      }
      if addr > NUM_BYTES - len {
        return;
      }
      ChipProgramInPage(mem, addr, data);
      mem := ChipProgram(mem, addr, data);
      programs := programs + 1;
    }

    /** One page program of the split write: it extends the part already written. */
    method ProgramBlock(ghost mem0: Memory, ghost programs0: nat, addr0: u32, data: seq<bv8>, done: nat, len: nat)
      requires InRange(addr0, |data|) && 0 < len && done + len <= |data|
      requires (addr0 + done) % PAGE_LEN + len <= PAGE_LEN && (done == 0 || (addr0 + done) % PAGE_LEN == 0)
      requires mem == Programmed(mem0, addr0, data[..done]) && programs == programs0 + PagesTouched(addr0, done)
      modifies this
      ensures mem == Programmed(mem0, addr0, data[..done + len])
      ensures programs == programs0 + PagesTouched(addr0, done + len)
    {
      NextBlock(mem0, addr0, data, done, len);
      NextPage(addr0, done, len);
      PageProgram(addr0 + done, len, data[done..done + len]);
    }

    /** The block up to the end of the first page, or of the data. */
    method FirstBlock(addr0: u32, data: seq<bv8>) returns (done: nat)
      requires InRange(addr0, |data|)
      modifies this
      ensures done <= |data| && (done < |data| ==> (addr0 + done) % PAGE_LEN == 0)
      ensures mem == Programmed(old(mem), addr0, data[..done])
      ensures programs == old(programs) + PagesTouched(addr0, done)
    {
      hide Programmed;
      NothingDone(mem, addr0, data);
      var firstBlockLen := PAGE_LEN - addr0 % PAGE_LEN;
      if |data| < firstBlockLen {
        firstBlockLen := |data|;
      }
      if firstBlockLen != 0 {
        ProgramBlock(mem, programs, addr0, data, 0, firstBlockLen);
      }
      done := firstBlockLen;
    }

    /** Any write in range is one flat write in as many page programs as pages are touched;
        any other write changes nothing. */
    method Program(addr0: u32, len0: u32, data: seq<bv8>)
      requires |data| == len0
      modifies this
      ensures InRange(addr0, len0) ==> mem == Programmed(old(mem), addr0, data)
      ensures InRange(addr0, len0) ==> programs == old(programs) + PagesTouched(addr0, len0)
      ensures !InRange(addr0, len0) ==> mem == old(mem) && programs == old(programs)
    {
      hide Programmed, PagesTouched;
      var addr, len: nat := addr0, len0;
      if len > NUM_BYTES || addr > NUM_BYTES || U32(addr + len) > NUM_BYTES {
        return;
      }
      ghost var mem0, programs0 := mem, programs;
      var done := FirstBlock(addr0, data);
      addr, len := addr + done, len - done;

      while len >= PAGE_LEN
        invariant addr == addr0 + done && done + len == len0
        invariant len > 0 ==> addr % PAGE_LEN == 0
        invariant mem == Programmed(mem0, addr0, data[..done])
        invariant programs == programs0 + PagesTouched(addr0, done)
      {
        ProgramBlock(mem0, programs0, addr0, data, done, PAGE_LEN);
        addr, done, len := addr + PAGE_LEN, done + PAGE_LEN, len - PAGE_LEN;
      }

      if len != 0 {
        ProgramBlock(mem0, programs0, addr0, data, done, len);
        done := done + len;
      }
      assert data[..done] == data;
    }

    /** Reads in range return the memory contents; others leave the caller's buffer alone. */
    method Read(addr: u32, len: u32, buffer: seq<bv8>) returns (data: seq<bv8>)
      requires |buffer| == len
      ensures data == if InRange(addr, len) then mem[addr..addr + len] else buffer
    {
      if len > NUM_BYTES || addr > NUM_BYTES || U32(addr + len) > NUM_BYTES {
        return buffer;
      }
      data := mem[addr..addr + len];
    }
  }

  lemma NothingDone(mem: Memory, addr: nat, data: seq<bv8>)
    ensures Programmed(mem, addr, data[..0]) == mem
  {
  }

  /** A block that starts the write or a page, and stays in its page, touches one more page. */
  lemma NextPage(addr: nat, done: nat, len: nat)
    requires len > 0 && (addr + done) % PAGE_LEN + len <= PAGE_LEN
    requires done == 0 || (addr + done) % PAGE_LEN == 0
    ensures PagesTouched(addr, done + len) == PagesTouched(addr, done) + 1
  {
    var page, offset := (addr + done) / PAGE_LEN, (addr + done) % PAGE_LEN;
    LastPage(page, offset, len);
    assert addr + (done + len) - 1 == PAGE_LEN * page + offset + len - 1;
    if done > 0 {
      DivUnique(addr + done - 1, PAGE_LEN, page - 1, PAGE_LEN - 1);
    }
  }

  lemma LastPage(page: int, offset: nat, len: nat)
    requires 0 < len && offset + len <= PAGE_LEN
    ensures (PAGE_LEN * page + offset + len - 1) / PAGE_LEN == page
  {
    DivUnique(PAGE_LEN * page + offset + len - 1, PAGE_LEN, page, offset + len - 1);
  }

  lemma NextBlock(mem: Memory, addr: nat, data: seq<bv8>, done: nat, len: nat)
    requires done + len <= |data|
    ensures Programmed(Programmed(mem, addr, data[..done]), addr + done, data[done..done + len])
            == Programmed(mem, addr, data[..done + len])
  {
    ProgrammedSplit(mem, addr, data[..done], data[done..done + len]);
    assert data[..done] + data[done..done + len] == data[..done + len];
  }

  /** On an erased region, reading back after a write returns the data written. */
  lemma ErasedRoundTrip(mem: Memory, addr: nat, data: seq<bv8>)
    requires InRange(addr, |data|)
    requires forall i :: addr <= i < addr + |data| ==> mem[i] == 0xFF
    ensures Programmed(mem, addr, data)[addr..addr + |data|] == data
  {
    forall i | 0 <= i < |data| ensures Programmed(mem, addr, data)[addr..addr + |data|][i] == data[i] {
      assert Programmed(mem, addr, data)[addr + i] == ProgrammedByte(mem, addr, data, addr + i);
    }
  }
}

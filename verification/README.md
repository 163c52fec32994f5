# Verified models of HackRF firmware

Dafny models of the parts of the HackRF firmware whose correctness is least
visible in any single function: interleavings with interrupts and DMA, JTAG
sequences spread over many calls, and fixed-width arithmetic that wraps on
purpose. `dafny verify dfyconfig.toml` checks all of it.

## What is modelled

**USB transfer queues.** `UsbPool` is a state machine of thread code and
completion interrupt over the linked lists of one endpoint, with the exclusive
load and store of the free list and the flush as separate steps, for both builds
of the locking primitives: exclusive access, and masking of interrupts. `UsbAppend` is the interleaving of driver and DMA controller
on a growing descriptor chain with the ATDTW tripwire; the controller retires a
descriptor in two steps and holds the tripwire bit at zero in between. `UsbReuse` is
about a transfer that is filled again while a prime for it may be pending. `UsbQueue`
is the queue code itself, in place on the link fields, with callbacks that schedule
again; over any run of calls it is proved equal to a fold over a queue without
lists, about which order and conservation are proved. `Links` has the list lemmas.

**JTAG.** `Tap` is the sixteen-state TAP controller of clause 6 of IEEE Std
1149.1-2001 with a shift register, a falling edge (TDO, updates) and a rising
edge (state, shift), and the XC2C64A's SRAM and nonvolatile rows behind it. The
port keeps the history of all pulses (the TAP state left and the level of TDI),
so that contracts can say what was driven and not only where it led. `Cpld` is
the driver that writes and verifies the SRAM with hand-written TMS words. `Crc` is
the checksum as polynomial division over GF(2), `CrcRegister` computes it in a
32-bit register, and `CpldChecksum` reads the nonvolatile rows into it.

The XSVF player is `Lenval` (big numbers in byte buffers), `XsvfTap` (walks with a
shadow of the TAP state), `XsvfShift` (shifting), `XsvfScan` (comparing and
retrying), `XsvfMask` (the masked increment), `XsvfStream` (the layout of the
command stream), `XsvfTable` and `Xsvf`. `XsvfTable` defines each command as a
function from all there is before it (position, settings, values in the
buffers, wires, error) to all there is afterwards; the methods of `Xsvf` compute
these functions in place. What the commands then do is proved about playing them:
which way the TAP goes (`XsvfRoute`), what each command sets, how long that is in
force and what can go wrong (`XsvfEffects`), where XSTATE, XWAIT and the shifts
leave the TAP and by which pulses (`XsvfMoves`), what they compare and load
(`XsvfLoads`, `XsvfIncrement`), and how the stream of the firmware begins
(`XsvfFirmware`).

**Frequencies.** `Rffc5071` (mixer synthesizer), `Max283x` (IF synthesizer, both
chips) and `Tuning` compose into one statement about the received frequency.
`BinaryGcd`, `SampleRate` and `Si5351` do the same for the sample clock. All values
have the width of the firmware's integers; `Machine` has the wrapping operations.

**Schedules.** `Sctimer` compiles antenna dwell times into timer events and
follows the timer for any number of ticks. `Flash` splits a write into page
programs of a chip whose address counter wraps inside the page.

Code that works in place is a class or a method with loops, proved against
functions on values; the protocols that interleave are relations on states with
invariants over every run.

## Where the code departs from its comments, and exact conditions

- `set_freq` is documented to fail for frequencies that are too high. It
  truncates the megahertz to 32 bits first: it fails if and only if
  (freq / 1000000) mod 2^32 exceeds 7250 (`Tuning.Tuner.SetFreq`,
  `Tuning.HugeRequestPassesTheTest`).
- `operacake_sctimer_init` sets the prescaler to run at the sample clock;
  enabling and setting dwell times assign the whole control register and clear
  it (`Sctimer.Timer.Enable`, `Sctimer.Timer.SetDwellTimes`), so that dwell times
  count edges of the clock input (`Sctimer.Timer.StartSwitching`). Setting dwell
  times does not clear the counter either. Without `operacake_sctimer_reset_state`
  the pins are right at every tick if and only if the counter value left is inside
  the period and the schedule's patterns repeat after that many ticks, or it is
  beyond the period and there is only one pattern (`Sctimer.CounterMatters`,
  `Sctimer.Timer.StartWithoutReset`).
- `cpld_xc2c_jtag_shift_dr_ir` is commented to end in Run-Test/Idle. It does so
  if and only if the bit count or the pause count is positive
  (`Cpld.ShiftDrIr`, `Cpld.StuckInPause`).
- `usb_endpoint_schedule_append` can prime a descriptor that the controller has
  already finished (`UsbAppend.RedundantPrime`), exactly when the controller followed
  the link to it in time (`UsbAppend.RedundantExactly`). As long as its transfer is
  not used again, nothing is lost or done twice (`UsbAppend.NeverLost`,
  `UsbAppend.RetiredInOrder`). But `allocate_transfer` does not wait for the prime:
  the transfer can be loaded half filled if and only if, when it is allocated again,
  a prime is pending that still leads to its finished descriptor
  (`UsbReuse.HalfFilledExactly`, with a run from initialization in
  `UsbReuse.ReuseTooEarly`).
- `usb_queue_flush_queue` masks interrupts around its loop. Where the locking
  primitives themselves mask interrupts, the store in the first `free_transfer`
  unmasks them, and a completion between reading and unlinking the next transfer
  puts it on both lists. A flush keeps the pool whole in every interleaving if and
  only if access is exclusive or at most one transfer is active
  (`UsbPool.FlushConserves`).
- `allocate_transfer` tests for NULL before its retry loop. Interrupting code may
  pop from the same queue: up to k pops are harmless if and only if more than k
  transfers are free at the test (`UsbPool.PopsTolerated`,
  `UsbPool.InterruptingPopBreaksAllocation`).
- The comment in `cpld_xc2c64a_jtag_read_row` says that excess bits will be zero;
  they keep the ones that the buffer is filled with, and disappear if and only if
  the masks select none of them (`CpldChecksum.PaddingMasked`).
- XSDRSIZE computes its number of bytes as a short: a length beyond the buffers is
  refused if and only if that number modulo 2^16 is between 257 and 32767
  (`XsvfStream.RefusedExactly`). 262137 bits are the first length that passes, and
  0x80000 bits pass as no bytes at all (`XsvfStream.NotAlwaysRefused`).
- XWAIT pulses TCK in whatever state it is given. The shadow stays true if and only
  if that state can be held or the time is not positive
  (`XsvfTap.WaitKeepsState`).
- The XSVF retry counter is an unsigned char: retries used up are reported as
  such exactly for 0 < XREPEAT < 255, and as a plain mismatch for 255
  (`XsvfScan.Tries`).
- A retry of the XSVF player shifts one extra bit, as its comment says; it then passes
  Update-DR, so that the value shifted by one bit takes effect before the next attempt
  (`XsvfScan.RetriedDr`). A mismatch that is not tried again is reported when the value
  has been loaded already (`XsvfLoads.CompareAndLoad`).
- XWAIT ignores the error of a refused end state (`XsvfMoves.WaitPulses`); XSTATE reports
  it (`XsvfMoves.StateReached`).
- `xsvfGotoTapState` relies on its callers for the range of the target: its loop
  ends if and only if the target is a state code that the trap lets through
  (`XsvfTap.WalkTerminates`). The counting loop of XSDRINC ends if and only if
  the data mask has at most 255 bytes (`XsvfMask.CountingEnds`).
- The comment on `xsvfDoXSDRINC` replaces the masked bits before adding the
  address mask; the code adds first, so that the data bits always arrive as sent
  (`XsvfMask.DoSdrMasking`).
- The comment on `xsvfShift` describes skipping the wait after a match; the code
  waits in every case. The comment on `xsvfExecute` gives 1 for success; the code
  returns an error code, 0 for success.
- The sample clock encoding is exact if and only if 4 <= a <= 2051
  (`SampleRate.EncodingRoundTrip`). On revision r9 the integer-mode bit is set
  for clock 0 although multisynth 1 is programmed, whose mode is therefore right
  if and only if it already was (`SampleRate.FracSet`).

## Model

| member | source | states |
|---|---|---|
| `UsbPool.InitInv` | common/usb_queue.c:57-64 | After initialization the free list is the whole pool, in order, and nothing is active or held |
| `UsbPool.PopIsCurrent` | common/usb_queue.c:75-82 | An exclusive store that succeeds removes the current head and installs its current successor, whatever the interrupt freed in between |
| `UsbPool.EnqueueInv` | common/usb_queue.c:102-117 | Appending walks to the real tail of the active list and keeps the partition of the pool |
| `UsbPool.CompletionInv` | common/usb_queue.c:203-243 | A completion moves exactly the head of the active list to the free list, in the middle of anything the thread does with interrupts unmasked |
| `UsbPool.UnlinkInv` | common/usb_queue.c:122-124 | A flush takes the head off the active list and holds it |
| `UsbPool.FlushStoreInv` | common/usb_queue.c:86-97 | The flushed transfer becomes the head of the free list if the exclusive store succeeds, and is stored again if not |
| `UsbPool.NextInv` | common/usb_queue.c:67-128 | Every step of thread and completion interrupt, with a flush that has exclusive access or finds at most one active transfer, keeps both lists acyclic and the pool partitioned |
| `UsbPool.PoolConserved` | common/usb_queue.c:49-128 | In every state of every interleaving whose flushes are such, free list, active list and the transfer in hand partition the transfers set up by initialization |
| `UsbPool.ThreadReturns` | common/usb_queue.c:67-128 | In every run the thread returns: from the NULL test within six steps, from the start of a flush within one step and four for each active transfer, and three more for each completion that comes between |
| `UsbPool.NeverStuck` | common/usb_queue.c:67-128 | Until it has returned it always has a step |
| `UsbPool.FlushConserves` | common/locking.h:35-53 | A flush keeps the pool whole in every interleaving if and only if access is exclusive or at most one transfer is active: in the masking build its first store unmasks interrupts |
| `UsbPool.PopsTolerated` | common/usb_queue.c:71-81 | An allocation never loads NULL, whatever up to k interrupting scheduling calls pop, if and only if more than k transfers are free at the NULL test |
| `UsbPool.InterruptingPopBreaksAllocation` | common/usb_queue.c:71-81 | From initialization, for every pool size, a run in which interrupting calls take every transfer after the NULL test and the thread loads NULL |
| `UsbAppend.NextInv` | common/usb.c:182-253 | Every step of driver, controller or another endpoint keeps the ordering, controller and driver invariants |
| `UsbAppend.RunInv` | common/usb.c:182-253 | The invariants hold in every state of every interleaving |
| `UsbAppend.NeverLost` | common/usb.c:231-253 | Whenever scheduling has returned, each descriptor is finished, or reachable from the current descriptor or from the pending prime |
| `UsbAppend.RetiredInOrder` | common/usb.c:212-253 | The controller finishes descriptors in the order scheduled, each exactly once, and the ACTIVE bits say which |
| `UsbAppend.PrimesOnlyAtRest` | common/usb.c:182-198 | The driver primes only an endpoint that is not ready and has no older descriptor unfinished |
| `UsbAppend.Drains` | common/usb.c:231-253 | Left alone, the controller finishes everything scheduled within three moves per descriptor |
| `UsbAppend.AppendsAlone` | common/usb.c:231-253 | Without a hazard the driver, left alone, returns from an append with the new descriptor linked up; it primes exactly if the endpoint neither runs nor has a prime pending, and changes neither otherwise |
| `UsbAppend.WaitsAlone` | common/usb.c:212-223 | An endpoint without descriptors is primed with the new one |
| `UsbAppend.Returns` | common/usb.c:212-253 | From every reachable state without a hazard the driver, left alone, returns within eight moves |
| `UsbAppend.HeldUp` | common/usb.c:240-252 | In every run, outside hazards, a call takes at most eight moves of the driver and eight more for each time that a hazard begins or the tripwire is cleared |
| `UsbAppend.RedundantPrime` | common/usb.c:240-252 | A concrete interleaving in which append primes a descriptor that is already finished |
| `UsbAppend.LostWithoutSkip` | common/usb.c:240-252 | If the controller did not follow the link of a finished descriptor it is primed with, that interleaving would lose the new descriptor |
| `UsbAppend.RedundantExactly` | common/usb.c:231-253 | In every run a descriptor is primed although it is finished if and only if the controller followed a link to it while it was being scheduled |
| `UsbReuse.ReuseTooEarly` | common/usb_queue.c:147-158 | A run from initialization in which a redundant prime is still pending when its transfer is allocated again, and the controller loads it with ACTIVE set and the old buffer pointers |
| `UsbReuse.HalfFilledExactly` | common/usb_queue.c:142-158 | From an allocation on, a transfer can be loaded half filled if and only if a prime is pending that still leads to the transfer's finished descriptor |
| `UsbReuse.NoStaleNoRead` | common/usb_queue.c:142-158 | Otherwise the controller never reads the transfer while it is being filled, at any stage |
| `UsbQueue.Queue.constructor` | common/usb_queue.c:57-64 | The loop links the array into one free list, first transfer first |
| `UsbQueue.Queue.AllocateTransfer` | common/usb_queue.c:67-83 | The head of the free list is taken, retries included; NULL exactly when the list is empty |
| `UsbQueue.Queue.FreeTransfer` | common/usb_queue.c:86-97 | The transfer becomes the head of the free list, retries included |
| `UsbQueue.Queue.EndpointQueueTransfer` | common/usb_queue.c:102-117 | The transfer becomes the tail of the active list, and the old tail (or NULL) is returned |
| `UsbQueue.Queue.FillIn` | common/usb_queue.c:147-163 | Descriptor and transfer are filled in without touching either list: link TERMINATE, ACTIVE set |
| `UsbQueue.Queue.LinkDescriptor` | common/usb.c:221-238 | The descriptor chain is extended by the same element as the active list and ends in TERMINATE |
| `UsbQueue.Queue.QueueAndLink` | common/usb_queue.c:165-174 | Software list and descriptor chain are extended by the same transfer |
| `UsbQueue.Queue.Enqueue` | common/usb_queue.c:147-173 | The allocated transfer joins the end of the active list and the request joins the history |
| `UsbQueue.Queue.Schedule` | common/usb_queue.c:135-176 | -1 and no change when the pool is exhausted; otherwise the request joins the end of the queue |
| `UsbQueue.Queue.RunCallback` | common/usb_queue.c:237-239 | A callback's requests are scheduled in order, as many as transfers are free: exactly those are appended to both lists and the others refused |
| `UsbQueue.Queue.RetireHead` | common/usb_queue.c:227-236 | A finished head leaves the list before its callback; the callback gets maximum length minus remaining bytes |
| `UsbQueue.Queue.CompleteHead` | common/usb_queue.c:227-243 | One turn: the head leaves, is called back once with its own byte count, the callback's requests join from the free list, and only then the transfer is returned; the next transfer read beforehand is still the head |
| `UsbQueue.Queue.CompleteTurn` | common/usb_queue.c:227-243 | The turn is one step of the queue without lists |
| `UsbQueue.Queue.ControllerAdvances` | common/usb.c:231-253 | The controller finishes descriptors in chain order, oldest first, with the byte counts it leaves |
| `UsbQueue.Queue.TransferComplete` | common/usb_queue.c:203-245 | The loop computes exactly the completion function of the queue without lists, while the controller and callbacks work in between |
| `UsbQueue.Queue.Flush` | common/usb_queue.c:119-128 | Every active transfer returns to the free list uncompleted, the last one first |
| `UsbQueue.Queue.AnyRun` | common/usb_queue.c:119-245 | Any sequence of schedule calls, completion interrupts, controller progress and flushes takes the linked lists exactly where the fold of the steps takes the queue without lists |
| `UsbQueue.InterruptFires` | common/usb_queue.c:203-245 | An interrupt calls back exactly the requests finished, in order, each with its own byte count, and none twice |
| `UsbQueue.FirstInFirstOut` | common/usb_queue.c:119-245 | Over every run, callbacks only grow and are the accepted requests in order; without a flush nothing accepted is lost; free and active transfers add up to the pool |
| `Tap.FallIdempotent` | common/cpld_xc2c.c:71-89 | A falling edge on a low clock changes nothing, so it does not matter what level TCK had before |
| `Tap.ShiftNext` | common/cpld_xc2c.c:99-117 | One TCK cycle in a shift state moves the register one bit along the stream of register and input bits, and TDO shows the bit that leaves |
| `Tap.ShiftIsExchange` | common/cpld_xc2c.c:119-128 | Shifting as many bits as the register has exchanges the two |
| `Tap.Port.SetPort` | common/xapp058/ports.c:42-63 | Only the named pin changes; a falling TCK lets the device update, a rising one moves it with the present TMS and TDI |
| `Cpld.JtagClock` | common/cpld_xc2c.c:60-97 | One falling and one rising edge; the bit returned is the one shown between them, although it is sampled after the rising edge |
| `Cpld.ShiftBit` | common/cpld_xc2c.c:106-116 | Bit i of the buffer is sent and replaced by the bit received; no other bit changes |
| `Cpld.ShiftPtrTms` | common/cpld_xc2c.c:99-117 | Bits [start, end) of the buffer are exchanged in place with what the register streams out, in as many pulses |
| `Cpld.ShiftPtr` | common/cpld_xc2c.c:119-128 | All bits but the last with TMS low and the last with TMS high are one shift that leaves the shift state |
| `Cpld.ClocksState` | common/cpld_xc2c.c:130-144 | The states on the way depend on TMS alone |
| `Cpld.ShiftWord` | common/cpld_xc2c.c:130-144 | The TMS and TDI words are clocked in, bit 0 first: device and pulses are those of the words |
| `Cpld.Clocks` | common/cpld_xc2c.c:146-151 | All pulses happen in Run-Test/Idle, as many as asked for, and nothing else changes |
| `Cpld.Pause` | common/cpld_xc2c.c:153-158 | All pulses leave the pause state, the last for Exit2 |
| `Cpld.ToShift` | common/cpld_xc2c.c:166-167 | From Run-Test/Idle or Select-DR-Scan, TMS 1, 0, 0 ends in the shift state with a freshly captured register |
| `Cpld.ExitToIdle` | common/cpld_xc2c.c:176-177 | From an exit state, TMS 1, 0 passes the update state and ends in Run-Test/Idle |
| `Cpld.PauseDoesNotMatter` | common/cpld_xc2c.c:170-177 | Leaving through Exit2 after a pause has the effect of leaving through Exit1 |
| `Cpld.StuckInPause` | common/cpld_xc2c.c:166-177 | With no bit and no pause the exit word goes from the shift state to a pause state |
| `Cpld.LeaveShift` | common/cpld_xc2c.c:170-177 | The optional pause and the exit word end in Run-Test/Idle exactly when a bit was shifted or a pause asked for |
| `Cpld.ShiftDrIr` | common/cpld_xc2c.c:160-178 | The whole scan returns to Run-Test/Idle if and only if there is a bit to shift or a pause; then the buffer holds what was captured, the register took effect, and every pulse is accounted for |
| `Cpld.LoadInstruction` | common/cpld_xc2c.c:189-204 | The instruction is loaded along the stated path and what the scan captured is returned; memories and row address are untouched |
| `Cpld.FiveOnes` | common/cpld_xc2c.c:206-211 | Five TMS ones reach Test-Logic-Reset from every state, and from an idle TAP without touching the SRAM |
| `Cpld.ResetTap` | common/cpld_xc2c.c:206-211 | Test-Logic-Reset from any state |
| `Cpld.ResetAndIdle` | common/cpld_xc2c.c:213-220 | Run-Test/Idle from any state, in six pulses |
| `Cpld.LoadAndWait` | common/cpld_xc2c.c:236-252 | Enable and disable: the pulses are those of the instruction scan, then exactly as many in Run-Test/Idle as asked for |
| `Cpld.Begin` | common/cpld_xc2c.c:449-452 | From any TAP state: reset, ISC_ENABLE and then 800 pulses in Run-Test/Idle, the SRAM instruction; the device is enabled for it |
| `Cpld.Finish` | common/cpld_xc2c.c:462-464 | Disable, bypass and reset leave the SRAM alone and the TAP in Test-Logic-Reset |
| `Cpld.ThroughEmptyDr` | common/cpld_xc2c.c:295-296 | The seven-bit word leaves exactly the states in the comment and ends in Run-Test/Idle with the instruction in effect |
| `Cpld.InitAgain` | common/cpld_xc2c.c:289-296 | The second ISC_INIT goes through Pause-IR and an unshifted data scan, pulse by pulse |
| `Cpld.InitSpecial` | common/cpld_xc2c.c:285-298 | All pulses of the commented path in order: ISC_INIT, 20 in Run-Test/Idle, ISC_INIT again through the empty data scan, 800 in Run-Test/Idle; the memories are not touched |
| `Cpld.RowScan` | common/cpld_xc2c.c:387-395 | 274 row bits and 7 address bits fill the 281-bit register exactly, while its old row bits come out |
| `Cpld.SramWriteRow` | common/cpld_xc2c.c:380-399 | The row is stored at its address, and nothing else changes; the pulses are the row and the address in Shift-DR, Exit1-DR, Update-DR |
| `Cpld.ExitThroughPause` | common/cpld_xc2c.c:413-419 | The non-standard path leaves Exit1-DR, Pause-DR, Exit2-DR and Update-DR, and updates once |
| `Cpld.SramReadRow` | common/cpld_xc2c.c:401-420 | The buffer receives the row at the address latched before, the new address is latched, padding bits keep their value; all pulses, out through Pause-DR |
| `Cpld.CompareBytes` | common/cpld_xc2c.c:433-440 | The byte-wise masked comparison is true exactly when every bit under the mask agrees |
| `Cpld.SramCompareRow` | common/cpld_xc2c.c:422-443 | True without expectation or mask; else true exactly when the row read agrees under the mask |
| `Cpld.RowsAreStored` | common/cpld_xc2c.c:454-460 | At distinct addresses every program row ends up at its own address |
| `Cpld.SramWrite` | common/cpld_xc2c.c:445-465 | All 98 rows are written in order, from any TAP state, and the TAP ends in Test-Logic-Reset; every pulse of the command in order |
| `Cpld.VerifyStep` | common/cpld_xc2c.c:480-497 | Step k of the loop compares row k - 1 and latches address k, along the read path |
| `Cpld.SramVerify` | common/cpld_xc2c.c:467-504 | The one-row-delayed loop returns true if and only if every masked bit of every row matches, and the SRAM is not changed; every pulse of the command in order |
| `Cpld.StoredRowMatches` | common/cpld_xc2c.c:422-443 | A stored row matches itself exactly when the mask selects no zero padding bit, because padding reads back as ones |
| `Cpld.SramLoad` | lib/hackrf_usb/hackrf_usb.c:229-239 | Write then verify: with distinct addresses every row is stored, and verification succeeds exactly when the masks select no zero padding bit; every pulse of both |
| `Crc.PolyIsGenerator` | common/crc.c:30 | The constant is the CRC-32 generator polynomial of RFC 1952 section 8, bit-reversed |
| `Crc.RunConcat` | common/crc.c:34-48 | Updating chunk by chunk is updating with the concatenation |
| `Crc.LoopDivides` | common/crc.c:38-46 | The bits shifted out are the quotient and the register is the remainder of dividing by the generator |
| `Crc.DivisionUnique` | common/crc.c:38-46 | Quotient and remainder are unique |
| `Crc.DigestIsRemainder` | common/crc.c:34-53 | A value is the digest if and only if its complement is the remainder of the message polynomial |
| `Crc.FeedIsAdd` | common/crc.c:39-45 | Feeding up to 32 bits is adding them to the register and feeding zeros |
| `Crc.RunInjective` | common/crc.c:38-46 | For a fixed message, different registers stay different |
| `Crc.BurstDetected` | common/crc.c:34-53 | Two messages of equal length that differ only within 32 consecutive bits have different digests |
| `Crc.OnesAreSet` | common/crc.c:27-32 | Every bit of the initial register and of the final mask is set |
| `CrcRegister.TurnIsStep` | common/crc.c:39-45 | One turn of the loop on a 32-bit register with the constant 0xEDB88320 is one step of the division |
| `CrcRegister.FedRuns` | common/crc.c:34-48 | The register computed byte by byte stands for the one of the division |
| `CrcRegister.CheckValue` | common/crc.c:27-53 | The digest of the digits 1 to 9 is 0xCBF43926 |
| `CrcRegister.Crc32.constructor` | common/crc.c:27-32 | Every bit of the initial register is set |
| `CrcRegister.Crc32.ShiftIn` | common/crc.c:39-45 | The loop body is one division step |
| `CrcRegister.Crc32.Update` | common/crc.c:34-48 | The register afterwards is the division continued over the data, least significant bit of each byte first |
| `CrcRegister.Crc32.Digest` | common/crc.c:50-53 | The digest is the complement of the register, bit by bit |
| `CpldChecksum.LatchAddress` | common/cpld_xc2c.c:310 | The seven address bits end up in the address part of the 281-bit register |
| `CpldChecksum.ReadRow` | common/cpld_xc2c.c:305-319 | The buffer holds the row at that address, its padding bits are ones; address scan, 100 pulses, row scan, 100 pulses |
| `CpldChecksum.MaskRow` | common/cpld_xc2c.c:349-351 | The mask is applied to every bit, in place |
| `CpldChecksum.PaddingMasked` | common/cpld_xc2c.c:313-316 | The ones that the buffer is filled with disappear if and only if the mask selects no padding bit |
| `CpldChecksum.BeginRead` | common/cpld_xc2c.c:326-338 | Reset, bypass, three enables of 800 pulses each and the read instruction, from any TAP state |
| `CpldChecksum.Checksum` | common/cpld_xc2c.c:332-364 | The CRC is that of the masked rows in the nonvolatile memory, in the order of the address table; every pulse, with the special initialization and the disable at the end; the memory is not changed |
| `Lenval.NumberBound` | common/xapp058/lenval.c:15-28 | A value of n bytes is below 256^n |
| `Lenval.LenVal.Value` | common/xapp058/lenval.c:15-28 | The big-endian number, modulo 2^32 in two's complement |
| `Lenval.EqualLenVal` | common/xapp058/lenval.c:53-83 | True if and only if every bit of the expected value that the mask selects agrees (every bit without a mask) |
| `Lenval.AddByte` | common/xapp058/lenval.c:153-168 | One column: digit and carry add up to the two digits and the old carry, also when the result is an addend |
| `Lenval.NumberInjective` | common/xapp058/lenval.c:15-28 | A value of given length is written in one way |
| `Lenval.AddVal` | common/xapp058/lenval.c:140-169 | The sum modulo 256^len, as bytes, also when the result is one of the addends; bytes beyond the length are untouched |
| `Lenval.ReadVal` | common/xapp058/lenval.c:178-189 | The value is the next bytes of the stream, exactly those are consumed, and the rest of the buffer is kept |
| `XsvfTap.Closer` | common/xapp058/micro.c:551-698 | Every step of the walk decreases the distance to the target |
| `XsvfTap.WalkTerminates` | common/xapp058/micro.c:521-699 | The walk reaches its target if and only if the target is a state code (and an Exit2 state only from its pause): the default branch is never needed, and codes beyond 0x0F never end it |
| `XsvfTap.ClockHolds` | common/xapp058/micro.c:479-484 | Every clock leaves TMS at the level that holds the state it leads to |
| `XsvfTap.TmsTransition` | common/xapp058/micro.c:479-484 | One TCK cycle with the given TMS: device, pins and history of pulses |
| `XsvfTap.PulseClock` | common/xapp058/ports.c:67-73 | One TCK cycle at the present TMS and TDI |
| `XsvfTap.WaitTime` | common/xapp058/ports.c:100-114 | Exactly one pulse per microsecond, nothing else |
| `XsvfTap.WaitedHere` | common/xapp058/ports.c:100-114 | In a state that is held all pulses of a wait happen there; idle and pause states are not changed at all |
| `XsvfTap.WaitKeepsState` | common/xapp058/micro.c:1631-1632 | A wait leaves the TAP where the shadow says if and only if the state can be held or there is nothing to wait |
| `XsvfTap.StepDr` | common/xapp058/micro.c:555-630 | In every case of the switch for the data column, the shadow assigned by hand is the state the TAP moves to |
| `XsvfTap.StepIr` | common/xapp058/micro.c:631-690 | The same for the instruction column |
| `XsvfTap.ResetSequence` | common/xapp058/micro.c:507-520 | TMS high and six pulses |
| `XsvfTap.ResetSequenceResets` | common/xapp058/micro.c:507-520 | That reaches Test-Logic-Reset from any state, whatever the shadow says |
| `XsvfTap.GotoTapState` | common/xapp058/micro.c:499-702 | The shadow is the TAP state afterwards; ILLEGALSTATE exactly for an Exit2 target away from its pause, and then nothing moves; otherwise the target is reached along the walk, pulse by pulse |
| `XsvfShift.Exchange` | common/xapp058/micro.c:718-781 | Shifting n bits through an n-bit register leaves the input in the register and shows its old contents |
| `XsvfShift.ShiftsCompose` | common/xapp058/micro.c:743-780 | Two shifts in a row are one shift of the concatenation |
| `XsvfShift.ShiftOneBit` | common/xapp058/micro.c:751-772 | TDO is sampled while TCK is low, before the register shifts |
| `XsvfShift.ShiftByte` | common/xapp058/micro.c:748-773 | Up to eight bits go out least significant first and come back in the same positions, the rest of the byte zero |
| `XsvfShift.ShiftOnly` | common/xapp058/micro.c:718-781 | For every length, the register takes the value's low bits in order and the captured value is what TDO showed; TMS is raised on the last bit exactly when the shift state is left |
| `XsvfRoute.OnlyShortest` | common/xapp058/micro.c:524-702 | There is a way to a state that shifts nothing, pauses nowhere and does not reset in between exactly if the state is not an Exit2 state off its pause; then the walk is the only shortest one |
| `XsvfRoute.GoesShortest` | common/xapp058/micro.c:524-702 | Going to a state makes exactly the pulses of that way |
| `XsvfRoute.GoesRoundDr` | common/xapp058/micro.c:526-548 | A data pause where the TAP is already is left through Exit2-DR and Update-DR and entered again, in these six pulses |
| `XsvfRoute.GoesRoundIr` | common/xapp058/micro.c:526-548 | The same for the instruction pause, in seven |
| `XsvfRoute.GoesToReset` | common/xapp058/micro.c:507-520 | Six pulses with TMS high, through these states |
| `XsvfRoute.NextDoor` | common/xapp058/micro.c:550-700 | Going to a neighbour state is one clock of the device |
| `XsvfScan.Attempt` | common/xapp058/micro.c:852-864 | One attempt: wires, capture buffer and mismatch flag are those of this shift |
| `XsvfScan.Leave` | common/xapp058/micro.c:866-905 | The hand-incremented shadow is true; a retry goes through Pause-DR and Shift-DR and grows the wait by a quarter, otherwise the end state is reached; then the wait |
| `XsvfScan.Try` | common/xapp058/micro.c:850-906 | One turn of the loop does to wires, buffer and wait time what the attempt function says, whether or not it is retried |
| `XsvfScan.Tries` | common/xapp058/micro.c:848-931 | The loop makes exactly the attempts of the attempt function, each starting where the one before left the wires; the error reports them |
| `XsvfScan.Shift` | common/xapp058/micro.c:807-931 | The whole scan, with the wait alone for a zero length |
| `XsvfScan.AttemptsTried` | common/xapp058/micro.c:848-906 | At most ucMaxRepeat + 1 attempts; all but the last disagree with what is expected; fewer only if the last agrees |
| `XsvfScan.AttemptsEnd` | common/xapp058/micro.c:866-905 | The scan ends in Run-Test/Idle if there is a time to wait, else in its end state, retried or not |
| `XsvfScan.DataScan` | common/xapp058/micro.c:807-906 | A data scan of the register's length from Run-Test/Idle agrees exactly when the captured register does; unless it is tried again, the bits have taken effect or, at an end in Pause-DR, are in the register, and these are all the pulses |
| `XsvfScan.InstructionScan` | common/xapp058/micro.c:807-906 | An eight-bit instruction scan from Run-Test/Idle loads the instruction, or leaves it in the register in Pause-IR, with these pulses |
| `XsvfScan.StayScan` | common/xapp058/micro.c:852-864 | A scan that stays in Shift-DR shows the first captured bits, compares them, and leaves the register moved on by as many |
| `XsvfScan.RetriedDr` | common/xapp058/micro.c:870-905 | A retry goes by Exit1, Pause, Exit2 and Shift-DR, where one extra bit is shifted, to Update-DR: the value shifted by one bit takes effect; then the longer wait; these are all the pulses |
| `XsvfScan.GrownByQuarter` | common/xapp058/micro.c:888-890 | The wait grows by a quarter |
| `XsvfScan.PiecesAreOneShift` | common/xapp058/micro.c:1415-1442 | A value sent in two pieces, the first staying in Shift-DR, has the effect and the pulses of one shift |
| `XsvfMask.DepositNext` | common/xapp058/micro.c:1013-1036 | Bit n takes the next data bit if the mask is set there, and is kept otherwise |
| `XsvfMask.DepositThenExtract` | common/xapp058/micro.c:1000-1042 | Reading the masked bits back gives the data in order; unmasked bits are untouched |
| `XsvfMask.DepositConcat` | common/xapp058/micro.c:1000-1042 | Depositing in two parts continues with the rest of the data |
| `XsvfMask.TakeBit` | common/xapp058/micro.c:1015-1033 | Successive calls deliver the data bits least significant first, across bytes |
| `XsvfMask.MaskByte` | common/xapp058/micro.c:1010-1037 | The inner loop deposits into one byte and stops once the mask byte is exhausted |
| `XsvfMask.MaskedContents` | common/xapp058/micro.c:981-1043 | With masks of the value's length: the address mask is added modulo 256^len, then the k-th next-data bit goes to the k-th set mask bit |
| `XsvfMask.DoSdrMasking` | common/xapp058/micro.c:981-1043 | The whole buffer afterwards, also for masks of other lengths; ceil(popcount/8) data bytes are used |
| `XsvfMask.CountOnes` | common/xapp058/micro.c:1369-1379 | The number of data bits is the population count of the data mask |
| `XsvfMask.CountingEnds` | common/xapp058/micro.c:1371-1379 | The counting loop, with its unsigned char index, ends if and only if the mask has at most 255 bytes |
| `XsvfStream.RefusedExactly` | common/xapp058/micro.c:467-470 | A length beyond the buffers is refused if and only if its number of bytes modulo 2^16 is above 256 and below 2^15 |
| `XsvfStream.NotAlwaysRefused` | common/xapp058/micro.c:1259-1274 | All such lengths up to 262136 bits are refused; 262137 is the first that is not, and 0x80000 passes as a length of no bytes |
| `XsvfTable.PlayFollows` | common/xapp058/micro.c:296-328 | Every command consumes exactly the operands of its layout, or ends the run |
| `XsvfTable.PlaysOn` | common/xapp058/micro.c:1734-1742 | Playing a stream is playing a command and then the rest, from a position further on |
| `XsvfEffects.PlayHasOwnEffects` | common/xapp058/micro.c:296-328 | Each value, mask, setting and the length are set by their own commands alone, to these operands, the end states to Run-Test/Idle for 0 and the pause for 1; every error has its one cause |
| `XsvfEffects.CommandLength` | common/xapp058/micro.c:1092-1641 | How many bytes each command takes, up to the terminator for XCOMMENT and with all its data for XSDRINC |
| `XsvfEffects.InForce` | common/xapp058/micro.c:1227-1554 | An end state, retry limit, wait time or length stays what its command has set until that command is played again |
| `XsvfMoves.StateReached` | common/xapp058/micro.c:1484-1495 | XSTATE takes the TAP to its operand; only an Exit2 state asked for neither there nor from its pause is refused, and then nothing moves |
| `XsvfMoves.StatePulses` | common/xapp058/micro.c:1484-1495 | The pulses of XSTATE are those of the only shortest way, of the round through a pause, or of the reset |
| `XsvfMoves.StateNextDoor` | common/xapp058/micro.c:1484-1495 | XSTATE for a neighbour of the state is one clock of the device |
| `XsvfMoves.WaitPulses` | common/xapp058/micro.c:1604-1641 | XWAIT makes the pulses of the way to its wait state unless there, one there for each microsecond, and those of the way to its end state unless there, and no others; an end state that is refused is left out without an error |
| `XsvfMoves.EndDrObeyed` | common/xapp058/micro.c:1506-1554 | After XENDDR, until it is played again, every data shift ends in Run-Test/Idle for 0 and in Pause-DR for 1; a time to wait ends it in Run-Test/Idle, and four commands stay in Shift-DR |
| `XsvfMoves.EndIrObeyed` | common/xapp058/micro.c:1506-1554 | The same for XENDIR and instruction shifts, with Pause-IR |
| `XsvfLoads.CompareAndLoad` | common/xapp058/micro.c:1202-1480 | XSDR, XSDRTDO, XSDRE and XSDRTDOE from Run-Test/Idle pass when the device agrees (under the mask, in every bit, or with nothing), without retries exactly then; if so, or without retries, the operand is loaded or, at an end in the pause, in the register, by these pulses and no others |
| `XsvfLoads.LoadsInstruction` | common/xapp058/micro.c:1111-1190 | XSIR and XSIR2 from Run-Test/Idle put their operand into effect or leave it in the register in Pause-IR, with these pulses |
| `XsvfLoads.SentInPieces` | common/xapp058/micro.c:1424-1442 | A value sent with XSDRB or XSDRC and then XSDRE is loaded as a whole, with the pulses of one scan |
| `XsvfLoads.PieceCompared` | common/xapp058/micro.c:1455-1480 | XSDRTDOB and XSDRTDOC compare every bit that the register shows and stay in Shift-DR |
| `XsvfIncrement.IncrementsPlayed` | common/xapp058/micro.c:1352-1410 | XSDRINC without an error loads its operand and then as many values as it announces, each the one before plus the address mask with the next data at the set bits of the data mask, in exactly these pulses |
| `XsvfFirmware.FirmwareStreamBegins` | common/xapp058/micro.c:1734-1742 | The first nine commands of the firmware's own stream, from any device: IDCODE in effect in Run-Test/Idle, length, mask and settings as sent, and all the pulses |
| `Xsvf.Player.Initialize` | common/xapp058/micro.c:1658-1671 | Settings are initial and the TAP is in Test-Logic-Reset whatever its state was |
| `Xsvf.Player.DoXcomplete` | common/xapp058/micro.c:1078-1083 | The player is complete, and nothing else changes |
| `Xsvf.Player.DoIllegalCmd` | common/xapp058/micro.c:1059-1069 | ILLEGALCMD, and nothing else changes |
| `Xsvf.Player.DoXtdomask` | common/xapp058/micro.c:1092-1100 | The mask is the next operand, its buffer kept behind it |
| `Xsvf.Player.DoXruntest` | common/xapp058/micro.c:1227-1234 | The wait time is the next four bytes, as a signed 32-bit number |
| `Xsvf.Player.DoXrepeat` | common/xapp058/micro.c:1243-1250 | The retry limit is the next byte |
| `Xsvf.Player.DoXsdrsize` | common/xapp058/micro.c:1259-1274 | The shift length is the next four bytes, its number of bytes a short; DATAOVERFLOW exactly when the short exceeds the buffers |
| `Xsvf.Player.DoXsetsdrmasks` | common/xapp058/micro.c:1316-1332 | Address mask then data mask are the next operands |
| `Xsvf.Player.DoXendxr` | common/xapp058/micro.c:1506-1554 | Only 0 and 1 are accepted, and each command sets its own end state |
| `Xsvf.Player.DoXcomment` | common/xapp058/micro.c:1564-1593 | Exactly the text and its terminator are consumed |
| `Xsvf.Player.DoXstate` | common/xapp058/micro.c:1484-1495 | The TAP is taken to the state asked for, or ILLEGALSTATE is recorded and nothing moves |
| `Xsvf.Player.DoXwait` | common/xapp058/micro.c:1604-1641 | The wires are those of going to the wait state, waiting there, going to the end state |
| `Xsvf.WaitIn` | common/xapp058/micro.c:1625-1638 | The moves of XWAIT, with the shadow true at every call |
| `Xsvf.Player.RunShift` | common/xapp058/micro.c:807-931 | A shift on the player's own buffers is the scan function on values: wires, capture buffer, error |
| `Xsvf.Player.DoXsir` | common/xapp058/micro.c:1111-1145 | The operand is shifted through the instruction register and nothing is compared |
| `Xsvf.Player.DoXsir2` | common/xapp058/micro.c:1156-1190 | The same with a two-byte length; a longer value is refused before anything moves |
| `Xsvf.Player.DoXsdr` | common/xapp058/micro.c:1202-1218 | The operand is shifted and compared with the last expected value under the mask |
| `Xsvf.Player.BasicXsdrtdo` | common/xapp058/micro.c:947-967 | The values are read in order, then shifted and compared |
| `Xsvf.Player.DoXsdrtdo` | common/xapp058/micro.c:1285-1303 | Operand and new expected value are read, shifted and compared under the mask |
| `Xsvf.Player.DoXsdrbce` | common/xapp058/micro.c:1424-1442 | Shifted without comparison; only XSDRE leaves Shift-DR |
| `Xsvf.Player.DoXsdrtdobce` | common/xapp058/micro.c:1455-1474 | Compared without the mask; only XSDRTDOE leaves Shift-DR |
| `Xsvf.Player.IncOne` | common/xapp058/micro.c:1387-1402 | One repetition: next data, masked increment, shift |
| `Xsvf.Player.IncMany` | common/xapp058/micro.c:1384-1403 | The repetitions, each from where the one before left off, up to the first error |
| `Xsvf.Player.DoXsdrinc` | common/xapp058/micro.c:1352-1410 | The first value is shifted; if it agrees, the announced number of increments follows |
| `Xsvf.Player.PlayOne` | common/xapp058/micro.c:296-328 | The dispatch over the command table does what the table says, on all that the commands work on |
| `Xsvf.Player.PlayNext` | common/xapp058/micro.c:1686-1706 | The next command byte is played |
| `Xsvf.Player.Run` | common/xapp058/micro.c:1683-1709 | One command is what the table says it is, and the shadow equals the TAP state; after an error or completion nothing happens |
| `Xsvf.Player.RunAll` | common/xapp058/micro.c:1738-1742 | The loop plays the commands of the stream one after the other up to completion or the first error |
| `Xsvf.Execute` | common/xapp058/micro.c:1734-1761 | From any TAP state, what there is at the end (position, settings, values, device, every pulse, error) is the stream played command by command from the initial settings; the error code is zero exactly for completion, and the shadow equals the TAP state |
| `Rffc5071.VcoInBand` | common/rffc5071.c:225-233 | With the divider chosen, the VCO is within 2.7 to 5.4 GHz if and only if the LO is within 84.375 MHz to 5.4 GHz |
| `Rffc5071.RoundedTwice` | common/rffc5071.c:248-254 | Truncating division followed by rounding at bit d is one rounding to the nearest 625 kHz, whatever the divider |
| `Rffc5071.RoundsToNearest` | common/rffc5071.c:248-254 | The rounded frequency is the only multiple of 625 kHz within 312.5 kHz, ties upwards |
| `Rffc5071.InRange` | common/rffc5071.c:233-254 | No 64-bit step overflows |
| `Rffc5071.WordInRange` | common/rffc5071.c:254-260 | The rounded word has a zero low byte and stands for exactly the rounded frequency |
| `Rffc5071.FieldsSynthesize` | common/rffc5071.c:256-266 | The N and NMSB fields alone carry the whole tuning word |
| `Rffc5071.Synthesizer.FindLoDivider` | common/rffc5071.c:225-231 | The loop finds the fewest halvings, at most five |
| `Rffc5071.Synthesizer.TuningWord` | common/rffc5071.c:248-260 | Word and returned frequency are the LO rounded to the nearest 625 kHz |
| `Rffc5071.Synthesizer.ConfigSynth` | common/rffc5071.c:216-275 | The chip synthesizes exactly the frequency returned: 625000 * floor((lo + 312500) / 625000); prescaler and charge pump are raised exactly above 3.2 GHz |
| `Rffc5071.Synthesizer.SetFrequency` | common/rffc5071.c:277-286 | The same with the chip enabled afterwards; the value returned is truncated to 32 bits |
| `Max283x.FractionBits` | common/max2837.c:233-242 | Twenty shift-and-subtract steps give the 20 fraction bits, without overflow |
| `Max283x.SplitDivision` | common/max2837.c:231-242 | Integer part and fraction bits together are one division |
| `Max283x.FrequencyError` | common/max2837.c:229-242 | The frequency set lies in (freq - 14.62, freq + 14] |
| `Max283x.BandHolds` | common/max2837.c:206-226 | The band is the one of 100 MHz from 2.3 GHz on that holds the frequency, the first and the last having no other end |
| `Max283x.Transceiver.SetFrequency` | common/max2837.c:204-258 | Exactly one auto-select happens, with the band and the complete new divider in the chip; the divider is floor((freq + 14) * 2^20 / 30000000) |
| `Tuning.LoInRange` | common/tuning.c:73-107 | Every request below 7251 MHz asks the mixer for an LO in its range and the transceiver for 2.17 to 2.74 GHz |
| `Tuning.TruncationIsHarmless` | common/tuning.c:83-110 | The IF is exact although the mixer's answer was truncated to 32 bits |
| `Tuning.HugeRequestPassesTheTest` | common/tuning.c:67-91 | A concrete request far beyond 7250 MHz passes the 32-bit test |
| `Tuning.SuperheterodyneError` | common/tuning.c:73-111 | Mixer rounding and IF rounding compose to less than 15 Hz |
| `Tuning.GraduationEnds` | common/tuning.c:73-103 | The IF announced runs from 2650 to 2340 MHz in the low-pass path and from 2170 to 2740, 2350 to 2650 and 2500 to 2739 MHz in the three high-pass ranges |
| `Tuning.Tuner.TuneLowPass` | common/tuning.c:73-85 | Below 2170 MHz: low-pass path, inverted spectrum, the IF announced, within 15 Hz |
| `Tuning.Tuner.TuneBypass` | common/tuning.c:86-90 | 2170 to 2740 MHz: direct, within 15 Hz |
| `Tuning.Tuner.ChooseIf` | common/tuning.c:92-104 | In 64-bit arithmetic the IF is graduated by 57/86, 1/5 and 1/9 over the three ranges from 2170, 2350 and 2500 MHz, to the Hz, and gives the wanted LO |
| `Tuning.Tuner.TuneHighPass` | common/tuning.c:91-111 | 2740 to 7250 MHz: high-pass path, the IF announced, within 15 Hz |
| `Tuning.Tuner.SetFreq` | common/tuning.c:61-125 | Every request below 7251 MHz is synthesized within 15 Hz, on the path and with the graduated IF announced; failure exactly when the truncated megahertz exceed 7250, and then nothing is changed |
| `BinaryGcd.GcdIsGcd` | common/hackrf_core.c:317-319 | The definition by subtraction is the greatest common divisor |
| `BinaryGcd.GcdUnique` | common/hackrf_core.c:317-319 | There is only one |
| `BinaryGcd.GcdHalve` | common/hackrf_core.c:332-339 | A factor two of one argument does not matter when the other is odd |
| `BinaryGcd.FinalShiftFits` | common/hackrf_core.c:351 | The final shift cannot overflow |
| `BinaryGcd.OddPhase` | common/hackrf_core.c:336-349 | The subtract-and-shift loop ends with the gcd |
| `BinaryGcd.BinGcd` | common/hackrf_core.c:319-352 | The greatest common divisor for all 32-bit inputs, the other argument when one is zero |
| `SampleRate.WrappedRemainder` | common/hackrf_core.c:364-366 | If the quotient fits 32 bits, the wrapped subtraction is the true remainder |
| `SampleRate.NoExactFraction` | common/hackrf_core.c:378-385 | A fraction whose reduced denominator is 2^20 or more equals none with a smaller denominator |
| `SampleRate.NearFraction` | common/hackrf_core.c:384-389 | The approximation is below by less than 1/(2^20 - 1) |
| `SampleRate.BestFraction` | common/hackrf_core.c:368-391 | b/c with b < c < 2^20: exact when the reduced denominator allows it, else just below |
| `SampleRate.DividerError` | common/hackrf_core.c:364-391 | a + b/c equals 800 MHz * denom/num if and only if the reduced denominator is below 2^20, and otherwise is below it by less than 1/(2^20 - 1) |
| `SampleRate.FindDivider` | common/hackrf_core.c:364-391 | The divider found has that error |
| `SampleRate.EncodingRoundTrip` | common/hackrf_core.c:407-409 | The encoded parameters are read back by the chip as a + b/c if and only if 4 <= a <= 2051 |
| `SampleRate.EvenDivider` | common/hackrf_core.c:397-409 | The divider that the chip reads back is an even integer exactly when a is even and b is zero, which is when integer mode is asked for |
| `SampleRate.ProgramMultisynths` | common/hackrf_core.c:411-430 | The multisynth that feeds the sample clocks receives the parameters and its R divider, the other two are cleared or, on r9, kept, and the clock control registers are kept |
| `SampleRate.FracSet` | common/hackrf_core.c:354-437 | The chip's registers divide by a + b/c exactly, in range, with the R divider of the board; the multisynth that feeds the clocks is in integer mode exactly for an even integer, unless on r9, where its mode is kept; the other multisynths are cleared or kept |
| `Si5351.UnpackPack` | common/si5351c.c:175-185 | Unpacking the eight bytes gives back each parameter up to its register width |
| `Si5351.ClockGenerator.ConfigureMultisynth` | common/si5351c.c:155-187 | The bytes of one multisynth are written; every other register is kept |
| `Si5351.ClockGenerator.SetIntMode` | common/si5351c.c:305-324 | One bit of one register changes, and only for a clock number below 8 |
| `Sctimer.PinsOfPort` | common/operacake_sctimer.c:117-125 | Which pins are high for a port: 11 and 13 for odd ports, 8 and 12 for the upper half of each four, 14 for the lower half of each eight |
| `Sctimer.PortPatternsDiffer` | common/operacake_sctimer.c:117-125 | Two ports have the same pin pattern if and only if their three low bits agree |
| `Sctimer.CompiledHasNoConflict` | common/operacake_sctimer.c:170-192 | No event both sets and clears a pin |
| `Sctimer.MasksCompile` | common/operacake_sctimer.c:170-199 | The six masks make every event select exactly the pin pattern of the next entry |
| `Sctimer.MaskHit` | common/operacake_sctimer.c:141-199 | Inside an entry only its own event happens, and only at its last tick; stale higher events are in no mask |
| `Sctimer.TickInEntry` | common/operacake_sctimer.c:134-202 | One tick holds the pattern or, at the last tick, moves to the next entry |
| `Sctimer.DwellSchedule` | common/operacake_sctimer.c:134-202 | The exact position of the timer after any number of ticks |
| `Sctimer.DwellGuarantee` | common/operacake_sctimer.c:216-227 | From reset, in every period, entry i's pattern is held for exactly dwell[i] counter ticks |
| `Sctimer.Timer.Enable` | common/operacake_sctimer.c:127-132 | State 1 or 0 is selected and the configuration kept; the prescaler is cleared |
| `Sctimer.Timer.MatchEvents` | common/operacake_sctimer.c:138-156 | Event i matches one tick before the end of entry i, also across 32-bit wrap-around |
| `Sctimer.Timer.PinEvents` | common/operacake_sctimer.c:158-180 | The set and clear masks collect the events by the next port's bits |
| `Sctimer.Timer.SetDwellTimes` | common/operacake_sctimer.c:134-202 | The configuration compiled is the schedule's; the first pattern is on the pins, higher events are left as they were |
| `Sctimer.Timer.ResetState` | common/operacake_sctimer.c:216-227 | Counter zero and first pattern, configuration kept |
| `Sctimer.AheadBy` | common/operacake_sctimer.c:134-202 | With a counter value x inside the period the first pattern stays until the end of the entry x lies in, and then the timer is x ticks ahead |
| `Sctimer.WrapsFirst` | common/operacake_sctimer.c:134-202 | With a counter value beyond the period nothing happens until the counter wraps at 2^32, and then it is as after a reset |
| `Sctimer.CounterMatters` | common/operacake_sctimer.c:134-202 | With the counter at x the pins are right at every tick if and only if the patterns repeat after x ticks, for x inside the period, or there is only one pattern, for x beyond it |
| `Sctimer.EdgesAreTicks` | common/operacake_sctimer.c:127-132 | With the prescaler cleared and state 1 selected every edge of the clock input is a tick |
| `Sctimer.Timer.StartSwitching` | common/operacake_sctimer.c:127-227 | Setting dwell times and enabling, in either order, and then resetting: in every period each entry is held for exactly its dwell, in edges of the clock input |
| `Sctimer.Timer.StartWithoutReset` | common/operacake_sctimer.c:127-202 | Without the reset the same holds if and only if the counter value that is left does no harm to the schedule |
| `Flash.ChipProgramInPage` | common/w25q80bv.c:141-169 | Inside one page the chip's wrapping page program is a flat write |
| `Flash.ProgrammedSplit` | common/w25q80bv.c:193-216 | Consecutive writes are one write |
| `Flash.NextPage` | common/w25q80bv.c:193-216 | Each block touches one page more |
| `Flash.Driver.PageProgram` | common/w25q80bv.c:142-170 | One page program, unless a guard drops the request silently |
| `Flash.Driver.ProgramBlock` | common/w25q80bv.c:198-216 | No block of the split trips a guard |
| `Flash.Driver.Program` | common/w25q80bv.c:173-217 | Any write in range makes the region old AND data in as many programs as pages are touched; any other changes nothing |
| `Flash.Driver.Read` | common/w25q80bv.c:220-244 | The contents in range; otherwise the buffer is left alone |
| `Flash.ErasedRoundTrip` | common/w25q80bv.c:173-244 | On an erased region a read returns the data written |

## Left out

Assumptions about devices:

- A prime is served while the endpoint is not ready, and a primed descriptor whose ACTIVE bit is clear is skipped along its link; without that a descriptor can be lost (`UsbAppend.LostWithoutSkip`). Descriptors of `UsbAppend` are not reused: this is exact for the transfers of a pool as long as none is allocated while a prime is pending that still leads to it (`UsbReuse.NoStaleNoRead`).
- Error statuses of USB descriptors (the firmware stops on them), and flushing from inside a callback.
- `UsbQueue.Queue.TransferComplete`: interrupts and the controller act between its steps as `progress` says and as `UsbPool` and `UsbAppend` prove; the three models are not joined into one state machine.
- `UsbPool.PoolConserved`: restricted to runs whose flushes have exclusive access or find at most one active transfer, because `UsbPool.FlushConserves` shows that it is false for the others.
- `UsbQueue.Queue.RunCallback`: a callback is the list of requests it schedules on its own queue; what else callbacks do is not modelled.
- Fairness: `usb_endpoint_schedule_wait`, `usb_transfer_schedule_block` and the flash busy loop are not shown to end when the device never answers. How often the tripwire loop and the exclusive stores of `UsbPool` are repeated is bounded by what disturbs them (`UsbAppend.HeldUp`, `UsbPool.ThreadReturns`); that a hazard ends, and that disturbances are finitely many, is assumed.
- Buffer pointer pages of descriptors, endpoint numbers and the table of queues.
- The XC2C64A is its 281-bit row register for reading and writing rows, the 7-bit latched row address and a one-bit register for every other instruction; row scans act only between ISC_ENABLE and ISC_DISABLE or reset, and nothing here programs the nonvolatile memory. Delays are pulses in the history and not required by the device.
- `CpldChecksum.Checksum`: begins after the identity and write protection checks and ends before the final done check; these are not part of this model.
- The TAP starts with a nonempty register selected, as every device has one.
- `Sctimer.Timer.StartWithoutReset`: no time passes between the calls; the counter value is the one at the last of them. The SCTimer's match reload registers and its unified 32-bit mode are taken as configured by the initialization.

Parts of the functions modelled:

- `set_freq_explicit`, the RAD1O and PRALINE branches, the RF path GPIOs, and the user interface calls of `set_freq` and `sample_rate_frac_set`.
- `Rffc5071.Synthesizer.ConfigSynth`: the rounding result is stated up to an LO of 80 GHz, fifteen times what the chip accepts; beyond it the register fields overflow.
- `Max283x.Transceiver.SetFrequency`: the two chips are one class with a flag; gain compensation and the other registers are not modelled. The divider is stated up to 2^32 - 15 Hz, where adding the rounding constant wraps.
- `Sctimer.Timer.SetDwellTimes`: the source's single loop is two methods, one for match events and one for pin masks. Pin routing and the initialization of the peripheral are not modelled.
- `SampleRate.FracSet`: pausing the sample stream around the change is not modelled; the divider is stated when its integer part fits 32 bits.
- `Cpld.SramLoad`: taking and releasing the JTAG pins around the two commands is not part of this model.
- `Flash.Driver.Program`: the device identification poll before a write is not modelled.
- `Xsvf.Execute`: the stream is well formed in the sense of `XsvfStream.WellFormed`: operands present, states at most 0x0F, a shift only with a length within the buffers, no length whose rounding overflows a long, a positive wait only in states that hold, data masks of at most 255 bytes, comments terminated. For other streams the source runs past its input or its buffers, overflows, does not end, or loses track of the TAP. Buffers start with zero length where the firmware's are uninitialized; what they hold is the `memory` returned.
- `XsvfLoads.CompareAndLoad`: from Run-Test/Idle and with as many bits as the register has; for XSDR the expected value is as long as the value. Where every other data shift ends and which errors it may report is in `XsvfMoves.EndDrObeyed` and `XsvfEffects.PlayHasOwnEffects`.
- `XsvfIncrement.IncrementsPlayed`: from Run-Test/Idle with ends in Run-Test/Idle, as many bits as the register has, masks as long as the value, and no retries, whose pulses are in `XsvfScan.RetriedDr`.
- `XsvfScan.Shift`: the growth of the wait time is wrapped at 32 bits where C leaves the overflow undefined; delays between pin changes are not modelled.
- `Lenval.AddVal`: the second addend is read over the length of the first.

Not modelled: USB requests and descriptors, `common/radio.c`, gain and filter
tables, display code, the M0 core, register access by SPI, I2C, SCU and GPIO.

# Verified models of PUAE's emulation cores

This project models the algorithmic cores of PUAE, an Amiga emulator, and proves that they do what they are for.  One
module models one core; `dafny verify dfyconfig.toml` checks everything.

- **CD-ROM Mode 1 sectors** (`GaloisField`, `Codeword`, `SectorParity`, `Edc`): the table-driven error detection code
  and the product code over GF(2^8) of ECMA-130, sections 14.3, 14.5 and 14.6 and Annex A.
- **The JIT's low-level scheduler** (`LowOptimizer`): buffered ops and the peephole that hoists memory ops.
- **CIA timers and interrupts** (`CiaTimers`, `CiaMeaning`, `CiaInterrupts`): lazy timers driven by a computed event
  against a machine stepped once per E-clock; when programmed timers raise their flags; the hand-off of the flags.
- **Akiko** (`Eeprom`, `ChunkyPlanar`, `SubcodeRing`): the I2C EEPROM, the chunky-to-planar converter, and the subcode
  ring, which the CDTV shares.
- **The blitter** (`BlitterWords`, `BlitterBits`, `BlitterFill`, `Blit`, `BlitMeaning`, `FastBlit`, `FastBlitter`,
  `BlitterDiagrams`, `CycleBlitter`, `RegisterBlits`, `PlainCopies`, `BlitterAgreement`, `BlitterLine`, `LineMeaning`):
  two engines for one blit, the area fill table, the two line engines, and what blits and lines do to every bit.
- **Smaller cores** (`BlepQueue`, `ReceiveRing`, `HostView`, `Subchannel`): the audio step queue, the LANCE receive ring
  and what the host finds in it, and the subchannel interleaving.

`Register` and `Bits` hold the register and bit-sequence types.  Code that updates state in place is a class or an
array algorithm whose methods are proved against a specification; the laws are lemmas about that specification.  Where
method and specification share a function, its meaning is a law of its own: bit by bit in `BlitterBits`, `BlitMeaning`
and `LineMeaning`, in numbers of clocks in `CiaMeaning`, and in the host's terms in `HostView`.

## Assumptions

- Blitter: registers do not change during a blit; the count of source reads since the last combination
  (`blitter_cyclecounter`) is 0 at the start, which every finished blit leaves it at.  Sizes are as
  `src/custom.c:3945-4005` writes them.  Chip memory is a power of two in size and repeats over the address space.
- Line: channel A enabled and the usual set-up (accumulator 4dy - 2dx with its sign, modulos 4(dy - dx) and 4dy, dx from
  1 to 8191).  Blitter DMA stays on while the immediate loop draws.
- Scheduler: an op changes only what it declares to write, and what it leaves there depends only on what it declares to
  touch; ops with a floating point argument and `raw_fflags_save` may do anything and are never reordered.
- CIA timers: the CIA event is the first of the event table (`src/include/events.h:70`), so its handler runs before
  another handler of the same cycle, and the registers are read only by the CPU between events (`src/cia.c:764`,
  `src/cia.c:903`) or right after an update (`src/cia.c:1836`, `src/cia.c:1844`).  A read in the very cycle of the event
  but before its handler would not always agree; `CiaTimers.ReadAgreesIff` says exactly when, for every register.
- CIA interrupts: the properties hold between resets, because `CIA_reset` (`src/cia.c:1349`) clears `ciaaicr` but not
  `ciaaicr_reg`.  A full event table drops the event (`src/include/events.h:118-121`); that is the way `Dropped`, and
  `OnItsWay` assumes that it does not happen.  When an event for the same moment is under way its handler runs at once
  and stays scheduled (`src/include/events.h:114-117`); that is the way `Scheduled` followed by `Deliver`.
- Audio: the handlers run at least once a raster line (`src/custom.c:5588`, `src/include/custom.h:90-100`), so a step
  is far shorter than the 2048 entries of the mixing table.  `BlepQueue.Channel.Play` assumes steps below 2048;
  `BlepQueue.AgesBoundedIff` and `BlepQueue.LongStep` show that the bound is exact.
- LANCE: the buffers that the host has handed over do not overlap each other or the ring, and none is larger than the
  board's memory.

## Findings

- A reset does not clear `sda_dir_nvram` (`src/akiko.c:1628-1634`); only the eighth sent bit does.  A reset between the
  device byte of a read and its eighth bit therefore leaves the EEPROM deaf for ever: it hears no START or STOP, every
  read returns 255 and every write is lost (`Eeprom.ResetInsideRead`, `Eeprom.DeafForEver`; reached from power on in
  `Eeprom.DeafReached`).  From a reset state all writes work if and only if the flag is clear (`Eeprom.ResetWritesIff`).
- The EEPROM misses the STOP after a read when the master drives SDA low for it: the interface takes that for an
  acknowledge and sends on (`Eeprom.ReadEndsIff`, for any waveform between the eighth bit and the STOP).
- The consumer of the subcode ring sees nothing when exactly 36 packets wait, although all can be taken
  (`SubcodeRing.Ring.LooksNonempty`, reached in `SubcodeRing.FillAndLook`); the next packet then empties the ring
  (`SubcodeRing.FullRingLosesAll`).
- The two blitter engines do not always agree.  As long as no enabled pointer is 0 where the fast one looks
  (`FastBlit.Live`), they do if and only if `BlitterAgreement.Alike` holds (`BlitterAgreement.AlikeIff`): always with a
  source channel, and without one under a condition on the registers.
  - The fast one takes an enabled channel whose pointer is or becomes 0 for a disabled one (`src/blitter.c:416`).  A
    plain copy then agrees if and only if every word from the first unserved one on equals what the A register holds
    (`PlainCopies.CopyIff`, and `PlainCopies.CopyFromZeroIff` for copies from address 0).
  - The cycle exact one does not preset the fill carry for each row of a blit without a source
    (`src/blitter.c:834-905`).  Memory agrees if and only if every word that is not overwritten has an even number of
    bits set in the rows before its own, or is filled inclusively and all ones (`RegisterBlits.MemoryIff`).  When the
    words go to different places, this is for an exclusive fill that every row is entered with an even number of bits
    set before it (`RegisterBlits.ExclusiveFillIff`), which two rows tell (`RegisterBlits.RowsCloseEarly`), and for an
    inclusive one that the other rows are all ones (`RegisterBlits.InclusiveFillIff`).  It fails in
    `BlitterAgreement.OneBitRunsOn`.
  - Without any channel the cycle exact one leaves the zero flag set.  The flags agree if and only if the registers
    leave nothing in any word (`RegisterBlits.NoChannelIff`): no bit set, or, for an exclusive fill with a preset carry,
    the first bit of each row alone.  It fails in `BlitterAgreement.AllMinterms`.
- Byte 11 of a sector's sync field is written as 0xFF (`src/cdrom.c:221`), where ECMA-130 has 0x00; the model writes
  what the code writes and claims nothing about the field.

## Model

| member | source | states |
|---|---|---|
| `GaloisField.AlogIsPower` | src/cdrom.c:98-99 | every antilog table entry is that power of alpha, computed by repeated doubling in GF(2^8) with 0x11D |
| `GaloisField.AlogOfLog` | src/cdrom.c:98-101 | the log table inverts the antilog table on every non-zero byte |
| `GaloisField.AlphaOrder` | src/cdrom.c:98-99 | alpha has order 255: multiplying by its 255th power changes nothing |
| `GaloisField.TableProductIsProduct` | src/cdrom.c:140-145 | log lookup, add, one conditional subtraction of 255, antilog, with the zero-byte skip, is the field product for every byte and every coefficient below 255 |
| `GaloisField.TimesAlphaInjective` | src/cdrom.c:98-101 | different exponents below 255 scale a non-zero byte to different bytes |
| `GaloisField.PowerIdentityScales` | src/cdrom.c:98-101 | an identity between powers of alpha still holds after multiplying by any byte |
| `Codeword.ParityCompletes` | src/cdrom.c:135-166 | two parity symbols accumulated with coefficient rows that satisfy the column identity make any data a codeword: both syndromes are zero |
| `Codeword.SyndromesLinear` | src/cdrom.c:135-166 | the syndromes of the difference of two words are the differences of their syndromes |
| `Codeword.NoCloseCodewords` | src/cdrom.c:169-209 | two codewords that agree outside two positions are equal |
| `Codeword.MinimumDistance` | src/cdrom.c:169-209 | two different codewords of equal length (up to 255 symbols) differ in at least three symbols |
| `SectorParity.TablesOk` | src/cdrom.c:102-109 | both coefficient tables satisfy the column identity: in every column the powers of alpha sum to one, and alpha times row 0 plus row 1 is the weight of that data symbol |
| `SectorParity.IndexOfWord` | src/cdrom.c:139 | the byte offset the encoder reads is that of word (43j + 44i) mod 1118 of the plane, for both planes |
| `SectorParity.DiagonalsPartition` | src/cdrom.c:128-150 | every byte offset before the Q field, in header, data and P parity, is the offset the encoder reads (`DiagonalIndex`) for exactly one diagonal below 52 and place below 43 |
| `SectorParity.AccumulateParity` | src/cdrom.c:139-150 | one written-out block adds exactly the two table products of one data byte to two parity bytes |
| `SectorParity.EncodeL2P` | src/cdrom.c:169-209 | for every input, each of the 86 byte columns is a 26-symbol codeword afterwards, and nothing but the P bytes has changed |
| `SectorParity.EncodeL2Q` | src/cdrom.c:128-167 | for every input, each of the 52 byte diagonals is a 45-symbol codeword afterwards, and nothing but the Q bytes has changed |
| `SectorParity.ColumnsFarApart` | src/cdrom.c:169-209 | two encoded sectors that differ in a header or data byte of a column differ in at least three symbols of that P column |
| `SectorParity.DiagonalsFarApart` | src/cdrom.c:128-167 | two encoded sectors that differ in a byte that a diagonal covers differ in at least three symbols of that Q diagonal |
| `SectorParity.EncodeTwoP` | src/cdrom.c:169-209 | for any two sectors the encoder is run on, columns with different data are at least three symbols apart afterwards |
| `SectorParity.EncodeTwoQ` | src/cdrom.c:128-167 | the same for the diagonals |
| `Edc.TableStepIsFeedByte` | src/cdrom.c:124 | one table step is eight bit-serial steps of the reflected register for 0x8001801B |
| `Edc.SerialLinear` | src/cdrom.c:119-126 | the code of the XOR of two messages of equal length is the XOR of their codes |
| `Edc.ResidualZeroIff` | src/cdrom.c:226-230 | a message followed by four stored bytes has residual zero if and only if they are its code, low byte first |
| `Edc.BuildEdc` | src/cdrom.c:119-126 | the table-driven code equals the bit-serial one for every byte range, the empty one included |
| `Edc.HeaderDecodes` | src/cdrom.c:222-225 | the BCD header of every sector below 100 minutes decodes to its address |
| `Edc.BcdDigits` | src/cdrom.c:211-214 | every byte has its units in the low half of its BCD form, and of its tens what fits in the high half |
| `Edc.Truncates` | src/cdrom.c:222-224 | the header's divisions are those of C, for negative addresses too: the remainder is smaller than the divisor and has the sign of the dividend |
| `Edc.StoreEdc` | src/cdrom.c:227-230 | the four code bytes go after the data, low byte first, and nothing else changes |
| `Edc.EncodeL2` | src/cdrom.c:216-234 | in a finished sector the user data is unchanged, the header is the address, the covered bytes with their stored code have residual zero, and all P columns and Q diagonals are codewords at once |
| `LowOptimizer.IndependentFootprints` | src/compemu_optimizer_x86.c:183-232 | when depends_on says no, the declared footprints of the two ops do not conflict on any register, on memory or on the flags |
| `LowOptimizer.DependsOnIff` | src/compemu_optimizer_x86.c:183-232 | depends_on says yes exactly for ops with conflicting footprints, for ops that may do anything, and for two users of the flags |
| `LowOptimizer.IndependentCommute` | src/compemu_optimizer_x86.c:183-232 | two ops that depends_on calls independent give the same state in either order, from every state, under every meaning that respects the declared footprints |
| `LowOptimizer.ReorderingPreservesMeaning` | src/compemu_optimizer_x86.c:236-260 | any permutation in which an op overtakes another only when independent of it has the same meaning from every state |
| `LowOptimizer.HoistKeepsSchedule` | src/compemu_optimizer_x86.c:248-256 | moving one memory op down over up to four independent predecessors keeps the list a permitted reordering of the original |
| `LowOptimizer.HoistedOnly` | src/compemu_optimizer_x86.c:236-260 | the places the ops go to determine the reordered buffer |
| `LowOptimizer.FourPlaces` | src/compemu_optimizer_x86.c:240-247 | a memory op with four independent ops before it moves exactly four places |
| `LowOptimizer.BehindDependence` | src/compemu_optimizer_x86.c:240-247 | a memory op within four places of one it depends on goes right behind the nearest such op |
| `LowOptimizer.LoadFirst` | src/compemu_optimizer_x86.c:236-260 | a load stored behind two ops that it does not depend on is generated first |
| `LowOptimizer.Optimizer.LowPeephole` | src/compemu_optimizer_x86.c:236-260 | every memory op is moved down as far as the source lets it: to four places before its own, to the front, or right behind the nearest op it depends on; all other ops stay (`Hoisted`, which leaves one result only); the new buffer is a permutation of the stored one in which nothing overtakes an op it depends on |
| `LowOptimizer.Optimizer.ShiftDown` | src/compemu_optimizer_x86.c:251-256 | the shifting loop moves exactly one op and slides those in between up by one |
| `LowOptimizer.Optimizer.EmitAll` | src/compemu_optimizer_x86.c:270-299 | what is generated is the hoisted buffer, it means what has been stored so far, and the buffer is empty |
| `LowOptimizer.Optimizer.StoreOp` | src/compemu_optimizer_x86.c:301-316 | an op goes to the end of the buffer; the hundredth one flushes it, and what is generated then is the hoisted buffer; the generated stream plus the buffer stay equivalent to all ops stored, over any number of flushes |
| `LowOptimizer.Optimizer.EmptyLowOptimizer` | src/compemu_optimizer_x86.c:270-299 | a final flush generates the hoisted buffer, and the generated code means what the stored program means |
| `CiaTimers.QuietTicks` | src/cia.c:155-201 | as long as nothing underflows, stepping clock by clock is running the start delay down first and then the counter |
| `CiaTimers.TicksInClosedForm` | src/cia.c:207-342 | up to and including the first underflow, the closed form of the lazy update equals the machine stepped once per E-clock, with cascade, one-shot stop, serial counter and flags |
| `CiaTimers.AdvanceAdd` | src/cia.c:207-342 | advancing the stepped machines by two stretches of cycles is advancing them by their sum: nothing is lost at the div10 remainder |
| `CiaTimers.RunDown` | src/cia.c:219-229 | the start-delay block hands exactly the clocks beyond the delay to the counter |
| `CiaTimers.Chip.CountTimerA` | src/cia.c:218-243 | the timer A block, with its assertion, computes the closed form for timer A and reports its underflow |
| `CiaTimers.Chip.CountTimerB` | src/cia.c:244-262 | the timer B block, E-clocked or counting timer A underflows, computes the closed form for timer B |
| `CiaTimers.Chip.UpdateCheck` | src/cia.c:207-342 | one lazy update by n clocks leaves exactly the state of n single steps, for every n up to the first underflow |
| `CiaTimers.Chip.ComputePassedTime` | src/cia.c:155-201 | the assertions (timer + 1) >= elapsed hold, and the passed counts are those of the stepped machine |
| `CiaTimers.Chip.SetRegister` | src/cia.c:1071-1168 | a register write changes latches, counters, control bits and start delays as the stepped machine's write does; what that means is said by `CiaMeaning.LatchLowHigh` to `CiaMeaning.OtherRegisters` |
| `CiaTimers.EarliestIsNotLate` | src/cia.c:355-419 | the computed event never comes later than the first underflow of any E-clock timer |
| `CiaTimers.ClocksBeforeEvent` | src/cia.c:155-201 | up to the event every timer stays within its first underflow, and strictly before it nothing underflows |
| `CiaTimers.Cias.CalcTimers` | src/cia.c:355-419 | the scheduled event is the earliest underflow of the four E-clock timers (`CiaMeaning.EventIsDue`) |
| `CiaTimers.Cias.UpdateCheck` | src/cia.c:207-342 | updating both chips leaves the stepped machines they stand for unchanged |
| `CiaTimers.Cias.Handler` | src/cia.c:421-425 | the handler keeps the stepped machines and puts the next event into the future |
| `CiaTimers.Cias.DoCycles` | src/include/events_jit.h:61-96 | cycles are counted down first, and when the countdown is used up the rest passes on the stepped machines, or the last line of a frame holds it back and the countdown starts again |
| `CiaTimers.Cias.PassTime` | src/include/events_jit.h:79-91 | letting any number of cycles pass, whatever other events of the table lie in between, is stepping the machines by that many cycles |
| `CiaTimers.Cias.DoSpecial` | src/include/events_jit.h:28-39 | ends the countdown, with or without translated code |
| `CiaTimers.Cias.WriteRegister` | src/cia.c:1071-1168 | a write at any time acts on the stepped machine of the CIA it is for, and on that alone (`CiaMeaning.LatchLowHigh` to `CiaMeaning.OtherRegisters` say how) |
| `CiaTimers.Cias.ComputePassedTime` | src/cia.c:155-201 | the counters less the passed counts are those of the aged timers, and before the event those of the stepped machines, for both chips |
| `CiaTimers.Cias.ReadRegister` | src/cia.c:848-888 | up to the event a read returns what the aged timers show, and before the event that is what the stepped machine shows, for every timer and control register |
| `CiaTimers.Cias.ClearFlags` | src/cia.c:879-884 | clearing interrupt flags without updating first still agrees with the stepped machines |
| `CiaTimers.Cias.Run` | src/cia.c:155-425 | over every history of passing, counted-down and postponed time, blanks, writes, reads and acknowledgements the lazy CIAs are in the state of the stepped ones and every read returned the stepped value; `CiaMeaning` says what that state is for programmed timers |
| `CiaTimers.ReadAgreesIff` | src/cia.c:155-201 | in the cycle of the event and before its handler, each register of each kind of timer (clocked, cascaded, one-shot) shows the stepped value if and only if a condition on latch, counter and mode bits holds |
| `CiaMeaning.Modes` | src/cia.c:218-262 | which bits of the control registers make a timer count E-clocks, timer B count timer A, and the serial port an output |
| `CiaMeaning.TickFields` | src/cia.c:207-342 | one E-clock field by field: what a delay, a count, an end, a cascade and a serial clock change, and which flag bits they set |
| `CiaMeaning.FlagIff` | src/cia.c:312-342 | a flag is set after n clocks if and only if it was set before or one of them has raised it |
| `CiaMeaning.FreeRunningA` | src/cia.c:218-243 | a continuous timer A counts down, reloads from its latch, and raises flag 1 after delay + counter + 1 clocks and then every latch + 1 clocks, at no other clock |
| `CiaMeaning.OneShotA` | src/cia.c:218-243 | a one-shot timer A raises flag 1 once, stops, and keeps its latch in the counter |
| `CiaMeaning.FreeRunningB` | src/cia.c:244-262 | the same for a timer B that counts E-clocks, with flag 2 |
| `CiaMeaning.OneShotB` | src/cia.c:244-262 | and for a one-shot one |
| `CiaMeaning.CascadeIff` | src/cia.c:235-239 | timer B counting timer A is one long counter: flag 2 comes with the end number tb + 1 of timer A and then with every (lb + 1)-th one, and never otherwise |
| `CiaMeaning.OneShotCascade` | src/cia.c:235-239 | a one-shot timer B counting timer A ends once, with the end number tb + 1 |
| `CiaMeaning.SerialIff` | src/cia.c:233-234 | the serial counter runs down by one at every end of timer A, and flag 8 comes with its last count alone |
| `CiaMeaning.LatchLowHigh` | src/cia.c:1071-1104 | low byte, then high byte: the latch is lo + 256 * hi; without one-shot mode only a stopped counter is loaded with it; the other timer and everything else stay, for both timers |
| `CiaMeaning.LatchHighLow` | src/cia.c:1071-1104 | the other order gives the same latch, but a stopped counter is loaded with the old low byte |
| `CiaMeaning.ReadBack` | src/cia.c:848-872 | a stopped timer shows both bytes written to it for as long as it stays stopped |
| `CiaMeaning.ControlA` | src/cia.c:1144-1157 | a control write of timer A keeps bits 0 to 6 but the load bit, loads timer A's counter from its own latch if asked, and sets a delay of 2 if it starts a stopped timer; nothing else changes |
| `CiaMeaning.ControlB` | src/cia.c:1158-1168 | the same for timer B, with bit 7 kept |
| `CiaMeaning.StartedByA` | src/cia.c:1144-1157 | set going by its control register, with or without loading, timer A first raises its flag after exactly counter + 2 + 1 clocks (with the delay that was left if it was running), and then every latch + 1 or, one-shot, never again |
| `CiaMeaning.StartedByB` | src/cia.c:1158-1168 | the same for timer B |
| `CiaMeaning.StoppedByA` | src/cia.c:1144-1157 | a stopped timer A keeps what it has counted, or its latch if that is loaded, and raises nothing |
| `CiaMeaning.StoppedByB` | src/cia.c:1158-1168 | and a stopped timer B |
| `CiaMeaning.ShotA` | src/cia.c:1076-1087 | the high byte starts a one-shot timer A with the full latch: its flag comes after exactly latch + 3 + 1 clocks, once |
| `CiaMeaning.ShotB` | src/cia.c:1093-1104 | and a one-shot timer B |
| `CiaMeaning.SerialWrite` | src/cia.c:1129-1140 | a byte written to the serial port starts sixteen half bits if timer A is going, the port is an output and nothing is on its way; what is on its way goes on, and an input port counts nothing |
| `CiaMeaning.SerialDue` | src/cia.c:1129-1140 | after such a write flag 8 comes with the sixteenth end of timer A, delay + counter + 15 * (latch + 1) + 1 clocks later, and with nothing else |
| `CiaMeaning.IntervalPasses` | src/cia.c:1071-1168 | through the registers: a stopped timer A given lo and hi and started has its flag set as soon as lo + 256 * hi + 3 E-clocks have passed, wherever in the E-clock the writes were, and the other CIA has only aged |
| `CiaMeaning.Acknowledges` | src/cia.c:879-884 | acknowledged flags of one CIA are cleared and nothing else changes in either |
| `CiaMeaning.EventIsDue` | src/cia.c:355-419 | the computed event is neither late nor early: in its cycle an E-clock ends that raises a timer flag, and no clock before it raises one; without an event none ever does |
| `CiaMeaning.AllCyclesPass` | src/include/events_jit.h:61-96 | over any history of passing and owed cycles none is lost or counted twice: the stepped machines have aged by all cycles beyond the countdown |
| `CiaMeaning.HeldBack` | src/include/events_jit.h:66-77 | at the last line of a frame nothing passes and the countdown starts at 25000 cycles |
| `CiaMeaning.SkipEnds` | src/include/events_jit.h:28-39 | once the countdown has been ended early every cycle passes at once, with translated code one more |
| `CiaInterrupts.AtOnceIsDelivered` | src/cia.c:126-134 | a hand-over outside cycle-exact mode is the scheduled one followed by its event, for raises and for reads |
| `CiaInterrupts.TraceOk` | src/cia.c:109-134 | over any interleaving of raises, events, reads and mask writes after a reset, in both modes, the snapshot is part of the pending flags, and a flag that cannot be read yet has an event under way unless a full event table dropped one |
| `CiaInterrupts.OnItsWay` | src/cia.c:126-134 | as long as the event table has room, a flag that cannot be read yet has an event under way |
| `CiaInterrupts.ReadableAtOnce` | src/cia.c:126-134 | outside cycle-exact mode every pending flag can be read at every moment |
| `CiaInterrupts.FlagFollowsLife` | src/cia.c:109-134 | in both modes every flag follows a three-state life of its own: raising never disturbs another flag, a read ends exactly the flags it returns |
| `CiaInterrupts.NeverLost` | src/cia.c:879-884 | in every history, in both modes and even with dropped events, a raised flag is pending at the end unless a later read has reported it |
| `CiaInterrupts.NeverTwice` | src/cia.c:879-884 | in every history, in both modes, a flag has been raised again between two reads that report it |
| `CiaInterrupts.OnlyRaised` | src/cia.c:109-134 | in every history, in both modes, a flag is reported only after it was raised |
| `CiaInterrupts.MaskBit` | src/cia.c:100-107 | a mask write with bit 7 enables the sources it names, one without disables them, and the others stay |
| `CiaInterrupts.SummaryFollows` | src/cia.c:109-116 | every hand-over, whatever way it comes, makes the summary bit readable and asks for an interrupt if and only if an enabled source is pending; nothing else does |
| `CiaInterrupts.SummaryIff` | src/cia.c:109-134 | in every history an interrupt is requested exactly by the hand-overs that find an enabled source pending, and the summary bit can be read if and only if there has been one since the last read |
| `CiaInterrupts.AskedAtOnce` | src/cia.c:126-134 | outside cycle-exact mode raising an enabled source asks for an interrupt there and then |
| `CiaInterrupts.Interrupts.Icra` | src/cia.c:109-116 | the event hands the pending flags to the snapshot; if any of them is enabled, with the summary bit and an interrupt request |
| `CiaInterrupts.Interrupts.Rethink` | src/cia.c:126-134 | pending flags are handed over at once, or in cycle-exact mode an event is scheduled, or dropped when the event table is full |
| `CiaInterrupts.Interrupts.RaiseFlags` | src/cia.c:126-134 | raising flags is one step of the modelled machine in either mode |
| `CiaInterrupts.Interrupts.ReadIcr` | src/cia.c:879-884 | the read returns the snapshot and clears exactly what it returns |
| `CiaInterrupts.Interrupts.WriteMask` | src/cia.c:100-107 | a mask write sets or clears the bits it names (`CiaInterrupts.MaskBit`) and touches no flag |
| `CiaInterrupts.Interrupts.Run` | src/cia.c:100-134 | over every history in either mode the registers and the values read are those the laws are about |
| `Eeprom.I2cDoneKeeps` | src/akiko.c:109-234 | one step of the state machine keeps its invariant, and changes the array only at a STOP that ends a write transaction |
| `Eeprom.WroteKeeps` | src/akiko.c:236-260 | one pin write keeps the invariant and changes the array only when it commits, and then exactly by the bytes accepted since the word address, inside one page |
| `Eeprom.WaveStores` | src/akiko.c:109-260 | over any pin waveform the array holds what the committed transactions stored, and nothing else |
| `Eeprom.PageWriteFrame` | src/akiko.c:124-144 | a page write changes nothing outside its 16-byte page |
| `Eeprom.PageWriteAt` | src/akiko.c:155-158 | byte i sent from address a is found at (a & ~15) + ((a + i) & 15) unless a later byte went to the same place |
| `Eeprom.ResetResets` | src/akiko.c:1628-1634 | a reset keeps the array and the invariant, and leaves the interface able to hear a START if and only if `sda_dir_nvram` was clear |
| `Eeprom.DeafForEver` | src/akiko.c:185 | at rest with `sda_dir_nvram` set the interface stays so and never changes the array again, whatever the waveform |
| `Eeprom.WriteTransaction` | src/akiko.c:109-260 | from any state at rest, reset ones included, START, device byte, word address, k data bytes and STOP store the bytes in the page of the address, wrapping round inside it, later bytes winning; nothing is stored if the EEPROM still drives SDA |
| `Eeprom.RandomRead` | src/akiko.c:169-190 | from any state at rest a random read by a master that releases SDA returns the byte at the address and leaves the array alone; it returns 255 if the EEPROM still drives SDA |
| `Eeprom.SequentialRead` | src/akiko.c:169-190 | from any state at rest a read of n bytes, all but the last acknowledged, returns the bytes at (a + i) mod 1024 in order and leaves the array alone; nothing but 255 if the EEPROM still drives SDA |
| `Eeprom.ReadsOn` | src/akiko.c:183-184 | after the STOP a read without a word address goes on with the byte after the last one, at (a + n) mod 1024, whatever high address bits its device byte has |
| `Eeprom.EveryByteAcked` | src/akiko.c:150-161 | every byte sent to the EEPROM, the device byte of another device included, is acknowledged: the Amiga sees SDA low while the ninth clock is high |
| `Eeprom.AnswersIff` | src/akiko.c:195-213 | after a START the interface goes back to rest exactly when the device byte is not one of its own |
| `Eeprom.WriteThenRead` | src/akiko.c:109-260 | what a page write stored is what a later random read returns, unless the EEPROM still drives SDA |
| `Eeprom.ResetWritesIff` | src/akiko.c:1628-1634 | from a reset state every write transaction stores its bytes if and only if `sda_dir_nvram` is clear |
| `Eeprom.ResetInsideRead` | src/akiko.c:1628-1634 | a reset after the device byte of a read and before its eighth bit leaves the interface deaf to every waveform |
| `Eeprom.DeafReached` | src/akiko.c:1628-1634 | that state is reached from power on, and a write of any byte but 0 is lost there |
| `Eeprom.BitsCountRises` | src/akiko.c:169-190 | the bits of the byte being sent are the clock rises since the last acknowledge, at most eight |
| `Eeprom.ReadEndsIff` | src/akiko.c:109-260 | for any waveform between the eighth bit of a read and the STOP that has no START or STOP between bytes, the STOP is recognised if and only if no write left SCL and SDA low with SDA an output, fewer than eight clocks before it |
| `Eeprom.UsualEndIff` | src/akiko.c:188-189 | the usual end, a clock with SDA high and then a STOP, is recognised if and only if the master has left SDA an input; it leaves array and address as they were |
| `Eeprom.Nvram.I2cDo` | src/akiko.c:109-234 | the method does what the state function says, branch by branch; what that means for whole transactions is said by `Eeprom.WriteTransaction`, `Eeprom.SequentialRead`, `Eeprom.ReadsOn`, `Eeprom.EveryByteAcked` and `Eeprom.AnswersIff` |
| `Eeprom.Nvram.ResetInterface` | src/akiko.c:1628-1634 | the three assignments of a reset |
| `Eeprom.Nvram.WritePort` | src/akiko.c:236-260 | a port write is one step of the modelled interface, about whose waveforms the laws above are |
| `Eeprom.Nvram.ReadPort` | src/akiko.c:262-283 | the level port shows the driven or the sensed line, by direction |
| `BlitterWords.MintermSelects` | src/blitter.c:438 | wherever A, B and C are uniform, the result is the minterm bit 4a + 2b + c |
| `BlitterBits.RightBit` | src/blitter.c:422 | bit i of a long shifted right by n is bit i + n of it |
| `BlitterBits.HeldBit` | src/blitter.c:416-435 | the barrel shifter: ascending, bit i is bit i + shift of the current word, or bit i + shift - 16 of the previous one; descending, bit i - shift of the current word, or bit 16 - shift + i of the previous one |
| `BlitterBits.MintermBit` | src/blitter.c:438 | every result bit is the bit 4a + 2b + c of the minterm byte for the bits a, b and c in its place |
| `BlitterWords.BlitFuncLow` | src/blitter.c:851 | the low half of a result depends on the low half of B only, so 32-bit and 16-bit copies of the shifted B agree |
| `BlitterFill.FillEntry` | src/blitter.c:237-249 | one table entry is the bit loop over the byte |
| `BlitterFill.BuildBlitFillTable` | src/blitter.c:227-253 | all 1024 table entries are the filled byte and the carry that leaves it |
| `BlitterFill.FillByTable` | src/blitter.c:439-446 | two table lookups, low byte then high byte with the carry, fill a word |
| `BlitterFill.FirstBitsFilled` | src/blitter.c:242-247 | after n turns of the bit loop the first n bits are filled, the others untouched, and the carry is right |
| `BlitterFill.FillWordBits` | src/blitter.c:439-446 | a word filled through the table is its sixteen bits filled serially, and the carry is the serial one |
| `BlitterFill.TableFillIsSerial` | src/blitter.c:439-446 | filling a row of any number of words through the table is bit-serial filling of the whole row |
| `BlitterFill.ExclusiveRow` | src/blitter.c:242-247 | in exclusive mode bit k of a filled row is the initial carry flipped by every set input bit up to k |
| `Blit.PtrStep` | src/blitter.c:953-962 | a pointer stepped by words and modulos, in 32-bit arithmetic, stays on its closed form |
| `Blit.PtrEnd` | src/blitter.c:383-398 | the stepped pointers end at (h * 2 + mod) * v from their start |
| `Blit.NextWord` | src/blitter.c:953-962 | counting words: the column wraps into the next row |
| `Blit.LastWord` | src/blitter.c:1101-1106 | the row counter reaches the height exactly when all words are counted |
| `BlitMeaning.SpotIs` | src/blitter.c:383-398 | the stepped pointer of word i of row j lies j * (2h + mod) + 2i from its start, backwards in a descending blit, in 32 bits |
| `BlitMeaning.StoredWordBit` | src/blitter.c:834-866 | every bit of every result is that of the reference: the minterm of the masked and shifted bits of A, the shifted bits of B and the bits of C, filled serially along its row |
| `BlitMeaning.BlitMeans` | src/blitter.c:374-571 | for every blit that reads nothing it has stored before, each bit of each word that is not overwritten is that of the reference in terms of the memory and registers before the blit, for all channels, shifts, masks, minterms, directions and fill modes |
| `BlitMeaning.BlitKeeps` | src/blitter.c:374-571 | and no other word of memory changes |
| `BlitMeaning.ZeroMeans` | src/blitter.c:862-863 | the zero flag stays set if and only if no bit of any result is set |
| `BlitMeaning.ShiftedCopy` | src/blitter.c:422 | a plain copy with any shift moves the masked source bits by it, across word and row boundaries, in both directions |
| `FastBlit.AliveIff` | src/blitter.c:414-468 | an enabled channel is served at every word if and only if its pointer is 0 nowhere where the loops look |
| `FastBlit.CursorStep` | src/blitter.c:414-456 | the local pointer is the word address as long as the channel is served and 0 from then on |
| `FastBlit.OffForGood` | src/blitter.c:416 | a channel whose pointer has been 0 once is never served again |
| `FastBlit.LiveIsWhole` | src/blitter.c:374-474 | with no pointer that is 0 where they look the loops perform the whole blit |
| `FastBlit.UnreadA` | src/blitter.c:416-420 | from the word at which A is found off its register keeps its value |
| `FastBlit.StuckTarget` | src/blitter.c:451-455 | from the word at which D is found off every result goes to the place of the last one before it |
| `FastBlitter.MaskedByEntry` | src/blitter.c:380-381 | the mask table masks the first and last word of a row like the two registers, a one-word row with both |
| `FastBlitter.RowStartsFresh` | src/blitter.c:412 | at the start of every row the fill carry is the preset one |
| `FastBlitter.Blitter.ReadSources` | src/blitter.c:416-435 | the first half of the loop body reads and shifts the enabled sources of word k; what the shift does to every bit is `BlitterBits.HeldBit` |
| `FastBlitter.Blitter.Produce` | src/blitter.c:436-448 | the second half stores the previous result, combines, fills and updates the zero flag |
| `FastBlitter.Blitter.DoFast` | src/blitter.c:374-571 | in both directions and for all pointers, the loops leave memory, data registers and zero flag of the blit in which a channel takes part exactly until its pointer is 0 where they look, and the pointer registers at their final places; bit by bit that blit is `BlitterAgreement.BothMean` |
| `BlitterDiagrams.StateAt` | src/blitter.c:288-311 | cycle k * length + p shows entry p of the first row for the first word and of the main row for all later ones |
| `BlitterDiagrams.DiagramsFit` | src/blitter.c:105-150 | for every channel combination with a source, in every cycle only an enabled channel is served, no source is read twice in a word, D is written only after the word is combined, and at the end of a row the word is complete |
| `BlitterDiagrams.LengthIs` | src/blitter.c:105-150 | a word takes two cycles, one more for B, one more for C and D together, and in fill mode one more for D without C |
| `BlitterDiagrams.RowCounts` | src/blitter.c:1251-1261 | for all sixteen channel combinations blit_dmacount2 is the number of enabled sources, and there is a D cycle exactly when D is enabled |
| `BlitterDiagrams.CountCycles` | src/blitter.c:1251-1261 | the counting loop computes those two numbers |
| `CycleBlitter.Blitter.DoBlit` | src/blitter.c:834-866 | the combination uses exactly the registers of word k and yields its result and carry; bit by bit that is `BlitMeaning.StoredWordBit` |
| `CycleBlitter.Blitter.DoDma` | src/blitter.c:907-968 | a source cycle moves the machine one phase on; the last source of a word combines it (`BlitMeaning.StoredWordBit`) and moves the D pipeline |
| `CycleBlitter.Blitter.DoDdma` | src/blitter.c:869-905 | a D cycle stores the older waiting result, never the wrong one and never none; the last one ends the blit |
| `CycleBlitter.OverWhen` | src/blitter.c:1101-1106 | the end test fires at the last combination of a blit without D and never before the last store of one with D |
| `CycleBlitter.CyclesOfBlit` | src/blitter.c:105-150 | the usable cycles a blit takes, from its start: with D four more than its words take; without D up to the last source of the last word; without channels four more than it has words |
| `CycleBlitter.RowDone` | src/blitter.c:288-311 | the state at the end of a row of the diagram is the state at the beginning of the next word |
| `CycleBlitter.Blitter.NextPlace` | src/blitter.c:1101-1114 | after every cycle the machine is over, further on in the row, at the next word, or turns to the closing cycles, and never otherwise |
| `CycleBlitter.Blitter.BusCycle` | src/blitter.c:1039-1116 | one bus cycle, free, stalled or idle, keeps the machine on the course of the blit; a cycle that is free, and for a channel has blitter DMA on, brings the end exactly one cycle nearer, and no other does |
| `CycleBlitter.Blitter.DoBlitter` | src/blitter.c:1303-1393 | the start puts the machine at the beginning of the blit, with or without a source |
| `CycleBlitter.Blitter.BareDdma` | src/blitter.c:869-905 | a blit without a source combines and stores one word in its D cycle |
| `CycleBlitter.Blitter.BareStaysOpen` | src/blitter.c:1101-1114 | such a blit is over only with its last store, and never turns to the closing cycles |
| `CycleBlitter.Blitter.BareCycle` | src/blitter.c:1039-1116 | one bus cycle keeps a blit without a source on its course, and a usable one, and no other, brings the end exactly one nearer; without any channel it only waits |
| `CycleBlitter.Blitter.DecideBlitter` | src/blitter.c:1006-1119 | over any stretch of bus cycles and any pattern of stalls the machine stays on the course of the blit, whatever its channels; it ends with enough usable cycles and not with fewer free ones, with the memory, flag, registers and pointers of the blit as a whole, whose bits are `BlitterAgreement.BothMean` |
| `RegisterBlits.CarryIsParity` | src/blitter.c:854-860 | the fill carry leaves a row of bits flipped if and only if an odd number of them is set |
| `RegisterBlits.FillSameIff` | src/blitter.c:854-860 | a word is filled alike with two carries if and only if they are equal, or inclusive filling finds all its bits set |
| `RegisterBlits.FillZeroIff` | src/blitter.c:854-863 | a word is filled to 0 if and only if no bit is set and no carry comes in, or exclusive filling finds only the bit that stops the carry |
| `RegisterBlits.RunHolds` | src/blitter.c:409-471 | without a source, the words, carries and zero flag of the fast loops are those computed from the registers with the carry preset in every row |
| `RegisterBlits.BareHolds` | src/blitter.c:869-905 | and those of the cycle exact engine the ones with the carry preset once |
| `RegisterBlits.SameMemoryIff` | src/blitter.c:893 | two series of words leave the same memory if and only if they agree in the words that are not overwritten |
| `RegisterBlits.MemoryIff` | src/blitter.c:834-905 | for every blit without a source, of any size, in both fill modes, wherever it stores: both engines leave the same memory if and only if every word that is not overwritten has an even number of bits set in the rows before its own, or is filled inclusively and all ones |
| `RegisterBlits.ExclusiveFillIff` | src/blitter.c:834-905 | for an exclusive fill of any size to different places, the memory agrees if and only if every row is entered with an even number of bits set before it |
| `RegisterBlits.InclusiveFillIff` | src/blitter.c:834-905 | for an inclusive fill of any size to different places, the memory agrees if and only if every row entered with an odd number is all ones |
| `RegisterBlits.RowsCloseIff` | src/blitter.c:850-860 | the registers say that every row is entered with an even number of bits if and only if the two machines fill every word with the same carry |
| `RegisterBlits.RowsCloseEarly` | src/blitter.c:834-905 | all rows are entered evenly if and only if the second and the third are |
| `RegisterBlits.ZeroFlagsIff` | src/blitter.c:862-863 | the zero flags agree if and only if the registers leave nothing with the carry preset in every row exactly when they leave nothing with it preset once |
| `RegisterBlits.FlagsAgree` | src/blitter.c:862-863 | which only an exclusive fill of several rows with a preset carry can break |
| `RegisterBlits.NoChannelIff` | src/blitter.c:1065-1078 | without any channel memory agrees, and the zero flags agree if and only if the registers leave nothing in any word, filled or not |
| `RegisterBlits.ClearsAgree` | src/blitter.c:869-905 | clears and other blits without a source that do not fill, or have one row, leave the same memory, data registers and zero flag |
| `PlainCopies.CopyRun` | src/blitter.c:907-968 | the cycle exact engine copies every source word, in either direction |
| `PlainCopies.CopyLoops` | src/blitter.c:414-420 | the fast loops copy the words A is served for, and then go on with the last of them |
| `PlainCopies.CopyIff` | src/blitter.c:416 | for plain copies of any size to places apart from their source, the memory agrees if and only if every word from the first unserved one on that is not overwritten equals the held A word |
| `PlainCopies.CopyFromZeroIff` | src/blitter.c:416 | from address 0 that is: if and only if every such word is what the A register held before |
| `BlitterAgreement.AlikeIff` | src/blitter.c:374-571 | for every live blit, the fast loops and the cycle exact engine agree in memory, data registers and zero flag if and only if there is a source, or the registers meet the conditions above |
| `BlitterAgreement.BothMean` | src/blitter.c:374-571 | for every live blit with a source that reads nothing it has stored before, every bit of every word that is not overwritten is that of the reference of `BlitMeaning`, in both engines |
| `BlitterAgreement.BothShift` | src/blitter.c:374-571 | a plain copy with any A shift stores in both engines and both directions the masked source bits moved by that shift across word boundaries, and zeros before the first |
| `BlitterAgreement.BothEngines` | src/blitter.c:374-571 | whenever they mean the same by a blit (`Alike`), both engines, started alike, leave the same memory (also when source and destination overlap), zero flag, data registers and pointers, in both directions and for every channel combination; which memory that is says `BlitterAgreement.BothMean` |
| `BlitterAgreement.OneBitRunsOn` | src/blitter.c:850-860 | with a single bit set in each of two rows of one word the memory differs, in both fill modes |
| `BlitterAgreement.AllMinterms` | src/blitter.c:1065-1078 | without any channel and with all minterms the zero flags differ |
| `BlitterLine.NearestIff` | src/blitter.c:637-672 | the minor coordinate of the ideal line is the nearest integer to n * dy / dx, halves up |
| `BlitterLine.ErrorStep` | src/blitter.c:639-646 | the decision value stays between 4dy - 4dx and 4dy, and its sign decides exactly when the minor axis moves |
| `BlitterLine.AddExact` | src/blitter.c:639-644 | adding sign-extended modulos in 32 bits and looking at the low sixteen is exact: the accumulator never overflows for dx up to 8191 |
| `BlitterLine.RightOf` | src/blitter.c:598-604 | one pixel to the right in terms of word pointer and shift |
| `BlitterLine.LeftOf` | src/blitter.c:606-612 | one pixel to the left |
| `BlitterLine.OneDotPerRow` | src/blitter.c:632-634 | in one-dot mode no two drawn pixels share a row |
| `BlitterLine.EveryRowDrawn` | src/blitter.c:632-634 | and every row the line visits has a drawn pixel |
| `BlitterLine.Blitter.LineProc` | src/blitter.c:637-673 | in all eight octants one step takes pointer and shift from pixel n of the ideal line to pixel n + 1 |
| `BlitterLine.Blitter.WriteD` | src/blitter.c:583-596 | nothing is stored with channel C disabled; D does not matter |
| `BlitterLine.Blitter.DrawLine` | src/blitter.c:772-790 | the line loop plots every pixel of the ideal line in order, the first word at the D pointer and all others where they were read, after exactly as many major steps as asked; which bits that sets is `LineMeaning.PlotBits` and `LineMeaning.LineMeans` |
| `BlitterLine.Blitter.PixelCycle` | src/blitter.c:723-757 | an unstalled cycle of the line diagram, read, internal or write, takes the machine one cycle on in the drawing of the ideal line |
| `BlitterLine.Blitter.LineCycle` | src/blitter.c:692-761 | one bus cycle, stalled or not, keeps the machine on the course of the line; a usable one, and no other, brings the end exactly one cycle nearer |
| `BlitterLine.Blitter.DecideLine` | src/blitter.c:688-766 | over any pattern of stalls the cycle-stepped line engine draws exactly the line that the loop draws (`LineMeaning.LineMeans`), ending with enough usable cycles and not with fewer free ones |
| `BlitterLine.BothLines` | src/blitter.c:688-790 | the immediate loop and the cycle-stepped line engine, started alike, leave the same memory, zero flag, data registers, pointers, texture and decision value, whatever the stalls; `LineMeaning.LineMeans` says which memory |
| `LineMeaning.TextureBit` | src/blitter.c:675-679 | before pixel n bit i of the texture register is bit (i - n) mod 16 of the starting texture, so pixel n is drawn with bit (16 - n mod 16) mod 16 |
| `LineMeaning.DotBit` | src/blitter.c:624-635 | every bit of a combined word is the minterm of the masked A bit moved to the pixel, the lowest texture bit and the bit in memory |
| `LineMeaning.PlotBits` | src/blitter.c:624-635 | the result for pixel n, with bit 15 of A alone set: its own bit is the minterm of (1, bit (16 - n mod 16) mod 16 of the starting texture, the bit in memory), every other bit the minterm of (0, that texture bit, the bit in memory); for any other A, of the ink that falls on it |
| `LineMeaning.LineMeans` | src/blitter.c:772-790 | a whole line in the usual set-up, with minterms that pass memory through where A is clear: every bit of memory is what drawing it one pixel at a time leaves, each drawn pixel changing its own bit and no other |
| `LineMeaning.PatternDrawn` | src/blitter.c:772-790 | with minterms 0xCA the last drawn pixel that falls on a bit leaves its texture bit there |
| `ChunkyPlanar.Converter.Convert` | src/akiko.c:294-305 | the 256-turn loop transposes: plane b, bit 31 - p is bit b of pixel p |
| `ChunkyPlanar.Converter.Write` | src/akiko.c:307-317 | a byte write clears the long first when it is the lowest byte, and moves on after the highest |
| `ChunkyPlanar.Converter.Read` | src/akiko.c:319-332 | a byte read converts at the start of a burst and rewinds the write index; the shifted long is truncated to a byte by the register read (`uae_u8 v`, src/akiko.c:1327) |
| `ChunkyPlanar.Converter.LongWrite` | src/akiko.c:1594-1605 | four byte writes store one long |
| `ChunkyPlanar.Converter.LongRead` | src/akiko.c:1446-1456 | four byte reads return one long |
| `ChunkyPlanar.Converter.Burst` | src/akiko.c:294-332 | eight long writes and eight long reads return the bit transpose of 32 pixels, wherever an earlier burst that ended with a read left the read index, and leave the converter ready for another |
| `ChunkyPlanar.GatheredIsTransposed` | src/akiko.c:300-304 | the flat index i = 8k + b over the reversed buffer is the transpose in pixel order |
| `SubcodeRing.Pushed` | src/akiko.c:480-492 | the slot at the write offset is in use exactly when the ring is full, and writing it keeps the cyclic run |
| `SubcodeRing.Popped` | src/akiko.c:1178-1191 | freeing the slot at the read offset takes the oldest packet |
| `SubcodeRing.Ring.Produce` | src/akiko.c:466-495 | a producer fills up the free slots in order, or empties a full ring; it never overwrites a waiting packet |
| `SubcodeRing.Ring.Consume` | src/akiko.c:1177-1194 | the consumer gets the oldest waiting packet, or nothing, however old its look at the offsets is |
| `SubcodeRing.Ring.Reset` | src/akiko.c:1555-1560 | a reset empties the ring |
| `SubcodeRing.Ring.LooksNonempty` | src/cdtv.c:1146 | the look outside the semaphore sees packets if and only if some wait and the ring is not exactly full |
| `SubcodeRing.FillsUp` | src/akiko.c:466-495 | 36 packets offered one by one to an empty ring all wait |
| `SubcodeRing.FullRingLosesAll` | src/akiko.c:480-487 | the next packet then loses all 36 |
| `SubcodeRing.FillAndLook` | src/cdtv.c:1146 | the failing state is reached: with 36 packets waiting the look sees none |
| `SubcodeRing.DeliveredInOrder` | src/cdtv.c:229-271 | the delivered packets, followed by the waiting ones, are an in-order subsequence of those offered, without duplicates |
| `SubcodeRing.NothingVanishes` | src/cdtv.c:229-271 | every offered packet is exactly one of delivered, waiting and lost |
| `SubcodeRing.LostOnlyByOverflowOrReset` | src/cdtv.c:123-132 | packets are lost if and only if some offer overflows or some reset finds packets waiting |
| `SubcodeRing.Play` | src/akiko.c:466-495 | the ring under any interleaving of offers, takes and resets agrees with that history |
| `BlepQueue.YoungIff` | src/audio.c:520-526 | a transition counts as young if and only if its age is below 2048 |
| `BlepQueue.HandledMirrors` | src/audio.c:510-544 | one call keeps the queue equal to the newest at most 130 transitions younger than 2048, newest first |
| `BlepQueue.StateLessQueue` | src/audio.c:538-541 | the output minus all queued steps is the level just before the oldest of them |
| `BlepQueue.AgesInOrder` | src/audio.c:519-540 | ages never decrease along the queue, and only a transition made in the last step can have reached 2048 |
| `BlepQueue.AgesBoundedIff` | src/audio.c:539 | after a call all ages are below 2048 if and only if the step was shorter than 2048 or changed nothing |
| `BlepQueue.LongStep` | src/audio.c:539 | a step of 2048 ticks or more that changes the output leaves an entry as old as the step |
| `BlepQueue.Channel.AgeQueue` | src/audio.c:519-526 | the ageing loop truncates where the first entry gets too old |
| `BlepQueue.Channel.Prehandle` | src/audio.c:510-544 | the array queue mirrors the whole past after every call |
| `BlepQueue.Channel.Mix` | src/audio.c:567-570 | every table index is in range as long as no entry is as old as the table, and the sum is the level before the oldest transition plus each later step as far as it has been blended in |
| `BlepQueue.Channel.Play` | src/audio.c:510-577 | over every run from silence with steps shorter than the table every index is in range, and every sum is that of the newest at most 130 transitions younger than the table, computed from the history alone |
| `BlepQueue.WeightedIsBlended` | src/audio.c:567-570 | the sum over the queue is the sum over the transitions it stands for |
| `ReceiveRing.BasesDiffer` | src/a2065.c:359 | different descriptors of a ring of up to 128 do not overlap |
| `ReceiveRing.PassEnds` | src/a2065.c:367-378 | after a whole pass the next descriptor is the first again and not owned any more |
| `ReceiveRing.EarlierKept` | src/a2065.c:389-401 | filling a buffer leaves all earlier buffers and descriptors |
| `ReceiveRing.Lance.FillBuffer` | src/a2065.c:389-391 | the copy loop fills as much of one buffer as the data allows and touches nothing else |
| `ReceiveRing.Lance.TakeBuffer` | src/a2065.c:380-401 | one owned buffer is filled, marked and given back |
| `ReceiveRing.Lance.GiveUp` | src/a2065.c:367-378 | at a descriptor that is not owned the receiver stops: missed when it is the first, overrun otherwise |
| `ReceiveRing.Lance.Scatter` | src/a2065.c:357-407 | the loop itself: within one pass the data is delivered if and only if it fits the owned run, with everything else unchanged |
| `ReceiveRing.Lance.GotFrame` | src/a2065.c:357-407 | the loop ends within one pass; only owned buffers are filled; the frame is delivered if and only if it fits the owned run; then the pieces in ring order concatenate to the frame and its four check bytes, with start, end and length marked, and nothing else changed; only the buffers the host has handed over need be apart |
| `ReceiveRing.GatheredIsPrefix` | src/a2065.c:389-391 | the filled buffers hold the beginning of the data, one after the other |
| `ReceiveRing.LengthBytes` | src/a2065.c:392-401 | the two length bytes hold the length |
| `HostView.FieldsOf` | src/a2065.c:359-365 | owner bit, buffer address, buffer size and length of a descriptor are the big-endian words the host reads and writes there |
| `HostView.BufferByte` | src/a2065.c:391 | with byte swapping on, the host finds the bytes of a buffer in the order of the data, and exchanged within words without it |
| `HostView.DeliveredToHost` | src/a2065.c:381-400 | a delivered frame as the host finds it: each descriptor had been handed over and is given back with its buffer and size as before, start and end marked; byte i of buffer t is the byte of the frame that comes after all the buffers before it hold; the last descriptor has the length |
| `HostView.OverrunShown` | src/a2065.c:369-376 | a descriptor that was not handed over when a frame needed it shows both error bits and is otherwise as it was |
| `Subchannel.ToInterleaved` | src/blkdev_cdimage.c:241-254 | the nested bit loops compute the interleaved block |
| `Subchannel.ToDeinterleaved` | src/blkdev_cdimage.c:255-268 | the nested bit loops compute the deinterleaved block |
| `Subchannel.InterleavedIff` | src/blkdev_cdimage.c:241-254 | a block is the interleaved one if and only if byte k holds bit k of the twelve-byte stream of every channel, the first channel in its highest bit |
| `Subchannel.DeinterleavedIff` | src/blkdev_cdimage.c:255-268 | a block is the deinterleaved one if and only if its channels are the streams the bytes carry |
| `Subchannel.RoundTrip` | src/blkdev_cdimage.c:241-268 | deinterleaving an interleaved block gives it back, for all blocks |
| `Subchannel.RoundTripBack` | src/blkdev_cdimage.c:241-268 | interleaving a deinterleaved block gives it back, for all blocks |

## Left out

- Blitter: the generated fast paths and minterm bodies (the minterm is a function of A, B, C and its byte), register
  changes during a blit, `blit_frozen`, `blit_faulty`, `do_startcycles`, immediate and slowed-down timing, interrupts,
  saved states; `bltbdat` and `bltddat`, which the two engines leave different, are not compared.
- BlitterAgreement.BothMean: the bits are given in terms of the memory before the blit, so it covers the blits that read nothing they have stored before (reading a word and storing it in the same place is covered); for the others each word is what its own sources hold by then (`Blit.Run`), and the two engines agree (`AlikeIff`).
- FastBlitter.Blitter.DoFast: covers `blitter_dofast` and `blitter_dofast_desc` as one method with a direction, because they mirror each other line by line.
- BlitterAgreement.BothEngines: requires `Live` and `Alike`; `AlikeIff` shows the second to be exact, and what happens without the first is stated for plain copies only (`PlainCopies.CopyIff`) and, for all blits, by what the fast loops perform (`FastBlitter.Blitter.DoFast`).
- BlitterLine.BothLines: of the accumulator only its sixteen significant bits are compared.
- CycleBlitter.Blitter.BareCycle: the loop body of `decide_blitter` is written twice, here for blits without a source and in `BusCycle` for all others.
- Scheduler: x86 encodings, registers an op uses without declaring them, and stale argument slots beyond an op's count.
- CIA: keyboard, reset warning, wall-clock hack, printer, serial and joystick ports, time of day and its alarm (an alarm
  is a flag raised); wrap-around of the host's cycle counter; CIA-B's interrupt code, which is the same as CIA-A's.
- CiaTimers.Cias.DoCycles: whether the last line of a frame holds time back depends on the host clock and is a parameter; the other handlers of the event table do nothing to the CIAs but call the CIA handler at a vertical blank.
- Eeprom.Nvram.I2cDo: the static variables are kept in one record field, and the arrays as sequences, because the invariant spans all of them; aliasing between the arrays is therefore not modelled.
- Eeprom.Nvram.ResetInterface: `akiko_reset` also reloads the array from its file; the file is not modelled.
- CycleBlitter.Blitter.BusCycle: related static variables are grouped in records (data registers, pointers, pipeline, counters).
- Akiko: CD-ROM commands, the sector prefetch thread, file-backed memory, activity lights and interrupts.
- ChunkyPlanar.Converter.Burst: bursts by word or byte accesses in another order are not modelled.
- Subcode ring: what becomes of a packet after it has been taken; the 96 bytes of a packet are one value.
- Audio: filters, other interpolators and the clock that calls the handler; the four channels are alike, one is modelled.
- BlepQueue.Channel.Mix: requires that no entry is as old as the table, because the code would index past it; `Play` shows that this holds throughout every run with short steps.
- ReceiveRing.Lance.GotFrame: the address filters and the rewriting of addresses before the loop are not modelled, and the check bytes are taken as given; transmission and the chip's other registers are left out.
- Subchannel: reading the blocks from an image.

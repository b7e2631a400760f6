# TinyVM: a verified model

TinyVM emulates an RV64 hart with Sv39 translation, a platform interrupt controller (PLIC), a
timer (CLINT), firmware calls (SBI), compressed instructions, atomics and a virtio block device.
This project models those parts in Dafny and proves what they promise. `dafny verify dfyconfig.toml`
checks everything.

The model has two layers. A **specification** gives each part as functions on values: guest RAM is
a base and a byte string, the hart is a record of registers and CSRs, and one emulator step is the
function `Machine.Step`. Laws about it are lemmas. Beside it stand the parts **in place**: classes
with the source's fields and loops (`Processor`, `PlicDevice`, `Emulator`, `VirtioSlot`, `Block`,
`Memory`), every method of which is proved to move its object exactly as the specification says.
`Emulator.Emulator.Boot`, `Step` and `Run` are start-up, `cpu_step` and the main loop in full, so
every law about runs of `Machine.Step` is a law about runs of the in-place emulator. The methods
`Step` calls, one for each part of an instruction, are proved against the function of the same name
in `Machine` or `Hart` and have no row of their own.

The specification follows the source, operator by operator. What it means is stated apart from it:
`Sv39`, `Isa` and the modules named for numbers and bytes write the architecture's rules out as
arithmetic on natural numbers and byte positions, without the specification's own helpers, and
prove that the specification does that.

| files | part |
|---|---|
| `Octet`, `Words`, `Numbers`, `Shifts`, `Memory`, `Board` | words, the numbers they denote and little-endian bytes; RAM, region dispatch |
| `Mmu`, `Sv39`, `MmuStability`, `MmuSuperpage`, `VirtualMemory` | the page walk, its A/D write-back, superpages, loads after stores |
| `Hart`, `CsrViews`, `TrapNesting`, `HandlerRuns`, `Interrupts`, `Delivery`, `Processor` | CSRs, traps and returns, interrupt selection and delivery, SBI |
| `Plic`, `PlicProtocol`, `PlicRuns`, `PlicDevice` | claim and complete, SEIP |
| `Alu`, `MulDivLaws`, `MulDivInstructions` | integer arithmetic, multiply and divide |
| `Decode`, `RvcMeaning` | both decoders; what compressed instructions mean |
| `Machine`, `Confinement`, `PreciseFaults`, `LoadStore`, `Atomics`, `Emulator` | instructions, steps and runs |
| `Isa`, `CsrInstructions`, `SystemNumbers`, `MemoryNumbers`, `AtomicNumbers`, `DeviceNumbers` | what instructions, traps and device accesses do, as arithmetic on numbers |
| `Virtqueue`, `VirtioSlot`, `Block`, `RequestBytes` | rings, queue registers, the block device |

What comes from outside a step is an argument, `Machine.Env`: what devices do when polled, and how
a device that is not modelled here (the console, the virtio slot as seen from the hart) answers an
access. Such a device may raise any interrupts, overwrite RAM, and read and write any register of
the interrupt controller and the timer, as the block device does when a guest aims its rings or
status bytes there. The theorems about runs hold for all of that. `exit(1)` is the outcome `Stop`
or `Ended`. A hart access outside RAM and the device windows also ends the run. Bit-vectors of the
source's width carry registers, CSRs, page-table entries and masks; addresses inside RAM, ring
indices and multiply/divide operands are numbers with the 16-, 32- or 64-bit wrap written out.

Facts the proofs turned up, each proved below with the exact condition under which the code does
meet the rule and with an input on which it does not:

- The dispatch test of `mem_find_region` wraps, and means containment exactly off the wrapping accesses.
- Translation does not check superpage alignment; a superpage leaf gives the addresses of its 4 KiB parts exactly when it is aligned.
- A data page fault is precise exactly when the instruction is no atomic; an atomic enters the handler past its first instruction.
- MULH and MULHSU multiply unsigned readings, and are right exactly when no sign correction is due.
- A word min/max on 64-bit values is the 32-bit one, for every memory word, exactly when its operand keeps its place under truncation.
- An SC at 2^64 - 1 needs no LR; an SC anywhere else does.
- A ring delivers in order, and its slots are distinct across the 16-bit wrap, exactly when its size divides 65536.
- With translation off, a fetch at 2^64 - 1 neither executes nor traps, and an sret can get there.
- Of the halfwords the ISA reserves, the translator rejects exactly those not reserved for a zero operand. The rest, the all-zero halfword among them, run as the instruction their fields spell.

## Model

| member | source | states |
|---|---|---|
| Words.NatOfBytes | src/memory.c:10-18 | storing a number in w little-endian bytes and reading it back truncates it to 8w bits |
| Words.RegisterRoundTrip | src/memory.c:10-18 | a register and the number it denotes determine each other modulo 2^64 |
| Memory.PeekPoke | src/memory.c:10-18 | a load sees the last store to its cell and none that misses it |
| Memory.PokeAdjacent | src/memory.c:103-106 | two adjacent stores are one store of the concatenation |
| Memory.PokeCommute | src/memory.c:103-106 | stores to disjoint cells commute |
| Memory.RamBank.Read | src/memory.c:98-101 | copies out exactly the bytes of the range |
| Memory.RamBank.Write | src/memory.c:103-106 | the bank becomes the old one with exactly that range replaced |
| Memory.MatchesIffInside | src/memory.c:26 | the wrapping test decides containment exactly off the accesses that wrap onto the low side of the region's end |
| Memory.WrappedAccessMatches | src/memory.c:26 | a concrete access near 2^64 that RAM accepts and does not contain |
| Memory.RegionTable.AddRegion | src/memory.c:33-43 | regions are appended in order until eight are registered, then refused |
| Memory.RegionTable.FindRegion | src/memory.c:23-32 | the first registered region that accepts the access, or none when none does |
| Board.Assemble | src/main.c:42-46 | start-up registers five regions, in order, all accepted |
| Board.DispatchExactly | src/memory.c:23-32 | dispatch through the board's five regions agrees with the windows of the machine's step if and only if the access stays below 2^64; past it RAM takes it |
| Board.Dispatch | src/memory.c:23-32 | dispatch through the table in place: the window that holds the access, or RAM past the top |
| Mmu.WalkAt | src/mmu.c:103-116 | a walk that ends in a leaf ends in a valid one, at an 8-aligned entry in RAM, at its level or below |
| Emulator.Emulator.FindLeaf | src/mmu.c:98-121 | the level-by-level loop computes the recursive walk, within three levels |
| Emulator.Emulator.Boot | src/kernel_boot.c:15-18 | start-up in place reaches the state that runs begin in |
| Emulator.Emulator.Translate | src/mmu.c:94-135 | returns the translated address and marks the leaf, or traps once and returns the sentinel, exactly as the walk and the permission check decide |
| Sv39.TranslatesByNumbers | src/mmu.c:42-135 | with va, satp and the 8-byte entries as numbers: the root at (satp mod 2^44) * 4096, entry va / 2^30 mod 512, then va / 2^21 and va / 2^12 mod 512; the leaf's frame joined with va modulo the page; what the flag bits of the entry forbid faults; A, and D for a store, set in the leaf and nothing else changed; identity when the mode field is not 8 or the hart is in M-mode |
| Sv39.AlignedJoin | src/mmu.c:80-85 | where the frame is aligned, the joined address is frame plus offset |
| PreciseFaults.TranslatesExactly | src/mmu.c:57-78 | a translation succeeds if and only if the walk ends in a valid leaf that grants the access and is the mode's to use |
| PreciseFaults.TranslatedAddress | src/mmu.c:80-85 | a translated address is below 2^56, keeps the page offset and is never the sentinel |
| PreciseFaults.SentinelExact | src/mmu.c:94-135 | the sentinel is returned if and only if a fault was taken, or translation is off and va is the sentinel |
| PreciseFaults.FetchAtSentinelStalls | src/cpu.c:1148-1150 | with translation off and pc at 2^64 - 1, a step's fetch changes nothing |
| PreciseFaults.SretReachesSentinel | src/cpu.c:966-978 | an sret with sepc 2^64 - 1 and satp bare gets there, and the fetch that follows stalls |
| PreciseFaults.PreciseExactly | src/cpu.c:521-602 | a data page fault, delegated to S-mode or left to M-mode, is precise if and only if the instruction is no atomic: no register, byte or other CSR moves but mstatus; the mode's epc, cause (13 or 15) and tval hold pc, cause and address; pc is the handler |
| PreciseFaults.AtomicFaultImprecise | src/cpu.c:880-882 | a concrete amoadd, on an empty page table, whose page fault is not precise |
| PreciseFaults.FetchFaultIsPrecise | src/cpu.c:1148-1150 | a fetch page fault, delegated or not, is precise, with cause 12 |
| MmuStability.WalkStable | src/mmu.c:103-116 | memories that differ in A and D bits alone give every walk the same path |
| MmuStability.TouchPreservesResolve | src/mmu.c:129-132 | the write-back of one translation changes the outcome of no other, whatever its address, access, privilege, SUM or root |
| MmuStability.TouchIsAdOnly | src/mmu.c:129-132 | a translation changes only bits 6 and 7 of an 8-aligned word |
| MmuStability.RunWalksBytes | src/mmu.c:94-135 | after any sequence of translations each byte is the old one OR the marks its requests contribute, all judged in the starting memory |
| MmuStability.RunWalksPreserveResolve | src/mmu.c:94-135 | after any sequence of translations every other one still yields what it yielded |
| MmuStability.RunWalksPermute | src/mmu.c:94-135 | any two orders of the same translations leave the same memory |
| MmuStability.RunWalksTwice | src/mmu.c:94-135 | repeating a sequence of translations changes nothing more |
| MmuSuperpage.TilesResolve | src/mmu.c:80-85 | an aligned run of frames, mapped by one leaf or any tree of smaller ones with the same flags, resolves to run plus offset or faults as the flags say |
| MmuSuperpage.SuperpageEquivalence | src/mmu.c:94-135 | two tilings of the same aligned frames give every access at every va the same outcome |
| MmuSuperpage.SplitTiles | src/mmu.c:103-116 | a full table of leaves with consecutive frames and equal flags is such a tiling |
| MmuSuperpage.AlignmentExactly | src/mmu.c:80-85 | a leaf of 2 MiB or 1 GiB and its 4 KiB parts give the same address at every va if and only if the frame number is aligned |
| MmuSuperpage.SplitExactly | src/mmu.c:94-135 | a superpage leaf and its complete tree of 4 KiB leaves give every va the same outcome if and only if the leaf is aligned, whenever the flags grant the access |
| MmuSuperpage.MisalignedTablesDiffer | src/mmu.c:94-135 | two concrete tables, a 2 MiB leaf at frame 1 and the full table of its parts, that resolve 0x1000 to different frames |
| VirtualMemory.StoreImpliesLoad | src/mmu.c:107-110 | what may be written may be read, at the same physical address |
| VirtualMemory.StoreThenLoad | src/mmu.c:141-203 | after a store, a load that reaches the same bytes by any alias and context returns them; every other byte is unchanged up to A and D |
| VirtualMemory.PokeKeepsResolve | src/mmu.c:103-135 | a store off the entries a walk reads changes neither its outcome nor its trail |
| LoadStore.StoreThenLoad | src/cpu.c:521-602 | a load instruction after a store instruction of its width and address leaves the low bytes of the stored register in rd, extended as its kind says, wherever the target misses the walked entries |
| MemoryNumbers.LoadByNumbers | src/cpu.c:521-577 | a load leaves in rd the number of its 1, 2, 4 or 8 bytes, sign-extended for lb, lh and lw, and changes nothing else but pc |
| MemoryNumbers.StoreByNumbers | src/cpu.c:579-602 | a store puts the low 1, 2, 4 or 8 bytes of rs2 in memory and changes nothing else but pc |
| MemoryNumbers.FpLoadByBytes | src/cpu.c:783-797 | FLW replaces the low four bytes of the register by those at the address, FLD all eight |
| MemoryNumbers.FpStoreByBytes | src/cpu.c:802-814 | FSW stores the low four bytes of the register, FSD all eight |
| Isa.IntegerByNumbers | src/cpu.c:466-780 | every integer instruction stops, or leaves in rd and pc what arithmetic on the signed and unsigned numbers in its registers says: branches, jumps, AUIPC, LUI, add, sub, shifts, comparisons, logic, their W forms, multiply and divide; nothing else changes |
| CsrInstructions.CsrByBits | src/cpu.c:897-931 | a CSR instruction traps below the privilege in bits 8 and 9 of its number; otherwise rd gets the old value, and the register the operand, the old bits with the operand's set, or without them, bit by bit, unless a set or clear has operand 0 |
| SystemNumbers.EnvironmentByNumbers | src/cpu.c:944-1013 | ecall, ebreak, sret, mret, wfi and sfence.vma by their immediates, with the causes 8, 11 and 3; any other ends the process |
| SystemNumbers.TrapByNumbers | src/cpu.c:1018-1073 | a trap goes to S-mode if and only if it comes from below M-mode and its bit is set in mideleg or medeleg; pc, cause and value in CSRs 0x141 to 0x143 or 0x341 to 0x343; the handler's address without its low two bits in pc; nothing else but mstatus |
| SystemNumbers.FetchByBytes | src/cpu.c:1151-1152 | the fetch decodes 4 bytes when the low two bits of the first are both set, and otherwise 2 |
| SystemNumbers.ContextByBits | src/mmu.c:57-78 | translation sees the privilege, satp (0x180) and bit 18 of mstatus |
| SystemNumbers.BootByNumbers | src/sbi.c:10-35 | the kernel begins in S-mode at its entry with a0 zero, a1 the device tree's address, the delegation, counter and status registers by value, the comparator at 2^64 - 1 |
| CsrViews.StatusWrite | src/cpu.c:50-53 | an sstatus write reads back in the exposed bits and keeps every other bit of mstatus and every other CSR |
| CsrViews.SieWrite | src/cpu.c:54-58 | an sie write reads back in the delegated bits and keeps the others |
| CsrViews.SipWrite | src/cpu.c:59-62 | an sip write changes the software-interrupt bit alone |
| CsrViews.SatpWrite | src/cpu.c:63-70 | modes other than bare and Sv39 are stored as bare; the lower fields as written |
| CsrViews.PlainWrite | src/cpu.c:28-75 | any other CSR reads back as written, but the counters show the step count |
| CsrInstructions.ReadByAddress | src/cpu.c:28-46 | what each CSR address shows: sstatus, sie and sip through their masks, the counters the step count, any other itself |
| CsrInstructions.WriteByAddress | src/cpu.c:48-75 | what a write to each CSR address stores and where, bit by bit |
| CsrInstructions.SatpNumber | src/cpu.c:63-70 | a mode other than 0 and 8 is stored as 0, the 60 bits below it as written |
| CsrViews.SbiEffects | src/sbi.c:82-124 | an SBI call steps past the ecall, writes a0 and a1, and touches nothing else unless it sets the timer or resets |
| CsrViews.SbiAnswers | src/sbi.c:58-124 | a0 answers 0 or not-supported, a1 the version, the probe's verdict or 0 |
| CsrViews.SetTimerEffects | src/sbi.c:87-102 | setting the timer programs the comparator with a0 and lowers STIP, no other bit of mip |
| SystemNumbers.SbiByNumbers | src/sbi.c:40-124 | an SBI call steps on by 4; the supported extensions by number; not-supported is -2 |
| TrapNesting.EnterSFields | src/cpu.c:1032-1045 | entry saves SIE in SPIE and the privilege in SPP, clears SIE, and changes no other bit |
| TrapNesting.LeaveSFields | src/cpu.c:966-978 | return restores SIE, sets SPIE, clears SPP, and changes no other bit |
| TrapNesting.EnterMFields | src/cpu.c:1055-1067 | the same for MIE, MPIE and MPP on entry |
| TrapNesting.LeaveMFields | src/cpu.c:987-999 | the same for MIE, MPIE and MPP on return |
| TrapNesting.EpisodeResumes | src/cpu.c:961-1073 | however deep traps nest in handlers that save and restore sepc and sstatus, the outermost sret restores pc, privilege and all of mstatus but SPIE (1) and SPP (0) |
| TrapNesting.MachineEpisodeResumes | src/cpu.c:982-1073 | the same for one trap to M-mode and mret, with MPIE 1 and MPP 0 |
| HandlerRuns.StepIsHandlerCode | src/cpu.c:1144-1154 | every step of a confined hart in S-mode but an executed sret does what handler code may: it stays in S-mode and keeps delegation and the hidden part of mstatus |
| HandlerRuns.HandlerResumes | src/cpu.c:961-1073 | after a delegated trap, any run of steps that restores sepc and sstatus in S-mode, and a step that executes sret, the hart is at the trapped pc and privilege, with all of mstatus but SPIE (1) and SPP (0) |
| HandlerRuns.InterruptResumes | src/cpu.c:1144-1154 | the same from an interrupt that a step takes |
| Interrupts.TopBitHighest | src/cpu.c:1105-1110 | the downward scan finds the highest set bit, or none when none is set |
| Interrupts.SelectIsHighest | src/cpu.c:1092-1126 | the interrupt taken is the highest eligible one, and the trap goes to the mode the selection assumed |
| Delivery.InterruptedExactly | src/cpu.c:1092-1126 | a step in any mode takes interrupt b if and only if b is the highest bit up to 11 of mip & mie & ~mideleg, open below M-mode or with mstatus bit 3 set, or else the highest bit up to 9 of mip & mie & mideleg, open in U-mode or in S-mode with mstatus bit 1 set |
| Delivery.ConfinedByBits | src/cpu.c:1096-1123 | a confined hart takes interrupt 9 if and only if it is in U-mode, or in S-mode with mstatus bit 1 set, and bits 9 of mip and mie are set; 5 if and only if so open, bit 5 of mie is set, the step count has reached mtimecmp, and 9 does not go before |
| Delivery.TakenByBits | src/cpu.c:1018-1046 | after interrupt b: scause 2^63 + b, sepc the interrupted pc, stval 0, S-mode, pc stvec without its low two bits |
| Interrupts.TimerTruth | src/clint.c:13-18 | at every interrupt check STIP is set if and only if the step count has reached mtimecmp |
| Delivery.DeliveredExactly | src/cpu.c:1092-1126 | a step of a confined hart takes interrupt 9 if and only if, devices polled, a claim by the supervisor would return a source, SEIE is set and interrupts are open |
| Delivery.TimerDeliveredExactly | src/clint.c:13-18 | a step of a confined hart takes interrupt 5 if and only if the step count has reached mtimecmp, the guest admits it and no external interrupt goes before it |
| Delivery.SignalDelivered | src/plic.c:29-50 | a source that a device raises, the supervisor listens to and the guest admits is taken as interrupt 9 in the same step, and the handler's claim returns it or one that goes before it |
| Processor.Processor.HighestBit | src/cpu.c:1105-1110 | the scanning loop finds the highest set bit |
| Processor.Processor.PendingInterrupt | src/cpu.c:1096-1123 | the two guarded scans select the interrupt of the specification |
| Processor.Processor.DeliverInterrupt | src/cpu.c:1092-1126 | takes the trap of the selected interrupt, or changes nothing |
| Plic.MaskLaws | src/plic.c:47-74 | setting or clearing a source's mask bit changes that source alone |
| Plic.ReadyMask | src/plic.c:53-58 | the mask arithmetic is: pending, enabled and not claimed |
| Plic.Best | src/plic.c:52-69 | the best source is ready and precedes every other ready one by priority then id, or is 0 when none is ready |
| Plic.BestUnique | src/plic.c:52-69 | there is one such source |
| Plic.ReadBack | src/plic.c:117-158 | priorities, thresholds and enables read back as written |
| Plic.ClaimRegister | src/plic.c:78-158 | reading a claim register claims exactly the best source; writing one completes exactly the named source |
| Plic.DriveSeipTruth | src/plic.c:29-42 | re-evaluation sets SEIP if and only if the supervisor's claim would return a source |
| Plic.AccessKeepsSeip | src/plic.c:78-158 | every register access keeps that true, claims by reads included |
| DeviceNumbers.ControllerReads | src/memory.c:64-79 | a read from 0x0C000000 on returns the low bytes of the controller's register at that offset, with its effect |
| DeviceNumbers.ControllerWrites | src/memory.c:81-96 | a write there hands the register the value, kept to its width and to 32 bits |
| DeviceNumbers.TimerReads | src/clint.c:20-28 | the timer's registers at 0x0200BFF8, the step count, and 0x02004000, mtimecmp; zeros elsewhere |
| DeviceNumbers.TimerWrites | src/clint.c:30-36 | only mtimecmp is written, at 0x02004000, with the bytes given |
| PlicProtocol.ClaimTakesBest | src/plic.c:52-69 | a claim removes one source from the ready set and no other |
| PlicProtocol.DrainOrder | src/plic.c:52-69 | repeated claims return each ready source exactly once, by descending priority then ascending id |
| PlicProtocol.DrainEnds | src/plic.c:52-69 | within 31 claims the controller answers 0 |
| PlicProtocol.ClaimsSeparated | src/plic.c:44-76 | between two claims of a source lie a completion and a new raise of it |
| PlicProtocol.RaiseStays | src/plic.c:44-76 | a raise stays pending until its source is next claimed |
| PlicProtocol.ClaimsAtMostRaises | src/plic.c:44-76 | over any trace, claims of a source plus what is pending never exceed raises plus what was pending |
| PlicRuns.RunIsTrace | src/plic.c:78-158 | every run of the machine takes the controller through the trace of raises, claims, completions and register writes that its steps and its devices make |
| PlicRuns.RunClaimsAtMostRaised | src/plic.c:44-76 | over any run of the machine, claims of a source by guest loads or devices, plus what is pending at the end, never exceed the raises plus what was pending at the start |
| PlicDevice.PlicDevice.Scan | src/plic.c:52-65 | the scanning loop finds the best source |
| PlicDevice.PlicDevice.AnyReady | src/plic.c:29-37 | the early-exit loop finds whether a claim by the supervisor would return a source |
| PlicDevice.PlicDevice.UpdateSeip | src/plic.c:29-42 | drives the line as the controller's state requires |
| PlicDevice.PlicDevice.SetPending | src/plic.c:44-50 | the source becomes pending and the line follows; ids outside 1 to 31 change nothing |
| PlicDevice.PlicDevice.Claim | src/plic.c:52-69 | returns and claims the best source, and the line follows |
| PlicDevice.PlicDevice.Complete | src/plic.c:71-76 | the source is unclaimed and the line follows; ids outside 1 to 31 change nothing |
| PlicDevice.PlicDevice.Read | src/plic.c:78-115 | value and effect of reading any register offset |
| PlicDevice.PlicDevice.Write | src/plic.c:117-158 | effect of writing any register offset |
| MulDivLaws.ProductExact | src/cpu.c:646-657 | the high unsigned product and the low product are the exact double-width product |
| MulDivLaws.SignedDivision | src/cpu.c:658-666 | truncated quotient, remainder of the dividend's sign and of smaller magnitude than the divisor; by zero, -1 and the dividend |
| MulDivLaws.DivisionLaw | src/cpu.c:658-669 | quotient times divisor plus remainder is the dividend modulo the word size, by zero too |
| MulDivLaws.MulHExact | src/cpu.c:649-651 | MULH as coded is the signed high product if and only if no sign correction is due |
| MulDivLaws.MulHDiffers | src/cpu.c:649-651 | -1 times 1 is a case where it is not |
| MulDivLaws.MulHSUExact | src/cpu.c:652-654 | MULHSU as coded is the signed-by-unsigned high product if and only if the first operand is non-negative or the second is 0 |
| MulDivLaws.MulHSUDiffers | src/cpu.c:652-654 | -1 times 1 is a case where it is not |
| MulDivInstructions.ProductRegisters | src/cpu.c:644-657 | MULHU and MUL leave the two halves of the exact 128-bit product |
| MulDivInstructions.DivisionRegisters | src/cpu.c:658-669 | the division law on registers for both signednesses, defined unless the quotient overflows |
| MulDivInstructions.ProductWord | src/cpu.c:739-742 | MULW leaves the 32-bit product sign-extended; there is no high word product |
| MulDivInstructions.WordRegisters | src/cpu.c:743-777 | the W divisions satisfy the 32-bit law and leave sign-extended words |
| RvcMeaning.DecodeI | src/cpu.c:144-162 | decode recovers the fields and sign-extended immediate of an I-type word |
| RvcMeaning.DecodeS | src/cpu.c:164-167 | the same for the S type |
| RvcMeaning.DecodeB | src/cpu.c:169-173 | the same for the B type |
| RvcMeaning.DecodeU | src/cpu.c:175-178 | the same for the U type |
| RvcMeaning.DecodeJ | src/cpu.c:180-184 | the same for the J type |
| RvcMeaning.DecodeR | src/cpu.c:147-152 | the same for the R type |
| RvcMeaning.SignedImmediates | src/exec_c.c:116-129 | the CI, C.ADDI16SP and C.LUI decoders place the bits of section 16.8 of the RISC-V Unprivileged ISA (20191213) |
| RvcMeaning.JumpImmediate | src/exec_c.c:140-145 | the same for the CJ offset |
| RvcMeaning.BranchImmediate | src/exec_c.c:148-152 | the same for the CB offset |
| RvcMeaning.OffsetImmediates | src/exec_c.c:132-137 | the same for CL and CS offsets and C.ADDI4SPN |
| RvcMeaning.StackLoads | src/exec_c.c:155-162 | the same for stack loads |
| RvcMeaning.StackStores | src/exec_c.c:165-168 | the same for stack stores |
| RvcMeaning.ShiftImmediates | src/exec_c.c:291-397 | shift amounts and the arithmetic bit agree through the two decoders, which encode them differently |
| RvcMeaning.SameEffect | src/cpu.c:466-939 | instructions that agree on the fields their opcode looks at do the same to every machine |
| RvcMeaning.CompressedMeansExpansion | src/exec_c.c:179-479 | for every machine, a halfword that the listings do not reserve does what their 32-bit expansion does, with size 2 |
| RvcMeaning.RejectsExactly | src/exec_c.c:179-479 | a halfword is illegal to the translator if and only if the listings reserve it for another reason than a zero operand |
| RvcMeaning.ReservedRuns | src/exec_c.c:179-479 | a reserved halfword ends the process, unless it is reserved for a zero operand: then it runs as the word its fields spell |
| RvcMeaning.AllZeroRuns | src/exec_c.c:192-198 | the all-zero halfword, defined to be illegal, runs as addi x8, x2, 0 |
| Confinement.TrapConfined | src/cpu.c:1018-1073 | a delegated trap keeps the hart confined and ends in S-mode |
| Confinement.SelectDelegated | src/cpu.c:1092-1126 | a confined hart only ever selects delegated interrupts |
| Confinement.CsrWriteKeeps | src/cpu.c:48-75 | no CSR write a confined hart is allowed leaves the confinement |
| Confinement.SbiCallKeeps | src/sbi.c:82-124 | no SBI call does |
| Confinement.ExecuteKeeps | src/cpu.c:466-939 | no instruction does |
| Confinement.StepKeeps | src/cpu.c:1144-1154 | no step does, for any environment; masked, it takes no interrupt |
| Confinement.BootInvariant | src/sbi.c:10-35 | the state after reset and sbi_init is confined |
| Confinement.RunsStayConfined | src/cpu.c:944-1154 | every reachable state: below M-mode, delegation constant, MIE and MIP within it, hidden mstatus constant, satp bare or Sv39, x0 zero, SEIP truthful |
| Confinement.MaskedRuns | src/cpu.c:1092-1126 | once in S-mode with SIE clear, no interrupt is taken through any run until an sret or a write that sets SIE |
| Atomics.SextOrder | src/exec_a.c:13-17 | sign extension preserves the signed and the unsigned order of words |
| Atomics.WordAmoExact | src/exec_a.c:64-98 | an AMO computed in 64 bits means the 32-bit one for every memory word if and only if it does not compare or its operand keeps its place |
| Atomics.WordMaxDiffers | src/exec_a.c:64-98 | a word max of 5 with 2^32 stores 0 where the 32-bit one stores 5 |
| Atomics.WordAmoRefines | src/exec_a.c:57-102 | a word AMO in RAM stores the 32-bit result and returns the sign-extended old word |
| AtomicNumbers.AmoByNumbers | src/exec_a.c:57-102 | an AMO leaves in rd the 4 bytes at the address sign-extended, or the 8 bytes, and in memory the low 4 or 8 bytes of what swap, add, xor, and, or, min, max, minu or maxu makes of that number and rs2 |
| AtomicNumbers.LrByNumbers | src/exec_a.c:30-37 | LR leaves in rd the 4 bytes at the address sign-extended, or the 8 bytes, and reserves the virtual address |
| AtomicNumbers.ScByNumbers | src/exec_a.c:39-51 | SC at the reserved address stores the low 4 or 8 bytes of rs2, leaves 0 and drops the reservation |
| AtomicNumbers.FailedScByNumbers | src/exec_a.c:39-51 | SC elsewhere leaves 1 and nothing more than the translation did |
| Atomics.ExecuteFrame | src/exec_a.c:30-51 | nothing but a completed LR or a successful SC moves the reservation |
| Atomics.SuccessfulScLicensed | src/exec_a.c:30-51 | in any run, a successful SC away from 2^64 - 1 follows an LR at its address with no LR and no successful SC between |
| Atomics.ScsAtMostLrs | src/exec_a.c:30-51 | in any run, successful SCs away from 2^64 - 1 never outnumber LRs |
| Atomics.UnlicensedSc | src/exec_a.c:39-51 | with no reservation, a translatable SC leaves 0 in rd if its address is 2^64 - 1 and 1 otherwise |
| Atomics.UnlicensedScHappens | src/exec_a.c:39-51 | a concrete page table under which it does succeed |
| Atomics.FailedSc | src/exec_a.c:39-51 | a failed SC writes 1, keeps the reservation and changes memory in A and D bits only |
| Atomics.SuccessfulSc | src/exec_a.c:39-51 | a successful SC in RAM stores the low 4 or 8 bytes of rs2 at the translated address, changes other bytes in A and D bits only, writes 0 and drops the reservation |
| Emulator.Emulator.Execute | src/cpu.c:466-939 | the whole machine after any instruction |
| Emulator.Emulator.Step | src/cpu.c:1144-1154 | one step in place ends, or reaches the state of the specification, for every environment |
| Emulator.Emulator.Run | src/main.c:52-54 | the loop over the environment's answers takes steps until the hart is halted or the process ends, and reaches what the run reaches |
| Virtqueue.SlotsDistinctExactly | src/virtio.c:50-50 | the slots of a full queue are distinct across the 16-bit wrap if and only if its size divides 65536 |
| Virtqueue.PushAppends | src/virtio.c:56-62 | adding an entry appends it to the queue the ring holds |
| Virtqueue.PushOverwrites | src/virtio.c:56-62 | when the size does not divide 65536, at the wrap a push overwrites the oldest waiting entry |
| Virtqueue.EmptyExactly | src/virtio.c:44-47 | has_next is false if and only if the queue is empty |
| RequestBytes.RingsByBytes | src/virtio.c:15-62 | the ring index is the 16-bit number at byte 2, head slots 2 bytes from byte 4, used slots 8 bytes from byte 4 |
| Virtqueue.TakeFirst | src/virtio.c:49-54 | next delivers the first entry and leaves the rest |
| Virtqueue.RingIsFifo | src/virtio.c:44-54 | under any interleaving of offers, takes and writes elsewhere, the device receives each entry once and in order, and what it has not received still waits |
| Virtqueue.HeldIsWaiting | src/virtio.c:44-54 | the waiting heads that a notification serves are the queue the ring holds |
| Virtqueue.DeliveredThenWaiting | src/virtio.c:44-54 | after any legal interleaving, the heads delivered, then the heads a device finds from its cursor up to the index, are what waited at the start and everything offered, in order |
| Virtqueue.OverrunDelivers | src/virtio.c:49-62 | for any other size, a concrete ring and legal sequence of offers whose first take delivers the last head instead of the first |
| Virtqueue.FifoExactly | src/virtio.c:44-62 | the ring of a given size delivers a prefix of what waited and was offered, from every state and under every legal interleaving, if and only if the size divides 65536 |
| VirtioSlot.HalvesSpellAddress | src/virtio.c:118-124 | two half writes in either order leave exactly the address they spell |
| RequestBytes.RegisterMap | src/virtio.c:131-190 | the offsets of the queue registers and what a write to each changes |
| VirtioSlot.OnlyResetRewinds | src/virtio.c:131-190 | only a status write of zero moves the device's cursor back |
| VirtioSlot.ResetStartsEmpty | src/virtio.c:162-167 | after a reset, a queue placed in RAM starts empty if and only if its index is zero |
| VirtioSlot.Slot.WriteRegister | src/virtio.c:131-190 | the slot after a write to any queue register |
| VirtioSlot.Slot.RingHasNext | src/virtio.c:44-47 | compares the cursor with the index in guest RAM |
| VirtioSlot.Slot.RingNext | src/virtio.c:49-54 | returns the head at the cursor and advances it modulo 2^16, nothing else |
| VirtioSlot.Slot.RingPost | src/virtio.c:56-62 | guest RAM after posting: the entry, then the index |
| VirtioSlot.Slot.NotifyGuest | src/virtio.c:68-71 | sets the interrupt status bit and raises the slot's source |
| Block.DiskPutAdjacent | src/virtio_blk.c:47-56 | two adjacent disk writes are one, past the end of the image too |
| Block.WriteThenRead | src/virtio_blk.c:30-58 | a successful OUT followed by a successful IN of the same sectors delivers the bytes written |
| Block.ServeFrame | src/virtio_blk.c:73-100 | serving a request changes no byte outside its buffer and its status |
| Block.ParseFrame | src/virtio_blk.c:73-79 | a request reads the same wherever the bytes it is read from are untouched |
| Block.ServeAfterPosts | src/virtio_blk.c:73-100 | posting commutes with serving when requests stay off the used ring |
| Block.PostAllHolds | src/virtio.c:56-62 | the used ring holds the posted heads in order |
| Block.BatchPosts | src/virtio_blk.c:102-114 | after a notification used.idx has advanced by the number of requests modulo 2^16 and the used ring holds their heads in order |
| Block.BlockDevice.DoRead | src/virtio_blk.c:30-43 | whatever the short transfers, memory receives exactly the disk bytes moved: all of them, or fewer when the host reports an error, or all up to the end of the image, where the loop does not end |
| Block.BlockDevice.DoWrite | src/virtio_blk.c:45-58 | whatever the short transfers, the disk receives exactly the bytes moved, all of them unless the host reports an error; none at an offset that is negative as a signed number |
| Block.BlockDevice.PutId | src/virtio_blk.c:60-67 | the identity string, cut to the buffer |
| Block.BlockDevice.ReadDescriptor | src/virtio.c:30-38 | the descriptor at an index |
| Block.BlockDevice.ReadRequest | src/virtio_blk.c:74-80 | the request a head's chain of three spells |
| RequestBytes.RequestByBytes | src/virtio_blk.c:73-100 | from the bytes of the chain: type 0 puts image bytes from 512 * sector in the second descriptor's buffer, 1 the buffer in the image, 8 the identity in the buffer, any other nothing; then the status, 0 for a finished 0, 1 or 8 and 1 otherwise; then the head and four zeros in the used ring |
| RequestBytes.ReadLeaves | src/virtio_blk.c:83-86 | a finished type 0 leaves in the buffer what the image holds, and the image as it was |
| RequestBytes.WriteLeaves | src/virtio_blk.c:86-89 | a finished type 1 leaves in the image what the buffer held, and its other bytes as they were |
| Block.BlockDevice.HandleRequest | src/virtio_blk.c:73-100 | memory and disk after one request: data, status, used entry |
| Block.BlockDevice.Notify | src/virtio_blk.c:102-114 | the drain loop terminates, serves exactly the waiting entries in order as the sequential device would, posts their heads, brings the cursor to the index and notifies the guest |

## Left out

- Floating-point arithmetic (src/cpu.c:80-139, 196-461, 820-872): its result is an arbitrary value from the environment; floating registers are 64-bit words that loads and stores move exactly. fcsr is not kept.
- The console, SBI putchar, ELF and file loading, command line, terminal and boot wrappers: host input and output. An SBI putchar answers success and prints nothing.
- The virtio slot and the console as the hart sees them: arbitrary answers, interrupts, RAM writes and accesses to the modelled devices. The slot and its block device are modelled on their own, and not wired to the step.
- Virtio identification, feature and configuration registers: constant answers.
- Page tables, instructions, rings and descriptors outside RAM: the walk or fetch ends the run; ring and block operations require RAM.
- Host pointers past the end of a region that the wrapping dispatch test lets through: `Memory.MatchesIffInside` says exactly which accesses those are; the step treats them as outside RAM.
- Accesses that cross a page: one translation serves the whole access, as in the source, so the second page's entry is never consulted.
- Canonical-address, MXR and S-mode-fetch checks: the source makes none, so neither does the model.
- The signed quotient of the least word by -1, undefined in C: ends the run.
- MULH and MULHSU whose 128-bit signed product overflows in C: modelled as the wrapped product, which is what the stated widening computes modulo 2^128.
- elf mode, which stays in M-mode: the step covers it, the confinement theorem starts at sbi_init.
- A queue size of zero: the source divides by it; ring operations require a size from 1 to 65535.
- Block.BlockDevice.Notify: requires that reads lie within the image and that buffers, status bytes, the used ring, the available ring, descriptors and headers do not overlap where one is written; without that the source re-reads requests it may have overwritten.
- VirtualMemory.StoreThenLoad: for targets that miss the entries the later load walks; a store into its own page tables may redirect that load.
- Memory.RegionTable.FindRegion: the table is not part of the step, which dispatches by fixed windows; `Board.DispatchExactly` says where the two agree.
- Board.Dispatch: is stated for the board of src/main.c, RAM of 256 MiB at 0x80000000 and one disk.
- Emulator.Emulator.Translate: an entry that lies in a device window ends the run; the source would read the device.
- Emulator.Emulator.PhysRead: an access that the wrapping dispatch test lets through past the end of RAM ends the run.
- Emulator.Emulator.PhysWrite: the same for writes.
- Emulator.Emulator.SbiEcall: the byte that putchar prints is not modelled.
- Emulator.Emulator.Execute: floating-point results are arbitrary values from the environment.
- Emulator.Emulator.Step: the same, and devices other than the controller and the timer are arbitrary.
- VirtioSlot.Slot.WriteRegister: a queue notification changes no register; what it starts is `Block.BlockDevice.Notify`.
- Block.BlockDevice.HandleRequest: requires addresses in RAM, and a read to lie within the image, since past its end `Block.BlockDevice.DoRead` does not end.

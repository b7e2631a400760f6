/** The hart: registers, CSRs and their restricted views, trap entry, trap return, interrupt
    selection, and the SBI calls that stand in for firmware. */
module Hart {
  import opened Words
  import opened Mmu

  type RegFile = s: seq<bv64> | |s| == 32 witness seq(32, _ => 0)
  type CsrFile = s: seq<bv64> | |s| == 4096 witness seq(4096, _ => 0)

  datatype Cpu = Cpu(regs: RegFile, fregs: RegFile, csrs: CsrFile, pc: bv64, priv: bv2, halted: bool, steps: bv64)

  const MSTATUS: nat := 0x300
  const MEDELEG: nat := 0x302
  const MIDELEG: nat := 0x303
  const MIE: nat := 0x304
  const MTVEC: nat := 0x305
  const MCOUNTEREN: nat := 0x306
  const MEPC: nat := 0x341
  const MCAUSE: nat := 0x342
  const MTVAL: nat := 0x343
  const MIP: nat := 0x344
  const SSTATUS: nat := 0x100
  const SIE: nat := 0x104
  const STVEC: nat := 0x105
  const SEPC: nat := 0x141
  const SCAUSE: nat := 0x142
  const STVAL: nat := 0x143
  const SIP: nat := 0x144
  const SATP: nat := 0x180

  const EXC_ILLEGAL: bv64 := 2
  const EXC_BREAKPOINT: bv64 := 3
  const EXC_ECALL: bv64 := 8
  const EXC_FETCH_PAGE: bv64 := 12
  const EXC_LOAD_PAGE: bv64 := 13
  const EXC_STORE_PAGE: bv64 := 15

  function FaultCause(access: Access): bv64 {
    match access
    case Fetch => EXC_FETCH_PAGE
    case Store => EXC_STORE_PAGE
    case Load => EXC_LOAD_PAGE
  }

  // ---------------------------------------------------------------- Registers and CSRs

  // x0 is never written.
  function SetReg(c: Cpu, rd: bv5, v: bv64): Cpu {
    if rd == 0 then c else c.(regs := c.regs[rd as nat := v])
  }

  predicate IsCounter(a: nat) {
    a == 0xC00 || a == 0xC01 || a == 0xC02 || a == 0xB00 || a == 0xB02
  }

  function Masked(x: bv64, mask: bv64): bv64 {
    x & mask
  }

  function Cleared(x: bv64, mask: bv64): bv64 {
    x & !mask
  }

  function CsrRead(c: Cpu, a: nat): bv64
    requires a < 4096
  {
    if a == SSTATUS then StatusView(c.csrs[MSTATUS])
    else if a == SIE then Masked(c.csrs[MIE], c.csrs[MIDELEG])
    else if a == SIP then Masked(c.csrs[MIP], c.csrs[MIDELEG])
    else if IsCounter(a) then c.steps
    else c.csrs[a]
  }

  function StatusView(status: bv64): bv64 {
    status & 0xC_6122
  }

  // The part of mstatus that sstatus exposes is SIE, SPIE, SPP, FS, SUM and MXR: 0xC_6122.
  function MergeStatus(prev: bv64, v: bv64): bv64 {
    (prev & 0xFFFF_FFFF_FFF3_9EDD) | (v & 0xC_6122)
  }

  function MergeMie(prev: bv64, deleg: bv64, v: bv64): bv64 {
    (prev & !deleg) | (v & deleg)
  }

  function MergeMip(prev: bv64, v: bv64): bv64 {
    (prev & !0x2) | (v & 0x2)
  }

  // Unsupported translation modes are stored as bare.
  function LegalSatp(v: bv64): bv64 {
    var mode := v >> 60;
    if mode != 0 && mode != 8 then v & 0x0FFF_FFFF_FFFF_FFFF else v
  }

  function CsrWrite(c: Cpu, a: nat, v: bv64): Cpu
    requires a < 4096
  {
    if a == SSTATUS then c.(csrs := c.csrs[MSTATUS := MergeStatus(c.csrs[MSTATUS], v)])
    else if a == SIE then c.(csrs := c.csrs[MIE := MergeMie(c.csrs[MIE], c.csrs[MIDELEG], v)])
    else if a == SIP then c.(csrs := c.csrs[MIP := MergeMip(c.csrs[MIP], v)])
    else if a == SATP then c.(csrs := c.csrs[SATP := LegalSatp(v)])
    else c.(csrs := c.csrs[a := v])
  }

  function SetMip(c: Cpu, mip: bv64): Cpu {
    c.(csrs := c.csrs[MIP := mip])
  }

  function Raised(x: bv64, bit: bv64): bv64 {
    x | bit
  }

  predicate SumSet(status: bv64) {
    status & 0x4_0000 != 0
  }

  // What address translation reads of the hart.
  function ContextOf(c: Cpu): Context {
    Context(c.priv, c.csrs[SATP], SumSet(c.csrs[MSTATUS]))
  }

  // ---------------------------------------------------------------- Traps

  predicate Bit(x: bv64, b: bv6) {
    (x >> (b as bv64)) & 1 != 0
  }

  function EnterS(status: bv64, priv: bv2): bv64 {
    var s := status & !0x20;
    var s := if s & 0x2 != 0 then s | 0x20 else s;
    var s := s & !0x2 & !0x100;
    if priv == PRIV_S then s | 0x100 else s
  }

  function EnterM(status: bv64, priv: bv2): bv64 {
    var s := status & !0x80;
    var s := if s & 0x8 != 0 then s | 0x80 else s;
    var s := s & !0x8 & !0x1800;
    s | ((priv as bv64) << 11)
  }

  // Trap handlers start at a 4-byte boundary; vectored mode is not supported.
  function Vector(tvec: bv64): bv64 {
    tvec & !0x3
  }

  // The delegation bit of a cause: bit 63 tells interrupts from exceptions.
  predicate DelegationBit(medeleg: bv64, mideleg: bv64, cause: bv64) {
    Bit(if cause >> 63 != 0 then mideleg else medeleg, (cause & 0x3F) as bv6)
  }

  predicate SupervisorOrUser(priv: bv2) {
    priv <= PRIV_S
  }

  // The trap is taken in S-mode.
  predicate DelegatedTo(c: Cpu, cause: bv64) {
    SupervisorOrUser(c.priv) && DelegationBit(c.csrs[MEDELEG], c.csrs[MIDELEG], cause)
  }

  function Trap(c: Cpu, cause: bv64, tval: bv64): Cpu {
    if DelegatedTo(c, cause) then
      c.(csrs := c.csrs[SEPC := c.pc][SCAUSE := cause][STVAL := tval][MSTATUS := EnterS(c.csrs[MSTATUS], c.priv)],
         priv := PRIV_S,
         pc := Vector(c.csrs[STVEC]))
    else
      c.(csrs := c.csrs[MEPC := c.pc][MCAUSE := cause][MTVAL := tval][MSTATUS := EnterM(c.csrs[MSTATUS], c.priv)],
         priv := PRIV_M,
         pc := Vector(c.csrs[MTVEC]))
  }

  function LeaveS(status: bv64): bv64 {
    var s := status & !0x100 & !0x2;
    var s := if s & 0x20 != 0 then s | 0x2 else s;
    s | 0x20
  }

  function LeaveM(status: bv64): bv64 {
    var s := status & !0x1800 & !0x8;
    var s := if s & 0x80 != 0 then s | 0x8 else s;
    s | 0x80
  }

  function SppPriv(status: bv64): bv2 {
    if status & 0x100 != 0 then PRIV_S else PRIV_U
  }

  function MppPriv(status: bv64): bv2 {
    ((status & 0x1800) >> 11) as bv2
  }

  function Sret(c: Cpu): Cpu {
    if c.priv < PRIV_S then Trap(c, EXC_ILLEGAL, 0)
    else
      c.(csrs := c.csrs[MSTATUS := LeaveS(c.csrs[MSTATUS])],
         priv := SppPriv(c.csrs[MSTATUS]),
         pc := c.csrs[SEPC])
  }

  function Mret(c: Cpu): Cpu {
    if c.priv < PRIV_M then Trap(c, EXC_ILLEGAL, 0)
    else
      c.(csrs := c.csrs[MSTATUS := LeaveM(c.csrs[MSTATUS])],
         priv := MppPriv(c.csrs[MSTATUS]),
         pc := c.csrs[MEPC])
  }

  // ---------------------------------------------------------------- Interrupts

  // The highest set bit of x at or below b.
  function TopBit(x: bv64, b: bv6): (r: Option<bv6>)
    decreases b
  {
    if Bit(x, b) then Some(b) else if b == 0 then None else TopBit(x, b - 1)
  }

  lemma {:induction false} NoTopBit(b: bv6)
    ensures TopBit(0, b).None?
    decreases b
  {
    ZeroBit(b);
    hide Bit;
    if b != 0 {
      NoTopBit(b - 1);
    }
  }

  lemma ZeroBit(b: bv6)
    ensures !Bit(0, b)
  {
  }

  function IrqCause(b: bv6): bv64 {
    0x8000_0000_0000_0000 | (b as bv64)
  }

  function MPending(c: Cpu): bv64 {
    Cleared(Masked(c.csrs[MIP], c.csrs[MIE]), c.csrs[MIDELEG])
  }

  function SPending(c: Cpu): bv64 {
    Masked(Masked(c.csrs[MIP], c.csrs[MIE]), c.csrs[MIDELEG])
  }

  predicate MieSet(status: bv64) {
    status & 0x8 != 0
  }

  predicate SieSet(status: bv64) {
    status & 0x2 != 0
  }

  predicate MOpen(c: Cpu) {
    c.priv < PRIV_M || MieSet(c.csrs[MSTATUS])
  }

  predicate SOpen(c: Cpu) {
    c.priv == PRIV_U || (c.priv == PRIV_S && SieSet(c.csrs[MSTATUS]))
  }

  // The interrupt to take, if any: machine bits 11..0 before supervisor bits 9..0.
  function Select(c: Cpu): Option<bv6> {
    var m := if MOpen(c) then TopBit(MPending(c), 11) else None;
    if m.Some? then m
    else if SOpen(c) then TopBit(SPending(c), 9)
    else None
  }

  lemma IrqCauseBits(b: bv6)
    ensures IrqCause(b) >> 63 != 0 && (IrqCause(b) & 0x3F) as bv6 == b
  {
  }

  lemma BitOfAnd(x: bv64, y: bv64, b: bv6)
    ensures Bit(x & y, b) ==> Bit(y, b)
  {
  }

  // ---------------------------------------------------------------- SBI

  function PastEcall(pc: bv64): bv64 {
    pc + 4
  }

  function SbiReturn(c: Cpu, a0: bv64, a1: bv64): Cpu {
    c.(regs := c.regs[10 := a0][11 := a1], pc := PastEcall(c.pc))
  }

  function ClearStip(mip: bv64): bv64 {
    mip & 0xFFFF_FFFF_FFFF_FFDF
  }

  predicate SupportedEid(eid: bv64) {
    eid == 0 || eid == 1 || eid == 0x10 || eid == 0x5449_4D45 || eid == 0x5352_5354
  }

  const SBI_NOT_SUPPORTED: bv64 := 0xFFFF_FFFF_FFFF_FFFE

  // The hart and mtimecmp after an SBI call; the console byte of putchar is not modelled.
  function SbiCall(c: Cpu, timecmp: bv64): (Cpu, bv64) {
    var eid, fid, a0 := c.regs[17], c.regs[16], c.regs[10];
    if eid == 0 || (eid == 0x5449_4D45 && fid == 0) then
      (SbiReturn(c.(csrs := c.csrs[MIP := ClearStip(c.csrs[MIP])]), 0, 0), a0)
    else if eid == 1 then (SbiReturn(c, 0, 0), timecmp)
    else if eid == 0x10 then
      if fid == 0 then (SbiReturn(c, 0, 2), timecmp)
      else if fid == 3 then (SbiReturn(c, 0, if SupportedEid(a0) then 1 else 0), timecmp)
      else (SbiReturn(c, SBI_NOT_SUPPORTED, 0), timecmp)
    else if eid == 0x5352_5354 then (SbiReturn(c, 0, 0).(halted := true), timecmp)
    else (SbiReturn(c, SBI_NOT_SUPPORTED, 0), timecmp)
  }

  // MPP is S and MPIE is set, as an mret would have left them to be.
  function BootStatus(status: bv64): bv64 {
    (status & !0x1800) | 0x800 | 0x80
  }

  // sbi_init: delegate, then enter the kernel in S-mode.
  function SbiInit(c: Cpu, entry: bv64): Cpu {
    c.(csrs := c.csrs[MEDELEG := 0xB1FF][MIDELEG := 0x222][MCOUNTEREN := 0x7]
                     [MSTATUS := BootStatus(c.csrs[MSTATUS])],
       pc := entry, priv := PRIV_S)
  }

  // cpu_init on a zeroed hart.
  function Reset(): Cpu {
    Cpu(seq(32, _ => 0), seq(32, _ => 0), seq(4096, _ => 0)[MEDELEG := 0xFFFF][MIDELEG := 0xFFFF],
        0x8000_0000, PRIV_M, false, 0)
  }
}

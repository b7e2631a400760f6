/** What every run of the emulator keeps once sbi_init has dropped the hart into the kernel:
    it never re-enters M-mode, and the SEIP line always tells the truth. */
module Confinement {
  import opened Words
  import opened Memory
  import opened Mmu
  import opened Hart
  import opened Decode
  import opened Machine
  import opened TrapNesting
  import A = Alu
  import I = Interrupts
  import Plic

  // Only the three supervisor interrupts.
  predicate Within(x: bv64) {
    x & 0xFFFF_FFFF_FFFF_FDDD == 0
  }

  // Translation is off or Sv39.
  predicate SatpLegal(v: bv64) {
    v >> 60 == 0 || v >> 60 == 8
  }

  const DELEGATED_EXCEPTIONS: bv64 := 0xB1FF
  const DELEGATED_INTERRUPTS: bv64 := 0x222

  predicate SieOff(status: bv64) {
    status & 0x2 == 0
  }

  // What a run keeps fixed: the part of mstatus that sstatus omits; if inside, S-mode; and if
  // masked, S-mode with SIE clear.
  datatype Frame = Frame(hidden: bv64, masked: bool, inside: bool)

  // The hart stays below M-mode.
  predicate Confined(c: Cpu, k: Frame) {
    && SupervisorOrUser(c.priv)
    && c.csrs[MEDELEG] == DELEGATED_EXCEPTIONS
    && c.csrs[MIDELEG] == DELEGATED_INTERRUPTS
    && Within(c.csrs[MIP]) && Within(c.csrs[MIE])
    && Hidden(c.csrs[MSTATUS]) == k.hidden
    && (k.inside ==> c.priv == PRIV_S)
    && (k.masked ==> c.priv == PRIV_S && SieOff(c.csrs[MSTATUS]))
    && SatpLegal(c.csrs[SATP])
    && c.regs[0] == 0
  }

  predicate Invariant(m: Machine, k: Frame) {
    Confined(m.cpu, k) && Plic.SeipTruth(m.cpu.csrs[MIP], m.plic)
  }

  // ---------------------------------------------------------------- Bits

  lemma SeipFrame(x: bv64, y: bv64, p: Plic.Plic)
    requires x & 0x200 == y & 0x200
    ensures Plic.SeipTruth(x, p) == Plic.SeipTruth(y, p)
  {
    hide Plic.Fires;
  }

  lemma MergeMipBits(mip: bv64, v: bv64)
    requires Within(mip)
    ensures Within(MergeMip(mip, v))
    ensures MergeMip(mip, v) & 0x200 == mip & 0x200
  {
  }

  lemma StipBits(mip: bv64, on: bool)
    requires Within(mip)
    ensures Within(SetStip(mip, on))
    ensures SetStip(mip, on) & 0x200 == mip & 0x200
  {
  }

  lemma ClearStipBits(mip: bv64)
    requires Within(mip)
    ensures Within(ClearStip(mip))
    ensures ClearStip(mip) & 0x200 == mip & 0x200
  {
  }

  lemma DriveBits(mip: bv64, p: Plic.Plic)
    requires Within(mip)
    ensures Within(Plic.DriveSeip(mip, p))
  {
    assert (mip | 0x200) & 0xFFFF_FFFF_FFFF_FDDD == mip & 0xFFFF_FFFF_FFFF_FDDD;
  }

  lemma MergeMieBits(mie: bv64, v: bv64)
    requires Within(mie)
    ensures Within(MergeMie(mie, DELEGATED_INTERRUPTS, v))
  {
  }

  lemma MergeStatusBits(s: bv64, v: bv64)
    ensures Hidden(MergeStatus(s, v)) == Hidden(s)
  {
    HiddenOfOr(s & 0xFFFF_FFFF_FFF3_9EDD, v & 0xC_6122);
  }

  lemma HiddenOfOr(x: bv64, y: bv64)
    requires y & 0xFFFF_FFFF_FFF3_9EDD == 0
    ensures Hidden(x | y) == Hidden(x)
  {
  }

  lemma LegalSatpBits(v: bv64)
    ensures SatpLegal(LegalSatp(v))
  {
    assert (v & 0x0FFF_FFFF_FFFF_FFFF) >> 60 == 0;
  }

  lemma LeaveSKeeps(s: bv64)
    ensures Hidden(LeaveS(s)) == Hidden(s)
  {
  }

  lemma EnterSMasks(s: bv64, priv: bv2)
    ensures SieOff(EnterS(s, priv))
  {
  }

  lemma MergeStatusMask(s: bv64, v: bv64)
    requires SieOff(v)
    ensures SieOff(MergeStatus(s, v))
  {
    assert ((s & 0xFFFF_FFFF_FFF3_9EDD) | (v & 0xC_6122)) & 0x2 == v & 0x2;
  }

  // ---------------------------------------------------------------- Traps are delegated

  lemma ExceptionsDelegated()
    ensures DelegationBit(DELEGATED_EXCEPTIONS, DELEGATED_INTERRUPTS, EXC_ILLEGAL)
    ensures DelegationBit(DELEGATED_EXCEPTIONS, DELEGATED_INTERRUPTS, EXC_BREAKPOINT)
    ensures DelegationBit(DELEGATED_EXCEPTIONS, DELEGATED_INTERRUPTS, EXC_ECALL)
    ensures forall a :: DelegationBit(DELEGATED_EXCEPTIONS, DELEGATED_INTERRUPTS, FaultCause(a))
  {
    forall a ensures DelegationBit(DELEGATED_EXCEPTIONS, DELEGATED_INTERRUPTS, FaultCause(a)) {
      match a
      case Fetch =>
      case Load =>
      case Store =>
    }
  }

  lemma NoMachineInterrupt(c: Cpu)
    requires Within(c.csrs[MIP]) && c.csrs[MIDELEG] == DELEGATED_INTERRUPTS
    ensures MPending(c) == 0
  {
    assert !DELEGATED_INTERRUPTS == 0xFFFF_FFFF_FFFF_FDDD;
    NoneLeft(c.csrs[MIP], c.csrs[MIE]);
  }

  lemma NoneLeft(x: bv64, y: bv64)
    requires x & 0xFFFF_FFFF_FFFF_FDDD == 0
    ensures x & y & 0xFFFF_FFFF_FFFF_FDDD == 0
  {
  }

  // The interrupt a confined hart selects is a delegated one.
  lemma SelectDelegated(c: Cpu, k: Frame)
    requires Confined(c, k)
    ensures Select(c).Some? ==> DelegationBit(DELEGATED_EXCEPTIONS, DELEGATED_INTERRUPTS, IrqCause(Select(c).value))
    ensures Select(c).Some? ==> SOpen(c)
  {
    hide Within, MPending, SPending, TopBit, Bit, Hidden, SatpLegal, SieOff, SupervisorOrUser, IrqCause, MOpen, SOpen;
    NoMachineInterrupt(c);
    I.TopBitHighest(MPending(c), 11);
    I.TopBitHighest(SPending(c), 9);
    if TopBit(MPending(c), 11).Some? {
      ZeroBit(TopBit(MPending(c), 11).value);
    }
    if TopBit(SPending(c), 9).Some? {
      DelegatedBitSet(c, TopBit(SPending(c), 9).value);
    }
  }

  lemma DelegatedBitSet(c: Cpu, b: bv6)
    requires c.csrs[MIDELEG] == DELEGATED_INTERRUPTS && Bit(SPending(c), b)
    ensures DelegationBit(DELEGATED_EXCEPTIONS, DELEGATED_INTERRUPTS, IrqCause(b))
  {
    hide Bit;
    BitOfAnd(c.csrs[MIP] & c.csrs[MIE], c.csrs[MIDELEG], b);
    IrqCauseBits(b);
  }

  lemma TrapConfined(c: Cpu, k: Frame, cause: bv64, tval: bv64)
    requires Confined(c, k) && DelegationBit(DELEGATED_EXCEPTIONS, DELEGATED_INTERRUPTS, cause)
    ensures Confined(Trap(c, cause, tval), k)
    ensures Trap(c, cause, tval).csrs[MIP] == c.csrs[MIP]
    ensures Trap(c, cause, tval).priv == PRIV_S
  {
    hide EnterS, EnterM, Vector, Within, Hidden, SatpLegal, SieOff, DelegationBit;
    EnterSKeeps(c.csrs[MSTATUS], c.priv);
    EnterSMasks(c.csrs[MSTATUS], c.priv);
  }

  // ---------------------------------------------------------------- Devices

  // Devices reach the hart through the interrupt lines alone.
  predicate OnlyLines(m: Machine, m': Machine) {
    && m'.cpu == SetMip(m.cpu, m'.cpu.csrs[MIP])
    && m'.reservation == m.reservation
    && |m'.ram.bytes| == |m.ram.bytes| && m'.ram.base == m.ram.base
  }

  // A step that only moves interrupt lines keeps the invariant if the new lines are right.
  lemma LinesKeep(m: Machine, m': Machine, k: Frame)
    requires Invariant(m, k) && OnlyLines(m, m')
    requires Within(m'.cpu.csrs[MIP]) && Plic.SeipTruth(m'.cpu.csrs[MIP], m'.plic)
    ensures Invariant(m', k)
  {
    hide Within, Hidden, SatpLegal, SieOff, SupervisorOrUser, Plic.SeipTruth;
  }

  lemma PlicEffectKeeps(m: Machine, e: Plic.Effect, k: Frame)
    requires Invariant(m, k)
    requires e.drives || e.p == m.plic
    ensures Invariant(PlicEffect(m, e), k) && OnlyLines(m, PlicEffect(m, e))
  {
    hide Within, Hidden, SatpLegal, SieOff, SupervisorOrUser, Plic.SeipTruth, Plic.DriveSeip;
    DriveBits(m.cpu.csrs[MIP], e.p);
    Plic.DriveSeipTruth(m.cpu.csrs[MIP], e.p);
    LinesKeep(m, PlicEffect(m, e), k);
  }

  lemma DoKeeps(m: Machine, d: Deed, k: Frame)
    requires Invariant(m, k)
    ensures Invariant(Do(m, d), k) && OnlyLines(m, Do(m, d))
  {
    hide Confined, Plic.SeipTruth, PlicEffect, Plic.Read, Plic.Write, Plic.With, U32Of, MaskOf;
    assert m.cpu.csrs[MIP := m.cpu.csrs[MIP]] == m.cpu.csrs;
    match d
    case Signals(irq) => PlicEffectKeeps(m, Plic.Effect(Plic.Raise(m.plic, irq), 0, 1 <= irq < Plic.SOURCES), k);
    case ReadsPlic(offset) =>
      Plic.QuietAccess(m.plic, offset, 0, 0);
      PlicEffectKeeps(m, Plic.Read(m.plic, offset), k);
    case WritesPlic(offset, v) =>
      Plic.QuietAccess(m.plic, offset, U32Of(v), MaskOf(v));
      PlicEffectKeeps(m, Plic.Write(m.plic, offset, U32Of(v), MaskOf(v)), k);
    case SetsTimer(_) =>
  }

  lemma {:induction false} DoAllKeeps(m: Machine, deeds: seq<Deed>, k: Frame)
    requires Invariant(m, k)
    ensures Invariant(DoAll(m, deeds), k) && OnlyLines(m, DoAll(m, deeds))
    decreases |deeds|
  {
    hide Invariant, Do;
    if deeds == [] {
      assert m.cpu.csrs[MIP := m.cpu.csrs[MIP]] == m.cpu.csrs;
    } else {
      DoKeeps(m, deeds[0], k);
      DoAllKeeps(Do(m, deeds[0]), deeds[1..], k);
    }
  }

  lemma AnswerKeeps(m: Machine, r: Reply, k: Frame)
    requires Invariant(m, k) && r.Answers?
    ensures Invariant(Answer(m, r), k) && OnlyLines(m, Answer(m, r))
  {
    hide Confined, DoAll, Plic.SeipTruth;
    var m' := if |r.dma| == |m.ram.bytes| then m.(ram := m.ram.(bytes := r.dma)) else m;
    DoAllKeeps(m', r.deeds, k);
  }

  lemma PhysReadKeeps(m: Machine, pa: bv64, w: nat, r: Reply, k: Frame)
    requires w <= 8 && Invariant(m, k) && PhysRead(m, pa, w, r).Some?
    ensures Invariant(PhysRead(m, pa, w, r).value.0, k) && OnlyLines(m, PhysRead(m, pa, w, r).value.0)
  {
    hide Invariant, Answer, PlicEffect, Plic.Read, Truncate, WordOf, FromU32, Place;
    assert m.cpu.csrs[MIP := m.cpu.csrs[MIP]] == m.cpu.csrs;
    var a := Place(pa);
    if !InRam(m.ram, a, w) && InOther(a, w) {
      AnswerKeeps(m, r, k);
    } else if !InRam(m.ram, a, w) && InPlic(a, w) {
      Plic.QuietAccess(m.plic, a - 0x0C00_0000, 0, 0);
      PlicEffectKeeps(m, Plic.Read(m.plic, a - 0x0C00_0000), k);
    }
  }

  lemma PhysWriteKeeps(m: Machine, pa: bv64, w: nat, v: bv64, r: Reply, k: Frame)
    requires w <= 8 && Invariant(m, k) && PhysWrite(m, pa, w, v, r).Some?
    ensures Invariant(PhysWrite(m, pa, w, v, r).value, k) && OnlyLines(m, PhysWrite(m, pa, w, v, r).value)
  {
    hide Confined, Plic.SeipTruth, Answer, PlicEffect, Plic.Write, Truncate, LowBytes, U32Of, MaskOf, Place;
    assert m.cpu.csrs[MIP := m.cpu.csrs[MIP]] == m.cpu.csrs;
    var a, t := Place(pa), Truncate(v, w);
    if !InRam(m.ram, a, w) && InOther(a, w) {
      AnswerKeeps(m, r, k);
    } else if !InRam(m.ram, a, w) && InPlic(a, w) {
      Plic.QuietAccess(m.plic, a - 0x0C00_0000, U32Of(t), MaskOf(t));
      PlicEffectKeeps(m, Plic.Write(m.plic, a - 0x0C00_0000, U32Of(t), MaskOf(t)), k);
    }
  }

  // ---------------------------------------------------------------- Translation

  lemma TranslateKeeps(m: Machine, va: bv64, access: Access, k: Frame)
    requires Invariant(m, k) && Translate(m, va, access).Some?
    ensures var (m', pa) := Translate(m, va, access).value;
            && Invariant(m', k)
            && m'.reservation == m.reservation
            && (m'.cpu == m.cpu || (pa == MMU_FAULT && m'.cpu == Trap(m.cpu, FaultCause(access), va)))
  {
    hide Confined, Trap, Resolve, Touch, ContextOf, Plic.SeipTruth, DelegationBit;
    ExceptionsDelegated();
    TrapConfined(m.cpu, k, FaultCause(access), va);
  }

  // An access leaves the hart alone but for the lines, or takes its page fault.
  predicate AccessEffect(m: Machine, m': Machine, faulted: bool, cause: bv64, va: bv64) {
    && m'.reservation == m.reservation
    && if faulted then m'.cpu == m.cpu || m'.cpu == Trap(m.cpu, cause, va)
       else m'.cpu == SetMip(m.cpu, m'.cpu.csrs[MIP])
  }

  lemma VmReadKeeps(m: Machine, va: bv64, w: nat, r: Reply, k: Frame)
    requires w <= 8 && Invariant(m, k) && !VmRead(m, va, w, r).Halted?
    ensures var a := VmRead(m, va, w, r);
            Invariant(a.m, k) && AccessEffect(m, a.m, a.Faulted?, FaultCause(Load), va)
  {
    hide Invariant, Trap, Translate, PhysRead;
    TranslateKeeps(m, va, Load, k);
    var (m', pa) := Translate(m, va, Load).value;
    if pa != MMU_FAULT {
      PhysReadKeeps(m', pa, w, r, k);
    }
  }

  lemma VmWriteKeeps(m: Machine, va: bv64, w: nat, v: bv64, r: Reply, k: Frame)
    requires w <= 8 && Invariant(m, k) && !VmWrite(m, va, w, v, r).Halted?
    ensures var a := VmWrite(m, va, w, v, r);
            Invariant(a.m, k) && AccessEffect(m, a.m, a.Faulted?, FaultCause(Store), va)
  {
    hide Invariant, Trap, Translate, PhysWrite;
    TranslateKeeps(m, va, Store, k);
    var (m', pa) := Translate(m, va, Store).value;
    if pa != MMU_FAULT {
      PhysWriteKeeps(m', pa, w, v, r, k);
    }
  }

  // ---------------------------------------------------------------- Instructions

  lemma NotZero(rd: bv5)
    ensures rd != 0 ==> rd as nat != 0
  {
    if rd != 0 {
      assert (rd as nat) as bv5 == rd;
    }
  }

  lemma SetRegKeeps(m: Machine, rd: bv5, v: bv64, k: Frame)
    requires Invariant(m, k)
    ensures Invariant(m.(cpu := SetReg(m.cpu, rd, v)), k)
  {
    hide Within, Hidden, SatpLegal, SieOff, SupervisorOrUser, Plic.SeipTruth;
    NotZero(rd);
  }

  lemma PcKeeps(m: Machine, pc: bv64, k: Frame)
    requires Invariant(m, k)
    ensures Invariant(m.(cpu := m.cpu.(pc := pc)), k)
  {
    hide Within, Hidden, SatpLegal, SieOff, SupervisorOrUser, Plic.SeipTruth;
  }

  lemma AdvanceKeeps(m: Machine, size: bv64, k: Frame)
    requires Invariant(m, k)
    ensures Invariant(Advance(m, size), k)
  {
    hide A.Add, Invariant;
    PcKeeps(m, A.Add(m.cpu.pc, size), k);
  }

  lemma RetireKeeps(m: Machine, rd: bv5, v: bv64, size: bv64, k: Frame)
    requires Invariant(m, k)
    ensures Invariant(Retire(m, rd, v, size), k)
  {
    hide Invariant, SetReg, Advance;
    SetRegKeeps(m, rd, v, k);
    AdvanceKeeps(m.(cpu := SetReg(m.cpu, rd, v)), size, k);
  }

  lemma TrapKeeps(m: Machine, cause: bv64, tval: bv64, k: Frame)
    requires Invariant(m, k) && DelegationBit(DELEGATED_EXCEPTIONS, DELEGATED_INTERRUPTS, cause)
    ensures Invariant(m.(cpu := Trap(m.cpu, cause, tval)), k)
  {
    hide Confined, Trap, Plic.SeipTruth, DelegationBit;
    TrapConfined(m.cpu, k, cause, tval);
  }

  lemma FregKeeps(m: Machine, f: RegFile, k: Frame)
    requires Invariant(m, k)
    ensures Invariant(m.(cpu := m.cpu.(fregs := f)), k)
  {
    hide Within, Hidden, SatpLegal, SieOff, SupervisorOrUser, Plic.SeipTruth;
  }

  lemma ExecLoadKeeps(m: Machine, i: Instruction, r: Reply, k: Frame)
    requires Invariant(m, k) && ExecLoad(m, i, r).Next?
    ensures Invariant(ExecLoad(m, i, r).m, k)
  {
    hide Invariant, VmRead, Retire, Extend, A.Add;
    var w, va := LoadKind(i.funct3).value.0, A.Add(Reg(m, i.rs1), i.imm);
    VmReadKeeps(m, va, w, r, k);
    match VmRead(m, va, w, r)
    case Got(m', v) => RetireKeeps(m', i.rd, Extend(v, w, LoadKind(i.funct3).value.1), i.size, k);
    case Faulted(_) =>
  }

  lemma ExecStoreKeeps(m: Machine, i: Instruction, r: Reply, k: Frame)
    requires Invariant(m, k) && ExecStore(m, i, r).Next?
    ensures Invariant(ExecStore(m, i, r).m, k)
  {
    hide Invariant, VmWrite, Advance, A.Add;
    var w, va := StoreWidth(i.funct3).value, A.Add(Reg(m, i.rs1), i.imm);
    VmWriteKeeps(m, va, w, Reg(m, i.rs2), r, k);
    match VmWrite(m, va, w, Reg(m, i.rs2), r)
    case Got(m', _) => AdvanceKeeps(m', i.size, k);
    case Faulted(_) =>
  }

  lemma ExecFpLoadKeeps(m: Machine, i: Instruction, r: Reply, k: Frame)
    requires Invariant(m, k) && ExecFpLoad(m, i, r).Next?
    ensures Invariant(ExecFpLoad(m, i, r).m, k)
  {
    hide Invariant, VmRead, Advance, A.Add, MergeLow;
    var w, va := if i.funct3 == 2 then 4 else 8, A.Add(Reg(m, i.rs1), i.imm);
    VmReadKeeps(m, va, w, r, k);
    match VmRead(m, va, w, r)
    case Got(m', v) =>
      var f := m'.cpu.fregs[i.rd as nat := if i.funct3 == 2 then MergeLow(m'.cpu.fregs[i.rd as nat], v) else v];
      FregKeeps(m', f, k);
      AdvanceKeeps(m'.(cpu := m'.cpu.(fregs := f)), i.size, k);
    case Faulted(_) =>
  }

  lemma ExecFpStoreKeeps(m: Machine, i: Instruction, r: Reply, k: Frame)
    requires Invariant(m, k) && ExecFpStore(m, i, r).Next?
    ensures Invariant(ExecFpStore(m, i, r).m, k)
  {
    hide Invariant, VmWrite, Advance, A.Add;
    var w, va, f := if i.funct3 == 2 then 4 else 8, A.Add(Reg(m, i.rs1), i.imm), m.cpu.fregs[i.rs2 as nat];
    VmWriteKeeps(m, va, w, f, r, k);
    match VmWrite(m, va, w, f, r)
    case Got(m', _) => AdvanceKeeps(m', i.size, k);
    case Faulted(_) =>
  }

  lemma ExecFpKeeps(m: Machine, i: Instruction, fused: bool, f: FpResult, k: Frame)
    requires Invariant(m, k) && ExecFp(m, i, fused, f).Next?
    ensures Invariant(ExecFp(m, i, fused, f).m, k)
  {
    hide Invariant, Advance, Retire;
    match f
    case FpReg(v) =>
      var g := m.cpu.fregs[i.rd as nat := v];
      FregKeeps(m, g, k);
      AdvanceKeeps(m.(cpu := m.cpu.(fregs := g)), i.size, k);
    case IntReg(v) => RetireKeeps(m, i.rd, v, i.size, k);
    case _ =>
  }

  lemma AmoReadKeeps(m: Machine, pa: bv64, funct3: bv3, r: Reply, k: Frame)
    requires Invariant(m, k) && AmoRead(m, pa, funct3, r).Some?
    ensures Invariant(AmoRead(m, pa, funct3, r).value.0, k)
    ensures OnlyLines(m, AmoRead(m, pa, funct3, r).value.0)
  {
    hide Invariant, PhysRead, OnlyLines, A.Sext32, A.Low32;
    PhysReadKeeps(m, pa, AmoWidth(funct3), r, k);
  }

  lemma ExecLrKeeps(m: Machine, i: Instruction, r: Reply, k: Frame)
    requires Invariant(m, k) && ExecLr(m, i, r).Next?
    ensures Invariant(ExecLr(m, i, r).m, k)
  {
    hide Confined, Plic.SeipTruth, Translate, AmoRead, SetReg;
    var va := Reg(m, i.rs1);
    TranslateKeeps(m, va, Load, k);
    var (m', pa) := Translate(m, va, Load).value;
    if pa != MMU_FAULT {
      var m1 := m'.(reservation := va);
      AmoReadKeeps(m1, pa, i.funct3, r, k);
      var (m2, v) := AmoRead(m1, pa, i.funct3, r).value;
      SetRegKeeps(m2, i.rd, v, k);
    }
  }

  lemma ExecScKeeps(m: Machine, i: Instruction, r: Reply, k: Frame)
    requires Invariant(m, k) && ExecSc(m, i, r).Next?
    ensures Invariant(ExecSc(m, i, r).m, k)
  {
    hide Confined, Plic.SeipTruth, Translate, PhysWrite, SetReg;
    var va := Reg(m, i.rs1);
    TranslateKeeps(m, va, Store, k);
    var (m', pa) := Translate(m, va, Store).value;
    if pa != MMU_FAULT {
      if va != m'.reservation {
        SetRegKeeps(m', i.rd, 1, k);
      } else {
        PhysWriteKeeps(m', pa, AmoWidth(i.funct3), Reg(m', i.rs2), r, k);
        var m2 := PhysWrite(m', pa, AmoWidth(i.funct3), Reg(m', i.rs2), r).value;
        SetRegKeeps(m2, i.rd, 0, k);
      }
    }
  }

  lemma ExecAmoKeeps(m: Machine, i: Instruction, first: Reply, second: Reply, k: Frame)
    requires Invariant(m, k) && ExecAmo(m, i, first, second).Next?
    ensures Invariant(ExecAmo(m, i, first, second).m, k)
  {
    hide Invariant, Translate, AmoRead, PhysWrite, SetReg, AmoResult, Funct5;
    var va := Reg(m, i.rs1);
    TranslateKeeps(m, va, Store, k);
    var (m', pa) := Translate(m, va, Store).value;
    if pa != MMU_FAULT {
      AmoReadKeeps(m', pa, i.funct3, first, k);
      var (m2, prev) := AmoRead(m', pa, i.funct3, first).value;
      var v := AmoResult(Funct5(i.funct7), prev, Reg(m2, i.rs2));
      PhysWriteKeeps(m2, pa, AmoWidth(i.funct3), v, second, k);
      SetRegKeeps(PhysWrite(m2, pa, AmoWidth(i.funct3), v, second).value, i.rd, prev, k);
    }
  }

  lemma ExecAtomicKeeps(m: Machine, i: Instruction, env: Env, k: Frame)
    requires Invariant(m, k) && ExecAtomic(m, i, env).Next?
    ensures Invariant(ExecAtomic(m, i, env).m, k)
  {
    hide Invariant, ExecLr, ExecSc, ExecAmo, Advance, Funct5;
    var f := Funct5(i.funct7);
    if f == 2 {
      ExecLrKeeps(m, i, env.first, k);
      AdvanceKeeps(ExecLr(m, i, env.first).m, i.size, k);
    } else if f == 3 {
      ExecScKeeps(m, i, env.first, k);
      AdvanceKeeps(ExecSc(m, i, env.first).m, i.size, k);
    } else {
      ExecAmoKeeps(m, i, env.first, env.second, k);
      AdvanceKeeps(ExecAmo(m, i, env.first, env.second).m, i.size, k);
    }
  }

  lemma SbiReturnKeeps(m: Machine, a0: bv64, a1: bv64, k: Frame)
    requires Invariant(m, k)
    ensures Invariant(m.(cpu := SbiReturn(m.cpu, a0, a1)), k)
    ensures Invariant(m.(cpu := SbiReturn(m.cpu, a0, a1).(halted := true)), k)
  {
    hide Within, Hidden, SatpLegal, SieOff, SupervisorOrUser, Plic.SeipTruth, PastEcall;
  }

  lemma ClearStipKeeps(m: Machine, k: Frame)
    requires Invariant(m, k)
    ensures Invariant(m.(cpu := m.cpu.(csrs := m.cpu.csrs[MIP := ClearStip(m.cpu.csrs[MIP])])), k)
  {
    hide Within, Hidden, SatpLegal, SieOff, SupervisorOrUser, Plic.SeipTruth, ClearStip;
    ClearStipBits(m.cpu.csrs[MIP]);
    SeipFrame(m.cpu.csrs[MIP], ClearStip(m.cpu.csrs[MIP]), m.plic);
  }

  lemma SbiCallKeeps(m: Machine, k: Frame)
    requires Invariant(m, k)
    ensures var (cpu, t) := SbiCall(m.cpu, m.timecmp); Invariant(m.(cpu := cpu, timecmp := t), k)
  {
    hide Invariant, SbiReturn, ClearStip, SupportedEid;
    var eid, fid := m.cpu.regs[17], m.cpu.regs[16];
    if eid == 0 || (eid == 0x5449_4D45 && fid == 0) {
      var cleared := m.cpu.(csrs := m.cpu.csrs[MIP := ClearStip(m.cpu.csrs[MIP])]);
      ClearStipKeeps(m, k);
      SbiReturnKeeps(m.(cpu := cleared), 0, 0, k);
      TimerKeeps(m.(cpu := SbiReturn(cleared, 0, 0)), m.cpu.regs[10], k);
    } else if eid == 1 || eid == 0x5352_5354 {
      SbiReturnKeeps(m, 0, 0, k);
    } else if eid == 0x10 && fid == 0 {
      SbiReturnKeeps(m, 0, 2, k);
    } else if eid == 0x10 && fid == 3 {
      SbiReturnKeeps(m, 0, if SupportedEid(m.cpu.regs[10]) then 1 else 0, k);
    } else {
      SbiReturnKeeps(m, SBI_NOT_SUPPORTED, 0, k);
    }
  }

  lemma TimerKeeps(m: Machine, t: bv64, k: Frame)
    requires Invariant(m, k)
    ensures Invariant(m.(timecmp := t), k)
  {
    hide Confined, Plic.SeipTruth;
  }

  lemma SretKeeps(m: Machine, k: Frame)
    requires Invariant(m, k) && !k.masked && !k.inside
    ensures Invariant(m.(cpu := Sret(m.cpu)), k)
  {
    hide Within, Hidden, SatpLegal, SieOff, Plic.SeipTruth, LeaveS, Trap, DelegationBit;
    ExceptionsDelegated();
    TrapKeeps(m, EXC_ILLEGAL, 0, k);
    LeaveSKeeps(m.cpu.csrs[MSTATUS]);
  }

  // mret and ecall from a confined hart are ordinary delegated traps.
  lemma LowPrivilege(priv: bv2)
    requires SupervisorOrUser(priv)
    ensures priv < PRIV_M
    ensures priv != PRIV_S ==> EcallCause(priv) == EXC_ECALL
  {
  }

  lemma ExecEnvironmentKeeps(m: Machine, imm: bv64, k: Frame)
    requires Invariant(m, k) && ExecEnvironment(m, imm).Next?
    requires k.masked || k.inside ==> imm != 0x102
    ensures Invariant(ExecEnvironment(m, imm).m, k)
  {
    hide Within, Hidden, SatpLegal, SieOff, Plic.SeipTruth, SbiCall, Sret, Trap, Advance, SupervisorOrUser;
    hide EcallCause, IsSfence, DelegationBit;
    ExceptionsDelegated();
    LowPrivilege(m.cpu.priv);
    if imm == 0 {
      if m.cpu.priv == PRIV_S {
        SbiCallKeeps(m, k);
      } else {
        TrapKeeps(m, EXC_ECALL, 0, k);
      }
    } else if imm == 1 {
      TrapKeeps(m, EXC_BREAKPOINT, 0, k);
    } else if imm == 0x102 {
      SretKeeps(m, k);
    } else if imm == 0x302 {
      TrapKeeps(m, EXC_ILLEGAL, 0, k);
    } else {
      AdvanceKeeps(m, 4, k);
    }
  }

  // A CSR the hart may access below M-mode is none of the machine CSRs.
  lemma LowCsr(priv: bv2, imm: bv64)
    requires SupervisorOrUser(priv) && !Denied(priv, imm)
    ensures var a := CsrIndex(imm); a != MSTATUS && a != MEDELEG && a != MIDELEG && a != MIE && a != MIP
  {
    var b := (imm & 0xFFF) as bv12;
    assert ((imm >> 8) & 3) as bv2 == ((b >> 8) & 3) as bv2;
    assert (b as nat) as bv12 == b;
  }

  // The tracked CSRs may change to any value the invariant allows.
  predicate AllowedCsr(m: Machine, a: nat, v: bv64, k: Frame)
    requires a < 4096
  {
    && a != MEDELEG && a != MIDELEG
    && (a == MSTATUS ==> Hidden(v) == k.hidden && (k.masked ==> SieOff(v)))
    && (a == MIE ==> Within(v))
    && (a == MIP ==> Within(v) && Plic.SeipTruth(v, m.plic))
    && (a == SATP ==> SatpLegal(v))
  }

  lemma SetCsrKeeps(m: Machine, a: nat, v: bv64, k: Frame)
    requires Invariant(m, k) && a < 4096 && AllowedCsr(m, a, v, k)
    ensures Invariant(m.(cpu := m.cpu.(csrs := m.cpu.csrs[a := v])), k)
  {
    hide Within, Hidden, SatpLegal, SieOff, SupervisorOrUser, Plic.SeipTruth;
  }

  lemma CsrWriteKeeps(m: Machine, a: nat, v: bv64, k: Frame)
    requires Invariant(m, k)
    requires a < 4096 && a != MSTATUS && a != MEDELEG && a != MIDELEG && a != MIE && a != MIP
    requires k.masked && a == SSTATUS ==> SieOff(v)
    ensures Invariant(m.(cpu := CsrWrite(m.cpu, a, v)), k)
  {
    hide Within, Hidden, SatpLegal, SieOff, SupervisorOrUser, Plic.SeipTruth, MergeStatus, MergeMie, MergeMip;
    hide LegalSatp;
    if a == SSTATUS {
      MergeStatusBits(m.cpu.csrs[MSTATUS], v);
      if k.masked {
        MergeStatusMask(m.cpu.csrs[MSTATUS], v);
      }
      SetCsrKeeps(m, MSTATUS, MergeStatus(m.cpu.csrs[MSTATUS], v), k);
    } else if a == SIE {
      MergeMieBits(m.cpu.csrs[MIE], v);
      SetCsrKeeps(m, MIE, MergeMie(m.cpu.csrs[MIE], DELEGATED_INTERRUPTS, v), k);
    } else if a == SIP {
      MergeMipBits(m.cpu.csrs[MIP], v);
      SeipFrame(m.cpu.csrs[MIP], MergeMip(m.cpu.csrs[MIP], v), m.plic);
      SetCsrKeeps(m, MIP, MergeMip(m.cpu.csrs[MIP], v), k);
    } else if a == SATP {
      LegalSatpBits(v);
      SetCsrKeeps(m, SATP, LegalSatp(v), k);
    } else {
      SetCsrKeeps(m, a, v, k);
    }
  }

  // The CSR instruction writes sstatus with SIE set.
  predicate SetsSie(c: Cpu, i: Instruction) {
    CsrIndex(i.imm) == SSTATUS && CsrStore(c, i).Some? && !SieOff(CsrStore(c, i).value)
  }

  predicate IsSret(i: Instruction) {
    i.opcode == OP_SYSTEM && i.funct3 == 0 && i.imm == 0x102
  }

  // The two ways out of a masked state: sret, and writing SIE through sstatus.
  predicate Unmasks(c: Cpu, i: Instruction) {
    i.opcode == OP_SYSTEM && if i.funct3 == 0 then i.imm == 0x102 else SetsSie(c, i)
  }

  lemma ExecCsrKeeps(m: Machine, i: Instruction, k: Frame)
    requires Invariant(m, k) && ExecCsr(m, i).Next?
    requires k.masked ==> !SetsSie(m.cpu, i)
    ensures Invariant(ExecCsr(m, i).m, k)
  {
    hide Within, Hidden, SatpLegal, SieOff, SupervisorOrUser, Plic.SeipTruth, Denied, CsrIndex, CsrStore;
    hide CsrWrite, CsrRead, Retire, Trap, DelegationBit;
    ExceptionsDelegated();
    if Denied(m.cpu.priv, i.imm) {
      TrapKeeps(m, EXC_ILLEGAL, 0, k);
    } else {
      LowCsr(m.cpu.priv, i.imm);
      var a, s := CsrIndex(i.imm), CsrStore(m.cpu, i);
      if s.Some? {
        CsrWriteKeeps(m, a, s.value, k);
      }
      var m' := if s.Some? then m.(cpu := CsrWrite(m.cpu, a, s.value)) else m;
      RetireKeeps(m', i.rd, CsrRead(m.cpu, a), i.size, k);
    }
  }

  lemma JumpKeeps(m: Machine, rd: bv5, v: bv64, pc: bv64, k: Frame)
    requires Invariant(m, k)
    ensures Invariant(m.(cpu := SetReg(m.cpu, rd, v).(pc := pc)), k)
  {
    hide Invariant, SetReg;
    SetRegKeeps(m, rd, v, k);
    PcKeeps(m.(cpu := SetReg(m.cpu, rd, v)), pc, k);
  }

  lemma ComputedKeeps(m: Machine, i: Instruction, v: Option<bv64>, k: Frame)
    requires Invariant(m, k) && Computed(m, i, v).Next?
    ensures Invariant(Computed(m, i, v).m, k)
  {
    hide Invariant, Retire;
    RetireKeeps(m, i.rd, v.value, i.size, k);
  }

  lemma ExecRegisterKeeps(m: Machine, i: Instruction, f: FpResult, k: Frame)
    requires Invariant(m, k) && ExecRegister(m, i, f).Next?
    ensures Invariant(ExecRegister(m, i, f).m, k)
  {
    hide Invariant, ExecFp, Arithmetic, Computed, ArithI, ArithR, ArithIW, ArithRW, Taken, A.Add, A.AndNot;
    hide SetReg, Advance;
    var pc, x, y := m.cpu.pc, Reg(m, i.rs1), Reg(m, i.rs2);
    match i.opcode
    case OP_LUI => ComputedKeeps(m, i, Some(i.imm), k);
    case OP_AUIPC => ComputedKeeps(m, i, Some(A.Add(pc, i.imm)), k);
    case OP_JAL => JumpKeeps(m, i.rd, A.Add(pc, i.size), A.Add(pc, i.imm), k);
    case OP_JALR => JumpKeeps(m, i.rd, A.Add(pc, i.size), A.AndNot(A.Add(x, i.imm), 1), k);
    case OP_BRANCH => AdvanceKeeps(m, if Taken(i.funct3, x, y).value then i.imm else i.size, k);
    case OP_I_ARITH => ComputedKeeps(m, i, Some(ArithI(i.funct3, Arithmetic(i.funct7), i.imm, x)), k);
    case OP_R_ARITH => ComputedKeeps(m, i, ArithR(i.funct3, i.funct7, x, y), k);
    case OP_I_ARITH_W => ComputedKeeps(m, i, ArithIW(i.funct3, i.funct7, i.imm, x), k);
    case OP_R_ARITH_W => ComputedKeeps(m, i, ArithRW(i.funct3, i.funct7, x, y), k);
    case OP_FENCE => AdvanceKeeps(m, i.size, k);
    case _ => ExecFpKeeps(m, i, i.opcode != OP_FP, f, k);
  }

  lemma ExecuteKeeps(m: Machine, i: Instruction, env: Env, k: Frame)
    requires Invariant(m, k) && Execute(m, i, env).Next?
    requires k.masked ==> !Unmasks(m.cpu, i)
    requires k.inside ==> !IsSret(i)
    ensures Invariant(Execute(m, i, env).m, k)
  {
    hide Invariant, ExecLoad, ExecStore, ExecFpLoad, ExecFpStore, ExecAtomic, ExecEnvironment, ExecCsr;
    hide ExecRegister, SetsSie;
    match i.opcode
    case OP_LOAD => ExecLoadKeeps(m, i, env.first, k);
    case OP_STORE => ExecStoreKeeps(m, i, env.first, k);
    case OP_FLW_FLD => ExecFpLoadKeeps(m, i, env.first, k);
    case OP_FSW_FSD => ExecFpStoreKeeps(m, i, env.first, k);
    case OP_AMO => ExecAtomicKeeps(m, i, env, k);
    case OP_SYSTEM =>
      if i.funct3 == 0 {
        ExecEnvironmentKeeps(m, i.imm, k);
      } else {
        ExecCsrKeeps(m, i, k);
      }
    case _ => ExecRegisterKeeps(m, i, env.fp, k);
  }

  // ---------------------------------------------------------------- Steps and runs

  lemma CountKeeps(m: Machine, n: bv64, k: Frame)
    requires Invariant(m, k)
    ensures Invariant(m.(cpu := m.cpu.(steps := n)), k)
  {
    hide Within, Hidden, SatpLegal, SieOff, SupervisorOrUser, Plic.SeipTruth;
  }

  lemma ClintPollKeeps(m: Machine, k: Frame)
    requires Invariant(m, k)
    ensures Invariant(ClintPoll(m), k)
  {
    hide Hidden, SupervisorOrUser, SatpLegal, SieOff, Within, Plic.SeipTruth, SetStip, TimerDue;
    var on := TimerDue(m);
    StipBits(m.cpu.csrs[MIP], on);
    SeipFrame(m.cpu.csrs[MIP], SetStip(m.cpu.csrs[MIP], on), m.plic);
    SetCsrKeeps(m, MIP, SetStip(m.cpu.csrs[MIP], on), k);
  }

  lemma PollKeeps(m: Machine, deeds: seq<Deed>, k: Frame)
    requires Invariant(m, k)
    ensures Invariant(Poll(m, deeds), k)
  {
    hide Invariant, DoAll, ClintPoll, Bump;
    var m0 := m.(cpu := m.cpu.(steps := Bump(m.cpu.steps)));
    CountKeeps(m, Bump(m.cpu.steps), k);
    DoAllKeeps(m0, deeds, k);
    ClintPollKeeps(DoAll(m0, deeds), k);
  }

  // Polling moves pending lines and the step counter, nothing else of the hart.
  lemma PollFrame(m: Machine, deeds: seq<Deed>, k: Frame)
    requires Invariant(m, k)
    ensures var c := Poll(m, deeds).cpu;
            c == m.cpu.(csrs := m.cpu.csrs[MIP := c.csrs[MIP]], steps := c.steps)
  {
    hide DoAll, Bump, SetStip, TimerDue, Invariant;
    var m0 := m.(cpu := m.cpu.(steps := Bump(m.cpu.steps)));
    CountKeeps(m, Bump(m.cpu.steps), k);
    DoAllKeeps(m0, deeds, k);
  }

  lemma FetchExecuteKeeps(m: Machine, env: Env, k: Frame)
    requires Invariant(m, k) && FetchExecute(m, env).Stepped?
    requires k.masked && FetchExecute(m, env).event.Executed? ==> !Unmasks(m.cpu, FetchExecute(m, env).event.i)
    requires k.inside && FetchExecute(m, env).event.Executed? ==> !IsSret(FetchExecute(m, env).event.i)
    ensures Invariant(FetchExecute(m, env).m, k)
  {
    hide Invariant, Translate, Fetched, Execute, Unmasks, IsSret;
    TranslateKeeps(m, m.cpu.pc, Fetch, k);
    var (m', pa) := Translate(m, m.cpu.pc, Fetch).value;
    if pa != MMU_FAULT {
      ExecuteKeeps(m', Fetched(m', pa).value, env, k);
    }
  }

  predicate StepReturns(m: Machine, env: Env) {
    var s := Step(m, env);
    s.Stepped? && s.event.Executed? && IsSret(s.event.i)
  }

  predicate StepUnmasks(m: Machine, env: Env) {
    var s := Step(m, env);
    s.Stepped? && s.event.Executed? && Unmasks(Poll(m, env.polled).cpu, s.event.i)
  }

  // With SIE clear in S-mode a confined hart selects nothing.
  lemma SelectMasked(c: Cpu, k: Frame)
    requires Confined(c, k) && k.masked
    ensures Select(c).None?
  {
    hide Select, Within, Hidden, SatpLegal, SupervisorOrUser, DelegationBit;
    SelectDelegated(c, k);
  }

  /** No step leaves the confinement, whatever the program does and whatever the devices
      answer. */
  lemma StepKeeps(m: Machine, env: Env, k: Frame)
    requires Invariant(m, k) && Step(m, env).Stepped?
    requires k.masked ==> !StepUnmasks(m, env)
    requires k.inside ==> !StepReturns(m, env)
    ensures Invariant(Step(m, env).m, k)
    ensures k.masked ==> !Step(m, env).event.Interrupted?
  {
    hide Confined, Plic.SeipTruth, Poll, Select, Trap, FetchExecute, IrqCause, DelegationBit, Unmasks, IsSret;
    PollKeeps(m, env.polled, k);
    var m1 := Poll(m, env.polled);
    SelectDelegated(m1.cpu, k);
    if k.masked {
      SelectMasked(m1.cpu, k);
    }
    if Select(m1.cpu).Some? {
      TrapKeeps(m1, IrqCause(Select(m1.cpu).value), 0, k);
    } else {
      FetchExecuteKeeps(m1, env, k);
    }
  }

  // A run: one environment per step, until the process ends.
  function Run(m: Machine, envs: seq<Env>): Option<Machine>
    decreases |envs|
  {
    if envs == [] then Some(m)
    else
      match Step(m, envs[0])
      case Ended => None
      case Stepped(m', _) => Run(m', envs[1..])
  }

  lemma {:induction false} RunSnoc(m: Machine, envs: seq<Env>, e: Env)
    ensures var r := Run(m, envs);
            Run(m, envs + [e]) == if r.None? || Step(r.value, e).Ended? then None else Some(Step(r.value, e).m)
    decreases |envs|
  {
    hide Step;
    if envs == [] {
      assert envs + [e] == [e];
      assert [e][1..] == [];
    } else {
      assert (envs + [e])[1..] == envs[1..] + [e];
      if Step(m, envs[0]).Stepped? {
        RunSnoc(Step(m, envs[0]).m, envs[1..], e);
      }
    }
  }

  lemma RunNothing(m: Machine)
    ensures Run(m, []) == Some(m)
  {
  }

  // No step of the run executes sret or sets SIE.
  predicate NeverUnmasks(m: Machine, envs: seq<Env>)
    decreases |envs|
  {
    envs == [] ||
    (!StepUnmasks(m, envs[0]) && (Step(m, envs[0]).Stepped? ==> NeverUnmasks(Step(m, envs[0]).m, envs[1..])))
  }

  // No step of the run takes an interrupt.
  predicate NoInterrupts(m: Machine, envs: seq<Env>)
    decreases |envs|
  {
    envs == [] || (Step(m, envs[0]).Stepped? ==>
      !Step(m, envs[0]).event.Interrupted? && NoInterrupts(Step(m, envs[0]).m, envs[1..]))
  }

  lemma {:induction false} RunKeeps(m: Machine, envs: seq<Env>, k: Frame)
    requires Invariant(m, k) && Run(m, envs).Some?
    requires !k.inside && (k.masked ==> NeverUnmasks(m, envs))
    ensures Invariant(Run(m, envs).value, k)
    ensures k.masked ==> NoInterrupts(m, envs)
    decreases |envs|
  {
    hide Invariant, Step, StepUnmasks;
    if envs != [] {
      StepKeeps(m, envs[0], k);
      RunKeeps(Step(m, envs[0]).m, envs[1..], k);
    }
  }

  const BOOT: Frame := Frame(0x880, false, false)

  // The state a kernel starts in: reset, boot registers set, then sbi_init.
  function Boot(ram: Ram, entry: bv64, dtb: bv64): Machine {
    var c := Reset();
    Machine(SbiInit(c.(regs := c.regs[10 := 0][11 := dtb]), entry), ram,
            Plic.State(seq(32, _ => 0), 0, [0, 0], [0, 0], 0), 0xFFFF_FFFF_FFFF_FFFF, NO_RESERVATION)
  }

  lemma BootInvariant(ram: Ram, entry: bv64, dtb: bv64)
    ensures Invariant(Boot(ram, entry, dtb), BOOT)
  {
    hide Plic.Has, Plic.SeipTruth;
    var m := Boot(ram, entry, dtb);
    assert ((0 as bv64) & !0x1800) | 0x800 | 0x80 == 0x880;
    NothingReady(m.plic);
    QuietSeip(m.plic);
  }

  lemma QuietSeip(p: Plic.Plic)
    requires !Plic.Fires(p)
    ensures Plic.SeipTruth(0, p)
  {
    hide Plic.Fires;
  }

  lemma NothingReady(p: Plic.Plic)
    requires p.pending == 0
    ensures !Plic.Fires(p)
  {
    hide Plic.Mask, Plic.Id, Plic.BestBelow;
    forall irq: nat | irq < Plic.SOURCES ensures !Plic.Has(0, irq) {
      EmptyMask(Plic.Mask(Plic.Id(irq)));
    }
  }

  lemma EmptyMask(x: bv32)
    ensures Plic.And(0, x) == 0
  {
  }

  /** Confinement: in every state any run from boot can reach, the hart is in S- or U-mode,
      delegation is as sbi_init left it, no machine interrupt is pending or enabled, mstatus
      outside the sstatus view is constant, satp is bare or Sv39, x0 is 0, and SEIP is set
      exactly when the supervisor's claim would return a source. */
  lemma RunsStayConfined(ram: Ram, entry: bv64, dtb: bv64, envs: seq<Env>)
    requires Run(Boot(ram, entry, dtb), envs).Some?
    ensures var m := Run(Boot(ram, entry, dtb), envs).value;
            && (m.cpu.priv == PRIV_U || m.cpu.priv == PRIV_S)
            && m.cpu.csrs[MEDELEG] == 0xB1FF && m.cpu.csrs[MIDELEG] == 0x222
            && m.cpu.csrs[MIP] & !0x222 == 0 && m.cpu.csrs[MIE] & !0x222 == 0
            && m.cpu.csrs[MSTATUS] & !0xC_6122 == 0x880
            && (m.cpu.csrs[SATP] >> 60 == 0 || m.cpu.csrs[SATP] >> 60 == 8)
            && m.cpu.regs[0] == 0
            && (m.cpu.csrs[MIP] & 0x200 != 0 <==> Plic.Claim(m.plic, Plic.CTX_S).1 != 0)
  {
    hide Boot, Run, Plic.Best;
    BootInvariant(ram, entry, dtb);
    RunKeeps(Boot(ram, entry, dtb), envs, BOOT);
  }

  /** Interrupt masking: from a reachable state in S-mode with SIE clear, no interrupt is
      taken through any number of steps, nested exceptions included, until an sret or a
      write that sets SIE; and the hart stays in S-mode with SIE clear. */
  lemma MaskedRuns(m: Machine, envs: seq<Env>)
    requires Invariant(m, BOOT) && m.cpu.priv == PRIV_S && m.cpu.csrs[MSTATUS] & 0x2 == 0
    requires Run(m, envs).Some? && NeverUnmasks(m, envs)
    ensures NoInterrupts(m, envs)
    ensures var m' := Run(m, envs).value; m'.cpu.priv == PRIV_S && m'.cpu.csrs[MSTATUS] & 0x2 == 0
  {
    hide Run, NeverUnmasks, NoInterrupts, Within, Hidden, SatpLegal, Plic.SeipTruth;
    RunKeeps(m, envs, Frame(0x880, true, false));
  }
}

/** Page faults: when a translation reports one, and what a faulting instruction leaves. */
module PreciseFaults {
  import opened Words
  import opened Memory
  import opened Mmu
  import opened Hart
  import opened Decode
  import opened Machine
  import A = Alu

  // A translated address fits in 56 bits and keeps the page offset.
  lemma PageAddrBounds(ppn: bv44, va: bv64, level: nat)
    requires level <= 2
    ensures PageAddr(ppn, va, level) & 0xFF00_0000_0000_0000 == 0
    ensures PageAddr(ppn, va, level) & 0xFFF == va & 0xFFF
    ensures PageAddr(ppn, va, level) != MMU_FAULT
  {
    var p := (ppn as bv64) << 12;
    FrameBits(ppn);
    OffsetBits(va);
    PartsBits(p, va & OffsetMask(level));
    BelowTop(p | (va & OffsetMask(level)));
  }

  lemma FrameBits(ppn: bv44)
    ensures ((ppn as bv64) << 12) & 0xFF00_0000_0000_0000 == 0 && ((ppn as bv64) << 12) & 0xFFF == 0
  {
  }

  lemma OffsetBits(va: bv64)
    ensures (va & 0xFFF) & 0xFF00_0000_0000_0000 == 0 && (va & 0xFFF) & 0xFFF == va & 0xFFF
    ensures (va & 0x1F_FFFF) & 0xFF00_0000_0000_0000 == 0 && (va & 0x1F_FFFF) & 0xFFF == va & 0xFFF
    ensures (va & 0x3FFF_FFFF) & 0xFF00_0000_0000_0000 == 0 && (va & 0x3FFF_FFFF) & 0xFFF == va & 0xFFF
  {
  }

  lemma PartsBits(p: bv64, o: bv64)
    requires p & 0xFF00_0000_0000_0000 == 0 && p & 0xFFF == 0 && o & 0xFF00_0000_0000_0000 == 0
    ensures (p | o) & 0xFF00_0000_0000_0000 == 0 && (p | o) & 0xFFF == o & 0xFFF
  {
  }

  lemma BelowTop(x: bv64)
    requires x & 0xFF00_0000_0000_0000 == 0
    ensures x != MMU_FAULT
  {
  }

  // The address the tables give is within 56 bits and has the page offset of va.
  lemma TranslatedAddress(m: Ram, c: Context, va: bv64, access: Access)
    requires Active(c) && Resolve(m, c, va, access).Phys?
    ensures var pa := Resolve(m, c, va, access).pa;
            pa & 0xFF00_0000_0000_0000 == 0 && pa & 0xFFF == va & 0xFFF && pa != MMU_FAULT
  {
    hide Active, PageAddr, Permits, PtePpn, WalkAt;
    var w := Walk(m, c, va);
    PageAddrBounds(PtePpn(w.pte), va, w.level);
  }

  /** A translation through the tables succeeds exactly when the walk ends in a leaf that is
      valid, grants the access, and is the mode's to use: U pages for U-mode, and for S-mode
      any other page, or a U page while SUM is set. */
  lemma TranslatesExactly(m: Ram, c: Context, va: bv64, access: Access)
    requires Active(c) && !Resolve(m, c, va, access).Stuck?
    ensures Resolve(m, c, va, access).Phys?
       <==> var w := Walk(m, c, va); w.Leaf? && UsableLeaf(w.pte, c, access)
  {
    hide Active, PageAddr, PtePpn, WalkAt, Permits, UsableLeaf;
    var w := Walk(m, c, va);
    if w.Leaf? {
      LeafBits(w.pte, c, access);
    }
  }

  predicate UsableLeaf(pte: bv64, c: Context, access: Access) {
    var v, r, w, x, u := pte & 0x1 != 0, pte & 0x2 != 0, pte & 0x4 != 0, pte & 0x8 != 0, pte & 0x10 != 0;
    && v && (w ==> r)
    && (access.Load? ==> r) && (access.Store? ==> w) && (access.Fetch? ==> x)
    && (c.priv == PRIV_U ==> u) && (c.priv == PRIV_S && u ==> c.sum)
  }

  lemma LeafBits(pte: bv64, c: Context, access: Access)
    requires !Invalid(pte) && IsLeaf(pte)
    ensures Permits(pte, c.priv, c.sum, access) <==> UsableLeaf(pte, c, access)
  {
  }

  /** The fault sentinel is returned exactly when a page fault was taken, or when translation
      is off and the address is the sentinel itself, in which case nothing happened. */
  lemma SentinelExact(m: Machine, va: bv64, access: Access)
    requires Translate(m, va, access).Some?
    ensures var (m', pa) := Translate(m, va, access).value;
            var faulted := Resolve(m.ram, ContextOf(m.cpu), va, access).PageFault?;
            && (faulted ==> m' == m.(cpu := Trap(m.cpu, FaultCause(access), va)))
            && (!faulted ==> m'.cpu == m.cpu)
            && (pa == MMU_FAULT <==> faulted || (!Active(ContextOf(m.cpu)) && va == MMU_FAULT))
  {
    hide Active, Permits, PageAddr, Trap, ContextOf, Touch;
    var c := ContextOf(m.cpu);
    if Active(c) && Resolve(m.ram, c, va, access).Phys? {
      TranslatedAddress(m.ram, c, va, access);
    }
  }

  // With translation off and pc at the sentinel, a fetch does nothing and traps nowhere.
  lemma FetchAtSentinelStalls(m: Machine, env: Env)
    requires !Active(ContextOf(m.cpu)) && m.cpu.pc == MMU_FAULT
    ensures FetchExecute(m, env) == Stepped(m, FetchFailed)
  {
    hide Active, ContextOf;
    assert Touch(m.ram, ContextOf(m.cpu), m.cpu.pc, Fetch) == m.ram;
  }

  // An sret gets there: it copies sepc as it stands, low bits included, and with satp bare
  // translation is off. The fetch that follows stalls.
  lemma SretReachesSentinel(m: Machine, env: Env)
    requires m.cpu.priv == PRIV_S && m.cpu.csrs[SEPC] == MMU_FAULT && m.cpu.csrs[SATP] == 0
    ensures var e := ExecEnvironment(m, 0x102);
            && e.Next? && e.m.cpu.pc == MMU_FAULT
            && FetchExecute(e.m, env) == Stepped(e.m, FetchFailed)
  {
    hide LeaveS, SppPriv;
    var m' := ExecEnvironment(m, 0x102).m;
    BareInactive(m'.cpu);
    FetchAtSentinelStalls(m', env);
  }

  lemma BareInactive(c: Cpu)
    requires c.csrs[SATP] == 0
    ensures !Active(ContextOf(c))
  {
  }

  // The data access an instruction makes, and where.
  function DataAccess(i: Instruction): Option<Access> {
    if i.opcode == OP_LOAD && LoadKind(i.funct3).Some? then Some(Load)
    else if i.opcode == OP_FLW_FLD then Some(Load)
    else if i.opcode == OP_STORE && StoreWidth(i.funct3).Some? then Some(Store)
    else if i.opcode == OP_FSW_FSD then Some(Store)
    else if i.opcode == OP_AMO then Some(if Funct5(i.funct7) == 2 then Load else Store)
    else None
  }

  function DataAddress(m: Machine, i: Instruction): bv64 {
    if i.opcode == OP_AMO then Reg(m, i.rs1) else A.Add(Reg(m, i.rs1), i.imm)
  }

  // The handler address in stvec or mtvec: all but the two mode bits.
  function Base(tvec: bv64): bv64 {
    tvec & 0xFFFF_FFFF_FFFF_FFFC
  }

  // The trap registers of one mode hold the trap; every other CSR but mstatus is untouched.
  predicate Recorded(c: Cpu, c': Cpu, epc: nat, ecause: nat, etval: nat, tvec: nat, cause: bv64, va: bv64)
    requires epc < 4096 && ecause < 4096 && etval < 4096 && tvec < 4096
  {
    && c'.csrs == c.csrs[epc := c.pc][ecause := cause][etval := va][MSTATUS := c'.csrs[MSTATUS]]
    && c'.pc == Base(c.csrs[tvec])
  }

  /** m' is m after a precise page fault at va: registers, memory and devices are as they
      were, the trap registers of the mode delegation selects hold the faulting pc, the cause
      and the address, and pc is that mode's handler. */
  predicate Precise(m: Machine, m': Machine, cause: bv64, va: bv64) {
    var c, c' := m.cpu, m'.cpu;
    && m' == m.(cpu := c') && c' == c.(csrs := c'.csrs, pc := c'.pc, priv := c'.priv)
    && if DelegatedTo(c, cause) then Recorded(c, c', SEPC, SCAUSE, STVAL, STVEC, cause, va) && c'.priv == PRIV_S
       else Recorded(c, c', MEPC, MCAUSE, MTVAL, MTVEC, cause, va) && c'.priv == PRIV_M
  }

  lemma TrapIsPrecise(m: Machine, cause: bv64, va: bv64)
    ensures Precise(m, m.(cpu := Trap(m.cpu, cause, va)), cause, va)
  {
    hide DelegatedTo, EnterS, EnterM, Vector, Base;
    VectorBits(m.cpu.csrs[STVEC]);
    VectorBits(m.cpu.csrs[MTVEC]);
  }

  lemma VectorBits(tvec: bv64)
    ensures Vector(tvec) == Base(tvec)
  {
    assert !(0x3 as bv64) == 0xFFFF_FFFF_FFFF_FFFC;
  }

  // The causes of the architecture: 12 for a fetch, 13 for a load, 15 for a store.
  function PageFaultCause(access: Access): bv64 {
    match access case Fetch => 12 case Load => 13 case Store => 15
  }

  // The address computed for a data access cannot be translated for it.
  predicate DataFaults(m: Machine, i: Instruction) {
    DataAccess(i).Some? && Resolve(m.ram, ContextOf(m.cpu), DataAddress(m, i), DataAccess(i).value).PageFault?
  }

  function DataCause(i: Instruction): bv64
    requires DataAccess(i).Some?
  {
    PageFaultCause(DataAccess(i).value)
  }

  lemma AccessFaults(m: Machine, va: bv64, w: nat, v: bv64, r: Reply)
    requires w <= 8
    ensures Resolve(m.ram, ContextOf(m.cpu), va, Load).PageFault? ==>
              VmRead(m, va, w, r) == Faulted(m.(cpu := Trap(m.cpu, 13, va)))
    ensures Resolve(m.ram, ContextOf(m.cpu), va, Store).PageFault? ==>
              VmWrite(m, va, w, v, r) == Faulted(m.(cpu := Trap(m.cpu, 15, va)))
  {
    hide Resolve, ContextOf, Trap, PhysRead, PhysWrite;
  }

  lemma OrdinaryFault(m: Machine, i: Instruction, env: Env)
    requires DataFaults(m, i) && i.opcode != OP_AMO
    ensures Execute(m, i, env) == Next(m.(cpu := Trap(m.cpu, DataCause(i), DataAddress(m, i))))
  {
    hide Resolve, ContextOf, Trap, A.Add, Reg, VmRead, VmWrite, ExecLoad, ExecStore, ExecFpLoad, ExecFpStore;
    match i.opcode
    case OP_LOAD => LoadFault(m, i, env.first);
    case OP_STORE => StoreFault(m, i, env.first);
    case _ => FpFault(m, i, env.first);
  }

  lemma LoadFault(m: Machine, i: Instruction, r: Reply)
    requires i.opcode == OP_LOAD && DataFaults(m, i)
    ensures ExecLoad(m, i, r) == Next(m.(cpu := Trap(m.cpu, 13, A.Add(Reg(m, i.rs1), i.imm))))
  {
    hide Resolve, ContextOf, Trap, A.Add, Reg, VmRead, Retire, Extend;
    AccessFaults(m, A.Add(Reg(m, i.rs1), i.imm), LoadKind(i.funct3).value.0, 0, r);
  }

  lemma StoreFault(m: Machine, i: Instruction, r: Reply)
    requires i.opcode == OP_STORE && DataFaults(m, i)
    ensures ExecStore(m, i, r) == Next(m.(cpu := Trap(m.cpu, 15, A.Add(Reg(m, i.rs1), i.imm))))
  {
    hide Resolve, ContextOf, Trap, A.Add, Reg, VmWrite, Advance;
    AccessFaults(m, A.Add(Reg(m, i.rs1), i.imm), StoreWidth(i.funct3).value, Reg(m, i.rs2), r);
  }

  lemma FpFault(m: Machine, i: Instruction, r: Reply)
    requires DataFaults(m, i)
    ensures var va := A.Add(Reg(m, i.rs1), i.imm);
            && (i.opcode == OP_FLW_FLD ==> ExecFpLoad(m, i, r) == Next(m.(cpu := Trap(m.cpu, 13, va))))
            && (i.opcode == OP_FSW_FSD ==> ExecFpStore(m, i, r) == Next(m.(cpu := Trap(m.cpu, 15, va))))
  {
    hide Resolve, ContextOf, Trap, A.Add, Reg, VmRead, VmWrite, Advance;
    var va, w := A.Add(Reg(m, i.rs1), i.imm), if i.funct3 == 2 then 4 else 8;
    AccessFaults(m, va, w, m.cpu.fregs[i.rs2 as nat], r);
  }

  lemma AtomicFault(m: Machine, i: Instruction, env: Env)
    requires DataFaults(m, i) && i.opcode == OP_AMO
    ensures Execute(m, i, env) == Next(Advance(m.(cpu := Trap(m.cpu, DataCause(i), DataAddress(m, i))), i.size))
  {
    hide Resolve, ContextOf, Trap, A.Add, Reg, Funct5, AmoRead, PhysWrite, SetReg;
  }

  lemma NeverStays(x: bv64)
    ensures A.Add(x, 2) != x && A.Add(x, 4) != x
  {
  }

  /** Data page faults, delegated to S-mode or left to M-mode, are precise for exactly the
      instructions that are not atomics: the dispatcher advances pc after an atomic's trap,
      so its handler is entered past its first instruction. */
  lemma PreciseExactly(m: Machine, i: Instruction, env: Env)
    requires DataFaults(m, i) && (i.size == 2 || i.size == 4)
    ensures Execute(m, i, env).Next?
    ensures Precise(m, Execute(m, i, env).m, DataCause(i), DataAddress(m, i)) <==> i.opcode != OP_AMO
  {
    hide Execute, Trap, DataAccess, DataAddress, DataCause, Resolve, ContextOf, A.Add, Base, DelegatedTo;
    var cause, va := DataCause(i), DataAddress(m, i);
    var trapped := m.(cpu := Trap(m.cpu, cause, va));
    TrapIsPrecise(m, cause, va);
    if i.opcode == OP_AMO {
      AtomicFault(m, i, env);
      NeverStays(trapped.cpu.pc);
    } else {
      OrdinaryFault(m, i, env);
    }
  }

  // A machine whose only page table is empty, and an atomic at address 0.
  predicate EmptyTable(m: Machine) {
    m.ram == Ram(0, seq(4096, _ => 0)) && ContextOf(m.cpu) == Context(PRIV_S, 0x8000_0000_0000_0000, false)
  }

  lemma EmptyFacts()
    ensures var c := Context(PRIV_S, 0x8000_0000_0000_0000, false); Active(c) && Root(c) == 0
    ensures PteAddr(0, Vpn(0, 2)) == 0 && Invalid(0)
  {
  }

  /** An amoadd there takes its page fault and enters the handler past its first instruction. */
  lemma AtomicFaultImprecise(m: Machine, env: Env)
    requires EmptyTable(m) && Reg(m, 0) == 0
    ensures var i := Instruction(OP_AMO, 5, 0, 6, 2, 0, 0, 4);
            DataFaults(m, i) && Execute(m, i, env).Next? && !Precise(m, Execute(m, i, env).m, DataCause(i), 0)
  {
    hide ContextOf, Execute, Precise, Reg, Active, Root, Vpn, PteAddr, Invalid, Word64;
    var i := Instruction(OP_AMO, 5, 0, 6, 2, 0, 0, 4);
    EmptyFacts();
    ZeroEntry(m.ram);
    PreciseExactly(m, i, env);
  }

  lemma ZeroEntry(m: Ram)
    requires m == Ram(0, seq(4096, _ => 0))
    ensures InRam(m, 0, 8) && Get64(m, 0) == 0
  {
  }

  /** A fetch page fault is precise, delegated or not. */
  lemma FetchFaultIsPrecise(m: Machine, env: Env)
    requires Resolve(m.ram, ContextOf(m.cpu), m.cpu.pc, Fetch).PageFault?
    ensures FetchExecute(m, env).Stepped?
    ensures Precise(m, FetchExecute(m, env).m, PageFaultCause(Fetch), m.cpu.pc)
  {
    hide Resolve, ContextOf, Trap, Precise;
    TrapIsPrecise(m, EXC_FETCH_PAGE, m.cpu.pc);
  }
}

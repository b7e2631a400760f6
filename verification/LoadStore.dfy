/** A store instruction and a load of the same width: what the load finds in the register. */
module LoadStore {
  import opened Words
  import opened Memory
  import opened Mmu
  import opened Hart
  import opened Machine
  import opened Decode
  import A = Alu
  import V = VirtualMemory

  // The low w bytes of a register.
  function LowPart(v: bv64, w: nat): bv64 {
    if w == 1 then v & 0xFF else if w == 2 then v & 0xFFFF else if w == 4 then v & 0xFFFF_FFFF else v
  }

  lemma Truncates1(v: bv64)
    ensures Truncate(v, 1) == LowPart(v, 1)
  {
  }

  lemma Truncates2(v: bv64)
    ensures Truncate(v, 2) == LowPart(v, 2)
  {
  }

  lemma Truncates4(v: bv64)
    ensures Truncate(v, 4) == LowPart(v, 4)
  {
  }

  lemma Truncates8(v: bv64)
    ensures Truncate(v, 8) == LowPart(v, 8)
  {
    assert Bytes64(v)[..8] == Bytes64(v);
    hide Bytes64, Word64;
    WordsRoundTrip(0, 0, v);
  }

  lemma TruncateIsLow(v: bv64, w: nat)
    requires w == 1 || w == 2 || w == 4 || w == 8
    ensures Truncate(v, w) == LowPart(v, w)
  {
    hide Truncate, LowPart;
    Truncates1(v);
    Truncates2(v);
    Truncates4(v);
    Truncates8(v);
  }

  // The access reaches RAM, off the entries that translate it.
  predicate Clear(m: Machine, va: bv64, w: nat) {
    var c := ContextOf(m.cpu);
    var o := Resolve(m.ram, c, va, Mmu.Store);
    o.Phys? && o.pa != MMU_FAULT && InRam(m.ram, Place(o.pa), w) && V.Misses(Place(o.pa), w, V.Entries(m.ram, c, va))
  }

  // In RAM, the machine's accesses are those of module VirtualMemory.
  lemma WritesRam(m: Machine, va: bv64, w: nat, v: bv64, r: Reply)
    requires w <= 8 && V.StoreRam(m.ram, ContextOf(m.cpu), va, LowBytes(v, w)).Stored?
    ensures VmWrite(m, va, w, v, r) == Got(m.(ram := V.StoreRam(m.ram, ContextOf(m.cpu), va, LowBytes(v, w)).m), 0)
  {
    hide Resolve, Touch, Place, LowBytes, ContextOf, Poke, Trap, Answer, PlicEffect;
  }

  lemma ReadsRam(m: Machine, va: bv64, w: nat, r: Reply)
    requires w <= 8 && V.LoadRam(m.ram, ContextOf(m.cpu), va, w).Loaded?
    ensures var l := V.LoadRam(m.ram, ContextOf(m.cpu), va, w); VmRead(m, va, w, r) == Got(m.(ram := l.m), WordOf(l.s))
  {
    hide Resolve, Touch, Place, WordOf, ContextOf, Peek, Trap, Answer, PlicEffect;
  }

  // A load right after a store of the same width at the same address succeeds and finds the
  // low bytes that were stored, wherever the pc has moved.
  lemma WriteThenRead(m: Machine, va: bv64, w: nat, v: bv64, size: bv64, r: Reply, r': Reply)
    requires w == 1 || w == 2 || w == 4 || w == 8
    requires Clear(m, va, w)
    ensures VmWrite(m, va, w, v, r).Got?
    ensures var m' := Advance(VmWrite(m, va, w, v, r).m, size);
            && m'.cpu.regs == m.cpu.regs
            && VmRead(m', va, w, r').Got? && VmRead(m', va, w, r').v == LowPart(v, w)
            && VmRead(m', va, w, r').m.cpu == m'.cpu
  {
    hide VmRead, VmWrite, V.LoadRam, LowBytes, WordOf, V.Misses, V.Entries, ContextOf, LowPart, Resolve, Touch;
    hide Place, Poke, A.Add;
    var c, s := ContextOf(m.cpu), LowBytes(v, w);
    V.StoreThenLoadSame(m.ram, c, va, s);
    WritesRam(m, va, w, v, r);
    var m' := Advance(VmWrite(m, va, w, v, r).m, size);
    SameContext(m.cpu, m'.cpu.pc);
    ReadsRam(m', va, w, r');
    TruncateIsLow(v, w);
  }

  lemma SameContext(c: Cpu, pc: bv64)
    ensures ContextOf(c.(pc := pc)) == ContextOf(c)
  {
  }

  // What a load of each kind makes of the low bytes of v.
  function Loaded(v: bv64, funct3: bv3): bv64 {
    match funct3
    case 0 => A.Sext8((v & 0xFF) as bv8)
    case 1 => A.Sext16((v & 0xFFFF) as bv16)
    case 2 => A.Sext32((v & 0xFFFF_FFFF) as bv32)
    case 4 => v & 0xFF
    case 5 => v & 0xFFFF
    case 6 => v & 0xFFFF_FFFF
    case _ => v
  }

  lemma Masks(v: bv64)
    ensures (v & 0xFF) & 0xFF == v & 0xFF && (v & 0xFFFF) & 0xFFFF == v & 0xFFFF
    ensures (v & 0xFFFF_FFFF) & 0xFFFF_FFFF == v & 0xFFFF_FFFF
  {
  }

  lemma ExtendsLow(v: bv64, funct3: bv3)
    requires LoadKind(funct3).Some?
    ensures var (w, e) := LoadKind(funct3).value; Extend(LowPart(v, w), w, e) == Loaded(v, funct3)
  {
    hide A.Sext8, A.Sext16, A.Sext32;
    Masks(v);
  }

  /** A store instruction, then a load of the same width at the same address: the load leaves
      in rd the low bytes of the stored register, extended as its kind says. */
  lemma StoreThenLoad(m: Machine, s: Instruction, l: Instruction, env: Env, env': Env)
    requires s.opcode == OP_STORE && StoreWidth(s.funct3).Some? && l.opcode == OP_LOAD && LoadKind(l.funct3).Some?
    requires LoadKind(l.funct3).value.0 == StoreWidth(s.funct3).value && l.rd != 0
    requires A.Add(Reg(m, l.rs1), l.imm) == A.Add(Reg(m, s.rs1), s.imm)
    requires Clear(m, A.Add(Reg(m, s.rs1), s.imm), StoreWidth(s.funct3).value)
    ensures Execute(m, s, env).Next? && Execute(Execute(m, s, env).m, l, env').Next?
    ensures Reg(Execute(Execute(m, s, env).m, l, env').m, l.rd) == Loaded(Reg(m, s.rs2), l.funct3)
  {
    hide VmRead, VmWrite, A.Add, Clear, Extend, LowPart, Loaded, Execute, Reg, Retire;
    var va, w := A.Add(Reg(m, s.rs1), s.imm), StoreWidth(s.funct3).value;
    WriteThenRead(m, va, w, Reg(m, s.rs2), s.size, env.first, env'.first);
    StoreRuns(m, s, env);
    var m' := Execute(m, s, env).m;
    SameReg(m, m', l.rs1);
    LoadRuns(m', l, env');
    ExtendsLow(Reg(m, s.rs2), l.funct3);
  }

  lemma StoreRuns(m: Machine, i: Instruction, env: Env)
    requires i.opcode == OP_STORE && StoreWidth(i.funct3).Some?
    ensures var x := VmWrite(m, A.Add(Reg(m, i.rs1), i.imm), StoreWidth(i.funct3).value, Reg(m, i.rs2), env.first);
            x.Got? ==> Execute(m, i, env) == Next(Advance(x.m, i.size))
  {
    hide VmWrite, A.Add, Reg;
  }

  lemma LoadRuns(m: Machine, i: Instruction, env: Env)
    requires i.opcode == OP_LOAD && LoadKind(i.funct3).Some? && i.rd != 0
    ensures var (w, e) := LoadKind(i.funct3).value;
            var x := VmRead(m, A.Add(Reg(m, i.rs1), i.imm), w, env.first);
            x.Got? ==> Execute(m, i, env).Next? && Reg(Execute(m, i, env).m, i.rd) == Extend(x.v, w, e)
  {
    hide VmRead, A.Add, Extend;
  }

  lemma SameReg(m: Machine, m': Machine, r: bv5)
    requires m'.cpu.regs == m.cpu.regs
    ensures Reg(m', r) == Reg(m, r)
  {
  }
}

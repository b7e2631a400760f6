/** The whole machine: the hart with its RAM, interrupt controller, timer and reservation,
    and what one instruction and one step of the emulator do to it. */
module Machine {
  import opened Words
  import opened Memory
  import opened Mmu
  import opened Hart
  import opened Decode
  import A = Alu
  import Plic

  datatype Machine = Machine(cpu: Cpu, ram: Ram, plic: Plic.Plic, timecmp: bv64, reservation: bv64)

  // What a device that is not modelled (console, disk) does to the modelled ones: it raises
  // an interrupt, or, where a guest has aimed its rings or buffers at them, accesses a
  // register of the interrupt controller or of the timer.
  datatype Deed = Signals(irq: nat) | ReadsPlic(offset: nat) | WritesPlic(offset: nat, v: bv64) | SetsTimer(v: bv64)

  // How such a device answers an access: it ends the emulator, or gives a value, does deeds
  // and writes RAM as it pleases.
  datatype Reply = Exits | Answers(value: bv64, deeds: seq<Deed>, dma: seq<bv8>)

  // The result of a floating-point instruction, which is not modelled.
  datatype FpResult = FpExits | FpReg(f: bv64) | IntReg(x: bv64)

  // Everything one step receives from outside the model.
  datatype Env = Env(polled: seq<Deed>, first: Reply, second: Reply, fp: FpResult)

  // Stop: the process exits, or the access falls outside what is modelled.
  datatype Exec = Next(m: Machine) | Stop

  // ---------------------------------------------------------------- Devices

  function PlicEffect(m: Machine, e: Plic.Effect): Machine {
    m.(plic := e.p, cpu := SetMip(m.cpu, Plic.AfterEffect(m.cpu.csrs[MIP], e)))
  }

  function Do(m: Machine, d: Deed): Machine {
    match d
    case Signals(irq) => PlicEffect(m, Plic.Effect(Plic.Raise(m.plic, irq), 0, 1 <= irq < Plic.SOURCES))
    case ReadsPlic(offset) => PlicEffect(m, Plic.Read(m.plic, offset))
    case WritesPlic(offset, v) => PlicEffect(m, Plic.Write(m.plic, offset, U32Of(v), MaskOf(v)))
    case SetsTimer(v) => m.(timecmp := v)
  }

  function DoAll(m: Machine, deeds: seq<Deed>): Machine
    decreases |deeds|
  {
    if deeds == [] then m else DoAll(Do(m, deeds[0]), deeds[1..])
  }

  function SetStip(mip: bv64, on: bool): bv64 {
    if on then mip | 0x20 else mip & 0xFFFF_FFFF_FFFF_FFDF
  }

  predicate Due(steps: bv64, timecmp: bv64) {
    steps >= timecmp
  }

  predicate TimerDue(m: Machine) {
    Due(m.cpu.steps, m.timecmp)
  }

  // The comparator runs before every instruction.
  function ClintPoll(m: Machine): Machine {
    m.(cpu := SetMip(m.cpu, SetStip(m.cpu.csrs[MIP], TimerDue(m))))
  }

  // ---------------------------------------------------------------- Physical accesses

  function WordOf(s: seq<bv8>): bv64 {
    match |s|
    case 1 => s[0] as bv64
    case 2 => Word16(s) as bv64
    case 4 => Word32(s) as bv64
    case 8 => Word64(s)
    case _ => 0
  }

  function LowBytes(v: bv64, w: nat): (s: seq<bv8>)
    requires w <= 8
    ensures |s| == w
  {
    Bytes64(v)[..w]
  }

  function Truncate(v: bv64, w: nat): bv64
    requires w <= 8
  {
    WordOf(LowBytes(v, w))
  }

  predicate Window(a: nat, w: nat, base: nat, size: nat) {
    base <= a && a + w <= base + size
  }

  predicate InPlic(a: nat, w: nat) { Window(a, w, 0x0C00_0000, 0x0400_0000) }

  predicate InClint(a: nat, w: nat) { Window(a, w, 0x0200_0000, 0x1_0000) }

  // The console, and the disk's register slot.
  predicate InOther(a: nat, w: nat) { Window(a, w, 0x1000_0000, 8) || Window(a, w, 0x1000_1000, 0x1000) }

  function Answer(m: Machine, r: Reply): Machine
    requires r.Answers?
  {
    var m' := if |r.dma| == |m.ram.bytes| then m.(ram := m.ram.(bytes := r.dma)) else m;
    DoAll(m', r.deeds)
  }

  function U32Of(v: bv64): Plic.U32 {
    ToNat(v) % TWO_32
  }

  function MaskOf(v: bv64): bv32 {
    (v & 0xFFFF_FFFF) as bv32
  }

  function FromU32(n: Plic.U32): bv64 {
    FromNat(n)
  }

  function PhysRead(m: Machine, pa: bv64, w: nat, r: Reply): Option<(Machine, bv64)>
    requires w <= 8
  {
    var a := Place(pa);
    if InRam(m.ram, a, w) then Some((m, WordOf(Peek(m.ram, a, w))))
    else if InOther(a, w) then if r.Exits? then None else Some((Answer(m, r), Truncate(r.value, w)))
    else if InPlic(a, w) then
      var e := Plic.Read(m.plic, a - 0x0C00_0000);
      Some((PlicEffect(m, e), Truncate(FromU32(e.value), w)))
    else if InClint(a, w) then
      var off := a - 0x0200_0000;
      Some((m, Truncate(if off == 0xBFF8 then m.cpu.steps else if off == 0x4000 then m.timecmp else 0, w)))
    else None
  }

  function PhysWrite(m: Machine, pa: bv64, w: nat, v: bv64, r: Reply): Option<Machine>
    requires w <= 8
  {
    var a := Place(pa);
    if InRam(m.ram, a, w) then Some(m.(ram := Poke(m.ram, a, LowBytes(v, w))))
    else if InOther(a, w) then if r.Exits? then None else Some(Answer(m, r))
    else if InPlic(a, w) then
      var t := Truncate(v, w);
      Some(PlicEffect(m, Plic.Write(m.plic, a - 0x0C00_0000, U32Of(t), MaskOf(t))))
    else if InClint(a, w) then
      Some(if a - 0x0200_0000 == 0x4000 then m.(timecmp := Truncate(v, w)) else m)
    else None
  }

  // ---------------------------------------------------------------- Virtual accesses

  // The machine after a translation, with its result or the fault sentinel. None: an entry
  // to read lies outside RAM.
  function Translate(m: Machine, va: bv64, access: Access): Option<(Machine, bv64)> {
    match Resolve(m.ram, ContextOf(m.cpu), va, access)
    case Stuck => None
    case PageFault => Some((m.(cpu := Trap(m.cpu, FaultCause(access), va)), MMU_FAULT))
    case Phys(pa) => Some((m.(ram := Touch(m.ram, ContextOf(m.cpu), va, access)), pa))
  }

  datatype Accessed = Halted | Faulted(m: Machine) | Got(m: Machine, v: bv64)

  function VmRead(m: Machine, va: bv64, w: nat, r: Reply): Accessed
    requires w <= 8
  {
    match Translate(m, va, Load)
    case None => Halted
    case Some((m', pa)) =>
      if pa == MMU_FAULT then Faulted(m')
      else
        match PhysRead(m', pa, w, r)
        case None => Halted
        case Some((m'', v)) => Got(m'', v)
  }

  function VmWrite(m: Machine, va: bv64, w: nat, v: bv64, r: Reply): Accessed
    requires w <= 8
  {
    match Translate(m, va, Store)
    case None => Halted
    case Some((m', pa)) =>
      if pa == MMU_FAULT then Faulted(m')
      else
        match PhysWrite(m', pa, w, v, r)
        case None => Halted
        case Some(m'') => Got(m'', 0)
  }

  // ---------------------------------------------------------------- Instructions

  function Reg(m: Machine, r: bv5): bv64 {
    m.cpu.regs[r as nat]
  }

  // Write the result register and fall through.
  function Retire(m: Machine, rd: bv5, v: bv64, size: bv64): Machine {
    Advance(m.(cpu := SetReg(m.cpu, rd, v)), size)
  }

  function Advance(m: Machine, size: bv64): Machine {
    m.(cpu := m.cpu.(pc := A.Add(m.cpu.pc, size)))
  }

  function MulOpOf(f: bv3): A.MulOp {
    match f
    case 0 => A.Mul
    case 1 => A.MulH
    case 2 => A.MulHSU
    case 3 => A.MulHU
    case 4 => A.Div
    case 5 => A.DivU
    case 6 => A.Rem
    case _ => A.RemU
  }

  lemma SmallWord(x: bv64)
    ensures ToNat(x) < TWO_64
  {
    RegisterRoundTrip(x, 0);
  }

  function Multiply64(f: bv3, x: bv64, y: bv64): Option<bv64> {
    SmallWord(x);
    SmallWord(y);
    match A.MulDiv(MulOpOf(f), ToNat(x), ToNat(y), TWO_64)
    case None => None
    case Some(r) => Some(FromNat(r))
  }

  function Multiply32(f: bv3, x: bv64, y: bv64): Option<bv64> {
    if 1 <= f <= 3 then None
    else
      match A.MulDiv(MulOpOf(f), ToNat(x) % TWO_32, ToNat(y) % TWO_32, TWO_32)
      case None => None
      case Some(r) => Some(A.Sext32(A.Low32(FromNat(r))))
  }

  predicate Arithmetic(funct7: bv7) { funct7 & 0x20 != 0 }

  function ArithI(funct3: bv3, arithmetic: bool, imm: bv64, x: bv64): bv64 {
    match funct3
    case 0 => A.Add(x, imm)
    case 1 => A.Sll(x, A.Shamt6(imm))
    case 2 => A.Flag(A.Less(x, imm))
    case 3 => A.Flag(A.LessU(x, imm))
    case 4 => A.Xor(x, imm)
    case 5 => if arithmetic then A.Sra(x, A.Shamt6(imm)) else A.Srl(x, A.Shamt6(imm))
    case 6 => A.Or(x, imm)
    case _ => A.And(x, imm)
  }

  function ArithR(funct3: bv3, funct7: bv7, x: bv64, y: bv64): Option<bv64> {
    if funct7 == 1 then Multiply64(funct3, x, y)
    else
      match funct3
      case 0 => Some(if funct7 == 0x20 then A.Sub(x, y) else A.Add(x, y))
      case 1 => Some(A.Sll(x, A.Shamt6(y)))
      case 2 => Some(A.Flag(A.Less(x, y)))
      case 3 => Some(A.Flag(A.LessU(x, y)))
      case 4 => Some(A.Xor(x, y))
      case 5 => Some(if funct7 == 0x20 then A.Sra(x, A.Shamt6(y)) else A.Srl(x, A.Shamt6(y)))
      case 6 => Some(A.Or(x, y))
      case _ => Some(A.And(x, y))
  }

  function Shift32(funct3: bv3, funct7: bv7, x: bv32, n: bv5): Option<bv32> {
    match funct3
    case 1 => Some(A.Sll32(x, n))
    case 5 => Some(if funct7 == 0x20 then A.Sra32(x, n) else A.Srl32(x, n))
    case _ => None
  }

  function ArithIW(funct3: bv3, funct7: bv7, imm: bv64, x: bv64): Option<bv64> {
    var w := A.Low32(x);
    var r := if funct3 == 0 then Some(A.Add32(w, A.Low32(imm))) else Shift32(funct3, funct7, w, A.Shamt5(imm));
    if r.None? then None else Some(A.Sext32(r.value))
  }

  function ArithRW(funct3: bv3, funct7: bv7, x: bv64, y: bv64): Option<bv64> {
    if funct7 == 1 then Multiply32(funct3, x, y)
    else
      var w, z := A.Low32(x), A.Low32(y);
      var r := if funct3 == 0 then Some(if funct7 == 0x20 then A.Sub32(w, z) else A.Add32(w, z))
               else Shift32(funct3, funct7, w, A.Shamt5(y));
      if r.None? then None else Some(A.Sext32(r.value))
  }

  function Taken(funct3: bv3, x: bv64, y: bv64): Option<bool> {
    match funct3
    case 0 => Some(x == y)
    case 1 => Some(x != y)
    case 4 => Some(A.Less(x, y))
    case 5 => Some(!A.Less(x, y))
    case 6 => Some(A.LessU(x, y))
    case 7 => Some(!A.LessU(x, y))
    case _ => None
  }

  // Width of a load or store, and how a load extends the value.
  datatype Extension = Signed | Zero

  function LoadKind(funct3: bv3): Option<(nat, Extension)> {
    match funct3
    case 0 => Some((1, Signed))
    case 1 => Some((2, Signed))
    case 2 => Some((4, Signed))
    case 3 => Some((8, Zero))
    case 4 => Some((1, Zero))
    case 5 => Some((2, Zero))
    case 6 => Some((4, Zero))
    case _ => None
  }

  function Extend(v: bv64, w: nat, e: Extension): bv64 {
    if e == Zero then v
    else if w == 1 then A.Sext8((v & 0xFF) as bv8)
    else if w == 2 then A.Sext16((v & 0xFFFF) as bv16)
    else A.Sext32(A.Low32(v))
  }

  function ExecLoad(m: Machine, i: Instruction, r: Reply): Exec {
    match LoadKind(i.funct3)
    case None => Stop
    case Some((w, e)) =>
      match VmRead(m, A.Add(Reg(m, i.rs1), i.imm), w, r)
      case Halted => Stop
      case Faulted(m') => Next(m')
      case Got(m', v) => Next(Retire(m', i.rd, Extend(v, w, e), i.size))
  }

  function StoreWidth(funct3: bv3): Option<nat> {
    match funct3
    case 0 => Some(1)
    case 1 => Some(2)
    case 2 => Some(4)
    case 3 => Some(8)
    case _ => None
  }

  function ExecStore(m: Machine, i: Instruction, r: Reply): Exec {
    match StoreWidth(i.funct3)
    case None => Stop
    case Some(w) =>
      match VmWrite(m, A.Add(Reg(m, i.rs1), i.imm), w, Reg(m, i.rs2), r)
      case Halted => Stop
      case Faulted(m') => Next(m')
      case Got(m', _) => Next(Advance(m', i.size))
  }

  // FLW replaces only the low word of the register.
  function MergeLow(f: bv64, v: bv64): bv64 {
    (f & 0xFFFF_FFFF_0000_0000) | (v & 0xFFFF_FFFF)
  }

  function ExecFpLoad(m: Machine, i: Instruction, r: Reply): Exec {
    var word := i.funct3 == 2;
    match VmRead(m, A.Add(Reg(m, i.rs1), i.imm), if word then 4 else 8, r)
    case Halted => Stop
    case Faulted(m') => Next(m')
    case Got(m', v) =>
      var f := m'.cpu.fregs[i.rd as nat];
      var fregs := m'.cpu.fregs[i.rd as nat := if word then MergeLow(f, v) else v];
      Next(Advance(m'.(cpu := m'.cpu.(fregs := fregs)), i.size))
  }

  function ExecFpStore(m: Machine, i: Instruction, r: Reply): Exec {
    match VmWrite(m, A.Add(Reg(m, i.rs1), i.imm), if i.funct3 == 2 then 4 else 8, m.cpu.fregs[i.rs2 as nat], r)
    case Halted => Stop
    case Faulted(m') => Next(m')
    case Got(m', _) => Next(Advance(m', i.size))
  }

  function ExecFp(m: Machine, i: Instruction, fused: bool, f: FpResult): Exec {
    match f
    case FpExits => Stop
    case FpReg(v) => Next(Advance(m.(cpu := m.cpu.(fregs := m.cpu.fregs[i.rd as nat := v])), i.size))
    case IntReg(v) => if fused then Stop else Next(Retire(m, i.rd, v, i.size))
  }

  // ---------------------------------------------------------------- Atomics

  function AmoWidth(funct3: bv3): (w: nat)
    ensures w <= 8
  {
    if funct3 == 2 then 4 else 8
  }

  function AmoRead(m: Machine, pa: bv64, funct3: bv3, r: Reply): Option<(Machine, bv64)> {
    match PhysRead(m, pa, AmoWidth(funct3), r)
    case None => None
    case Some((m', v)) => Some((m', if funct3 == 2 then A.Sext32(A.Low32(v)) else v))
  }

  function Funct5(funct7: bv7): bv5 {
    (funct7 >> 2) as bv5
  }

  function AmoResult(funct5: bv5, prev: bv64, src: bv64): bv64 {
    match funct5
    case 0x01 => src
    case 0x00 => A.Add(prev, src)
    case 0x04 => A.Xor(prev, src)
    case 0x0C => A.And(prev, src)
    case 0x08 => A.Or(prev, src)
    case 0x10 => if A.Less(prev, src) then prev else src
    case 0x14 => if A.Less(src, prev) then prev else src
    case 0x18 => if A.LessU(prev, src) then prev else src
    case 0x1C => if A.LessU(src, prev) then prev else src
    case _ => prev
  }

  const NO_RESERVATION: bv64 := 0xFFFF_FFFF_FFFF_FFFF

  // The atomics do not tell the caller that they faulted.
  function ExecLr(m: Machine, i: Instruction, r: Reply): Exec {
    var va := Reg(m, i.rs1);
    match Translate(m, va, Load)
    case None => Stop
    case Some((m', pa)) =>
      if pa == MMU_FAULT then Next(m')
      else
        match AmoRead(m'.(reservation := va), pa, i.funct3, r)
        case None => Stop
        case Some((m'', v)) => Next(m''.(cpu := SetReg(m''.cpu, i.rd, v)))
  }

  function ExecSc(m: Machine, i: Instruction, r: Reply): Exec {
    var va := Reg(m, i.rs1);
    match Translate(m, va, Store)
    case None => Stop
    case Some((m', pa)) =>
      if pa == MMU_FAULT then Next(m')
      else if va != m'.reservation then Next(m'.(cpu := SetReg(m'.cpu, i.rd, 1)))
      else
        match PhysWrite(m', pa, AmoWidth(i.funct3), Reg(m', i.rs2), r)
        case None => Stop
        case Some(m'') => Next(m''.(cpu := SetReg(m''.cpu, i.rd, 0), reservation := NO_RESERVATION))
  }

  function ExecAmo(m: Machine, i: Instruction, first: Reply, second: Reply): Exec {
    match Translate(m, Reg(m, i.rs1), Store)
    case None => Stop
    case Some((m', pa)) =>
      if pa == MMU_FAULT then Next(m')
      else
        match AmoRead(m', pa, i.funct3, first)
        case None => Stop
        case Some((m'', prev)) =>
          match PhysWrite(m'', pa, AmoWidth(i.funct3), AmoResult(Funct5(i.funct7), prev, Reg(m'', i.rs2)), second)
          case None => Stop
          case Some(m3) => Next(m3.(cpu := SetReg(m3.cpu, i.rd, prev)))
  }

  function ExecAtomic(m: Machine, i: Instruction, env: Env): Exec {
    var f := Funct5(i.funct7);
    var r := if f == 2 then ExecLr(m, i, env.first)
             else if f == 3 then ExecSc(m, i, env.first)
             else ExecAmo(m, i, env.first, env.second);
    if r.Stop? then Stop else Next(Advance(r.m, i.size))
  }

  // ---------------------------------------------------------------- System instructions

  function EcallCause(priv: bv2): bv64 {
    8 + (priv as bv64)
  }

  predicate IsSfence(imm: bv64) {
    (imm & 0xFFFF_FFFF) >> 5 == 9
  }

  function ExecEnvironment(m: Machine, imm: bv64): Exec {
    if imm == 0 then
      if m.cpu.priv == PRIV_S then
        var (cpu, timecmp) := SbiCall(m.cpu, m.timecmp);
        Next(m.(cpu := cpu, timecmp := timecmp))
      else Next(m.(cpu := Trap(m.cpu, EcallCause(m.cpu.priv), 0)))
    else if imm == 1 then Next(m.(cpu := Trap(m.cpu, EXC_BREAKPOINT, 0)))
    else if imm == 0x105 then Next(Advance(m, 4))
    else if imm == 0x102 then Next(m.(cpu := Sret(m.cpu)))
    else if imm == 0x302 then Next(m.(cpu := Mret(m.cpu)))
    else if IsSfence(imm) then Next(Advance(m, 4))
    else Stop
  }

  function CsrIndex(imm: bv64): (a: nat)
    ensures a < 4096
  {
    ((imm & 0xFFF) as bv12) as nat
  }

  function MinPriv(imm: bv64): bv2 {
    ((imm >> 8) & 3) as bv2
  }

  predicate Denied(priv: bv2, imm: bv64) {
    priv < MinPriv(imm)
  }

  function CsrResult(op: bv2, prev: bv64, src: bv64): bv64 {
    match op
    case 1 => src
    case 2 => A.Or(prev, src)
    case 3 => A.AndNot(prev, src)
    case _ => prev
  }

  // The rs1 field, or the register it names.
  function CsrOperand(i: Instruction, x: bv64): bv64 {
    if i.funct3 & 4 != 0 then i.rs1 as bv64 else x
  }

  function CsrSource(c: Cpu, i: Instruction): bv64 {
    CsrOperand(i, c.regs[i.rs1 as nat])
  }

  function CsrOp(i: Instruction): bv2 {
    (i.funct3 & 3) as bv2
  }

  // The write a CSR instruction makes, if it makes one.
  function CsrStore(c: Cpu, i: Instruction): Option<bv64> {
    var src := CsrSource(c, i);
    if CsrOp(i) == 1 || src != 0 then Some(CsrResult(CsrOp(i), CsrRead(c, CsrIndex(i.imm)), src)) else None
  }

  function ExecCsr(m: Machine, i: Instruction): Exec {
    if Denied(m.cpu.priv, i.imm) then Next(m.(cpu := Trap(m.cpu, EXC_ILLEGAL, 0)))
    else
      var a := CsrIndex(i.imm);
      var s := CsrStore(m.cpu, i);
      var m' := if s.Some? then m.(cpu := CsrWrite(m.cpu, a, s.value)) else m;
      Next(Retire(m', i.rd, CsrRead(m.cpu, a), i.size))
  }

  // ---------------------------------------------------------------- Dispatch

  function Computed(m: Machine, i: Instruction, v: Option<bv64>): Exec {
    if v.None? then Stop else Next(Retire(m, i.rd, v.value, i.size))
  }

  // Instructions that touch neither memory nor CSRs.
  function ExecRegister(m: Machine, i: Instruction, f: FpResult): Exec {
    var pc, x, y := m.cpu.pc, Reg(m, i.rs1), Reg(m, i.rs2);
    match i.opcode
    case OP_LUI => Computed(m, i, Some(i.imm))
    case OP_AUIPC => Computed(m, i, Some(A.Add(pc, i.imm)))
    case OP_JAL => Next(m.(cpu := SetReg(m.cpu, i.rd, A.Add(pc, i.size)).(pc := A.Add(pc, i.imm))))
    case OP_JALR => Next(m.(cpu := SetReg(m.cpu, i.rd, A.Add(pc, i.size)).(pc := A.AndNot(A.Add(x, i.imm), 1))))
    case OP_BRANCH =>
      var t := Taken(i.funct3, x, y);
      if t.None? then Stop else Next(Advance(m, if t.value then i.imm else i.size))
    case OP_I_ARITH => Computed(m, i, Some(ArithI(i.funct3, Arithmetic(i.funct7), i.imm, x)))
    case OP_R_ARITH => Computed(m, i, ArithR(i.funct3, i.funct7, x, y))
    case OP_I_ARITH_W => Computed(m, i, ArithIW(i.funct3, i.funct7, i.imm, x))
    case OP_R_ARITH_W => Computed(m, i, ArithRW(i.funct3, i.funct7, x, y))
    case OP_FMADD => ExecFp(m, i, true, f)
    case OP_FMSUB => ExecFp(m, i, true, f)
    case OP_FNMSUB => ExecFp(m, i, true, f)
    case OP_FNMADD => ExecFp(m, i, true, f)
    case OP_FP => ExecFp(m, i, false, f)
    case OP_FENCE => Next(Advance(m, i.size))
    case _ => Stop
  }

  function Execute(m: Machine, i: Instruction, env: Env): Exec {
    match i.opcode
    case OP_LOAD => ExecLoad(m, i, env.first)
    case OP_STORE => ExecStore(m, i, env.first)
    case OP_FLW_FLD => ExecFpLoad(m, i, env.first)
    case OP_FSW_FSD => ExecFpStore(m, i, env.first)
    case OP_AMO => ExecAtomic(m, i, env)
    case OP_SYSTEM => if i.funct3 == 0 then ExecEnvironment(m, i.imm) else ExecCsr(m, i)
    case _ => ExecRegister(m, i, env.fp)
  }

  // ---------------------------------------------------------------- Steps

  // What a step did.
  datatype Event = Interrupted(bit: bv6) | FetchFailed | Executed(i: Instruction)

  datatype StepResult = Stepped(m: Machine, event: Event) | Ended

  function Bump(n: bv64): bv64 { n + 1 }

  // Count the step and poll the interrupt sources.
  function Poll(m: Machine, deeds: seq<Deed>): Machine {
    ClintPoll(DoAll(m.(cpu := m.cpu.(steps := Bump(m.cpu.steps))), deeds))
  }

  predicate Compressed(lo: bv16) { lo & 3 != 3 }

  // The instruction at a physical address. None: it does not lie in RAM.
  function Fetched(m: Machine, pa: bv64): Option<Instruction> {
    var a := Place(pa);
    if !InRam(m.ram, a, 2) then None
    else
      var lo := Word16(Peek(m.ram, a, 2));
      if Compressed(lo) then Some(DecodeRvc(lo))
      else if !InRam(m.ram, a, 4) then None
      else Some(DecodeWord(Word32(Peek(m.ram, a, 4))))
  }

  function FetchExecute(m: Machine, env: Env): (s: StepResult)
    ensures s.Stepped? ==> !s.event.Interrupted?
  {
    match Translate(m, m.cpu.pc, Fetch)
    case None => Ended
    case Some((m', pa)) =>
      if pa == MMU_FAULT then Stepped(m', FetchFailed)
      else
        match Fetched(m', pa)
        case None => Ended
        case Some(i) =>
          match Execute(m', i, env)
          case Stop => Ended
          case Next(m'') => Stepped(m'', Executed(i))
  }

  function Step(m: Machine, env: Env): StepResult {
    var m1 := Poll(m, env.polled);
    match Select(m1.cpu)
    case Some(b) => Stepped(m1.(cpu := Trap(m1.cpu, IrqCause(b), 0)), Interrupted(b))
    case None => FetchExecute(m1, env)
  }

  // ---------------------------------------------------------------- Frames

  // Only memory and, on a fault, the hart change in a translation.
  lemma TranslateFrame(m: Machine, va: bv64, access: Access)
    requires Translate(m, va, access).Some?
    ensures var (m', pa) := Translate(m, va, access).value;
            m' == m.(ram := m'.ram, cpu := m'.cpu) && (pa != MMU_FAULT ==> m'.cpu == m.cpu)
  {
    hide Resolve, ContextOf, Trap, Touch;
  }

  // Instructions without a memory operand change neither memory, nor the controller, nor the
  // reservation.
  predicate Undisturbed(m: Machine, e: Exec) {
    e.Next? ==> e.m.ram == m.ram && e.m.plic == m.plic && e.m.reservation == m.reservation
  }

  lemma SystemFrame(m: Machine, i: Instruction)
    ensures Undisturbed(m, ExecEnvironment(m, i.imm)) && Undisturbed(m, ExecCsr(m, i))
  {
    hide Trap, SbiCall, Sret, Mret, CsrWrite, CsrRead, CsrStore, A.Add, SetReg, IsSfence, Denied, EcallCause, CsrIndex;
  }

  lemma FpFrame(m: Machine, i: Instruction, fused: bool, f: FpResult)
    ensures Undisturbed(m, ExecFp(m, i, fused, f))
  {
    hide SetReg, A.Add;
  }

  lemma ComputedFrame(m: Machine, i: Instruction, v: Option<bv64>)
    ensures Undisturbed(m, Computed(m, i, v))
  {
    hide SetReg, A.Add;
  }

  lemma RegisterFrame(m: Machine, i: Instruction, f: FpResult)
    ensures Undisturbed(m, ExecRegister(m, i, f))
  {
    hide ExecFp, Computed, SetReg, ArithI, ArithR, ArithIW, ArithRW, Taken, Arithmetic, A.Add, A.AndNot, Reg;
    match i.opcode
    case OP_LUI => ComputedFrame(m, i, Some(i.imm));
    case OP_AUIPC => ComputedFrame(m, i, Some(A.Add(m.cpu.pc, i.imm)));
    case OP_I_ARITH => ComputedFrame(m, i, Some(ArithI(i.funct3, Arithmetic(i.funct7), i.imm, Reg(m, i.rs1))));
    case OP_R_ARITH => ComputedFrame(m, i, ArithR(i.funct3, i.funct7, Reg(m, i.rs1), Reg(m, i.rs2)));
    case OP_I_ARITH_W => ComputedFrame(m, i, ArithIW(i.funct3, i.funct7, i.imm, Reg(m, i.rs1)));
    case OP_R_ARITH_W => ComputedFrame(m, i, ArithRW(i.funct3, i.funct7, Reg(m, i.rs1), Reg(m, i.rs2)));
    case OP_FP => FpFrame(m, i, false, f);
    case OP_FMADD => FpFrame(m, i, true, f);
    case OP_FMSUB => FpFrame(m, i, true, f);
    case OP_FNMSUB => FpFrame(m, i, true, f);
    case OP_FNMADD => FpFrame(m, i, true, f);
    case _ =>
  }
}

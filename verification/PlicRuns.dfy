/** The interrupt controller within the machine: every run acts on it as a trace of raises,
    claims, completions and register writes, so the laws of traces are laws of runs. */
module PlicRuns {
  import opened Words
  import opened Memory
  import opened Mmu
  import opened Hart
  import opened Decode
  import opened Machine
  import opened PlicProtocol
  import A = Alu
  import Plic
  import C = Confinement

  type Trace = seq<LegalOp>

  function Act(p: Plic.Plic, ops: Trace): Plic.Plic {
    StateAt(p, ops, |ops|)
  }

  lemma {:induction false} SamePrefix(p: Plic.Plic, a: Trace, b: Trace, n: nat)
    requires n <= |a|
    ensures StateAt(p, a + b, n) == StateAt(p, a, n)
  {
    hide Apply;
    if n > 0 {
      SamePrefix(p, a, b, n - 1);
    }
  }

  lemma {:induction false} ActAppend(p: Plic.Plic, a: Trace, b: Trace)
    ensures Act(p, a + b) == Act(Act(p, a), b)
    decreases |b|
  {
    hide Apply;
    if b == [] {
      assert a + b == a;
    } else {
      var last := |b| - 1;
      ActAppend(p, a, b[..last]);
      SamePrefix(p, a + b[..last], b[last..], |a| + last);
      SamePrefix(Act(p, a), b[..last], b[last..], last);
      assert a + b == a + b[..last] + b[last..] && b == b[..last] + b[last..];
    }
  }

  // ---------------------------------------------------------------- What accesses do

  function ReadOps(offset: nat): Trace {
    var ctx, at := (offset - 0x20_0000) / 0x1000, (offset - 0x20_0000) % 0x1000;
    if offset >= 0x20_0000 && ctx < 2 && at == 4 then [ClaimOp(ctx)] else []
  }

  function WriteOps(offset: nat, v: Plic.U32, mask: bv32): Trace {
    if offset < 0x1000 then if offset / 4 < Plic.SOURCES then [PriorityOp(offset / 4, v)] else []
    else if 0x2000 <= offset < 0x20_0000 then
      var ctx := (offset - 0x2000) / 0x80;
      if ctx < 2 && (offset - 0x2000) % 0x80 == 0 then [EnableOp(ctx, mask)] else []
    else if offset >= 0x20_0000 then
      var ctx, at := (offset - 0x20_0000) / 0x1000, (offset - 0x20_0000) % 0x1000;
      if ctx < 2 && at == 0 then [ThresholdOp(ctx, v)]
      else if ctx < 2 && at == 4 then [CompleteOp(v)]
      else []
    else []
  }

  function DeedOps(d: Deed): Trace {
    match d
    case Signals(irq) => [RaiseOp(irq)]
    case ReadsPlic(offset) => ReadOps(offset)
    case WritesPlic(offset, v) => WriteOps(offset, U32Of(v), MaskOf(v))
    case SetsTimer(_) => []
  }

  function DeedsOps(deeds: seq<Deed>): Trace {
    if deeds == [] then [] else DeedOps(deeds[0]) + DeedsOps(deeds[1..])
  }

  function ReplyOps(r: Reply): Trace {
    if r.Exits? then [] else DeedsOps(r.deeds)
  }

  function PhysReadOps(m: Machine, pa: bv64, w: nat, r: Reply): Trace {
    var a := Place(pa);
    if InRam(m.ram, a, w) then []
    else if InOther(a, w) then ReplyOps(r)
    else if InPlic(a, w) then ReadOps(a - 0x0C00_0000)
    else []
  }

  function PhysWriteOps(m: Machine, pa: bv64, w: nat, v: bv64, r: Reply): Trace
    requires w <= 8
  {
    var a, t := Place(pa), Truncate(v, w);
    if InRam(m.ram, a, w) then []
    else if InOther(a, w) then ReplyOps(r)
    else if InPlic(a, w) then WriteOps(a - 0x0C00_0000, U32Of(t), MaskOf(t))
    else []
  }

  function VmReadOps(m: Machine, va: bv64, w: nat, r: Reply): Trace {
    match Translate(m, va, Load)
    case None => []
    case Some((m', pa)) => if pa == MMU_FAULT then [] else PhysReadOps(m', pa, w, r)
  }

  function VmWriteOps(m: Machine, va: bv64, w: nat, v: bv64, r: Reply): Trace
    requires w <= 8
  {
    match Translate(m, va, Store)
    case None => []
    case Some((m', pa)) => if pa == MMU_FAULT then [] else PhysWriteOps(m', pa, w, v, r)
  }

  function ScOps(m: Machine, i: Instruction, r: Reply): Trace {
    var va := Reg(m, i.rs1);
    if va == m.reservation then VmWriteOps(m, va, AmoWidth(i.funct3), Reg(m, i.rs2), r) else []
  }

  function AmoOps(m: Machine, i: Instruction, first: Reply, second: Reply): Trace {
    match Translate(m, Reg(m, i.rs1), Store)
    case None => []
    case Some((m', pa)) =>
      if pa == MMU_FAULT then []
      else
        match AmoRead(m', pa, i.funct3, first)
        case None => []
        case Some((m'', prev)) =>
          var result := AmoResult(Funct5(i.funct7), prev, Reg(m'', i.rs2));
          PhysReadOps(m', pa, AmoWidth(i.funct3), first) + PhysWriteOps(m'', pa, AmoWidth(i.funct3), result, second)
  }

  function AtomicOps(m: Machine, i: Instruction, env: Env): Trace {
    var f := Funct5(i.funct7);
    if f == 2 then VmReadOps(m, Reg(m, i.rs1), AmoWidth(i.funct3), env.first)
    else if f == 3 then ScOps(m, i, env.first)
    else AmoOps(m, i, env.first, env.second)
  }

  function LoadOps(m: Machine, i: Instruction, w: nat, r: Reply): Trace {
    VmReadOps(m, A.Add(Reg(m, i.rs1), i.imm), w, r)
  }

  function StoreOps(m: Machine, i: Instruction, w: nat, v: bv64, r: Reply): Trace
    requires w <= 8
  {
    VmWriteOps(m, A.Add(Reg(m, i.rs1), i.imm), w, v, r)
  }

  function FpWidth(funct3: bv3): (w: nat)
    ensures w <= 8
  {
    if funct3 == 2 then 4 else 8
  }

  function ExecuteOps(m: Machine, i: Instruction, env: Env): Trace {
    match i.opcode
    case OP_LOAD => if LoadKind(i.funct3).None? then [] else LoadOps(m, i, LoadKind(i.funct3).value.0, env.first)
    case OP_STORE =>
      if StoreWidth(i.funct3).None? then [] else StoreOps(m, i, StoreWidth(i.funct3).value, Reg(m, i.rs2), env.first)
    case OP_FLW_FLD => LoadOps(m, i, FpWidth(i.funct3), env.first)
    case OP_FSW_FSD => StoreOps(m, i, FpWidth(i.funct3), m.cpu.fregs[i.rs2 as nat], env.first)
    case OP_AMO => AtomicOps(m, i, env)
    case _ => []
  }

  function FetchExecuteOps(m: Machine, env: Env): Trace {
    match Translate(m, m.cpu.pc, Fetch)
    case None => []
    case Some((m', pa)) =>
      if pa == MMU_FAULT || Fetched(m', pa).None? then [] else ExecuteOps(m', Fetched(m', pa).value, env)
  }

  function StepOps(m: Machine, env: Env): Trace {
    var m1 := Poll(m, env.polled);
    DeedsOps(env.polled) + if Select(m1.cpu).Some? then [] else FetchExecuteOps(m1, env)
  }

  function RunOps(m: Machine, envs: seq<Env>): Trace
    decreases |envs|
  {
    if envs == [] then []
    else
      match Step(m, envs[0])
      case Ended => []
      case Stepped(m', _) => StepOps(m, envs[0]) + RunOps(m', envs[1..])
  }

  // ---------------------------------------------------------------- The machine acts so

  lemma ActOne(p: Plic.Plic, op: LegalOp)
    ensures Act(p, [op]) == Apply(p, op)
  {
    hide Apply;
    assert StateAt(p, [op], 0) == p;
  }

  lemma ActNone(p: Plic.Plic)
    ensures Act(p, []) == p
  {
  }

  // A register access of the controller, and what a claiming read returns.
  lemma RegisterActs(p: Plic.Plic, offset: nat, v: Plic.U32, mask: bv32)
    ensures Plic.Read(p, offset).p == Act(p, ReadOps(offset))
    ensures Plic.Write(p, offset, v, mask).p == Act(p, WriteOps(offset, v, mask))
    ensures forall ctx :: ctx < 2 && ReadOps(offset) == [ClaimOp(ctx)] ==>
              Plic.Read(p, offset).value == Claimed(p, ClaimOp(ctx))
  {
    hide Act, Plic.Claim, Plic.Complete, Plic.MaskNat;
    ActNone(p);
    if ReadOps(offset) != [] {
      ActOne(p, ReadOps(offset)[0]);
    }
    if WriteOps(offset, v, mask) != [] {
      ActOne(p, WriteOps(offset, v, mask)[0]);
    }
  }

  lemma DoActs(m: Machine, d: Deed)
    ensures Do(m, d).plic == Act(m.plic, DeedOps(d))
  {
    hide Act, Plic.Read, Plic.Write, ReadOps, WriteOps, Plic.With, Plic.AfterEffect, U32Of, MaskOf;
    ActNone(m.plic);
    match d
    case Signals(irq) => ActOne(m.plic, RaiseOp(irq));
    case ReadsPlic(offset) => RegisterActs(m.plic, offset, 0, 0);
    case WritesPlic(offset, v) => RegisterActs(m.plic, offset, U32Of(v), MaskOf(v));
    case SetsTimer(_) =>
  }

  lemma {:induction false} DoAllActs(m: Machine, deeds: seq<Deed>)
    ensures DoAll(m, deeds).plic == Act(m.plic, DeedsOps(deeds))
    decreases |deeds|
  {
    hide Act, Do, DeedOps;
    ActNone(m.plic);
    if deeds != [] {
      DoActs(m, deeds[0]);
      DoAllActs(Do(m, deeds[0]), deeds[1..]);
      ActAppend(m.plic, DeedOps(deeds[0]), DeedsOps(deeds[1..]));
    }
  }

  lemma AnswerActs(m: Machine, r: Reply)
    requires r.Answers?
    ensures Answer(m, r).plic == Act(m.plic, ReplyOps(r))
  {
    hide Act, DoAll, DeedsOps;
    DoAllActs(if |r.dma| == |m.ram.bytes| then m.(ram := m.ram.(bytes := r.dma)) else m, r.deeds);
  }

  lemma PhysReadActs(m: Machine, pa: bv64, w: nat, r: Reply)
    requires w <= 8 && PhysRead(m, pa, w, r).Some?
    ensures PhysRead(m, pa, w, r).value.0.plic == Act(m.plic, PhysReadOps(m, pa, w, r))
  {
    hide Act, Answer, ReplyOps, Plic.Read, ReadOps, Truncate, WordOf, FromU32, Place, Plic.AfterEffect;
    var a := Place(pa);
    ActNone(m.plic);
    if !InRam(m.ram, a, w) {
      if InOther(a, w) {
        AnswerActs(m, r);
      } else if InPlic(a, w) {
        RegisterActs(m.plic, a - 0x0C00_0000, 0, 0);
      }
    }
  }

  lemma PhysWriteActs(m: Machine, pa: bv64, w: nat, v: bv64, r: Reply)
    requires w <= 8 && PhysWrite(m, pa, w, v, r).Some?
    ensures PhysWrite(m, pa, w, v, r).value.plic == Act(m.plic, PhysWriteOps(m, pa, w, v, r))
  {
    hide Act, Answer, ReplyOps, Plic.Write, WriteOps, Truncate, LowBytes, U32Of, MaskOf, Place, Plic.AfterEffect;
    var a, t := Place(pa), Truncate(v, w);
    ActNone(m.plic);
    if !InRam(m.ram, a, w) {
      if InOther(a, w) {
        AnswerActs(m, r);
      } else if InPlic(a, w) {
        RegisterActs(m.plic, a - 0x0C00_0000, U32Of(t), MaskOf(t));
      }
    }
  }

  lemma VmReadActs(m: Machine, va: bv64, w: nat, r: Reply)
    requires w <= 8 && !VmRead(m, va, w, r).Halted?
    ensures VmRead(m, va, w, r).m.plic == Act(m.plic, VmReadOps(m, va, w, r))
  {
    hide Act, Translate, PhysRead, PhysReadOps;
    TranslateFrame(m, va, Load);
    ActNone(m.plic);
    var (m', pa) := Translate(m, va, Load).value;
    if pa != MMU_FAULT {
      PhysReadActs(m', pa, w, r);
    }
  }

  lemma VmWriteActs(m: Machine, va: bv64, w: nat, v: bv64, r: Reply)
    requires w <= 8 && !VmWrite(m, va, w, v, r).Halted?
    ensures VmWrite(m, va, w, v, r).m.plic == Act(m.plic, VmWriteOps(m, va, w, v, r))
  {
    hide Act, Translate, PhysWrite, PhysWriteOps;
    TranslateFrame(m, va, Store);
    ActNone(m.plic);
    var (m', pa) := Translate(m, va, Store).value;
    if pa != MMU_FAULT {
      PhysWriteActs(m', pa, w, v, r);
    }
  }

  lemma LrActs(m: Machine, i: Instruction, r: Reply)
    requires ExecLr(m, i, r).Next?
    ensures ExecLr(m, i, r).m.plic == Act(m.plic, VmReadOps(m, Reg(m, i.rs1), AmoWidth(i.funct3), r))
  {
    hide Act, Translate, PhysRead, PhysReadOps, Reg, SetReg, A.Sext32, A.Low32;
    var va := Reg(m, i.rs1);
    TranslateFrame(m, va, Load);
    ActNone(m.plic);
    var (m', pa) := Translate(m, va, Load).value;
    if pa != MMU_FAULT {
      var reserved := m'.(reservation := va);
      PhysReadActs(reserved, pa, AmoWidth(i.funct3), r);
      SameRam(reserved, m', pa, AmoWidth(i.funct3), r);
    }
  }

  lemma SameRam(m: Machine, n: Machine, pa: bv64, w: nat, r: Reply)
    requires m.ram == n.ram
    ensures PhysReadOps(m, pa, w, r) == PhysReadOps(n, pa, w, r)
  {
    hide Place, ReplyOps, ReadOps;
  }

  lemma ScActs(m: Machine, i: Instruction, r: Reply)
    requires ExecSc(m, i, r).Next?
    ensures ExecSc(m, i, r).m.plic == Act(m.plic, ScOps(m, i, r))
  {
    hide Act, Translate, PhysWrite, PhysWriteOps, SetReg;
    var va := Reg(m, i.rs1);
    TranslateFrame(m, va, Store);
    ActNone(m.plic);
    var (m', pa) := Translate(m, va, Store).value;
    if pa != MMU_FAULT && va == m.reservation {
      PhysWriteActs(m', pa, AmoWidth(i.funct3), Reg(m', i.rs2), r);
    }
  }

  lemma AmoActs(m: Machine, i: Instruction, first: Reply, second: Reply)
    requires ExecAmo(m, i, first, second).Next?
    ensures ExecAmo(m, i, first, second).m.plic == Act(m.plic, AmoOps(m, i, first, second))
  {
    hide Act, Translate, PhysRead, PhysReadOps, PhysWrite, PhysWriteOps, AmoResult, Reg, SetReg, A.Sext32, A.Low32;
    var va, w := Reg(m, i.rs1), AmoWidth(i.funct3);
    TranslateFrame(m, va, Store);
    ActNone(m.plic);
    var (m', pa) := Translate(m, va, Store).value;
    if pa != MMU_FAULT {
      var (m'', prev) := AmoRead(m', pa, i.funct3, first).value;
      var result := AmoResult(Funct5(i.funct7), prev, Reg(m'', i.rs2));
      PhysReadActs(m', pa, w, first);
      PhysWriteActs(m'', pa, w, result, second);
      ActAppend(m.plic, PhysReadOps(m', pa, w, first), PhysWriteOps(m'', pa, w, result, second));
    }
  }

  lemma AtomicActs(m: Machine, i: Instruction, env: Env)
    requires ExecAtomic(m, i, env).Next?
    ensures ExecAtomic(m, i, env).m.plic == Act(m.plic, AtomicOps(m, i, env))
  {
    hide Act, ExecLr, ExecSc, ExecAmo, VmReadOps, ScOps, AmoOps, Funct5;
    var f := Funct5(i.funct7);
    if f == 2 {
      LrActs(m, i, env.first);
    } else if f == 3 {
      ScActs(m, i, env.first);
    } else {
      AmoActs(m, i, env.first, env.second);
    }
  }

  lemma LoadActs(m: Machine, i: Instruction, w: nat, r: Reply)
    requires ExecLoad(m, i, r).Next? && LoadKind(i.funct3).Some? && w == LoadKind(i.funct3).value.0
    ensures ExecLoad(m, i, r).m.plic == Act(m.plic, LoadOps(m, i, w, r))
  {
    hide Act, VmRead, VmReadOps, Reg, SetReg, Extend, A.Add;
    VmReadActs(m, A.Add(Reg(m, i.rs1), i.imm), w, r);
  }

  lemma StoreActs(m: Machine, i: Instruction, w: nat, v: bv64, r: Reply)
    requires ExecStore(m, i, r).Next? && w <= 8 && StoreWidth(i.funct3) == Some(w) && v == Reg(m, i.rs2)
    ensures ExecStore(m, i, r).m.plic == Act(m.plic, StoreOps(m, i, w, v, r))
  {
    hide Act, VmWrite, VmWriteOps, Reg, A.Add;
    VmWriteActs(m, A.Add(Reg(m, i.rs1), i.imm), w, v, r);
  }

  lemma FpLoadActs(m: Machine, i: Instruction, r: Reply)
    requires ExecFpLoad(m, i, r).Next?
    ensures ExecFpLoad(m, i, r).m.plic == Act(m.plic, LoadOps(m, i, FpWidth(i.funct3), r))
  {
    hide Act, VmRead, VmReadOps, Reg, MergeLow, A.Add;
    VmReadActs(m, A.Add(Reg(m, i.rs1), i.imm), FpWidth(i.funct3), r);
  }

  lemma FpStoreActs(m: Machine, i: Instruction, r: Reply)
    requires ExecFpStore(m, i, r).Next?
    ensures ExecFpStore(m, i, r).m.plic == Act(m.plic, StoreOps(m, i, FpWidth(i.funct3), m.cpu.fregs[i.rs2 as nat], r))
  {
    hide Act, VmWrite, VmWriteOps, Reg, A.Add;
    VmWriteActs(m, A.Add(Reg(m, i.rs1), i.imm), FpWidth(i.funct3), m.cpu.fregs[i.rs2 as nat], r);
  }

  lemma ExecuteActs(m: Machine, i: Instruction, env: Env)
    requires Execute(m, i, env).Next?
    ensures Execute(m, i, env).m.plic == Act(m.plic, ExecuteOps(m, i, env))
  {
    hide Act, ExecLoad, ExecStore, ExecFpLoad, ExecFpStore, ExecAtomic, ExecEnvironment, ExecCsr, ExecRegister;
    hide AtomicOps, LoadOps, StoreOps, Reg;
    ActNone(m.plic);
    match i.opcode
    case OP_LOAD =>
      LoadKnown(m, i, env.first);
      LoadActs(m, i, LoadKind(i.funct3).value.0, env.first);
    case OP_STORE =>
      StoreKnown(m, i, env.first);
      StoreActs(m, i, StoreWidth(i.funct3).value, Reg(m, i.rs2), env.first);
    case OP_FLW_FLD => FpLoadActs(m, i, env.first);
    case OP_FSW_FSD => FpStoreActs(m, i, env.first);
    case OP_AMO => AtomicActs(m, i, env);
    case OP_SYSTEM => SystemFrame(m, i);
    case _ => RegisterFrame(m, i, env.fp);
  }

  lemma LoadKnown(m: Machine, i: Instruction, r: Reply)
    ensures LoadKind(i.funct3).None? ==> ExecLoad(m, i, r).Stop?
  {
    hide VmRead, Reg;
  }

  lemma StoreKnown(m: Machine, i: Instruction, r: Reply)
    ensures StoreWidth(i.funct3).None? ==> ExecStore(m, i, r).Stop?
  {
    hide VmWrite, Reg;
  }

  lemma PollActs(m: Machine, deeds: seq<Deed>)
    ensures Poll(m, deeds).plic == Act(m.plic, DeedsOps(deeds))
  {
    hide Act, DoAll, DeedsOps, Bump, SetStip;
    DoAllActs(m.(cpu := m.cpu.(steps := Bump(m.cpu.steps))), deeds);
  }

  lemma StepActs(m: Machine, env: Env)
    requires Step(m, env).Stepped?
    ensures Step(m, env).m.plic == Act(m.plic, StepOps(m, env))
  {
    hide Act, Poll, DeedsOps, Select, Trap, IrqCause, Translate, Fetched, Execute, ExecuteOps;
    var m1 := Poll(m, env.polled);
    PollActs(m, env.polled);
    ActNone(m1.plic);
    if Select(m1.cpu).None? {
      TranslateFrame(m1, m1.cpu.pc, Fetch);
      var (m', pa) := Translate(m1, m1.cpu.pc, Fetch).value;
      if pa != MMU_FAULT {
        ExecuteActs(m', Fetched(m', pa).value, env);
      }
    }
    ActAppend(m.plic, DeedsOps(env.polled), if Select(m1.cpu).Some? then [] else FetchExecuteOps(m1, env));
  }

  /** A run of the machine is a trace of the controller: the operations its steps make, in
      order, take the controller from where the run starts to where it ends. */
  lemma {:induction false} RunIsTrace(m: Machine, envs: seq<Env>)
    requires C.Run(m, envs).Some?
    ensures C.Run(m, envs).value.plic == Act(m.plic, RunOps(m, envs))
    decreases |envs|
  {
    hide Act, Step, StepOps;
    if envs == [] {
      ActNone(m.plic);
    } else {
      var m' := Step(m, envs[0]).m;
      StepActs(m, envs[0]);
      RunIsTrace(m', envs[1..]);
      ActAppend(m.plic, StepOps(m, envs[0]), RunOps(m', envs[1..]));
    }
  }

  // ---------------------------------------------------------------- Conservation over runs

  function Occurs(deeds: seq<Deed>, k: nat): nat {
    if deeds == [] then 0 else Occurs(deeds[1..], k) + Count(deeds[0] == Signals(k))
  }

  function ReplyRaises(r: Reply, k: nat): nat {
    if r.Exits? then 0 else Occurs(r.deeds, k)
  }

  // How often devices raise source k over the steps of a run.
  function Raised(envs: seq<Env>, k: nat): nat {
    if envs == [] then 0 else RaisedBy(envs[0], k) + Raised(envs[1..], k)
  }

  function RaisedBy(env: Env, k: nat): nat {
    Occurs(env.polled, k) + ReplyRaises(env.first, k) + ReplyRaises(env.second, k)
  }

  function RaisesIn(ops: Trace, k: nat): nat {
    Raises(ops, |ops|, k)
  }

  lemma {:induction false} RaisesPrefix(a: Trace, b: Trace, n: nat, k: nat)
    requires n <= |a|
    ensures Raises(a + b, n, k) == Raises(a, n, k)
  {
    if n > 0 {
      RaisesPrefix(a, b, n - 1, k);
    }
  }

  lemma {:induction false} RaisesAppend(a: Trace, b: Trace, k: nat)
    ensures RaisesIn(a + b, k) == RaisesIn(a, k) + RaisesIn(b, k)
    decreases |b|
  {
    if b == [] {
      assert a + b == a;
    } else {
      var last := |b| - 1;
      RaisesAppend(a, b[..last], k);
      RaisesPrefix(a + b[..last], b[last..], |a| + last, k);
      RaisesPrefix(b[..last], b[last..], last, k);
      assert a + b == a + b[..last] + b[last..] && b == b[..last] + b[last..];
    }
  }

  lemma NoRaises(op: LegalOp, k: nat)
    requires !op.RaiseOp?
    ensures RaisesIn([op], k) == 0
  {
    assert Raises([op], 0, k) == 0;
  }

  lemma RegisterRaises(offset: nat, v: Plic.U32, mask: bv32, k: nat)
    ensures RaisesIn(ReadOps(offset), k) == 0 && RaisesIn(WriteOps(offset, v, mask), k) == 0
  {
    if ReadOps(offset) != [] {
      NoRaises(ReadOps(offset)[0], k);
    }
    if WriteOps(offset, v, mask) != [] {
      NoRaises(WriteOps(offset, v, mask)[0], k);
    }
  }

  lemma DeedRaises(d: Deed, k: nat)
    ensures RaisesIn(DeedOps(d), k) == Count(d == Signals(k))
  {
    hide ReadOps, WriteOps, U32Of, MaskOf;
    match d
    case Signals(irq) =>
      var op: LegalOp := RaiseOp(irq);
      assert Raises([op], 0, k) == 0;
    case ReadsPlic(offset) => RegisterRaises(offset, 0, 0, k);
    case WritesPlic(offset, v) => RegisterRaises(offset, U32Of(v), MaskOf(v), k);
    case SetsTimer(_) =>
  }

  lemma {:induction false} DeedsRaise(deeds: seq<Deed>, k: nat)
    ensures RaisesIn(DeedsOps(deeds), k) == Occurs(deeds, k)
  {
    hide DeedOps;
    if deeds != [] {
      DeedRaises(deeds[0], k);
      DeedsRaise(deeds[1..], k);
      RaisesAppend(DeedOps(deeds[0]), DeedsOps(deeds[1..]), k);
    }
  }

  lemma PhysRaises(m: Machine, pa: bv64, w: nat, v: bv64, r: Reply, k: nat)
    requires w <= 8
    ensures RaisesIn(PhysReadOps(m, pa, w, r), k) <= ReplyRaises(r, k)
    ensures RaisesIn(PhysWriteOps(m, pa, w, v, r), k) <= ReplyRaises(r, k)
  {
    hide DeedsOps, ReadOps, WriteOps, Truncate, U32Of, MaskOf, Place;
    var a, t := Place(pa), Truncate(v, w);
    if r.Answers? {
      DeedsRaise(r.deeds, k);
    }
    if InPlic(a, w) {
      RegisterRaises(a - 0x0C00_0000, U32Of(t), MaskOf(t), k);
    }
  }

  lemma VmRaises(m: Machine, va: bv64, w: nat, v: bv64, r: Reply, k: nat)
    requires w <= 8
    ensures RaisesIn(VmReadOps(m, va, w, r), k) <= ReplyRaises(r, k)
    ensures RaisesIn(VmWriteOps(m, va, w, v, r), k) <= ReplyRaises(r, k)
  {
    hide Translate, PhysReadOps, PhysWriteOps, ReplyRaises;
    if Translate(m, va, Load).Some? {
      PhysRaises(Translate(m, va, Load).value.0, Translate(m, va, Load).value.1, w, v, r, k);
    }
    if Translate(m, va, Store).Some? {
      PhysRaises(Translate(m, va, Store).value.0, Translate(m, va, Store).value.1, w, v, r, k);
    }
  }

  lemma AtomicRaises(m: Machine, i: Instruction, env: Env, k: nat)
    ensures RaisesIn(AtomicOps(m, i, env), k) <= ReplyRaises(env.first, k) + ReplyRaises(env.second, k)
  {
    hide Translate, PhysReadOps, PhysWriteOps, VmReadOps, VmWriteOps, AmoRead, AmoResult, ReplyRaises, Reg, Funct5;
    var va, w := Reg(m, i.rs1), AmoWidth(i.funct3);
    VmRaises(m, va, w, Reg(m, i.rs2), env.first, k);
    if Translate(m, va, Store).Some? {
      var (m', pa) := Translate(m, va, Store).value;
      var read := AmoRead(m', pa, i.funct3, env.first);
      if read.Some? {
        var (m'', prev) := read.value;
        var result := AmoResult(Funct5(i.funct7), prev, Reg(m'', i.rs2));
        PhysRaises(m', pa, w, 0, env.first, k);
        PhysRaises(m'', pa, w, result, env.second, k);
        RaisesAppend(PhysReadOps(m', pa, w, env.first), PhysWriteOps(m'', pa, w, result, env.second), k);
      }
    }
  }

  lemma ExecuteRaises(m: Machine, i: Instruction, env: Env, k: nat)
    ensures RaisesIn(ExecuteOps(m, i, env), k) <= ReplyRaises(env.first, k) + ReplyRaises(env.second, k)
  {
    hide VmReadOps, VmWriteOps, AtomicOps, ReplyRaises, Reg, A.Add;
    var va := A.Add(Reg(m, i.rs1), i.imm);
    match i.opcode
    case OP_LOAD =>
      if LoadKind(i.funct3).Some? {
        VmRaises(m, va, LoadKind(i.funct3).value.0, 0, env.first, k);
      }
    case OP_STORE =>
      if StoreWidth(i.funct3).Some? {
        VmRaises(m, va, StoreWidth(i.funct3).value, Reg(m, i.rs2), env.first, k);
      }
    case OP_FLW_FLD => VmRaises(m, va, FpWidth(i.funct3), 0, env.first, k);
    case OP_FSW_FSD => VmRaises(m, va, FpWidth(i.funct3), m.cpu.fregs[i.rs2 as nat], env.first, k);
    case OP_AMO => AtomicRaises(m, i, env, k);
    case _ =>
  }

  lemma StepRaises(m: Machine, env: Env, k: nat)
    ensures RaisesIn(StepOps(m, env), k) <= RaisedBy(env, k)
  {
    hide Poll, DeedsOps, Select, Translate, Fetched, ExecuteOps, ReplyRaises, Occurs;
    var m1 := Poll(m, env.polled);
    DeedsRaise(env.polled, k);
    RaisesAppend(DeedsOps(env.polled), if Select(m1.cpu).Some? then [] else FetchExecuteOps(m1, env), k);
    if Translate(m1, m1.cpu.pc, Fetch).Some? {
      var (m', pa) := Translate(m1, m1.cpu.pc, Fetch).value;
      if Fetched(m', pa).Some? {
        ExecuteRaises(m', Fetched(m', pa).value, env, k);
      }
    }
  }

  lemma {:induction false} RunRaises(m: Machine, envs: seq<Env>, k: nat)
    ensures RaisesIn(RunOps(m, envs), k) <= Raised(envs, k)
    decreases |envs|
  {
    hide Step, StepOps, RaisedBy;
    if envs != [] && Step(m, envs[0]).Stepped? {
      var m' := Step(m, envs[0]).m;
      StepRaises(m, envs[0], k);
      RunRaises(m', envs[1..], k);
      RaisesAppend(StepOps(m, envs[0]), RunOps(m', envs[1..]), k);
    }
  }

  // Successful claims of source k that the loads of a run make.
  function ClaimsIn(m: Machine, envs: seq<Env>, k: nat): nat {
    Claims(m.plic, RunOps(m, envs), |RunOps(m, envs)|, k)
  }

  /** Interrupts are neither duplicated nor invented: over any run, whatever the guest does
      to the controller, it claims a source at most as often as devices raised it (one more
      if it was pending at the start), counting what is still pending at the end. */
  lemma RunClaimsAtMostRaised(m: Machine, envs: seq<Env>, k: nat)
    requires C.Run(m, envs).Some? && 1 <= k < Plic.SOURCES
    ensures ClaimsIn(m, envs, k) + Count(Plic.Has(C.Run(m, envs).value.plic.pending, k))
         <= Raised(envs, k) + Count(Plic.Has(m.plic.pending, k))
  {
    hide C.Run, RunOps, Plic.Has, Raised, Claims, Raises, StateAt;
    var ops := RunOps(m, envs);
    RunIsTrace(m, envs);
    RunRaises(m, envs, k);
    ClaimsAtMostRaises(m.plic, ops, |ops|, k);
  }
}

/** The emulator in place: processor, RAM, interrupt controller, timer and reservation as
    objects, with every operation of a step proved to do what module Machine says. */
module Emulator {
  import opened Words
  import opened Memory
  import opened Mmu
  import opened Hart
  import opened Decode
  import M = Machine
  import P = Processor
  import D = PlicDevice
  import A = Alu
  import C = Confinement
  import Plic

  class Emulator {
    const cpu: P.Processor
    const bank: RamBank
    const plic: D.PlicDevice
    var timecmp: bv64
    var reservation: bv64

    ghost predicate Valid()
      reads this, cpu, plic
    {
      && cpu.Valid() && plic.cpu == cpu && plic.Valid()
      && bank.data as object !in cpu.Repr() + plic.Own() + {this, bank}
      && this !in cpu.Repr() + plic.Own() && bank !in cpu.Repr() + plic.Own()
    }

    ghost function Repr(): set<object> {
      {this, bank, bank.data} + cpu.Repr() + plic.Own()
    }

    ghost function View(): M.Machine
      requires Valid()
      reads this, cpu, plic, Repr()
    {
      M.Machine(cpu.View(), bank.View(), plic.View(), timecmp, reservation)
    }

    constructor (base: nat, size: nat)
      ensures Valid() && fresh(Repr())
      ensures View() == M.Machine(Reset(), Ram(base, seq(size, _ => 0)),
                                  Plic.State(seq(32, _ => 0), 0, [0, 0], [0, 0], 0),
                                  0xFFFF_FFFF_FFFF_FFFF, M.NO_RESERVATION)
    {
      var c := new P.Processor();
      cpu := c;
      bank := new RamBank(base, size);
      plic := new D.PlicDevice(c);
      timecmp, reservation := 0xFFFF_FFFF_FFFF_FFFF, M.NO_RESERVATION;
    }

    // Set the boot registers, then sbi_init.
    method EnterKernel(entry: bv64, dtb: bv64)
      requires Valid()
      modifies Repr()
      ensures Valid()
      ensures var c := old(View()).cpu;
              View() == old(View()).(cpu := SbiInit(c.(regs := c.regs[10 := 0][11 := dtb]), entry))
    {
      hide SbiInit;
      cpu.regs[10], cpu.regs[11] := 0, dtb;
      cpu.EnterKernel(entry);
    }

    /** Start-up in place reaches the state that runs begin in: reset, an image in RAM, and the
        kernel entered. */
    static method Boot(base: nat, image: seq<bv8>, entry: bv64, dtb: bv64) returns (e: Emulator)
      ensures e.Valid() && fresh(e) && fresh(e.Repr())
      ensures e.View() == C.Boot(Ram(base, image), entry, dtb)
    {
      hide Reset, SbiInit;
      e := new Emulator(base, |image|);
      e.Store(base, image);
      assert Poke(Ram(base, seq(|image|, _ => 0)), base, image) == Ram(base, image);
      e.EnterKernel(entry, dtb);
    }

    // ---------------------------------------------------------------- Translation

    // The loop of mmu_translate: descend from the root until a leaf, an invalid entry, or the
    // end of the three levels.
    method FindLeaf(context: Context, va: bv64) returns (w: Walked)
      requires Valid()
      ensures w == Walk(View().ram, context, va)
    {
      hide Root, Vpn, PteAddr, PtePpn, IsLeaf, Invalid, Word64;
      ghost var m := bank.View();
      var level: int, ppn, at: nat := 2, Root(context), 0;
      while level >= 0
        invariant -1 <= level <= 2
        invariant Walk(m, context, va)
               == if level < 0 then NoLeaf else WalkAt(m, PteAddr(ppn, Vpn(va, level)), va, level)
      {
        at := PteAddr(ppn, Vpn(va, level));
        if at < bank.base || at + 8 > bank.base + bank.data.Length {
          return OffRam;
        }
        var bytes := bank.Read(at, 8);
        var pte := Word64(bytes);
        if Invalid(pte) {
          return NoLeaf;
        }
        if IsLeaf(pte) {
          return Leaf(at, pte, level);
        }
        ppn := PtePpn(pte);
        level := level - 1;
      }
      return NoLeaf;
    }

    // ---------------------------------------------------------------- Elementary updates

    method TakeTrap(cause: bv64, tval: bv64)
      requires Valid()
      modifies Repr()
      ensures Valid() && View() == old(View()).(cpu := Trap(old(View()).cpu, cause, tval))
    {
      hide Trap;
      cpu.TakeTrap(cause, tval);
    }

    method GetReg(r: bv5) returns (v: bv64)
      requires Valid()
      ensures Valid() && View() == old(View()) && v == M.Reg(View(), r)
    {
      v := cpu.regs[r as nat];
    }

    method SetReg(rd: bv5, v: bv64)
      requires Valid()
      modifies Repr()
      ensures Valid() && View() == old(View()).(cpu := Hart.SetReg(old(View()).cpu, rd, v))
    {
      cpu.WriteReg(rd, v);
    }

    method GetPc() returns (pc: bv64)
      requires Valid()
      ensures Valid() && View() == old(View()) && pc == View().cpu.pc
    {
      pc := cpu.pc;
    }

    method SetPc(pc: bv64)
      requires Valid()
      modifies Repr()
      ensures Valid() && View() == old(View()).(cpu := old(View()).cpu.(pc := pc))
    {
      cpu.pc := pc;
    }

    method Advance(size: bv64)
      requires Valid()
      modifies Repr()
      ensures Valid() && View() == M.Advance(old(View()), size)
    {
      hide A.Add;
      cpu.pc := A.Add(cpu.pc, size);
    }

    method Retire(rd: bv5, v: bv64, size: bv64)
      requires Valid()
      modifies Repr()
      ensures Valid() && View() == M.Retire(old(View()), rd, v, size)
    {
      hide Valid, Repr, View, A.Add, Hart.SetReg;
      SetReg(rd, v);
      Advance(size);
    }

    method Store(a: nat, s: seq<bv8>)
      requires Valid() && InRam(View().ram, a, |s|)
      modifies Repr()
      ensures Valid() && View() == old(View()).(ram := Poke(old(View()).ram, a, s))
    {
      hide Poke;
      bank.Write(a, s);
    }

    // Look up the context and walk for va, changing nothing.
    method Lookup(va: bv64) returns (c: Context, w: Walked)
      requires Valid()
      ensures Valid() && View() == old(View()) && c == ContextOf(View().cpu)
      ensures Active(c) ==> w == Walk(View().ram, c, va)
    {
      c := Context(cpu.privilege, cpu.csrs[SATP], SumSet(cpu.csrs[MSTATUS]));
      w := NoLeaf;
      if Active(c) {
        w := FindLeaf(c, va);
      }
    }

    // mmu_translate. None: an entry to read lies outside RAM.
    method Translate(va: bv64, access: Access) returns (r: Option<bv64>)
      requires Valid()
      modifies Repr()
      ensures Valid()
      ensures match M.Translate(old(View()), va, access)
              case None => r.None?
              case Some((m, pa)) => r == Some(pa) && View() == m
    {
      hide Valid, Repr, View, Active, Walk, PtePpn, Permits, PageAddr, Bytes64, Get64, Trap, Poke, ContextOf;
      hide AddMark, FaultCause;
      var context, w := Lookup(va);
      if !Active(context) {
        return Some(va);
      }
      match w {
        case OffRam =>
          return None;
        case NoLeaf =>
          TakeTrap(FaultCause(access), va);
          return Some(MMU_FAULT);
        case Leaf(at, pte, level) =>
          if !Permits(pte, context.priv, context.sum, access) {
            TakeTrap(FaultCause(access), va);
            return Some(MMU_FAULT);
          }
          MarkKeepsPpn(pte, access);
          var marked := AddMark(pte, access);
          Store(at, Bytes64(marked));
          return Some(PageAddr(PtePpn(marked), va, level));
      }
    }

    // ---------------------------------------------------------------- Devices

    method SetPending(irq: nat)
      requires Valid()
      modifies Repr()
      ensures Valid() && View() == M.Do(old(View()), M.Signals(irq))
    {
      hide Plic.Raise, Plic.DriveSeip;
      plic.SetPending(irq);
    }

    method ReadPlic(offset: nat) returns (v: Plic.U32)
      requires Valid()
      modifies Repr()
      ensures Valid() && v == Plic.Read(old(View()).plic, offset).value
      ensures View() == M.PlicEffect(old(View()), Plic.Read(old(View()).plic, offset))
    {
      hide Plic.Read, Plic.DriveSeip;
      v := plic.Read(offset);
    }

    method WritePlic(offset: nat, v: Plic.U32, mask: bv32)
      requires Valid()
      modifies Repr()
      ensures Valid() && View() == M.PlicEffect(old(View()), Plic.Write(old(View()).plic, offset, v, mask))
    {
      hide Plic.Write, Plic.DriveSeip;
      plic.Write(offset, v, mask);
    }

    method ReadRam(a: nat, w: nat) returns (r: Option<seq<bv8>>)
      requires Valid()
      ensures Valid() && View() == old(View())
      ensures r == if InRam(View().ram, a, w) then Some(Peek(View().ram, a, w)) else None
    {
      if a < bank.base || a + w > bank.base + bank.data.Length {
        return None;
      }
      var s := bank.Read(a, w);
      return Some(s);
    }

    method ReadClint(offset: nat) returns (v: bv64)
      requires Valid()
      ensures Valid() && View() == old(View())
      ensures v == if offset == 0xBFF8 then View().cpu.steps else if offset == 0x4000 then View().timecmp else 0
    {
      v := if offset == 0xBFF8 then cpu.steps else if offset == 0x4000 then timecmp else 0;
    }

    method SetTimecmp(v: bv64)
      requires Valid()
      modifies Repr()
      ensures Valid() && View() == old(View()).(timecmp := v)
    {
      timecmp := v;
    }

    method DoAll(deeds: seq<M.Deed>)
      requires Valid()
      modifies Repr()
      ensures Valid() && View() == M.DoAll(old(View()), deeds)
    {
      hide Valid, Repr, View, M.PlicEffect, M.U32Of, M.MaskOf, Plic.Read, Plic.Write, Plic.Raise;
      var n := 0;
      while n < |deeds|
        invariant n <= |deeds| && Valid()
        invariant M.DoAll(old(View()), deeds) == M.DoAll(View(), deeds[n..])
      {
        match deeds[n] {
          case Signals(irq) => SetPending(irq);
          case ReadsPlic(offset) =>
            var _ := ReadPlic(offset);
          case WritesPlic(offset, v) => WritePlic(offset, M.U32Of(v), M.MaskOf(v));
          case SetsTimer(v) => SetTimecmp(v);
        }
        assert deeds[n..][1..] == deeds[n + 1..];
        n := n + 1;
      }
      assert deeds[n..] == [];
    }

    // An access to a device outside the model: it may write RAM and do deeds.
    method Answer(r: M.Reply)
      requires Valid() && r.Answers?
      modifies Repr()
      ensures Valid() && View() == M.Answer(old(View()), r)
    {
      hide M.DoAll;
      if |r.dma| == bank.data.Length {
        bank.Write(bank.base, r.dma);
        assert Poke(old(bank.View()), bank.base, r.dma) == Ram(bank.base, r.dma);
      }
      DoAll(r.deeds);
    }

    // mem_read8 to mem_read64. None is exit(1).
    method PhysRead(pa: bv64, w: nat, r: M.Reply) returns (v: Option<bv64>)
      requires Valid() && w <= 8
      modifies Repr()
      ensures Valid()
      ensures match M.PhysRead(old(View()), pa, w, r)
              case None => v.None?
              case Some((m, x)) => v == Some(x) && View() == m
    {
      hide Valid, Repr, View, Place, Peek, Plic.Read, M.PlicEffect, M.Answer, M.WordOf, M.Truncate, M.FromU32;
      var a := Place(pa);
      var s := ReadRam(a, w);
      if s.Some? {
        return Some(M.WordOf(s.value));
      }
      if M.InOther(a, w) {
        if r.Exits? {
          return None;
        }
        Answer(r);
        return Some(M.Truncate(r.value, w));
      }
      if M.InPlic(a, w) {
        var x := ReadPlic(a - 0x0C00_0000);
        return Some(M.Truncate(M.FromU32(x), w));
      }
      if M.InClint(a, w) {
        var x := ReadClint(a - 0x0200_0000);
        return Some(M.Truncate(x, w));
      }
      return None;
    }

    method PhysWrite(pa: bv64, w: nat, v: bv64, r: M.Reply) returns (ok: bool)
      requires Valid() && w <= 8
      modifies Repr()
      ensures Valid()
      ensures match M.PhysWrite(old(View()), pa, w, v, r)
              case None => !ok
              case Some(m) => ok && View() == m
    {
      hide Valid, Repr, View, Place, Poke, Peek, Plic.Write, M.PlicEffect, M.Answer, M.Truncate, M.LowBytes;
      hide M.U32Of, M.MaskOf;
      var a := Place(pa);
      var s := ReadRam(a, w);
      if s.Some? {
        Store(a, M.LowBytes(v, w));
        return true;
      }
      if M.InOther(a, w) {
        if r.Exits? {
          return false;
        }
        Answer(r);
        return true;
      }
      if M.InPlic(a, w) {
        var t := M.Truncate(v, w);
        WritePlic(a - 0x0C00_0000, M.U32Of(t), M.MaskOf(t));
        return true;
      }
      if M.InClint(a, w) {
        if a - 0x0200_0000 == 0x4000 {
          SetTimecmp(M.Truncate(v, w));
        }
        return true;
      }
      return false;
    }

    // ---------------------------------------------------------------- Virtual accesses

    method VmRead(va: bv64, w: nat, r: M.Reply) returns (x: Loaded)
      requires Valid() && w <= 8
      modifies Repr()
      ensures Valid()
      ensures match M.VmRead(old(View()), va, w, r)
              case Halted => x == Exit
              case Faulted(m) => x == Fault && View() == m
              case Got(m, v) => x == Value(v) && View() == m
    {
      hide Valid, Repr, View, M.Translate, M.PhysRead;
      var pa := Translate(va, Load);
      if pa.None? {
        return Exit;
      }
      if pa.value == MMU_FAULT {
        return Fault;
      }
      var v := PhysRead(pa.value, w, r);
      return if v.None? then Exit else Value(v.value);
    }

    method VmWrite(va: bv64, w: nat, v: bv64, r: M.Reply) returns (x: Loaded)
      requires Valid() && w <= 8
      modifies Repr()
      ensures Valid()
      ensures match M.VmWrite(old(View()), va, w, v, r)
              case Halted => x == Exit
              case Faulted(m) => x == Fault && View() == m
              case Got(m, _) => x == Value(0) && View() == m
    {
      hide Valid, Repr, View, M.Translate, M.PhysWrite;
      var pa := Translate(va, Mmu.Store);
      if pa.None? {
        return Exit;
      }
      if pa.value == MMU_FAULT {
        return Fault;
      }
      var ok := PhysWrite(pa.value, w, v, r);
      return if ok then Value(0) else Exit;
    }

    // ---------------------------------------------------------------- Memory instructions

    // The instruction ran as the specification says, or ended the process with it.
    ghost predicate Ran(ok: bool, e: M.Exec)
      requires Valid()
      reads this, cpu, plic, Repr()
    {
      match e
      case Stop => !ok
      case Next(m) => ok && View() == m
    }

    method ExecLoad(i: Instruction, r: M.Reply) returns (ok: bool)
      requires Valid()
      modifies Repr()
      ensures Valid() && Ran(ok, M.ExecLoad(old(View()), i, r))
    {
      hide Valid, Repr, View, M.VmRead, M.Retire, M.Reg, M.Extend, A.Add;
      var k := M.LoadKind(i.funct3);
      if k.None? {
        return false;
      }
      var base := GetReg(i.rs1);
      var x := VmRead(A.Add(base, i.imm), k.value.0, r);
      if x.Value? {
        Retire(i.rd, M.Extend(x.v, k.value.0, k.value.1), i.size);
      }
      return x != Exit;
    }

    method ExecStore(i: Instruction, r: M.Reply) returns (ok: bool)
      requires Valid()
      modifies Repr()
      ensures Valid() && Ran(ok, M.ExecStore(old(View()), i, r))
    {
      hide Valid, Repr, View, M.VmWrite, M.Advance, M.Reg, A.Add;
      var w := M.StoreWidth(i.funct3);
      if w.None? {
        return false;
      }
      var base := GetReg(i.rs1);
      var v := GetReg(i.rs2);
      var x := VmWrite(A.Add(base, i.imm), w.value, v, r);
      if x.Value? {
        Advance(i.size);
      }
      return x != Exit;
    }

    method GetFreg(f: bv5) returns (v: bv64)
      requires Valid()
      ensures Valid() && View() == old(View()) && v == View().cpu.fregs[f as nat]
    {
      v := cpu.fregs[f as nat];
    }

    method SetFreg(f: bv5, v: bv64)
      requires Valid()
      modifies Repr()
      ensures Valid() && View() == old(View()).(cpu := old(View()).cpu.(fregs := old(View()).cpu.fregs[f as nat := v]))
    {
      cpu.fregs[f as nat] := v;
    }

    method ExecFpLoad(i: Instruction, r: M.Reply) returns (ok: bool)
      requires Valid()
      modifies Repr()
      ensures Valid() && Ran(ok, M.ExecFpLoad(old(View()), i, r))
    {
      hide Valid, Repr, View, M.VmRead, M.Advance, M.Reg, M.MergeLow, A.Add;
      var base := GetReg(i.rs1);
      var word := i.funct3 == 2;
      var x := VmRead(A.Add(base, i.imm), if word then 4 else 8, r);
      if x.Value? {
        var f := GetFreg(i.rd);
        SetFreg(i.rd, if word then M.MergeLow(f, x.v) else x.v);
        Advance(i.size);
      }
      return x != Exit;
    }

    method ExecFpStore(i: Instruction, r: M.Reply) returns (ok: bool)
      requires Valid()
      modifies Repr()
      ensures Valid() && Ran(ok, M.ExecFpStore(old(View()), i, r))
    {
      hide Valid, Repr, View, M.VmWrite, M.Advance, M.Reg, A.Add;
      var base := GetReg(i.rs1);
      var v := GetFreg(i.rs2);
      var x := VmWrite(A.Add(base, i.imm), if i.funct3 == 2 then 4 else 8, v, r);
      if x.Value? {
        Advance(i.size);
      }
      return x != Exit;
    }

    // ---------------------------------------------------------------- Atomics

    method SetReservation(va: bv64)
      requires Valid()
      modifies Repr()
      ensures Valid() && View() == old(View()).(reservation := va)
    {
      reservation := va;
    }

    method AmoRead(pa: bv64, funct3: bv3, r: M.Reply) returns (v: Option<bv64>)
      requires Valid()
      modifies Repr()
      ensures Valid()
      ensures match M.AmoRead(old(View()), pa, funct3, r)
              case None => v.None?
              case Some((m, x)) => v == Some(x) && View() == m
    {
      hide Valid, Repr, View, M.PhysRead, A.Sext32, A.Low32;
      var x := PhysRead(pa, M.AmoWidth(funct3), r);
      return if x.None? then None else Some(if funct3 == 2 then A.Sext32(A.Low32(x.value)) else x.value);
    }

    method ExecLr(i: Instruction, r: M.Reply) returns (ok: bool)
      requires Valid()
      modifies Repr()
      ensures Valid() && Ran(ok, M.ExecLr(old(View()), i, r))
    {
      hide Valid, Repr, View, M.Translate, M.AmoRead, M.Reg, Hart.SetReg;
      var va := GetReg(i.rs1);
      var pa := Translate(va, Load);
      if pa.None? {
        return false;
      }
      if pa.value == MMU_FAULT {
        return true;
      }
      SetReservation(va);
      var v := AmoRead(pa.value, i.funct3, r);
      if v.None? {
        return false;
      }
      SetReg(i.rd, v.value);
      return true;
    }

    method ExecSc(i: Instruction, r: M.Reply) returns (ok: bool)
      requires Valid()
      modifies Repr()
      ensures Valid() && Ran(ok, M.ExecSc(old(View()), i, r))
    {
      hide Valid, Repr, View, M.Translate, M.PhysWrite, M.Reg, Hart.SetReg;
      var va := GetReg(i.rs1);
      var pa := Translate(va, Mmu.Store);
      if pa.None? {
        return false;
      }
      if pa.value == MMU_FAULT {
        return true;
      }
      var held := GetReservation();
      if va != held {
        SetReg(i.rd, 1);
        return true;
      }
      var v := GetReg(i.rs2);
      ok := PhysWrite(pa.value, M.AmoWidth(i.funct3), v, r);
      if ok {
        SetReservation(M.NO_RESERVATION);
        SetReg(i.rd, 0);
      }
    }

    method GetReservation() returns (va: bv64)
      requires Valid()
      ensures Valid() && View() == old(View()) && va == View().reservation
    {
      va := reservation;
    }

    method ExecAmo(i: Instruction, first: M.Reply, second: M.Reply) returns (ok: bool)
      requires Valid()
      modifies Repr()
      ensures Valid() && Ran(ok, M.ExecAmo(old(View()), i, first, second))
    {
      hide Valid, Repr, View, M.Translate, M.AmoRead, M.PhysWrite, M.AmoResult, M.Reg, M.Funct5, Hart.SetReg;
      var va := GetReg(i.rs1);
      var pa := Translate(va, Mmu.Store);
      if pa.None? {
        return false;
      }
      if pa.value == MMU_FAULT {
        return true;
      }
      var prev := AmoRead(pa.value, i.funct3, first);
      if prev.None? {
        return false;
      }
      var src := GetReg(i.rs2);
      ok := PhysWrite(pa.value, M.AmoWidth(i.funct3), M.AmoResult(M.Funct5(i.funct7), prev.value, src), second);
      if ok {
        SetReg(i.rd, prev.value);
      }
    }

    method ExecAtomic(i: Instruction, env: M.Env) returns (ok: bool)
      requires Valid()
      modifies Repr()
      ensures Valid() && Ran(ok, M.ExecAtomic(old(View()), i, env))
    {
      hide Valid, Repr, View, M.ExecLr, M.ExecSc, M.ExecAmo, M.Funct5, M.Advance;
      var f := M.Funct5(i.funct7);
      if f == 2 {
        ok := ExecLr(i, env.first);
      } else if f == 3 {
        ok := ExecSc(i, env.first);
      } else {
        ok := ExecAmo(i, env.first, env.second);
      }
      if ok {
        Advance(i.size);
      }
    }

    // ---------------------------------------------------------------- System instructions

    method ReturnFromSupervisor()
      requires Valid()
      modifies Repr()
      ensures Valid() && View() == old(View()).(cpu := Sret(old(View()).cpu))
    {
      hide Sret;
      cpu.ReturnFromSupervisor();
    }

    method ReturnFromMachine()
      requires Valid()
      modifies Repr()
      ensures Valid() && View() == old(View()).(cpu := Mret(old(View()).cpu))
    {
      hide Mret;
      cpu.ReturnFromMachine();
    }

    // Answer an SBI call in a0 and a1 and step past the ecall.
    method SbiReturn(a0: bv64, a1: bv64)
      requires Valid()
      modifies Repr()
      ensures Valid() && View() == old(View()).(cpu := Hart.SbiReturn(old(View()).cpu, a0, a1))
    {
      hide PastEcall;
      cpu.regs[10] := a0;
      cpu.regs[11] := a1;
      cpu.pc := PastEcall(cpu.pc);
    }

    // Lower STIP and program the comparator.
    method SetTimer(at: bv64)
      requires Valid()
      modifies Repr()
      ensures Valid()
      ensures var c := old(View()).cpu;
              View() == old(View()).(cpu := SetMip(c, ClearStip(c.csrs[MIP])), timecmp := at)
    {
      hide ClearStip;
      cpu.csrs[MIP] := ClearStip(cpu.csrs[MIP]);
      timecmp := at;
    }

    method Halt()
      requires Valid()
      modifies Repr()
      ensures Valid() && View() == old(View()).(cpu := old(View()).cpu.(halted := true))
    {
      cpu.halted := true;
    }

    // sbi_ecall; the console byte of putchar is not modelled.
    method SbiEcall()
      requires Valid()
      modifies Repr()
      ensures Valid()
      ensures var (c, t) := SbiCall(old(View()).cpu, old(View()).timecmp);
              View() == old(View()).(cpu := c, timecmp := t)
    {
      hide Valid, Repr, View, ClearStip, PastEcall, SupportedEid;
      SbiRegisters();
      var eid := GetReg(17);
      var fid := GetReg(16);
      var a0 := GetReg(10);
      if eid == 0 || (eid == 0x5449_4D45 && fid == 0) {
        SetTimer(a0);
        SbiReturn(0, 0);
      } else if eid == 1 {
        SbiReturn(0, 0);
      } else if eid == 0x10 {
        if fid == 0 {
          SbiReturn(0, 2);
        } else if fid == 3 {
          SbiReturn(0, if SupportedEid(a0) then 1 else 0);
        } else {
          SbiReturn(SBI_NOT_SUPPORTED, 0);
        }
      } else if eid == 0x5352_5354 {
        Halt();
        SbiReturn(0, 0);
      } else {
        SbiReturn(SBI_NOT_SUPPORTED, 0);
      }
    }

    method GetPrivilege() returns (priv: bv2)
      requires Valid()
      ensures Valid() && View() == old(View()) && priv == View().cpu.priv
    {
      priv := cpu.privilege;
    }

    // execute_trap_return.
    method ExecEnvironment(imm: bv64) returns (ok: bool)
      requires Valid()
      modifies Repr()
      ensures Valid() && Ran(ok, M.ExecEnvironment(old(View()), imm))
    {
      hide Valid, Repr, View, Trap, Sret, Mret, SbiCall, M.Advance, M.EcallCause, M.IsSfence;
      ok := true;
      if imm == 0 {
        var priv := GetPrivilege();
        if priv == PRIV_S {
          SbiEcall();
        } else {
          TakeTrap(M.EcallCause(priv), 0);
        }
      } else if imm == 1 {
        TakeTrap(EXC_BREAKPOINT, 0);
      } else if imm == 0x105 {
        Advance(4);
      } else if imm == 0x102 {
        ReturnFromSupervisor();
      } else if imm == 0x302 {
        ReturnFromMachine();
      } else if M.IsSfence(imm) {
        Advance(4);
      } else {
        ok := false;
      }
    }

    method ReadCsr(a: nat) returns (v: bv64)
      requires Valid() && a < 4096
      ensures Valid() && View() == old(View()) && v == CsrRead(View().cpu, a)
    {
      hide CsrRead;
      v := cpu.ReadCsr(a);
    }

    method WriteCsr(a: nat, v: bv64)
      requires Valid() && a < 4096
      modifies Repr()
      ensures Valid() && View() == old(View()).(cpu := CsrWrite(old(View()).cpu, a, v))
    {
      hide CsrWrite;
      cpu.WriteCsr(a, v);
    }

    // The CSR instructions: read, combine, write unless there is nothing to write.
    method ExecCsr(i: Instruction) returns (ok: bool)
      requires Valid()
      modifies Repr()
      ensures Valid() && Ran(ok, M.ExecCsr(old(View()), i))
    {
      hide Valid, Repr, View, Trap, CsrRead, CsrWrite, M.Retire, M.CsrIndex, M.CsrOperand, M.CsrResult, M.CsrOp;
      hide M.Denied;
      var priv := GetPrivilege();
      if M.Denied(priv, i.imm) {
        TakeTrap(EXC_ILLEGAL, 0);
        return true;
      }
      var a, op := M.CsrIndex(i.imm), M.CsrOp(i);
      var prev := ReadCsr(a);
      var x := GetReg(i.rs1);
      var src := M.CsrOperand(i, x);
      if op == 1 || src != 0 {
        WriteCsr(a, M.CsrResult(op, prev, src));
      }
      Retire(i.rd, prev, i.size);
      return true;
    }

    // ---------------------------------------------------------------- Register instructions

    method Compute(i: Instruction, v: Option<bv64>) returns (ok: bool)
      requires Valid()
      modifies Repr()
      ensures Valid() && Ran(ok, M.Computed(old(View()), i, v))
    {
      hide Valid, Repr, View, M.Retire;
      if v.Some? {
        Retire(i.rd, v.value, i.size);
      }
      return v.Some?;
    }

    method Jump(rd: bv5, link: bv64, target: bv64)
      requires Valid()
      modifies Repr()
      ensures Valid() && View() == old(View()).(cpu := Hart.SetReg(old(View()).cpu, rd, link).(pc := target))
    {
      hide Valid, Repr, View, Hart.SetReg;
      SetReg(rd, link);
      SetPc(target);
    }

    method ExecFp(i: Instruction, fused: bool, f: M.FpResult) returns (ok: bool)
      requires Valid()
      modifies Repr()
      ensures Valid() && Ran(ok, M.ExecFp(old(View()), i, fused, f))
    {
      hide Valid, Repr, View, M.Advance, M.Retire;
      match f {
        case FpExits =>
          return false;
        case FpReg(v) =>
          SetFreg(i.rd, v);
          Advance(i.size);
          return true;
        case IntReg(v) =>
          if !fused {
            Retire(i.rd, v, i.size);
          }
          return !fused;
      }
    }

    // Upper immediates and arithmetic.
    method ExecArithmetic(i: Instruction, f: M.FpResult) returns (ok: bool)
      requires Valid()
      requires i.opcode in {OP_LUI, OP_AUIPC, OP_I_ARITH, OP_R_ARITH, OP_I_ARITH_W, OP_R_ARITH_W}
      modifies Repr()
      ensures Valid() && Ran(ok, M.ExecRegister(old(View()), i, f))
    {
      hide Valid, Repr, View, M.Computed, M.Reg, M.Arithmetic, M.ArithI, M.ArithR, M.ArithIW, M.ArithRW, A.Add;
      var x := GetReg(i.rs1);
      var y := GetReg(i.rs2);
      match i.opcode {
        case OP_LUI =>
          ok := Compute(i, Some(i.imm));
        case OP_AUIPC =>
          var pc := GetPc();
          ok := Compute(i, Some(A.Add(pc, i.imm)));
        case OP_I_ARITH =>
          ok := Compute(i, Some(M.ArithI(i.funct3, M.Arithmetic(i.funct7), i.imm, x)));
        case OP_R_ARITH =>
          ok := Compute(i, M.ArithR(i.funct3, i.funct7, x, y));
        case OP_I_ARITH_W =>
          ok := Compute(i, M.ArithIW(i.funct3, i.funct7, i.imm, x));
        case _ =>
          ok := Compute(i, M.ArithRW(i.funct3, i.funct7, x, y));
      }
    }

    method ExecRegister(i: Instruction, f: M.FpResult) returns (ok: bool)
      requires Valid()
      modifies Repr()
      ensures Valid() && Ran(ok, M.ExecRegister(old(View()), i, f))
    {
      hide Valid, Repr, View, M.Computed, M.Advance, M.Reg, M.ExecFp, M.Taken, M.Arithmetic, M.ArithI, M.ArithR;
      hide M.ArithIW, M.ArithRW;
      hide Hart.SetReg, A.Add, A.AndNot;
      if i.opcode in {OP_LUI, OP_AUIPC, OP_I_ARITH, OP_R_ARITH, OP_I_ARITH_W, OP_R_ARITH_W} {
        ok := ExecArithmetic(i, f);
        return;
      }
      var pc := GetPc();
      var x := GetReg(i.rs1);
      match i.opcode {
        case OP_JAL =>
          Jump(i.rd, A.Add(pc, i.size), A.Add(pc, i.imm));
          ok := true;
        case OP_JALR =>
          Jump(i.rd, A.Add(pc, i.size), A.AndNot(A.Add(x, i.imm), 1));
          ok := true;
        case OP_BRANCH =>
          var y := GetReg(i.rs2);
          var t := M.Taken(i.funct3, x, y);
          if t.Some? {
            Advance(if t.value then i.imm else i.size);
          }
          ok := t.Some?;
        case OP_FENCE =>
          Advance(i.size);
          ok := true;
        case _ =>
          if i.opcode in {OP_FMADD, OP_FMSUB, OP_FNMSUB, OP_FNMADD, OP_FP} {
            ok := ExecFp(i, i.opcode != OP_FP, f);
          } else {
            ok := false;
          }
      }
    }

    // ---------------------------------------------------------------- A step

    // execute.
    method Execute(i: Instruction, env: M.Env) returns (ok: bool)
      requires Valid()
      modifies Repr()
      ensures Valid() && Ran(ok, M.Execute(old(View()), i, env))
    {
      hide Valid, Repr, View, M.ExecLoad, M.ExecStore, M.ExecFpLoad, M.ExecFpStore, M.ExecAtomic;
      hide M.ExecEnvironment, M.ExecCsr, M.ExecRegister;
      match i.opcode {
        case OP_LOAD =>
          ok := ExecLoad(i, env.first);
        case OP_STORE =>
          ok := ExecStore(i, env.first);
        case OP_FLW_FLD =>
          ok := ExecFpLoad(i, env.first);
        case OP_FSW_FSD =>
          ok := ExecFpStore(i, env.first);
        case OP_AMO =>
          ok := ExecAtomic(i, env);
        case OP_SYSTEM =>
          if i.funct3 == 0 {
            ok := ExecEnvironment(i.imm);
          } else {
            ok := ExecCsr(i);
          }
        case _ =>
          ok := ExecRegister(i, env.fp);
      }
    }

    method CountStep()
      requires Valid()
      modifies Repr()
      ensures Valid() && View() == old(View()).(cpu := old(View()).cpu.(steps := M.Bump(old(View()).cpu.steps)))
    {
      hide M.Bump;
      cpu.steps := M.Bump(cpu.steps);
    }

    // clint_irq_source.
    method PollClint()
      requires Valid()
      modifies Repr()
      ensures Valid() && View() == M.ClintPoll(old(View()))
    {
      hide Raised, Cleared, M.SetStip, M.Due;
      TimerLine(cpu.csrs[MIP]);
      if M.Due(cpu.steps, timecmp) {
        cpu.RaiseIrq(0x20);
      } else {
        cpu.LowerIrq(0x20);
      }
    }

    method DeliverInterrupt() returns (taken: Option<bv6>)
      requires Valid()
      modifies Repr()
      ensures Valid() && taken == Select(old(View()).cpu)
      ensures View() == if taken.None? then old(View())
                        else old(View()).(cpu := Trap(old(View()).cpu, IrqCause(taken.value), 0))
    {
      hide Select, Trap, IrqCause;
      taken := cpu.DeliverInterrupt();
    }

    // Fetch the halfword, and the word if it does not hold a compressed instruction.
    method Fetch(pa: bv64) returns (i: Option<Instruction>)
      requires Valid()
      ensures Valid() && View() == old(View()) && i == M.Fetched(View(), pa)
    {
      hide Valid, Repr, View, Place, Peek, Word16, Word32, DecodeRvc, DecodeWord, M.Compressed;
      var a := Place(pa);
      var lo := ReadRam(a, 2);
      if lo.None? {
        return None;
      }
      if M.Compressed(Word16(lo.value)) {
        return Some(DecodeRvc(Word16(lo.value)));
      }
      var word := ReadRam(a, 4);
      return if word.None? then None else Some(DecodeWord(Word32(word.value)));
    }

    method FetchExecute(env: M.Env) returns (ok: bool)
      requires Valid()
      modifies Repr()
      ensures Valid()
      ensures match M.FetchExecute(old(View()), env)
              case Ended => !ok
              case Stepped(m, _) => ok && View() == m
    {
      hide Valid, Repr, View, M.Translate, M.Fetched, M.Execute;
      var pc := GetPc();
      var pa := Translate(pc, Mmu.Fetch);
      if pa.None? {
        return false;
      }
      if pa.value == MMU_FAULT {
        return true;
      }
      var i := Fetch(pa.value);
      if i.None? {
        return false;
      }
      ok := Execute(i.value, env);
    }

    /** cpu_step, in place, is the step of the specification: whatever the environment
        answers, the process ends together with it or both reach the same state. */
    method Step(env: M.Env) returns (ok: bool)
      requires Valid()
      modifies Repr()
      ensures Valid()
      ensures match M.Step(old(View()), env)
              case Ended => !ok
              case Stepped(m, _) => ok && View() == m
    {
      hide Valid, Repr, View, M.DoAll, M.ClintPoll, M.Bump, Select, Trap, IrqCause, M.FetchExecute;
      CountStep();
      DoAll(env.polled);
      PollClint();
      var taken := DeliverInterrupt();
      if taken.Some? {
        return true;
      }
      ok := FetchExecute(env);
    }

    /** The main loop over the given answers of the environment: n steps are taken, as long as
        the hart is not halted and the process does not end, and reach what the run reaches. */
    method Run(envs: seq<M.Env>) returns (n: nat, ok: bool)
      requires Valid()
      modifies Repr()
      ensures Valid() && n <= |envs|
      ensures forall j :: 0 <= j < n ==> Running(old(View()), envs, j)
      ensures ok ==> C.Run(old(View()), envs[..n]) == Some(View()) && (n == |envs| || View().cpu.halted)
      ensures !ok ==> n < |envs| && Running(old(View()), envs, n) && C.Run(old(View()), envs[..n + 1]) == None
    {
      hide Valid, Repr, View, M.Step, C.Run;
      n := 0;
      C.RunNothing(View());
      assert envs[..0] == [];
      var halted := IsHalted();
      while n < |envs| && !halted
        invariant n <= |envs| && Valid() && C.Run(old(View()), envs[..n]) == Some(View()) && halted == View().cpu.halted
        invariant forall j :: 0 <= j < n ==> Running(old(View()), envs, j)
      {
        assert envs[..n + 1] == envs[..n] + [envs[n]];
        C.RunSnoc(old(View()), envs[..n], envs[n]);
        var stepped := Step(envs[n]);
        if !stepped {
          return n, false;
        }
        n := n + 1;
        halted := IsHalted();
      }
      ok := true;
    }

    method IsHalted() returns (h: bool)
      requires Valid()
      ensures Valid() && View() == old(View()) && h == View().cpu.halted
    {
      h := cpu.halted;
    }
  }

  // The first n steps of the run are taken, and the hart is not halted after them.
  predicate Running(m: M.Machine, envs: seq<M.Env>, n: nat)
    requires n <= |envs|
  {
    C.Run(m, envs[..n]).Some? && !C.Run(m, envs[..n]).value.cpu.halted
  }

  datatype Loaded = Exit | Fault | Value(v: bv64)

  lemma SbiRegisters()
    ensures 17 as bv5 as nat == 17 && 16 as bv5 as nat == 16 && 10 as bv5 as nat == 10
  {
  }

  lemma TimerLine(mip: bv64)
    ensures M.SetStip(mip, true) == Raised(mip, 0x20)
    ensures M.SetStip(mip, false) == Cleared(mip, 0x20)
  {
  }

  lemma MarkKeepsPpn(pte: bv64, access: Access)
    ensures PtePpn(AddMark(pte, access)) == PtePpn(pte)
  {
    assert (pte | 0x40) >> 10 == pte >> 10 && (pte | 0xC0) >> 10 == pte >> 10;
  }
}

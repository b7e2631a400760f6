/** The hart as the emulator holds it: register and CSR arrays updated in place, each
    operation proved against the functions of module Hart. */
module Processor {
  import opened Words
  import opened Mmu
  import opened Hart

  // Where nothing is pending there is no highest bit.
  lemma NothingPending(deleg: bv64)
    ensures Cleared(0, deleg) == 0 && Masked(0, deleg) == 0
    ensures TopBit(0, 11).None? && TopBit(0, 9).None?
  {
    NoTopBit(11);
    NoTopBit(9);
  }

  // The guards of the scans skip nothing that a scan would find.
  lemma SelectStages(c: Cpu)
    ensures Select(c)
         == if Masked(c.csrs[MIP], c.csrs[MIE]) == 0 then None
            else if MPending(c) != 0 && MOpen(c) && TopBit(MPending(c), 11).Some? then TopBit(MPending(c), 11)
            else if SPending(c) != 0 && SOpen(c) then TopBit(SPending(c), 9)
            else None
  {
    hide Bit, TopBit, Masked, Cleared, MieSet, SieSet;
    NothingPending(c.csrs[MIDELEG]);
  }

  class Processor {
    const regs: array<bv64>
    const fregs: array<bv64>
    const csrs: array<bv64>
    var pc: bv64
    var privilege: bv2
    var halted: bool
    var steps: bv64

    ghost predicate Valid()
      reads this
    {
      regs.Length == 32 && fregs.Length == 32 && csrs.Length == 4096 && regs != fregs && regs != csrs && fregs != csrs
    }

    ghost function Repr(): set<object> {
      {this, regs, fregs, csrs}
    }

    ghost function View(): Cpu
      requires Valid()
      reads this, Repr()
    {
      Cpu(regs[..], fregs[..], csrs[..], pc, privilege, halted, steps)
    }

    // A zeroed hart after cpu_init.
    constructor ()
      ensures Valid() && fresh(Repr()) && View() == Reset()
    {
      regs := new bv64[32](_ => 0);
      fregs := new bv64[32](_ => 0);
      csrs := new bv64[4096](_ => 0);
      pc, privilege, halted, steps := 0x8000_0000, PRIV_M, false, 0;
      new;
      csrs[MEDELEG] := 0xFFFF;
      csrs[MIDELEG] := 0xFFFF;
      assert csrs[..] == seq(4096, _ => 0)[MEDELEG := 0xFFFF][MIDELEG := 0xFFFF];
    }

    // sbi_init.
    method EnterKernel(entry: bv64)
      requires Valid()
      modifies this, csrs
      ensures Valid() && View() == SbiInit(old(View()), entry)
    {
      hide BootStatus;
      csrs[MEDELEG] := 0xB1FF;
      csrs[MIDELEG] := 0x222;
      csrs[MCOUNTEREN] := 0x7;
      csrs[MSTATUS] := BootStatus(csrs[MSTATUS]);
      pc := entry;
      privilege := PRIV_S;
    }

    method WriteReg(rd: bv5, v: bv64)
      requires Valid()
      modifies regs
      ensures Valid() && View() == SetReg(old(View()), rd, v)
    {
      if rd != 0 {
        regs[rd as nat] := v;
      }
    }

    method ReadCsr(a: nat) returns (v: bv64)
      requires Valid() && a < 4096
      ensures v == CsrRead(View(), a)
    {
      hide Masked, StatusView;
      if a == SSTATUS {
        v := StatusView(csrs[MSTATUS]);
      } else if a == SIE {
        v := Masked(csrs[MIE], csrs[MIDELEG]);
      } else if a == SIP {
        v := Masked(csrs[MIP], csrs[MIDELEG]);
      } else if IsCounter(a) {
        v := steps;
      } else {
        v := csrs[a];
      }
    }

    method WriteCsr(a: nat, v: bv64)
      requires Valid() && a < 4096
      modifies csrs
      ensures Valid() && View() == CsrWrite(old(View()), a, v)
    {
      hide MergeStatus, MergeMie, MergeMip, LegalSatp;
      if a == SSTATUS {
        csrs[MSTATUS] := MergeStatus(csrs[MSTATUS], v);
      } else if a == SIE {
        csrs[MIE] := MergeMie(csrs[MIE], csrs[MIDELEG], v);
      } else if a == SIP {
        csrs[MIP] := MergeMip(csrs[MIP], v);
      } else if a == SATP {
        csrs[SATP] := LegalSatp(v);
      } else {
        csrs[a] := v;
      }
    }

    method RaiseIrq(bit: bv64)
      requires Valid()
      modifies csrs
      ensures Valid() && View() == SetMip(old(View()), Raised(old(View()).csrs[MIP], bit))
    {
      csrs[MIP] := Raised(csrs[MIP], bit);
    }

    method LowerIrq(bit: bv64)
      requires Valid()
      modifies csrs
      ensures Valid() && View() == SetMip(old(View()), Cleared(old(View()).csrs[MIP], bit))
    {
      csrs[MIP] := Cleared(csrs[MIP], bit);
    }

    // The trap registers of one mode, and mstatus.
    method Record(epc: nat, ecause: nat, etval: nat, cause: bv64, tval: bv64, status: bv64)
      requires Valid() && epc < 4096 && ecause < 4096 && etval < 4096
      modifies csrs
      ensures Valid()
      ensures csrs[..] == old(csrs[..][epc := pc][ecause := cause][etval := tval][MSTATUS := status])
    {
      csrs[epc] := pc;
      csrs[ecause] := cause;
      csrs[etval] := tval;
      csrs[MSTATUS] := status;
    }

    // cpu_trap.
    method TakeTrap(cause: bv64, tval: bv64)
      requires Valid()
      modifies this, csrs
      ensures Valid() && View() == Trap(old(View()), cause, tval)
    {
      hide EnterS, EnterM, Vector, DelegationBit, SupervisorOrUser;
      var toS := SupervisorOrUser(privilege) && DelegationBit(csrs[MEDELEG], csrs[MIDELEG], cause);
      if toS {
        Record(SEPC, SCAUSE, STVAL, cause, tval, EnterS(csrs[MSTATUS], privilege));
        privilege := PRIV_S;
        pc := Vector(csrs[STVEC]);
      } else {
        Record(MEPC, MCAUSE, MTVAL, cause, tval, EnterM(csrs[MSTATUS], privilege));
        privilege := PRIV_M;
        pc := Vector(csrs[MTVEC]);
      }
    }

    method ReturnFromSupervisor()
      requires Valid()
      modifies this, csrs
      ensures Valid() && View() == Sret(old(View()))
    {
      hide LeaveS, SppPriv, Trap;
      if privilege < PRIV_S {
        TakeTrap(EXC_ILLEGAL, 0);
      } else {
        var status := csrs[MSTATUS];
        privilege := SppPriv(status);
        csrs[MSTATUS] := LeaveS(status);
        pc := csrs[SEPC];
      }
    }

    method ReturnFromMachine()
      requires Valid()
      modifies this, csrs
      ensures Valid() && View() == Mret(old(View()))
    {
      hide LeaveM, MppPriv, Trap;
      if privilege < PRIV_M {
        TakeTrap(EXC_ILLEGAL, 0);
      } else {
        var status := csrs[MSTATUS];
        privilege := MppPriv(status);
        csrs[MSTATUS] := LeaveM(status);
        pc := csrs[MEPC];
      }
    }

    // Find the highest set bit at or below top, scanning down.
    static method HighestBit(x: bv64, top: bv6) returns (r: Option<bv6>)
      ensures r == TopBit(x, top)
    {
      hide Bit;
      var b := top;
      while true
        invariant TopBit(x, top) == TopBit(x, b)
        decreases b
      {
        if Bit(x, b) {
          return Some(b);
        }
        if b == 0 {
          return None;
        }
        b := b - 1;
      }
    }

    // The interrupt to take: machine interrupts first, then the delegated ones.
    method PendingInterrupt() returns (taken: Option<bv6>)
      requires Valid()
      ensures taken == Select(View())
    {
      hide Bit, TopBit, Masked, Cleared, MieSet, SieSet, Select;
      ghost var c := View();
      SelectStages(c);
      var pending := Masked(csrs[MIP], csrs[MIE]);
      if pending == 0 {
        return None;
      }
      var machine := Cleared(pending, csrs[MIDELEG]);
      assert machine == MPending(c);
      if machine != 0 && (privilege < PRIV_M || MieSet(csrs[MSTATUS])) {
        taken := HighestBit(machine, 11);
        if taken.Some? {
          return;
        }
      }
      var supervisor := Masked(pending, csrs[MIDELEG]);
      assert supervisor == SPending(c);
      if supervisor != 0 && (privilege == PRIV_U || (privilege == PRIV_S && SieSet(csrs[MSTATUS]))) {
        taken := HighestBit(supervisor, 9);
      } else {
        taken := None;
      }
    }

    // cpu_check_interrupts, after the sources were polled.
    method DeliverInterrupt() returns (taken: Option<bv6>)
      requires Valid()
      modifies this, csrs
      ensures Valid() && taken == Select(old(View()))
      ensures View() == if taken.Some? then Trap(old(View()), IrqCause(taken.value), 0) else old(View())
    {
      hide Trap, Select, IrqCause;
      taken := PendingInterrupt();
      if taken.Some? {
        TakeTrap(IrqCause(taken.value), 0);
      }
    }
  }
}

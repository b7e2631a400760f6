/** Which interrupt is delivered, and to which mode. */
module Interrupts {
  import opened Words
  import opened Mmu
  import opened Hart
  import M = Machine

  lemma {:induction false} TopBitHighest(x: bv64, b: bv6)
    ensures match TopBit(x, b)
            case None => forall j: bv6 :: j <= b ==> !Bit(x, j)
            case Some(r) => r <= b && Bit(x, r) && forall j: bv6 :: r < j <= b ==> !Bit(x, j)
    decreases b
  {
    hide Bit;
    if !Bit(x, b) && b != 0 {
      TopBitHighest(x, b - 1);
    }
  }

  // Deliverable in M-mode: pending, enabled, not delegated, and M-mode interrupts open.
  predicate ForMachine(c: Cpu, b: bv6) {
    MOpen(c) && b <= 11 && Bit(MPending(c), b)
  }

  // Deliverable in S-mode: pending, enabled, delegated, and S-mode interrupts open.
  predicate ForSupervisor(c: Cpu, b: bv6) {
    SOpen(c) && b <= 9 && Bit(SPending(c), b)
  }

  lemma BitOfAndNot(x: bv64, y: bv64, b: bv6)
    ensures Bit(x & !y, b) ==> !Bit(y, b)
  {
  }

  lemma MachineBitNotDelegated(c: Cpu, b: bv6)
    requires Bit(MPending(c), b)
    ensures !DelegatedTo(c, IrqCause(b))
  {
    hide Bit;
    BitOfAndNot(c.csrs[MIP] & c.csrs[MIE], c.csrs[MIDELEG], b);
    IrqCauseBits(b);
  }

  lemma SupervisorBitDelegated(c: Cpu, b: bv6)
    requires Bit(SPending(c), b) && SOpen(c)
    ensures DelegatedTo(c, IrqCause(b))
  {
    hide Bit;
    BitOfAnd(c.csrs[MIP] & c.csrs[MIE], c.csrs[MIDELEG], b);
    IrqCauseBits(b);
    assert SupervisorOrUser(c.priv);
  }

  /** The interrupt taken is the highest deliverable machine bit, or failing that the highest
      deliverable supervisor bit, and trap entry sends it to the very mode the selection
      assumed. None is taken only when none is deliverable. */
  lemma SelectIsHighest(c: Cpu)
    ensures match Select(c)
            case None => forall j :: !ForMachine(c, j) && !ForSupervisor(c, j)
            case Some(b) =>
              if ForMachine(c, b) then
                !DelegatedTo(c, IrqCause(b)) && forall j :: ForMachine(c, j) ==> j <= b
              else
                && ForSupervisor(c, b) && DelegatedTo(c, IrqCause(b))
                && forall j :: !ForMachine(c, j) && (ForSupervisor(c, j) ==> j <= b)
  {
    hide Bit, TopBit, MPending, SPending, MOpen, SOpen, DelegatedTo, IrqCause;
    TopBitHighest(MPending(c), 11);
    TopBitHighest(SPending(c), 9);
    match Select(c)
    case None =>
    case Some(b) =>
      if MOpen(c) && TopBit(MPending(c), 11).Some? {
        MachineBitNotDelegated(c, b);
      } else {
        SupervisorBitDelegated(c, b);
      }
  }

  predicate TimerPending(mip: bv64) {
    mip & 0x20 != 0
  }

  lemma StipSet(mip: bv64, on: bool)
    ensures TimerPending(M.SetStip(mip, on)) <==> on
  {
    assert (mip | 0x20) & 0x20 == 0x20;
    assert (mip & 0xFFFF_FFFF_FFFF_FFDF) & 0x20 == 0;
  }

  /** The comparator tells the truth at every interrupt check: after polling, whatever the
      devices raised, STIP is set exactly when the step counter has reached mtimecmp. */
  lemma TimerTruth(m: M.Machine, deeds: seq<M.Deed>)
    ensures TimerPending(M.Poll(m, deeds).cpu.csrs[MIP]) <==> M.TimerDue(M.Poll(m, deeds))
  {
    hide M.DoAll, M.Bump, M.SetStip, M.Due, TimerPending;
    var m0 := M.DoAll(m.(cpu := m.cpu.(steps := M.Bump(m.cpu.steps))), deeds);
    StipSet(m0.cpu.csrs[MIP], M.TimerDue(m0));
  }
}

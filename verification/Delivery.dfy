/** From a device or the timer to the guest's handler: the controller, the comparator, the
    pending lines and the selection put together. */
module Delivery {
  import opened Words
  import opened Mmu
  import opened Hart
  import opened Machine
  import opened Confinement
  import I = Interrupts
  import H = HandlerRuns
  import F = PreciseFaults
  import Plic

  predicate SeieSet(mie: bv64) { mie & 0x200 != 0 }

  predicate SeipSet(mip: bv64) { mip & 0x200 != 0 }

  // Bit 9 is the highest that S-mode scans, so nothing goes before it.
  lemma TopIsExternal(x: bv64)
    ensures TopBit(x, 9) == Some(9) <==> Bit(x, 9)
  {
    hide Bit;
    I.TopBitHighest(x, 9);
  }

  lemma ExternalBit(mip: bv64, mie: bv64)
    ensures Bit(Masked(Masked(mip, mie), 0x222), 9) <==> SeipSet(mip) && SeieSet(mie)
  {
  }

  lemma SelectsExternal(c: Cpu, k: Frame)
    requires Confined(c, k)
    ensures Select(c) == Some(9) <==> SOpen(c) && SeipSet(c.csrs[MIP]) && SeieSet(c.csrs[MIE])
  {
    hide TopBit, Masked, Cleared, SOpen, MOpen, SeipSet, SeieSet, Within, SatpLegal, SieOff, SupervisorOrUser;
    NoMachineInterrupt(c);
    NoTopBit(11);
    TopIsExternal(SPending(c));
    ExternalBit(c.csrs[MIP], c.csrs[MIE]);
  }

  // A claim by the supervisor would return a source.
  predicate Claimable(p: Plic.Plic) {
    Plic.Claim(p, Plic.CTX_S).1 != 0
  }

  // The guest lets external interrupts in.
  predicate Admits(c: Cpu) {
    SOpen(c) && SeieSet(c.csrs[MIE])
  }

  /** Delivery is exact: a step of a confined hart takes the external interrupt if and only
      if, once devices were polled, a claim by the supervisor would return a source and the
      guest lets external interrupts in. */
  lemma DeliveredExactly(m: Machine, env: Env, k: Frame)
    requires Invariant(m, k)
    ensures Step(m, env).Stepped? && Step(m, env).event == Interrupted(9)
       <==> Claimable(Poll(m, env.polled).plic) && Admits(m.cpu)
  {
    hide Poll, Select, Confined, Plic.Fires, SeieSet, SOpen, FetchExecute, Trap, IrqCause;
    var m1 := Poll(m, env.polled);
    PollKeeps(m, env.polled, k);
    PollFrame(m, env.polled, k);
    SelectsExternal(m1.cpu, k);
    SameAdmission(m.cpu, m1.cpu);
    FiresIsClaimable(m1.plic);
  }

  lemma SameAdmission(c: Cpu, c': Cpu)
    requires c' == c.(csrs := c.csrs[MIP := c'.csrs[MIP]], steps := c'.steps)
    ensures SOpen(c') == SOpen(c) && c'.csrs[MIE] == c.csrs[MIE]
  {
  }

  lemma FiresIsClaimable(p: Plic.Plic)
    ensures Plic.Fires(p) <==> Claimable(p)
  {
    hide Plic.Best, Plic.With, Plic.Without;
  }

  predicate StieSet(mie: bv64) { mie & 0x20 != 0 }

  // Of the delegated lines only the external one stands above the timer's.
  lemma TopIsTimer(mip: bv64, mie: bv64)
    ensures var x := Masked(Masked(mip, mie), 0x222);
            TopBit(x, 9) == Some(5) <==> I.TimerPending(mip) && StieSet(mie) && !(SeipSet(mip) && SeieSet(mie))
  {
    hide TopBit, Masked, SeipSet, SeieSet, StieSet, I.TimerPending, Bit;
    var x := Masked(Masked(mip, mie), 0x222);
    ExternalBit(mip, mie);
    TimerBit(mip, mie);
    I.TopBitHighest(x, 9);
    assert TopBit(x, 9) == Some(5) <==> Bit(x, 5) && !Bit(x, 9);
  }

  lemma TimerBit(mip: bv64, mie: bv64)
    ensures var x := Masked(Masked(mip, mie), 0x222);
            (Bit(x, 5) <==> I.TimerPending(mip) && StieSet(mie)) && !Bit(x, 6) && !Bit(x, 7) && !Bit(x, 8)
  {
  }

  lemma SelectsTimer(c: Cpu, k: Frame)
    requires Confined(c, k)
    ensures Select(c) == Some(5)
       <==> && SOpen(c) && I.TimerPending(c.csrs[MIP]) && StieSet(c.csrs[MIE])
            && !(SeipSet(c.csrs[MIP]) && SeieSet(c.csrs[MIE]))
  {
    hide TopBit, Masked, Cleared, SOpen, MOpen, SeipSet, SeieSet, StieSet, Within, SatpLegal, SieOff, SupervisorOrUser;
    hide I.TimerPending;
    NoMachineInterrupt(c);
    NoTopBit(11);
    TopIsTimer(c.csrs[MIP], c.csrs[MIE]);
  }

  /** The timer likewise: a step takes the timer interrupt if and only if the step count has
      reached the comparator, the guest lets timer interrupts in, and no external interrupt
      goes before it. */
  lemma TimerDeliveredExactly(m: Machine, env: Env, k: Frame)
    requires Invariant(m, k)
    ensures (Step(m, env).Stepped? && Step(m, env).event == Interrupted(5))
       <==> && TimerDue(Poll(m, env.polled)) && SOpen(m.cpu) && StieSet(m.cpu.csrs[MIE])
            && !(Claimable(Poll(m, env.polled).plic) && SeieSet(m.cpu.csrs[MIE]))
  {
    hide Poll, Select, Confined, Plic.Fires, SeieSet, StieSet, SOpen, FetchExecute, Trap, IrqCause, I.TimerPending;
    hide TimerDue;
    var m1 := Poll(m, env.polled);
    PollKeeps(m, env.polled, k);
    PollFrame(m, env.polled, k);
    I.TimerTruth(m, env.polled);
    SelectsTimer(m1.cpu, k);
    SameAdmission(m.cpu, m1.cpu);
    FiresIsClaimable(m1.plic);
  }

  // The supervisor would be told of irq: enabled, above the threshold, not being served.
  predicate Heard(p: Plic.Plic, irq: nat) {
    && 1 <= irq < Plic.SOURCES
    && Plic.Has(p.enable[Plic.CTX_S], irq) && !Plic.Has(p.claimed, irq)
    && p.priority[irq] > p.threshold[Plic.CTX_S]
  }

  lemma OneDeed(m: Machine, d: Deed)
    ensures DoAll(m, [d]) == Do(m, d)
  {
    hide Do;
    assert [d][1..] == [];
    assert DoAll(Do(m, d), []) == Do(m, d);
  }

  lemma PollRaises(m: Machine, irq: nat)
    ensures Poll(m, [Signals(irq)]).plic == Plic.Raise(m.plic, irq)
  {
    hide Bump, SetStip, TimerDue, Plic.AfterEffect, Plic.With, DoAll;
    OneDeed(m.(cpu := m.cpu.(steps := Bump(m.cpu.steps))), Signals(irq));
  }

  lemma RaisedIsReady(p: Plic.Plic, irq: nat)
    requires Heard(p, irq)
    ensures Plic.Ready(Plic.Raise(p, irq), Plic.CTX_S, irq)
  {
    hide Plic.Has, Plic.With;
    Plic.MaskLaws(p.pending, irq, irq);
  }

  // The source a claim returns is the given one, or one that goes before it.
  predicate ServedFirst(p: Plic.Plic, irq: nat) {
    var r := Plic.Claim(p, Plic.CTX_S).1;
    r == irq || (Plic.Ready(p, Plic.CTX_S, r) && irq < Plic.SOURCES && Plic.Before(p, r, irq))
  }

  lemma ReadyIsClaimable(p: Plic.Plic, irq: nat)
    requires Plic.Ready(p, Plic.CTX_S, irq)
    ensures Claimable(p) && ServedFirst(p, irq)
  {
    hide Plic.Has, Plic.With, Plic.Without, Plic.BestBelow, Plic.Before;
  }

  /** A signal gets through: if a device raises a source the supervisor would be told of while
      the guest lets external interrupts in, the same step takes the external interrupt, and
      the handler's claim returns that source or one that goes before it. */
  lemma SignalDelivered(m: Machine, env: Env, irq: nat, k: Frame)
    requires Invariant(m, k) && Admits(m.cpu) && Heard(m.plic, irq) && env.polled == [Signals(irq)]
    ensures Step(m, env).Stepped? && Step(m, env).event == Interrupted(9)
    ensures ServedFirst(Step(m, env).m.plic, irq)
  {
    hide Heard, ServedFirst, Claimable, Admits, Invariant, Poll, Select, Trap, FetchExecute, IrqCause, Plic.Raise;
    hide Plic.Ready;
    PollRaises(m, irq);
    RaisedIsReady(m.plic, irq);
    ReadyIsClaimable(Plic.Raise(m.plic, irq), irq);
    DeliveredExactly(m, env, k);
  }

  // ---------------------------------------------------------------- By bits

  // S-mode interrupts are open: in U-mode always, in S-mode while SIE is set. M-mode ones:
  // below M-mode always, in M-mode while MIE is set.
  predicate OpenS(priv: bv2, status: bv64) {
    priv == 0 || (priv == 1 && status & 0x2 != 0)
  }

  predicate OpenM(priv: bv2, status: bv64) {
    priv != 3 || status & 0x8 != 0
  }

  predicate IsSet(x: bv64, b: bv6) { (x >> (b as bv64)) & 1 == 1 }

  // b is the highest set bit of x up to the given one.
  ghost predicate TopAt(x: bv64, top: bv6, b: bv6) {
    b <= top && IsSet(x, b) && forall j: bv6 :: b < j <= top ==> !IsSet(x, j)
  }

  lemma SetIsBit(x: bv64, b: bv6)
    ensures IsSet(x, b) <==> Bit(x, b)
  {
  }

  lemma TopAtExactly(x: bv64, top: bv6, b: bv6)
    ensures TopBit(x, top) == Some(b) <==> TopAt(x, top, b)
  {
    hide Bit, IsSet;
    I.TopBitHighest(x, top);
    forall j: bv6 ensures IsSet(x, j) <==> Bit(x, j) {
      SetIsBit(x, j);
    }
    SameTop(x, top, b);
  }

  // At most one bit is the highest.
  lemma SameTop(x: bv64, top: bv6, b: bv6)
    ensures forall r: bv6 :: TopAt(x, top, b) && TopAt(x, top, r) ==> r == b
  {
    hide IsSet;
    forall r: bv6 | TopAt(x, top, b) && TopAt(x, top, r) ensures r == b {
      Trichotomy(r, b);
    }
  }

  lemma Trichotomy(r: bv6, b: bv6)
    ensures r < b || r == b || b < r
  {
  }

  // The interrupts that would go to M-mode and to S-mode: pending, enabled, and by delegation.
  function ForM(c: Cpu): bv64 { c.csrs[0x344] & c.csrs[0x304] & !c.csrs[0x303] }

  function ForS(c: Cpu): bv64 { c.csrs[0x344] & c.csrs[0x304] & c.csrs[0x303] }

  // Interrupt b goes before all others that the hart lets in.
  ghost predicate GoesFirst(c: Cpu, b: bv6) {
    if OpenM(c.priv, c.csrs[0x300]) && exists j :: TopAt(ForM(c), 11, j) then TopAt(ForM(c), 11, b)
    else OpenS(c.priv, c.csrs[0x300]) && TopAt(ForS(c), 9, b)
  }

  lemma Spelled(c: Cpu)
    ensures ForM(c) == MPending(c) && ForS(c) == SPending(c)
    ensures OpenM(c.priv, c.csrs[0x300]) == MOpen(c) && OpenS(c.priv, c.csrs[0x300]) == SOpen(c)
  {
  }

  lemma SelectsFirst(c: Cpu, b: bv6)
    ensures Select(c) == Some(b) <==> GoesFirst(c, b)
  {
    hide TopBit, TopAt, MPending, SPending, ForM, ForS, OpenM, OpenS, MOpen, SOpen;
    Spelled(c);
    forall j: bv6 ensures TopBit(MPending(c), 11) == Some(j) <==> TopAt(MPending(c), 11, j) {
      TopAtExactly(MPending(c), 11, j);
    }
    TopAtExactly(SPending(c), 9, b);
    var first := TopBit(MPending(c), 11);
    if first.Some? {
      assert TopAt(ForM(c), 11, first.value);
      SameTop(ForM(c), 11, b);
    }
  }

  /** The interrupt check by bits, in every mode: a step takes interrupt b exactly when b goes
      first, once devices were polled, among the pending and enabled ones: those not delegated
      below M-mode or with MIE set, else those delegated in U-mode or in S-mode with SIE set. */
  lemma InterruptedExactly(m: Machine, env: Env, b: bv6)
    ensures (Step(m, env).Stepped? && Step(m, env).event == Interrupted(b))
       <==> GoesFirst(Poll(m, env.polled).cpu, b)
  {
    hide Poll, Select, GoesFirst, FetchExecute, Trap, IrqCause;
    SelectsFirst(Poll(m, env.polled).cpu, b);
  }

  predicate Reached(steps: bv64, at: bv64) { steps >= at }

  // Both the pending and the enable bit of the external line are set.
  predicate External(mip: bv64, mie: bv64) {
    SeipSet(mip) && SeieSet(mie)
  }

  /** For a confined hart: interrupt 9 exactly when bits 9 of mip and mie are set and interrupts
      are open, in U-mode or in S-mode with SIE set; interrupt 5 exactly when they are open, bit
      5 of mie is set, the step count has reached the comparator, and 9 does not go before. */
  lemma ConfinedByBits(m: Machine, env: Env, k: Frame)
    requires Invariant(m, k)
    ensures var c, m1 := m.cpu, Poll(m, env.polled);
            var open, external := OpenS(c.priv, c.csrs[0x300]), External(m1.cpu.csrs[0x344], c.csrs[0x304]);
            && ((Step(m, env).Stepped? && Step(m, env).event == Interrupted(9)) <==> open && external)
            && ((Step(m, env).Stepped? && Step(m, env).event == Interrupted(5))
                  <==> open && Reached(m1.cpu.steps, m1.timecmp) && StieSet(c.csrs[0x304]) && !external)
  {
    hide Poll, Confined, Plic.Fires, Step, Claimable, Plic.SeipTruth, SOpen, OpenS, SeipSet, SeieSet, StieSet;
    hide Reached, Due;
    var m1 := Poll(m, env.polled);
    PollKeeps(m, env.polled, k);
    DeliveredExactly(m, env, k);
    TimerDeliveredExactly(m, env, k);
    TruthByBits(m1.cpu.csrs[MIP], m1.plic);
    OpenByBits(m.cpu);
    DueByBits(m1.cpu.steps, m1.timecmp);
  }

  lemma DueByBits(steps: bv64, at: bv64)
    ensures Due(steps, at) == Reached(steps, at)
  {
  }

  lemma OpenByBits(c: Cpu)
    ensures SOpen(c) <==> OpenS(c.priv, c.csrs[0x300])
  {
  }

  lemma TruthByBits(mip: bv64, p: Plic.Plic)
    requires Plic.SeipTruth(mip, p)
    ensures SeipSet(mip) <==> Claimable(p)
  {
    hide Plic.Fires, Claimable;
    FiresIsClaimable(p);
  }

  // One step, one count.
  lemma PollCounts(m: Machine, deeds: seq<Deed>, k: Frame)
    requires Invariant(m, k)
    ensures Poll(m, deeds).cpu.steps == m.cpu.steps + 1
  {
    hide DoAll, SetStip, TimerDue, Invariant;
    var m0 := m.(cpu := m.cpu.(steps := Bump(m.cpu.steps)));
    CountKeeps(m, Bump(m.cpu.steps), k);
    DoAllKeeps(m0, deeds, k);
  }

  /** What a confined hart has after interrupt b was taken: in S-mode at the handler, with the
      interrupted pc, and b in the cause with its top bit set and all others clear. */
  lemma TakenByBits(m: Machine, env: Env, k: Frame)
    requires Invariant(m, k) && Step(m, env).Stepped? && Step(m, env).event.Interrupted?
    ensures var c, c', b := m.cpu, Step(m, env).m.cpu, Step(m, env).event.bit;
            && c'.csrs[0x142] == 0x8000_0000_0000_0000 + (b as bv64)
            && c'.csrs[0x141] == c.pc && c'.csrs[0x143] == 0 && c'.priv == 1
            && c'.pc == c.csrs[0x105] & 0xFFFF_FFFF_FFFF_FFFC && c'.regs == c.regs
  {
    hide Poll, Select, Confined, Plic.SeipTruth, FetchExecute, DelegatedTo, EnterS, Vector, IrqCause, DelegationBit;
    var m1 := Poll(m, env.polled);
    PollKeeps(m, env.polled, k);
    PollFrame(m, env.polled, k);
    SelectDelegated(m1.cpu, k);
    var b := Select(m1.cpu).value;
    H.ConfinedDelegates(m1.cpu, IrqCause(b), k);
    CauseByBits(b);
    F.VectorBits(m.cpu.csrs[STVEC]);
  }

  lemma CauseByBits(b: bv6)
    ensures IrqCause(b) == 0x8000_0000_0000_0000 + (b as bv64)
  {
  }
}

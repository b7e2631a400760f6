/** Trap handlers as runs of the machine: what a handler may do is what the machine's own
    steps do, and the sret that ends it resumes the interrupted context. */
module HandlerRuns {
  import opened Words
  import opened Memory
  import opened Mmu
  import opened Hart
  import opened Machine
  import opened Confinement
  import T = TrapNesting
  import Plic

  // ---------------------------------------------------------------- Handler steps

  /** Any step of a confined hart in S-mode but an executed sret, traps and interrupts
      included, keeps to the rules of handler code: it stays in S-mode and changes neither
      delegation nor the part of mstatus that sstatus hides. */
  lemma StepIsHandlerCode(m: Machine, env: Env, k: Frame)
    requires Invariant(m, k) && m.cpu.priv == PRIV_S
    requires Step(m, env).Stepped? && !StepReturns(m, env)
    ensures T.Keeps(m.cpu, Step(m, env).m.cpu)
  {
    hide Step, StepReturns, Within, SatpLegal, SieOff, SupervisorOrUser, Plic.SeipTruth, T.Hidden;
    StepKeeps(m, env, Frame(k.hidden, false, true));
  }

  // A whole run of a confined hart that starts and ends in S-mode does too, however many
  // traps and returns lie on the way.
  lemma RunIsHandlerCode(m: Machine, envs: seq<Env>, k: Frame)
    requires Invariant(m, k) && m.cpu.priv == PRIV_S
    requires Run(m, envs).Some? && Run(m, envs).value.cpu.priv == PRIV_S
    ensures T.Keeps(m.cpu, Run(m, envs).value.cpu) && Invariant(Run(m, envs).value, Open(k))
  {
    hide Run, Within, SatpLegal, SieOff, SupervisorOrUser, Plic.SeipTruth, T.Hidden;
    RunKeeps(m, envs, Open(k));
  }

  function Open(k: Frame): Frame {
    Frame(k.hidden, false, false)
  }

  // ---------------------------------------------------------------- Returning

  lemma SretStep(m: Machine, env: Env, k: Frame)
    requires Invariant(m, k) && Step(m, env).Stepped? && StepReturns(m, env)
    ensures var c := Poll(m, env.polled).cpu; Step(m, env).m.cpu == Sret(c)
  {
    hide Invariant, Poll, Select, Trap, Translate, Fetched, Sret, IrqCause;
    var m1 := Poll(m, env.polled);
    TranslateFrame(m1, m1.cpu.pc, Fetch);
  }

  lemma StatusRestored(s: bv64, t: bv64)
    requires T.Hidden(s) == T.Hidden(t) && StatusView(s) == StatusView(t)
    ensures s == t
  {
    assert s == (s & 0xFFFF_FFFF_FFF3_9EDD) | (s & 0xC_6122);
    assert t == (t & 0xFFFF_FFFF_FFF3_9EDD) | (t & 0xC_6122);
  }

  // The handler has put back the sepc and the sstatus it was entered with.
  predicate PutBack(entered: Cpu, finished: Cpu) {
    finished.csrs[SEPC] == entered.csrs[SEPC] && StatusView(finished.csrs[MSTATUS]) == StatusView(entered.csrs[MSTATUS])
  }

  // Leaving such a handler, from a hart that differs from it in pending lines and counters.
  lemma LeaveResumes(c: Cpu, cause: bv64, tval: bv64, finished: Cpu, polled: Cpu)
    requires DelegatedTo(c, cause) && T.Keeps(Trap(c, cause, tval), finished) && PutBack(Trap(c, cause, tval), finished)
    requires polled == finished.(csrs := finished.csrs[MIP := polled.csrs[MIP]], steps := polled.steps)
    ensures T.Resumes(c, Sret(polled))
  {
    hide EnterS, LeaveS, StatusView, SppPriv, T.Hidden, Vector, DelegationBit, SupervisorOrUser, T.Resumed;
    var status, entered := c.csrs[MSTATUS], Trap(c, cause, tval);
    StatusRestored(finished.csrs[MSTATUS], entered.csrs[MSTATUS]);
    T.LeaveEnterS(status, c.priv);
    T.EnterSPriv(status, c.priv);
  }

  /** Handlers as runs: take a delegated trap on a confined hart, run the machine for any
      number of steps, nested traps and returns included, until the handler has put sepc and
      sstatus back in S-mode, and let the next step execute sret. The hart is back at the
      trapped pc and privilege with every bit of mstatus but SPIE (set) and SPP (clear). */
  lemma HandlerResumes(m: Machine, cause: bv64, tval: bv64, envs: seq<Env>, last: Env, k: Frame)
    requires Invariant(m, k) && DelegatedTo(m.cpu, cause)
    requires var entered := m.(cpu := Trap(m.cpu, cause, tval));
             && Run(entered, envs).Some?
             && var finished := Run(entered, envs).value;
                finished.cpu.priv == PRIV_S && PutBack(entered.cpu, finished.cpu) && StepReturns(finished, last)
    ensures T.Resumes(m.cpu, Step(Run(m.(cpu := Trap(m.cpu, cause, tval)), envs).value, last).m.cpu)
  {
    hide Run, Step, Trap, DelegatedTo, Poll, PutBack, T.Keeps, T.Resumes, Sret;
    var entered := m.(cpu := Trap(m.cpu, cause, tval));
    EnteredConfined(m, cause, tval, k);
    RunIsHandlerCode(entered, envs, Open(k));
    var finished := Run(entered, envs).value;
    SretStep(finished, last, Open(k));
    PollFrame(finished, last.polled, Open(k));
    LeaveResumes(m.cpu, cause, tval, finished.cpu, Poll(finished, last.polled).cpu);
  }

  lemma EnteredConfined(m: Machine, cause: bv64, tval: bv64, k: Frame)
    requires Invariant(m, k) && DelegatedTo(m.cpu, cause)
    ensures var entered := m.(cpu := Trap(m.cpu, cause, tval));
            Invariant(entered, Open(k)) && entered.cpu.priv == PRIV_S
  {
    hide Within, SatpLegal, SieOff, Plic.SeipTruth, T.Hidden, Trap, DelegationBit, SupervisorOrUser;
    TrapKeeps(m, cause, tval, Open(k));
    TrapConfined(m.cpu, Open(k), cause, tval);
  }

  /** The same from an interrupt that a step of the machine takes: what is resumed is the
      hart as it stood when the interrupt was delivered. */
  lemma InterruptResumes(m: Machine, env: Env, envs: seq<Env>, last: Env, k: Frame)
    requires Invariant(m, k) && Step(m, env).Stepped? && Step(m, env).event.Interrupted?
    requires Run(Step(m, env).m, envs).Some?
    requires var finished := Run(Step(m, env).m, envs).value;
             finished.cpu.priv == PRIV_S && PutBack(Step(m, env).m.cpu, finished.cpu) && StepReturns(finished, last)
    ensures T.Resumes(Poll(m, env.polled).cpu, Step(Run(Step(m, env).m, envs).value, last).m.cpu)
  {
    hide Run, Trap, Poll, Select, IrqCause, FetchExecute, PutBack, T.Resumes, Confined, DelegationBit, Plic.SeipTruth;
    hide StepReturns, SupervisorOrUser;
    var m1 := Poll(m, env.polled);
    PollKeeps(m, env.polled, k);
    SelectDelegated(m1.cpu, k);
    var cause := IrqCause(Select(m1.cpu).value);
    ConfinedDelegates(m1.cpu, cause, k);
    HandlerResumes(m1, cause, 0, envs, last, k);
  }

  lemma ConfinedDelegates(c: Cpu, cause: bv64, k: Frame)
    requires Confined(c, k) && DelegationBit(DELEGATED_EXCEPTIONS, DELEGATED_INTERRUPTS, cause)
    ensures DelegatedTo(c, cause)
  {
    hide DelegationBit, SupervisorOrUser;
  }
}

/** Trap entry and return as inverse operations, through any depth of nested traps. */
module TrapNesting {
  import opened Words
  import opened Mmu
  import opened Hart

  // ---------------------------------------------------------------- mstatus, field by field

  lemma EnterSFields(s: bv64, priv: bv2)
    ensures EnterS(s, priv) & 0x20 == (if s & 0x2 != 0 then 0x20 else 0)
    ensures EnterS(s, priv) & 0x2 == 0
    ensures EnterS(s, priv) & 0x100 == (if priv == PRIV_S then 0x100 else 0)
    ensures EnterS(s, priv) | 0x122 == s | 0x122
  {
  }

  lemma LeaveSFields(s: bv64)
    ensures LeaveS(s) & 0x2 == (if s & 0x20 != 0 then 0x2 else 0)
    ensures LeaveS(s) & 0x20 == 0x20
    ensures LeaveS(s) & 0x100 == 0
    ensures LeaveS(s) | 0x122 == s | 0x122
  {
  }

  lemma EnterMFields(s: bv64, priv: bv2)
    ensures EnterM(s, priv) & 0x80 == (if s & 0x8 != 0 then 0x80 else 0)
    ensures EnterM(s, priv) & 0x8 == 0
    ensures EnterM(s, priv) & 0x1800 == (priv as bv64) << 11
    ensures EnterM(s, priv) | 0x1888 == s | 0x1888
  {
  }

  lemma LeaveMFields(s: bv64)
    ensures LeaveM(s) & 0x8 == (if s & 0x80 != 0 then 0x8 else 0)
    ensures LeaveM(s) & 0x80 == 0x80
    ensures LeaveM(s) & 0x1800 == 0
    ensures LeaveM(s) | 0x1888 == s | 0x1888
  {
  }

  // ---------------------------------------------------------------- Handlers

  // Bits of mstatus that sstatus does not expose.
  function Hidden(s: bv64): bv64 {
    s & 0xFFFF_FFFF_FFF3_9EDD
  }

  // What a stretch of S-mode handler code may do: anything but change privilege, the
  // delegation registers and the part of mstatus that sstatus does not expose.
  predicate Keeps(c: Cpu, c': Cpu) {
    && c'.priv == c.priv
    && c'.csrs[MEDELEG] == c.csrs[MEDELEG] && c'.csrs[MIDELEG] == c.csrs[MIDELEG]
    && Hidden(c'.csrs[MSTATUS]) == Hidden(c.csrs[MSTATUS])
  }

  // A handler body: stretches of code, and traps taken and returned from on the way.
  datatype Body = Done | Work(next: Cpu, rest: Body) | Nest(inner: Episode, rest: Body)

  datatype Episode = Episode(cause: bv64, tval: bv64, body: Body)

  // Take the trap, save sepc and sstatus, run the body, restore both, return.
  function RunEpisode(c: Cpu, e: Episode): Cpu
    decreases e
  {
    var entered := Trap(c, e.cause, e.tval);
    Restore(entered, RunBody(entered, e.body))
  }

  // The handler's epilogue: write back the sepc and sstatus saved on entry, then sret.
  function Restore(entered: Cpu, finished: Cpu): Cpu {
    Sret(CsrWrite(CsrWrite(finished, SEPC, CsrRead(entered, SEPC)), SSTATUS, CsrRead(entered, SSTATUS)))
  }

  function RunBody(c: Cpu, b: Body): Cpu
    decreases b
  {
    match b
    case Done => c
    case Work(next, rest) => RunBody(next, rest)
    case Nest(inner, rest) => RunBody(RunEpisode(c, inner), rest)
  }

  // Every trap of the run is delegated where it is taken, and code stretches keep to S-mode rules.
  predicate Delegated(c: Cpu, e: Episode)
    decreases e
  {
    DelegatedTo(c, e.cause) && DelegatedBody(Trap(c, e.cause, e.tval), e.body)
  }

  predicate DelegatedBody(c: Cpu, b: Body)
    decreases b
  {
    match b
    case Done => true
    case Work(next, rest) => Keeps(c, next) && DelegatedBody(next, rest)
    case Nest(inner, rest) => Delegated(c, inner) && DelegatedBody(RunEpisode(c, inner), rest)
  }

  function Resumed(status: bv64): bv64 {
    (status | 0x20) & 0xFFFF_FFFF_FFFF_FEFF
  }

  // c' is back where c was: pc, privilege and every mstatus bit, except that SPIE is set
  // and SPP cleared.
  predicate Resumes(c: Cpu, c': Cpu) {
    && c'.pc == c.pc && c'.priv == c.priv
    && c'.csrs[MEDELEG] == c.csrs[MEDELEG] && c'.csrs[MIDELEG] == c.csrs[MIDELEG]
    && c'.csrs[MSTATUS] == Resumed(c.csrs[MSTATUS])
  }

  lemma MergeRestores(s: bv64, t: bv64)
    requires Hidden(s) == Hidden(t)
    ensures MergeStatus(t, StatusView(s)) == s
  {
    assert (s & 0xFFFF_FFFF_FFF3_9EDD) | ((s & 0xC_6122) & 0xC_6122) == s;
  }

  // Returning undoes entering, from either privilege and either value of SIE.
  lemma LeaveEnterSOn(s: bv64)
    requires s & 0x2 != 0
    ensures LeaveS(EnterS(s, PRIV_S)) == (s | 0x20) & 0xFFFF_FFFF_FFFF_FEFF
  {
    assert EnterS(s, PRIV_S) == (s | 0x120) & 0xFFFF_FFFF_FFFF_FFFD;
  }

  lemma LeaveEnterSOff(s: bv64)
    requires s & 0x2 == 0
    ensures LeaveS(EnterS(s, PRIV_S)) == (s | 0x20) & 0xFFFF_FFFF_FFFF_FEFF
  {
    assert EnterS(s, PRIV_S) == (s | 0x100) & 0xFFFF_FFFF_FFFF_FFDD;
  }

  lemma LeaveEnterUOn(s: bv64)
    requires s & 0x2 != 0
    ensures LeaveS(EnterS(s, PRIV_U)) == (s | 0x20) & 0xFFFF_FFFF_FFFF_FEFF
  {
    assert EnterS(s, PRIV_U) == (s | 0x20) & 0xFFFF_FFFF_FFFF_FEFD;
  }

  lemma LeaveEnterUOff(s: bv64)
    requires s & 0x2 == 0
    ensures LeaveS(EnterS(s, PRIV_U)) == (s | 0x20) & 0xFFFF_FFFF_FFFF_FEFF
  {
    assert EnterS(s, PRIV_U) == s & 0xFFFF_FFFF_FFFF_FEDD;
  }

  lemma LeaveEnterS(s: bv64, priv: bv2)
    requires SupervisorOrUser(priv)
    ensures LeaveS(EnterS(s, priv)) == Resumed(s)
  {
    hide EnterS, LeaveS;
    if priv == PRIV_S {
      if s & 0x2 != 0 { LeaveEnterSOn(s); } else { LeaveEnterSOff(s); }
    } else {
      if s & 0x2 != 0 { LeaveEnterUOn(s); } else { LeaveEnterUOff(s); }
    }
  }

  lemma EnterSPriv(s: bv64, priv: bv2)
    requires SupervisorOrUser(priv)
    ensures SppPriv(EnterS(s, priv)) == priv
  {
  }

  lemma EnterSKeeps(s: bv64, priv: bv2)
    ensures Hidden(EnterS(s, priv)) == Hidden(s)
  {
  }

  lemma ResumedKeeps(s: bv64)
    ensures Hidden(Resumed(s)) == Hidden(s)
  {
  }

  lemma EpilogueFields(entered: Cpu, finished: Cpu)
    requires finished.priv == PRIV_S
    ensures var c' := Restore(entered, finished);
            var status := MergeStatus(finished.csrs[MSTATUS], StatusView(entered.csrs[MSTATUS]));
            && c'.pc == entered.csrs[SEPC] && c'.priv == SppPriv(status) && c'.csrs[MSTATUS] == LeaveS(status)
            && c'.csrs[MEDELEG] == finished.csrs[MEDELEG] && c'.csrs[MIDELEG] == finished.csrs[MIDELEG]
  {
    hide LeaveS, MergeStatus, StatusView, SppPriv;
  }

  // One level: a handler that keeps to the rules and restores both registers resumes.
  lemma RestoreResumes(c: Cpu, cause: bv64, tval: bv64, finished: Cpu)
    requires DelegatedTo(c, cause) && Keeps(Trap(c, cause, tval), finished)
    ensures Resumes(c, Restore(Trap(c, cause, tval), finished))
  {
    hide EnterS, LeaveS, MergeStatus, StatusView, SppPriv, Hidden, Vector, DelegationBit, SupervisorOrUser;
    hide Restore, Resumed;
    var status, entered := c.csrs[MSTATUS], Trap(c, cause, tval);
    EpilogueFields(entered, finished);
    EnterSKeeps(status, c.priv);
    MergeRestores(entered.csrs[MSTATUS], finished.csrs[MSTATUS]);
    LeaveEnterS(status, c.priv);
    EnterSPriv(status, c.priv);
  }

  /** Nested trap discipline: however deeply traps nest inside a handler that saves and
      restores sepc and sstatus, the outermost sret resumes the interrupted context. */
  lemma {:induction false} EpisodeResumes(c: Cpu, e: Episode)
    requires Delegated(c, e)
    ensures Resumes(c, RunEpisode(c, e))
    decreases e
  {
    hide DelegatedTo, Trap, Restore, Keeps;
    var entered := Trap(c, e.cause, e.tval);
    BodyKeeps(entered, e.body);
    RestoreResumes(c, e.cause, e.tval, RunBody(entered, e.body));
  }

  lemma {:induction false} BodyKeeps(c: Cpu, b: Body)
    requires DelegatedBody(c, b)
    ensures Keeps(c, RunBody(c, b))
    decreases b
  {
    hide Trap, Sret, Hidden, Resumed, RunEpisode, CsrWrite, CsrRead;
    match b
    case Done =>
    case Work(next, rest) =>
      BodyKeeps(next, rest);
    case Nest(inner, rest) =>
      EpisodeResumes(c, inner);
      ResumedKeeps(c.csrs[MSTATUS]);
      BodyKeeps(RunEpisode(c, inner), rest);
  }

  /** The same for a trap that goes to M-mode: whatever the handler did, once it has put
      mepc and mstatus back, mret resumes the context, with MPIE set and MPP cleared. */
  lemma MachineEpisodeResumes(c: Cpu, cause: bv64, tval: bv64, finished: Cpu)
    requires !DelegatedTo(c, cause) && finished.priv == PRIV_M
    ensures var entered := Trap(c, cause, tval);
            var c' := Mret(CsrWrite(CsrWrite(finished, MEPC, entered.csrs[MEPC]), MSTATUS, entered.csrs[MSTATUS]));
            && entered.priv == PRIV_M
            && c'.pc == c.pc && c'.priv == c.priv
            && c'.csrs[MSTATUS] == (c.csrs[MSTATUS] | 0x80) & !0x1800
  {
    hide EnterM, LeaveM, MppPriv, Vector, DelegationBit, SupervisorOrUser;
    LeaveEnterM(c.csrs[MSTATUS], c.priv);
  }

  lemma LeaveEnterM(s: bv64, priv: bv2)
    ensures LeaveM(EnterM(s, priv)) == (s | 0x80) & !0x1800
    ensures MppPriv(EnterM(s, priv)) == priv
  {
  }
}

/** The restricted CSR views: what a write through each of them changes, and what reading it
    back shows; and what an SBI call may touch. */
module CsrViews {
  import opened Mmu
  import opened Hart

  // No CSR but a changed.
  ghost predicate OnlyCsr(c: Cpu, c': Cpu, a: nat)
    requires a < 4096
  {
    c' == c.(csrs := c.csrs[a := c'.csrs[a]])
  }

  lemma StatusMerge(s: bv64, v: bv64)
    ensures ((s & 0xFFFF_FFFF_FFF3_9EDD) | (v & 0xC_6122)) & 0xC_6122 == v & 0xC_6122
    ensures ((s & 0xFFFF_FFFF_FFF3_9EDD) | (v & 0xC_6122)) & 0xFFFF_FFFF_FFF3_9EDD == s & 0xFFFF_FFFF_FFF3_9EDD
  {
  }

  lemma StatusBits(s: bv64, v: bv64)
    ensures StatusView(MergeStatus(s, v)) == Masked(v, 0xC_6122)
  {
    StatusMerge(s, v);
  }

  lemma ClearedStatus(x: bv64)
    ensures Cleared(x, 0xC_6122) == x & 0xFFFF_FFFF_FFF3_9EDD
  {
    assert !(0xC_6122 as bv64) == 0xFFFF_FFFF_FFF3_9EDD;
  }

  lemma StatusRest(s: bv64, v: bv64)
    ensures Cleared(MergeStatus(s, v), 0xC_6122) == Cleared(s, 0xC_6122)
  {
    hide Cleared;
    StatusMerge(s, v);
    ClearedStatus(s);
    ClearedStatus(MergeStatus(s, v));
  }

  /** sstatus exposes SIE, SPIE, SPP, FS, SUM and MXR: a write reads back in those bits and
      leaves the rest of mstatus alone. */
  lemma StatusWrite(c: Cpu, v: bv64)
    ensures var c' := CsrWrite(c, SSTATUS, v);
            && OnlyCsr(c, c', MSTATUS) && CsrRead(c', SSTATUS) == Masked(v, 0xC_6122)
            && Cleared(c'.csrs[MSTATUS], 0xC_6122) == Cleared(c.csrs[MSTATUS], 0xC_6122)
  {
    hide MergeStatus, StatusView, Masked, Cleared;
    StatusBits(c.csrs[MSTATUS], v);
    StatusRest(c.csrs[MSTATUS], v);
  }

  lemma MieBits(x: bv64, d: bv64, v: bv64)
    ensures Masked(MergeMie(x, d, v), d) == Masked(v, d)
  {
  }

  lemma MieRest(x: bv64, d: bv64, v: bv64)
    ensures Cleared(MergeMie(x, d, v), d) == Cleared(x, d)
  {
  }

  /** sie exposes the delegated interrupts: a write reads back in those bits and leaves the
      machine's own enables alone. */
  lemma SieWrite(c: Cpu, v: bv64)
    ensures var c', d := CsrWrite(c, SIE, v), c.csrs[MIDELEG];
            && OnlyCsr(c, c', MIE) && CsrRead(c', SIE) == Masked(v, d)
            && Cleared(c'.csrs[MIE], d) == Cleared(c.csrs[MIE], d)
  {
    hide MergeMie, Masked, Cleared;
    MieBits(c.csrs[MIE], c.csrs[MIDELEG], v);
    MieRest(c.csrs[MIE], c.csrs[MIDELEG], v);
  }

  lemma MipBits(x: bv64, v: bv64)
    ensures Masked(MergeMip(x, v), 0x2) == Masked(v, 0x2)
    ensures Cleared(MergeMip(x, v), 0x2) == Cleared(x, 0x2)
  {
  }

  // sip: only the software interrupt may be written.
  lemma SipWrite(c: Cpu, v: bv64)
    ensures var c' := CsrWrite(c, SIP, v);
            && OnlyCsr(c, c', MIP)
            && Masked(c'.csrs[MIP], 0x2) == Masked(v, 0x2) && Cleared(c'.csrs[MIP], 0x2) == Cleared(c.csrs[MIP], 0x2)
  {
    hide MergeMip, Masked, Cleared;
    MipBits(c.csrs[MIP], v);
  }

  function ModeOf(v: bv64): bv64 { v >> 60 }

  // The root and address-space fields.
  function BelowMode(v: bv64): bv64 { v & 0x0FFF_FFFF_FFFF_FFFF }

  lemma SatpBits(v: bv64)
    ensures ModeOf(v) == 0 || ModeOf(v) == 8 ==> LegalSatp(v) == v
    ensures ModeOf(v) != 0 && ModeOf(v) != 8 ==> ModeOf(LegalSatp(v)) == 0
    ensures BelowMode(LegalSatp(v)) == BelowMode(v)
  {
  }

  // satp: bare and Sv39 are stored as written, any other mode as bare.
  lemma SatpWrite(c: Cpu, v: bv64)
    ensures var c' := CsrWrite(c, SATP, v);
            && OnlyCsr(c, c', SATP) && BelowMode(CsrRead(c', SATP)) == BelowMode(v)
            && ModeOf(CsrRead(c', SATP)) == if ModeOf(v) == 0 || ModeOf(v) == 8 then ModeOf(v) else 0
  {
    hide LegalSatp, ModeOf, BelowMode, StatusView, Masked;
    SatpBits(v);
  }

  predicate IsView(a: nat) {
    a == SSTATUS || a == SIE || a == SIP || a == SATP
  }

  // Any other CSR stores what is written; a counter keeps showing the step count.
  lemma PlainWrite(c: Cpu, a: nat, v: bv64)
    requires a < 4096 && !IsView(a)
    ensures OnlyCsr(c, CsrWrite(c, a, v), a)
    ensures CsrRead(CsrWrite(c, a, v), a) == if IsCounter(a) then c.steps else v
  {
    hide StatusView, Masked;
  }

  // ---------------------------------------------------------------- SBI

  predicate IsSetTimer(c: Cpu) {
    c.regs[17] == 0 || (c.regs[17] == 0x5449_4D45 && c.regs[16] == 0)
  }

  lemma StipCleared(mip: bv64)
    ensures Masked(ClearStip(mip), 0x20) == 0 && Cleared(ClearStip(mip), 0x20) == Cleared(mip, 0x20)
  {
    assert !(0x20 as bv64) == 0xFFFF_FFFF_FFFF_FFDF;
  }

  predicate OnlyAnswer(r: RegFile, r': RegFile) {
    forall k :: 0 <= k < 32 && k != 10 && k != 11 ==> r'[k] == r[k]
  }

  // The registers after a call: a0 and a1 answer it.
  lemma SbiRegisters(c: Cpu, timecmp: bv64)
    ensures OnlyAnswer(c.regs, SbiCall(c, timecmp).0.regs)
  {
    hide ClearStip, SupportedEid, PastEcall, SbiReturn, OnlyAnswer;
    forall d: Cpu, a0: bv64, a1: bv64 ensures OnlyAnswer(d.regs, SbiReturn(d, a0, a1).regs) {
      ReturnAnswers(d, a0, a1);
    }
  }

  lemma ReturnAnswers(c: Cpu, a0: bv64, a1: bv64)
    ensures OnlyAnswer(c.regs, SbiReturn(c, a0, a1).regs)
  {
    hide PastEcall;
  }

  /** An SBI call returns after the ecall in the same mode, answers in a0 and a1, and touches
      nothing else but the halt flag, and the timer and its pending bit when it sets it. */
  lemma SbiEffects(c: Cpu, timecmp: bv64)
    ensures var (c', t) := SbiCall(c, timecmp);
            && c' == c.(regs := c'.regs, csrs := c'.csrs, pc := PastEcall(c.pc), halted := c'.halted)
            && OnlyAnswer(c.regs, c'.regs)
            && c'.halted == (c.halted || (c.regs[17] == 0x5352_5354))
            && (!IsSetTimer(c) ==> t == timecmp && c'.csrs == c.csrs)
  {
    hide ClearStip, SupportedEid, PastEcall;
    SbiRegisters(c, timecmp);
    SbiFrame(c, timecmp);
    hide SbiCall;
  }

  lemma SbiFrame(c: Cpu, timecmp: bv64)
    ensures var (c', t) := SbiCall(c, timecmp);
            && c' == c.(regs := c'.regs, csrs := c'.csrs, pc := PastEcall(c.pc), halted := c'.halted)
            && c'.halted == (c.halted || (c.regs[17] == 0x5352_5354))
            && (!IsSetTimer(c) ==> t == timecmp && c'.csrs == c.csrs)
  {
    hide ClearStip, SupportedEid, PastEcall, SbiReturn;
    ReturnFrame(c, timecmp);
  }

  // Every call ends in SbiReturn, which touches registers and pc alone.
  lemma ReturnFrame(c: Cpu, timecmp: bv64)
    ensures forall d: Cpu, a0: bv64, a1: bv64 ::
              SbiReturn(d, a0, a1) == d.(regs := SbiReturn(d, a0, a1).regs, pc := PastEcall(d.pc))
  {
    hide PastEcall;
  }

  // Setting the timer programs the comparator and lowers the pending bit.
  lemma SetTimerEffects(c: Cpu, timecmp: bv64)
    requires IsSetTimer(c)
    ensures var (c', t) := SbiCall(c, timecmp);
            && t == c.regs[10] && c'.regs[10] == 0 && c'.regs[11] == 0
            && OnlyCsr(c, c.(csrs := c'.csrs), MIP)
            && Masked(c'.csrs[MIP], 0x20) == 0 && Cleared(c'.csrs[MIP], 0x20) == Cleared(c.csrs[MIP], 0x20)
  {
    hide ClearStip, SupportedEid, PastEcall, Masked, Cleared;
    StipCleared(c.csrs[MIP]);
  }

  // The calls that are served: the legacy and the timer extension's timer, putchar, two base
  // functions, and reset.
  predicate Served(eid: bv64, fid: bv64) {
    || eid == 0 || eid == 1 || eid == 0x5352_5354
    || (eid == 0x5449_4D45 && fid == 0) || (eid == 0x10 && (fid == 0 || fid == 3))
  }

  // The version for the first base function, and the verdict on a0 for a probe.
  function Told(eid: bv64, fid: bv64, a0: bv64): bv64 {
    if eid == 0x10 && fid == 0 then 2 else if eid == 0x10 && fid == 3 && SupportedEid(a0) then 1 else 0
  }

  /** What a call answers: a0 is 0 if it is served and -2 (not supported) otherwise; a1 is the
      version or the probe's verdict, and 0 for every other call. */
  lemma SbiAnswers(c: Cpu, timecmp: bv64)
    ensures SbiCall(c, timecmp).0.regs[10] == if Served(c.regs[17], c.regs[16]) then 0 else SBI_NOT_SUPPORTED
    ensures SbiCall(c, timecmp).0.regs[11] == Told(c.regs[17], c.regs[16], c.regs[10])
  {
    hide SbiCall, Served, Told;
    if c.regs[17] == 0x10 {
      BaseAnswers(c, timecmp);
    } else {
      OtherAnswers(c, timecmp);
    }
  }

  lemma BaseAnswers(c: Cpu, timecmp: bv64)
    requires c.regs[17] == 0x10
    ensures SbiCall(c, timecmp).0.regs[10] == if Served(c.regs[17], c.regs[16]) then 0 else SBI_NOT_SUPPORTED
    ensures SbiCall(c, timecmp).0.regs[11] == Told(c.regs[17], c.regs[16], c.regs[10])
  {
    hide ClearStip, SupportedEid, PastEcall, SbiReturn;
    AnswersRead();
  }

  lemma OtherAnswers(c: Cpu, timecmp: bv64)
    requires c.regs[17] != 0x10
    ensures SbiCall(c, timecmp).0.regs[10] == if Served(c.regs[17], c.regs[16]) then 0 else SBI_NOT_SUPPORTED
    ensures SbiCall(c, timecmp).0.regs[11] == Told(c.regs[17], c.regs[16], c.regs[10])
  {
    hide ClearStip, SupportedEid, PastEcall, SbiReturn;
    AnswersRead();
  }

  lemma AnswersRead()
    ensures forall d: Cpu, a0: bv64, a1: bv64 ::
              SbiReturn(d, a0, a1).regs[10] == a0 && SbiReturn(d, a0, a1).regs[11] == a1
  {
    hide SbiReturn;
    forall d: Cpu, a0: bv64, a1: bv64
      ensures SbiReturn(d, a0, a1).regs[10] == a0 && SbiReturn(d, a0, a1).regs[11] == a1
    {
      Answers(d, a0, a1);
    }
  }

  lemma Answers(c: Cpu, a0: bv64, a1: bv64)
    ensures SbiReturn(c, a0, a1).regs[10] == a0 && SbiReturn(c, a0, a1).regs[11] == a1
  {
    hide PastEcall;
  }
}

/** Traps, environment instructions, firmware calls and the fetch, with the encodings spelled
    out: CSR addresses, causes, immediates and call numbers as the architecture gives them. */
module SystemNumbers {
  import opened Words
  import opened Memory
  import opened Mmu
  import opened Numbers
  import opened Shifts
  import opened Isa
  import opened Hart
  import opened Decode
  import opened Machine
  import A = Alu
  import C = Confinement

  // ---------------------------------------------------------------- Traps

  // Taken in S-mode: from below M-mode, with the cause's bit set in mideleg (0x303) for an
  // interrupt and in medeleg (0x302) for an exception.
  predicate ToS(c: Cpu, cause: bv64) {
    c.priv as nat <= 1 && IsSet(if ToNat(cause) >= MIN then c.csrs[0x303] else c.csrs[0x302], (cause & 0x3F) as bv6)
  }

  lemma TopIs(cause: bv64)
    ensures cause >> 63 != 0 <==> !Lt(cause, 0x8000_0000_0000_0000)
  {
  }

  lemma ToSExactly(c: Cpu, cause: bv64)
    ensures DelegatedTo(c, cause) <==> ToS(c, cause)
  {
    hide ToNat, Lt, IsSet, Bit;
    TopIs(cause);
    MinNat();
    Order(cause, 0x8000_0000_0000_0000);
    var b := (cause & 0x3F) as bv6;
    BitIsSet(c.csrs[0x303], b);
    BitIsSet(c.csrs[0x302], b);
  }

  lemma BitIsSet(x: bv64, b: bv6)
    ensures Bit(x, b) <==> IsSet(x, b)
  {
  }

  /** A trap by numbers: it goes to S-mode exactly when delegated from below, and leaves pc, the
      cause and the value in sepc, scause and stval (0x141 to 0x143) or mepc, mcause and mtval
      (0x341 to 0x343), the mode in priv, the handler's address without its two low bits in
      pc, and changes nothing else but mstatus (0x300). */
  lemma TrapByNumbers(c: Cpu, cause: bv64, tval: bv64)
    ensures var c' := Trap(c, cause, tval);
            && c' == c.(csrs := c'.csrs, priv := c'.priv, pc := c'.pc)
            && if ToS(c, cause) then
                 && c'.csrs == c.csrs[0x141 := c.pc][0x142 := cause][0x143 := tval][0x300 := c'.csrs[0x300]]
                 && c'.priv == 1 && ToNat(c'.pc) == ToNat(c.csrs[0x105]) / 4 * 4
               else
                 && c'.csrs == c.csrs[0x341 := c.pc][0x342 := cause][0x343 := tval][0x300 := c'.csrs[0x300]]
                 && c'.priv == 3 && ToNat(c'.pc) == ToNat(c.csrs[0x305]) / 4 * 4
  {
    hide ToNat, ToS, DelegatedTo, EnterS, EnterM, Vector;
    ToSExactly(c, cause);
    HandlerNumber(c.csrs[0x105]);
    HandlerNumber(c.csrs[0x305]);
  }

  lemma VectorRaw(x: bv64)
    ensures Vector(x) == x & 0xFFFF_FFFF_FFFF_FFFC
  {
    assert !(0x3 as bv64) == 0xFFFF_FFFF_FFFF_FFFC;
  }

  lemma FourRaw(x: bv64)
    ensures Half(Half(x)) == x >> 2 && Twice(Twice(x >> 2)) == x & 0xFFFF_FFFF_FFFF_FFFC
  {
  }

  lemma VectorIs(x: bv64)
    ensures Vector(x) == Twice(Twice(Half(Half(x))))
  {
    hide Vector, Twice, Half;
    VectorRaw(x);
    FourRaw(x);
  }

  lemma HandlerNumber(x: bv64)
    ensures ToNat(Vector(x)) == ToNat(x) / 4 * 4
  {
    hide ToNat, Vector, Twice, Half;
    VectorIs(x);
    InWord(x);
    Halved(x);
    Halved(Half(x));
    Doubled(Half(Half(x)));
    Doubled(Twice(Half(Half(x))));
    assert ToNat(x) / 2 / 2 == ToNat(x) / 4;
  }

  // Translation sees the privilege, satp (0x180) and bit 18 of mstatus, SUM.
  lemma ContextByBits(c: Cpu)
    ensures ContextOf(c) == Context(c.priv, c.csrs[0x180], IsSet(c.csrs[0x300], 18))
  {
    SumBit(c.csrs[0x300]);
  }

  lemma SumBit(status: bv64)
    ensures SumSet(status) <==> IsSet(status, 18)
  {
  }

  // ---------------------------------------------------------------- Environment

  // An ecall's cause: 8 from U-mode, 9 from S-mode, 11 from M-mode.
  lemma EcallCauses(priv: bv2)
    ensures EcallCause(0) == 8 && EcallCause(1) == 9 && EcallCause(3) == 11
  {
  }

  predicate Steps4(m: Machine, e: Exec) {
    e.Next? && e.m == m.(cpu := m.cpu.(pc := e.m.cpu.pc)) && ToNat(e.m.cpu.pc) == (ToNat(m.cpu.pc) + 4) % TWO_64
  }

  lemma FourNumber()
    ensures ToNat(4) == 4
  {
    ByteWord(4);
    assert Digit(4) == 4;
  }

  lemma StepsOn(m: Machine)
    ensures Steps4(m, Next(Advance(m, 4)))
  {
    hide ToNat, A.Add;
    FourNumber();
    Sum(m.cpu.pc, 4);
  }

  /** The environment instructions by their immediates: 0 is ecall, served for S-mode and
      trapped from the other modes; 1 ebreak; 0x102 sret; 0x302 mret; 0x105 wfi, which steps on
      by 4, and so do the immediates of sfence.vma, 9 above their low five bits; any other ends
      the process. */
  lemma EnvironmentByNumbers(m: Machine, i: Instruction, env: Env)
    requires i.opcode == 0x73 && i.funct3 == 0
    ensures var e, c, fence := Execute(m, i, env), m.cpu, ToNat(i.imm) % TWO_32 / 32 == 9;
            && (i.imm == 0 && c.priv == 1 ==>
                  e == Next(m.(cpu := SbiCall(c, m.timecmp).0, timecmp := SbiCall(c, m.timecmp).1)))
            && (i.imm == 0 && c.priv == 0 ==> e == Next(m.(cpu := Trap(c, 8, 0))))
            && (i.imm == 0 && c.priv == 3 ==> e == Next(m.(cpu := Trap(c, 11, 0))))
            && (i.imm == 1 ==> e == Next(m.(cpu := Trap(c, 3, 0))))
            && (i.imm == 0x102 ==> e == Next(m.(cpu := Sret(c))))
            && (i.imm == 0x302 ==> e == Next(m.(cpu := Mret(c))))
            && (i.imm == 0x105 ==> Steps4(m, e))
            && (i.imm !in {0, 1, 0x102, 0x302, 0x105} ==> if fence then Steps4(m, e) else e == Stop)
  {
    hide ToNat, SbiCall, Trap, Sret, Mret, IsSfence, Advance, EcallCause, Steps4;
    EcallCauses(m.cpu.priv);
    StepsOn(m);
    FenceNumber(i.imm);
  }

  function Top27(x: bv64): bv64 { (x & 0xFFFF_FFFF) >> 5 }

  lemma FenceIs(x: bv64)
    ensures IsSfence(x) <==> Top27(x) == 9
    ensures Top27(x) == Half(Sh4(A.And(x, 0xFFFF_FFFF)))
  {
  }

  lemma NineNumber()
    ensures ToNat(9) == 9
  {
    ByteWord(9);
    assert Digit(9) == 9;
  }

  lemma FenceNumber(x: bv64)
    ensures IsSfence(x) <==> ToNat(x) % TWO_32 / 32 == 9
  {
    hide ToNat, IsSfence, Top27, Half, Sh4, A.And;
    FenceIs(x);
    NineNumber();
    Unique(Top27(x), 9);
    Low32Of(x);
    Sixteenth(A.And(x, 0xFFFF_FFFF));
    Halved(Sh4(A.And(x, 0xFFFF_FFFF)));
    assert ToNat(x) % TWO_32 / 16 / 2 == ToNat(x) % TWO_32 / 32;
  }

  // ---------------------------------------------------------------- Firmware calls

  /** A firmware call steps past the ecall; the extensions it supports are set-timer (0),
      putchar (1), base (0x10), TIME and SRST; not-supported is -2. */
  lemma SbiByNumbers(c: Cpu, timecmp: bv64, eid: bv64)
    ensures ToNat(SbiCall(c, timecmp).0.pc) == (ToNat(c.pc) + 4) % TWO_64
    ensures SupportedEid(eid) <==> eid in {0, 1, 0x10, 0x5449_4D45, 0x5352_5354}
    ensures SBI_NOT_SUPPORTED == 0xFFFF_FFFF_FFFF_FFFE
  {
    hide ToNat, PastEcall, ClearStip;
    PastNumber(c.pc);
  }

  lemma PastIs(pc: bv64)
    ensures PastEcall(pc) == A.Add(pc, 4)
  {
  }

  lemma PastNumber(pc: bv64)
    ensures ToNat(PastEcall(pc)) == (ToNat(pc) + 4) % TWO_64
  {
    hide ToNat, PastEcall, A.Add;
    PastIs(pc);
    FourNumber();
    Sum(pc, 4);
  }

  /** Start-up by numbers: the kernel begins in S-mode at its entry, with a0 zero and the device
      tree's address in a1, the three counters open (0x306) and translation off. */
  lemma BootByNumbers(ram: Ram, entry: bv64, dtb: bv64)
    ensures var c := C.Boot(ram, entry, dtb).cpu;
            && c.pc == entry && c.priv == 1 && c.regs == seq(32, _ => 0)[11 := dtb] && !c.halted && c.steps == 0
            && c.csrs == seq(4096, _ => 0)[0x302 := 0xB1FF][0x303 := 0x222][0x306 := 7][0x300 := 0x880]
            && C.Boot(ram, entry, dtb).timecmp == 0xFFFF_FFFF_FFFF_FFFF
  {
    assert ((0 as bv64) & !0x1800) | 0x800 | 0x80 == 0x880;
    var zeros := seq(4096, _ => 0 as bv64);
    assert zeros[0x302 := 0xFFFF][0x303 := 0xFFFF][0x302 := 0xB1FF][0x303 := 0x222]
        == zeros[0x302 := 0xB1FF][0x303 := 0x222];
  }

  // ---------------------------------------------------------------- The fetch

  /** The instruction at an address: the 4 bytes there when the two low bits of the first are
      both set, and otherwise the first 2. */
  lemma FetchByBytes(m: Machine, pa: bv64)
    requires InRam(m.ram, ToNat(pa), 2)
    ensures var a := ToNat(pa);
            Fetched(m, pa)
            == if Digit(At(m.ram, a)) % 4 != 3 then Some(DecodeRvc(Word16(Peek(m.ram, a, 2))))
               else if InRam(m.ram, a, 4) then Some(DecodeWord(Word32(Peek(m.ram, a, 4))))
               else None
  {
    hide ToNat, DecodeRvc, DecodeWord, Word32, Word16, Peek, Compressed, Digit;
    var s := Peek(m.ram, ToNat(pa), 2);
    CompressedByte(s);
  }

  lemma LowPair(b: bv8)
    ensures b & 3 == 3 <==> b as nat % 4 == 3
  {
  }

  lemma CompressedByte(s: seq<bv8>)
    requires |s| == 2
    ensures Compressed(Word16(s)) <==> Digit(s[0]) % 4 != 3
  {
    LowPair(s[0]);
    LowOf16(s[0], s[1]);
  }

  lemma LowOf16(a: bv8, b: bv8)
    ensures (a as bv16 | ((b as bv16) << 8)) & 3 == 3 <==> a & 3 == 3
  {
  }
}

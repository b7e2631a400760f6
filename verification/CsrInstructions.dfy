/** The CSR instructions by bits: which register they may touch, what they write to it and what
    they leave in rd. */
module CsrInstructions {
  import opened Words
  import opened Numbers
  import opened Shifts
  import opened Hart
  import opened Decode
  import opened Machine
  import A = Alu
  import I = Isa

  // ---------------------------------------------------------------- Numbers of fields

  lemma TwelveBits(v: bv64)
    ensures ((v & 0xFFF) as bv12) as nat == Digit((v & 0xFF) as bv8) + 256 * Digit(((v >> 8) & 0xF) as bv8)
    ensures Bytes64(v & 0xFFF) == [(v & 0xFF) as bv8, ((v >> 8) & 0xF) as bv8, 0, 0, 0, 0, 0, 0]
    ensures Digit(0) == 0
  {
  }

  lemma TwoBits(v: bv64)
    ensures ((v & 3) as bv2) as nat == Digit((v & 3) as bv8)
    ensures Bytes64(v & 3) == [(v & 3) as bv8, 0, 0, 0, 0, 0, 0, 0]
    ensures Digit(0) == 0
  {
  }

  lemma FieldMasks()
    ensures ToNat(0xFFF) == 0xFFF && ToNat(3) == 3 && Pow2(12) == 0x1000 && Pow2(2) == 4
  {
    var s, t := Bytes64(0xFFF), Bytes64(3);
    assert s == [0xFF, 0xF, 0, 0, 0, 0, 0, 0] && t == [3, 0, 0, 0, 0, 0, 0, 0];
    Pow2Of9();
    assert Pow2(3) == 8;
    hide Bytes64, Nat, Pow2;
    Nat8(s);
    Nat8(t);
    Pow2Sum(9, 3);
  }

  lemma FieldAnd(v: bv64)
    ensures A.And(v, 0xFFF) == v & 0xFFF && A.And(v, 3) == v & 3
  {
  }

  lemma FieldNumbers(v: bv64)
    ensures ((v & 0xFFF) as bv12) as nat == ToNat(v) % 0x1000 && ((v & 3) as bv2) as nat == ToNat(v) % 4
  {
    hide Bytes64, Nat, Digit, A.And, Pow2;
    TwelveBits(v);
    TwoBits(v);
    FieldMasks();
    FieldAnd(v);
    Nat8(Bytes64(v & 0xFFF));
    Nat8(Bytes64(v & 3));
    MaskKeeps(v, 0xFFF, 12);
    MaskKeeps(v, 3, 2);
  }

  // The register is named by the low 12 bits of the immediate; bits 8 and 9 give the least
  // privilege that may touch it.
  lemma Fields(imm: bv64)
    ensures CsrIndex(imm) == ToNat(imm) % 0x1000 && MinPriv(imm) as nat == ToNat(imm) / 0x100 % 4
  {
    hide ToNat;
    FieldNumbers(imm);
    FieldNumbers(imm >> 8);
    Shift12(imm);
  }

  // ---------------------------------------------------------------- By bits

  // w is what an operation makes of the old value and the operand: the operand itself, the
  // old bits and those set in it, or the old bits without those set in it.
  ghost predicate Written(op: nat, prev: bv64, src: bv64, w: bv64) {
    && (op == 1 ==> w == src)
    && (op == 2 ==> forall b: bv6 :: IsSet(w, b) <==> IsSet(prev, b) || IsSet(src, b))
    && (op == 3 ==> forall b: bv6 :: IsSet(w, b) <==> IsSet(prev, b) && !IsSet(src, b))
    && (op == 0 ==> w == prev)
  }

  lemma OrRaw(x: bv64, y: bv64, b: bv6)
    ensures IsSet(x | y, b) <==> IsSet(x, b) || IsSet(y, b)
  {
  }

  lemma AndRaw(x: bv64, y: bv64, b: bv6)
    ensures IsSet(x & y, b) <==> IsSet(x, b) && IsSet(y, b)
  {
  }

  lemma NotRaw(x: bv64, b: bv6)
    ensures IsSet(!x, b) <==> !IsSet(x, b)
  {
  }

  lemma NamedBits(x: bv64, y: bv64)
    ensures A.Or(x, y) == x | y && A.AndNot(x, y) == x & !y
  {
  }

  lemma OrBit(x: bv64, y: bv64, b: bv6)
    ensures IsSet(A.Or(x, y), b) <==> IsSet(x, b) || IsSet(y, b)
  {
    hide A.Or, IsSet;
    OrRaw(x, y, b);
    NamedBits(x, y);
  }

  lemma AndNotBit(x: bv64, y: bv64, b: bv6)
    ensures IsSet(A.AndNot(x, y), b) <==> IsSet(x, b) && !IsSet(y, b)
  {
    hide A.AndNot, IsSet;
    NamedBits(x, y);
    AndRaw(x, !y, b);
    NotRaw(y, b);
  }

  lemma OpNumber(f: bv3)
    ensures ((f & 3) as bv2) as nat == f as nat % 4
    ensures f & 4 != 0 <==> f as nat >= 4
  {
  }

  // The operand: the rs1 field as it stands, or the register it names.
  function Operand(c: Cpu, i: Instruction): bv64 {
    if i.funct3 as nat >= 4 then i.rs1 as bv64 else c.regs[i.rs1 as nat]
  }

  lemma ResultIsWritten(op: bv2, prev: bv64, src: bv64)
    ensures Written(op as nat, prev, src, CsrResult(op, prev, src))
  {
    hide IsSet, A.Or, A.AndNot;
    forall b: bv6 ensures IsSet(A.Or(prev, src), b) <==> IsSet(prev, b) || IsSet(src, b) {
      OrBit(prev, src, b);
    }
    forall b: bv6 ensures IsSet(A.AndNot(prev, src), b) <==> IsSet(prev, b) && !IsSet(src, b) {
      AndNotBit(prev, src, b);
    }
  }

  /** A CSR instruction traps as illegal when the register needs more privilege than the hart
      has. Otherwise rd gets the old value as the register shows it, pc steps past the
      instruction, and the register is written with w, unless the operation sets or clears
      bits and the operand is 0. */
  lemma CsrByBits(m: Machine, i: Instruction, env: Env) returns (w: bv64)
    requires i.opcode == 0x73 && i.funct3 != 0
    ensures var c, a, op := m.cpu, ToNat(i.imm) % 0x1000, i.funct3 as nat % 4;
            var src := Operand(c, i);
            if c.priv as nat < ToNat(i.imm) / 0x100 % 4 then Execute(m, i, env) == Next(m.(cpu := Trap(c, 2, 0)))
            else
              var c' := if op == 1 || src != 0 then CsrWrite(c, a, w) else c;
              && Written(op, CsrRead(c, a), src, w)
              && Execute(m, i, env) == Next(m.(cpu := SetReg(c', i.rd, CsrRead(c, a)).(pc := A.Add(c.pc, i.size))))
  {
    hide ToNat, CsrRead, CsrWrite, Trap, SetReg, A.Add, CsrIndex, Written, Operand, Retire, CsrStore, Denied;
    var c := m.cpu;
    Fields(i.imm);
    DeniedNumber(c.priv, i.imm);
    w := Stores(c, i);
    I.RetireIs(m, i.rd, CsrRead(c, CsrIndex(i.imm)), i.size);
    WriteKeepsPc(c, CsrIndex(i.imm), w);
    I.RetireIs(m.(cpu := CsrWrite(c, CsrIndex(i.imm), w)), i.rd, CsrRead(c, CsrIndex(i.imm)), i.size);
  }

  lemma DeniedNumber(priv: bv2, imm: bv64)
    ensures Denied(priv, imm) <==> priv as nat < ToNat(imm) / 0x100 % 4
  {
    hide ToNat, MinPriv;
    Fields(imm);
  }

  lemma Stores(c: Cpu, i: Instruction) returns (w: bv64)
    ensures var op, src := i.funct3 as nat % 4, Operand(c, i);
            && Written(op, CsrRead(c, CsrIndex(i.imm)), src, w)
            && CsrStore(c, i) == if op == 1 || src != 0 then Some(w) else None
  {
    hide CsrRead, CsrResult, CsrIndex, Written;
    OpNumber(i.funct3);
    w := CsrResult(CsrOp(i), CsrRead(c, CsrIndex(i.imm)), Operand(c, i));
    ResultIsWritten(CsrOp(i), CsrRead(c, CsrIndex(i.imm)), Operand(c, i));
  }

  lemma WriteKeepsPc(c: Cpu, a: nat, v: bv64)
    requires a < 4096
    ensures CsrWrite(c, a, v).pc == c.pc
  {
    hide MergeStatus, MergeMie, MergeMip, LegalSatp;
  }

  // ---------------------------------------------------------------- Views by address

  /** What a CSR shows: sstatus (0x100) is mstatus (0x300) through 0xC6122, sie (0x104) and sip
      (0x144) are mie (0x304) and mip (0x344) through mideleg (0x303), the five counters are the
      step count, and any other is itself. */
  lemma ReadByAddress(c: Cpu, a: nat)
    requires a < 4096
    ensures CsrRead(c, a)
         == if a == 0x100 then A.And(c.csrs[0x300], 0xC_6122)
            else if a == 0x104 then A.And(c.csrs[0x304], c.csrs[0x303])
            else if a == 0x144 then A.And(c.csrs[0x344], c.csrs[0x303])
            else if a in {0xC00, 0xC01, 0xC02, 0xB00, 0xB02} then c.steps
            else c.csrs[a]
  {
  }

  // w has the bits of v where the mask has them, and those of the old value elsewhere.
  ghost predicate Through(mask: bv64, prev: bv64, v: bv64, w: bv64) {
    forall b: bv6 :: IsSet(w, b) <==> if IsSet(mask, b) then IsSet(v, b) else IsSet(prev, b)
  }

  function Merge(mask: bv64, prev: bv64, v: bv64): bv64 {
    A.Or(A.AndNot(prev, mask), A.And(v, mask))
  }

  lemma AndBit(x: bv64, y: bv64, b: bv6)
    ensures IsSet(A.And(x, y), b) <==> IsSet(x, b) && IsSet(y, b)
  {
    assert A.And(x, y) == x & y;
    hide A.And, IsSet;
    AndRaw(x, y, b);
  }

  lemma MergeThrough(mask: bv64, prev: bv64, v: bv64)
    ensures Through(mask, prev, v, Merge(mask, prev, v))
  {
    hide IsSet, A.Or, A.And, A.AndNot;
    forall b: bv6
      ensures IsSet(Merge(mask, prev, v), b) <==> if IsSet(mask, b) then IsSet(v, b) else IsSet(prev, b)
    {
      OrBit(A.AndNot(prev, mask), A.And(v, mask), b);
      AndNotBit(prev, mask, b);
      AndBit(v, mask, b);
    }
  }

  lemma StatusRaw(prev: bv64, v: bv64)
    ensures MergeStatus(prev, v) == A.Or(prev & 0xFFFF_FFFF_FFF3_9EDD, v & 0xC_6122)
    ensures A.AndNot(prev, 0xC_6122) == prev & 0xFFFF_FFFF_FFF3_9EDD && A.And(v, 0xC_6122) == v & 0xC_6122
  {
    assert !(0xC_6122 as bv64) == 0xFFFF_FFFF_FFF3_9EDD;
  }

  lemma MieRaw(prev: bv64, deleg: bv64, v: bv64)
    ensures MergeMie(prev, deleg, v) == A.Or(prev & !deleg, v & deleg)
    ensures A.AndNot(prev, deleg) == prev & !deleg && A.And(v, deleg) == v & deleg
  {
  }

  lemma MipRaw(prev: bv64, v: bv64)
    ensures MergeMip(prev, v) == A.Or(prev & 0xFFFF_FFFF_FFFF_FFFD, v & 0x2)
  {
    assert !(0x2 as bv64) == 0xFFFF_FFFF_FFFF_FFFD;
  }

  lemma MipMasks(prev: bv64, v: bv64)
    ensures A.AndNot(prev, 0x2) == prev & 0xFFFF_FFFF_FFFF_FFFD && A.And(v, 0x2) == v & 0x2
  {
    assert !(0x2 as bv64) == 0xFFFF_FFFF_FFFF_FFFD;
  }

  lemma StatusMerges(prev: bv64, v: bv64)
    ensures MergeStatus(prev, v) == Merge(0xC_6122, prev, v)
  {
    hide MergeStatus, A.Or, A.And, A.AndNot;
    StatusRaw(prev, v);
  }

  lemma MieMerges(prev: bv64, deleg: bv64, v: bv64)
    ensures MergeMie(prev, deleg, v) == Merge(deleg, prev, v)
  {
    hide MergeMie, A.Or, A.And, A.AndNot;
    MieRaw(prev, deleg, v);
  }

  lemma MipMerges(prev: bv64, v: bv64)
    ensures MergeMip(prev, v) == Merge(0x2, prev, v)
  {
    hide MergeMip, A.Or, A.And, A.AndNot;
    MipRaw(prev, v);
    MipMasks(prev, v);
  }

  /** What a write to a CSR stores, and where: through the same masks into mstatus and mie, bit
      1 alone into mip; satp (0x180) with a mode other than 0 and 8 replaced by 0; any other as
      it is. */
  lemma WriteByAddress(c: Cpu, a: nat, v: bv64)
    requires a < 4096
    ensures var t := if a == 0x100 then 0x300 else if a == 0x104 then 0x304 else if a == 0x144 then 0x344 else a;
            var c' := CsrWrite(c, a, v);
            var prev, w := c.csrs[t], c'.csrs[t];
            && c' == c.(csrs := c.csrs[t := w])
            && (a == 0x100 ==> Through(0xC_6122, prev, v, w))
            && (a == 0x104 ==> Through(c.csrs[0x303], prev, v, w))
            && (a == 0x144 ==> Through(0x2, prev, v, w))
            && (a == 0x180 ==> w == LegalSatp(v))
            && (a !in {0x100, 0x104, 0x144, 0x180} ==> w == v)
  {
    hide Through, Merge, MergeStatus, MergeMie, MergeMip, LegalSatp;
    StatusMerges(c.csrs[0x300], v);
    MieMerges(c.csrs[0x304], c.csrs[0x303], v);
    MipMerges(c.csrs[0x344], v);
    MergeThrough(0xC_6122, c.csrs[0x300], v);
    MergeThrough(c.csrs[0x303], c.csrs[0x304], v);
    MergeThrough(0x2, c.csrs[0x344], v);
  }

  // A mode that is neither bare nor Sv39 is stored as bare, the 60 bits below it as they are.
  lemma SatpNumber(v: bv64)
    ensures var n, mode := ToNat(v), ToNat(v) / 0x1000_0000_0000_0000;
            ToNat(LegalSatp(v)) == if mode == 0 || mode == 8 then n else n % 0x1000_0000_0000_0000
  {
    hide ToNat, A.And, Pow2;
    Shift60(v);
    Modes();
    Unique(v >> 60, 0);
    Unique(v >> 60, 8);
    Low60(v);
  }

  lemma Modes()
    ensures ToNat(0) == 0 && ToNat(8) == 8
  {
    ByteWord(0);
    ByteWord(8);
  }

  lemma Low60(v: bv64)
    ensures ToNat(v & 0x0FFF_FFFF_FFFF_FFFF) == ToNat(v) % 0x1000_0000_0000_0000
  {
    assert A.And(v, 0x0FFF_FFFF_FFFF_FFFF) == v & 0x0FFF_FFFF_FFFF_FFFF;
    Mask60();
    hide ToNat, A.And, Pow2;
    MaskKeeps(v, 0x0FFF_FFFF_FFFF_FFFF, 60);
  }

  lemma Mask60()
    ensures ToNat(0x0FFF_FFFF_FFFF_FFFF) == Pow2(60) - 1 && Pow2(60) == 0x1000_0000_0000_0000
  {
    hide ToNat, Pow2;
    MaskValue();
    PowerValue();
  }

  lemma MaskValue()
    ensures ToNat(0x0FFF_FFFF_FFFF_FFFF) == 0x0FFF_FFFF_FFFF_FFFF
  {
    var s := Bytes64(0x0FFF_FFFF_FFFF_FFFF);
    assert s == [0xFF, 0xFF, 0xFF, 0xFF, 0xFF, 0xFF, 0xFF, 0xF];
    hide Bytes64, Nat;
    Nat8(s);
  }

  lemma PowerValue()
    ensures Pow2(60) == 0x1000_0000_0000_0000
  {
    Pow2Of9();
    assert Pow2(6) == 64;
    hide Pow2;
    Pow2Sum(9, 9);
    assert Pow2(18) == 0x4_0000;
    Pow2Sum(18, 18);
    assert Pow2(36) == 0x10_0000_0000;
    Pow2Sum(36, 18);
    assert Pow2(54) == 0x40_0000_0000_0000;
    Pow2Sum(54, 6);
  }
}

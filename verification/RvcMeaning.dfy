/** Compressed instructions mean what their 32-bit expansions mean. The expansions follow the
    listings of section 16.8 of the RISC-V Unprivileged ISA. */
module RvcMeaning {
  import opened Words
  import opened Hart
  import opened Decode
  import opened Machine
  import A = Alu

  // ---------------------------------------------------------------- Base encodings

  function IType(imm: bv12, rs1: bv5, funct3: bv3, rd: bv5, op: bv7): bv32 {
    ((imm as bv32) << 20) | ((rs1 as bv32) << 15) | ((funct3 as bv32) << 12) | ((rd as bv32) << 7) | (op as bv32)
  }

  function SType(imm: bv12, rs2: bv5, rs1: bv5, funct3: bv3, op: bv7): bv32 {
    (((imm >> 5) as bv32) << 25) | ((rs2 as bv32) << 20) | ((rs1 as bv32) << 15) | ((funct3 as bv32) << 12)
    | (((imm & 0x1F) as bv32) << 7) | (op as bv32)
  }

  function BType(imm: bv13, rs2: bv5, rs1: bv5, funct3: bv3): bv32 {
    ((((imm >> 12) & 1) as bv32) << 31) | ((((imm >> 5) & 0x3F) as bv32) << 25)
    | ((rs2 as bv32) << 20) | ((rs1 as bv32) << 15)
    | ((funct3 as bv32) << 12) | ((((imm >> 1) & 0xF) as bv32) << 8) | ((((imm >> 11) & 1) as bv32) << 7) | 0x63
  }

  function UType(imm: bv20, rd: bv5, op: bv7): bv32 {
    ((imm as bv32) << 12) | ((rd as bv32) << 7) | (op as bv32)
  }

  function JType(imm: bv21, rd: bv5): bv32 {
    ((((imm >> 20) & 1) as bv32) << 31) | ((((imm >> 1) & 0x3FF) as bv32) << 21) | ((((imm >> 11) & 1) as bv32) << 20)
    | ((((imm >> 12) & 0xFF) as bv32) << 12) | ((rd as bv32) << 7) | 0x6F
  }

  function RType(funct7: bv7, rs2: bv5, rs1: bv5, funct3: bv3, rd: bv5, op: bv7): bv32 {
    ((funct7 as bv32) << 25) | ((rs2 as bv32) << 20) | ((rs1 as bv32) << 15)
    | ((funct3 as bv32) << 12) | ((rd as bv32) << 7) | (op as bv32)
  }

  // The decoder inverts each encoder on the fields the format carries.
  lemma DecodeI(imm: bv12, rs1: bv5, funct3: bv3, rd: bv5, op: bv7)
    ensures var i := DecodeWord(IType(imm, rs1, funct3, rd, op));
            && i.opcode == op as bv8 && i.rd == rd && i.rs1 == rs1 && i.funct3 == funct3
            && i.funct7 == (imm >> 5) as bv7
    ensures ImmI(IType(imm, rs1, funct3, rd, op)) == Sext12(imm)
  {
    hide ImmOf;
  }

  lemma DecodeS(imm: bv12, rs2: bv5, rs1: bv5, funct3: bv3, op: bv7)
    ensures var i := DecodeWord(SType(imm, rs2, rs1, funct3, op));
            i.opcode == op as bv8 && i.rs2 == rs2 && i.rs1 == rs1 && i.funct3 == funct3
    ensures ImmS(SType(imm, rs2, rs1, funct3, op)) == Sext12(imm)
  {
    hide ImmOf;
  }

  lemma DecodeB(imm: bv13, rs2: bv5, rs1: bv5, funct3: bv3)
    requires imm & 1 == 0
    ensures var i := DecodeWord(BType(imm, rs2, rs1, funct3));
            i.opcode == OP_BRANCH && i.rs2 == rs2 && i.rs1 == rs1 && i.funct3 == funct3
    ensures ImmB(BType(imm, rs2, rs1, funct3)) == Sext13(imm)
  {
    hide ImmOf;
  }

  lemma DecodeU(imm: bv20, rd: bv5, op: bv7)
    ensures var i := DecodeWord(UType(imm, rd, op)); i.opcode == op as bv8 && i.rd == rd
    ensures ImmU(UType(imm, rd, op)) == A.Sext32((imm as bv32) << 12)
  {
    hide ImmOf;
  }

  lemma DecodeJ(imm: bv21, rd: bv5)
    requires imm & 1 == 0
    ensures var i := DecodeWord(JType(imm, rd)); i.opcode == OP_JAL && i.rd == rd
    ensures ImmJ(JType(imm, rd)) == Sext21(imm)
  {
    hide ImmOf;
  }

  lemma DecodeR(funct7: bv7, rs2: bv5, rs1: bv5, funct3: bv3, rd: bv5, op: bv7)
    ensures var i := DecodeWord(RType(funct7, rs2, rs1, funct3, rd, op));
            && i.opcode == op as bv8 && i.rd == rd && i.rs1 == rs1 && i.rs2 == rs2
            && i.funct3 == funct3 && i.funct7 == funct7
  {
    hide ImmOf;
  }

  // ---------------------------------------------------------------- The listings

  // A bit of the halfword, placed in an immediate.
  function Pick(r: bv16, from: bv16, to: bv32): bv32 {
    if r & from != 0 then to else 0
  }

  function Five(x: bv32): bv5 { (x & 0x1F) as bv5 }

  function Twelve(x: bv32): bv12 { (x & 0xFFF) as bv12 }

  function Thirteen(x: bv32): bv13 { (x & 0x1FFF) as bv13 }

  function Twenty(x: bv32): bv20 { (x & 0xF_FFFF) as bv20 }

  function TwentyOne(x: bv32): bv21 { (x & 0x1F_FFFF) as bv21 }

  // CI: imm[5] at 12, imm[4:0] at 6:2, sign-extended.
  function Imm6(r: bv16): bv32 {
    Pick(r, 0x1000, 0xFE0) | Pick(r, 0x40, 0x10) | Pick(r, 0x20, 0x8) | Pick(r, 0x10, 0x4) | Pick(r, 0x8, 0x2)
    | Pick(r, 0x4, 0x1)
  }

  // Shift amounts: shamt[5] at 12, shamt[4:0] at 6:2.
  function Uimm6(r: bv16): bv32 {
    Pick(r, 0x1000, 0x20) | Pick(r, 0x40, 0x10) | Pick(r, 0x20, 0x8) | Pick(r, 0x10, 0x4) | Pick(r, 0x8, 0x2)
    | Pick(r, 0x4, 0x1)
  }

  // C.ADDI16SP: imm[9] at 12, imm[4|6|8:7|5] at 6:2.
  function Imm16sp(r: bv16): bv32 {
    Pick(r, 0x1000, 0xE00) | Pick(r, 0x40, 0x10) | Pick(r, 0x20, 0x40) | Pick(r, 0x10, 0x100)
    | Pick(r, 0x8, 0x80) | Pick(r, 0x4, 0x20)
  }

  // C.LUI: imm[17] at 12, imm[16:12] at 6:2, as the upper twenty bits.
  function ImmUpper(r: bv16): bv32 {
    Pick(r, 0x1000, 0xFFFE0) | Pick(r, 0x40, 0x10) | Pick(r, 0x20, 0x8) | Pick(r, 0x10, 0x4) | Pick(r, 0x8, 0x2)
    | Pick(r, 0x4, 0x1)
  }

  // CL and CS word: uimm[5:3] at 12:10, uimm[2|6] at 6:5.
  function UimmWord(r: bv16): bv32 {
    Pick(r, 0x1000, 0x20) | Pick(r, 0x800, 0x10) | Pick(r, 0x400, 0x8) | Pick(r, 0x40, 0x4) | Pick(r, 0x20, 0x40)
  }

  // CL and CS double: uimm[5:3] at 12:10, uimm[7:6] at 6:5.
  function UimmDouble(r: bv16): bv32 {
    Pick(r, 0x1000, 0x20) | Pick(r, 0x800, 0x10) | Pick(r, 0x400, 0x8) | Pick(r, 0x40, 0x80) | Pick(r, 0x20, 0x40)
  }

  // CJ: imm[11|4|9:8|10|6|7|3:1|5] at 12:2.
  function ImmJump(r: bv16): bv32 {
    Pick(r, 0x1000, 0x1FF800) | Pick(r, 0x800, 0x10) | Pick(r, 0x400, 0x200) | Pick(r, 0x200, 0x100)
    | Pick(r, 0x100, 0x400) | Pick(r, 0x80, 0x40) | Pick(r, 0x40, 0x80) | Pick(r, 0x20, 0x8)
    | Pick(r, 0x10, 0x4) | Pick(r, 0x8, 0x2) | Pick(r, 0x4, 0x20)
  }

  // CB: imm[8|4:3] at 12:10, imm[7:6|2:1|5] at 6:2.
  function ImmBranch(r: bv16): bv32 {
    Pick(r, 0x1000, 0x1F00) | Pick(r, 0x800, 0x10) | Pick(r, 0x400, 0x8) | Pick(r, 0x40, 0x80)
    | Pick(r, 0x20, 0x40) | Pick(r, 0x10, 0x4) | Pick(r, 0x8, 0x2) | Pick(r, 0x4, 0x20)
  }

  // C.LWSP: uimm[5] at 12, uimm[4:2|7:6] at 6:2.
  function UimmLwsp(r: bv16): bv32 {
    Pick(r, 0x1000, 0x20) | Pick(r, 0x40, 0x10) | Pick(r, 0x20, 0x8) | Pick(r, 0x10, 0x4) | Pick(r, 0x8, 0x80)
    | Pick(r, 0x4, 0x40)
  }

  // C.LDSP: uimm[5] at 12, uimm[4:3|8:6] at 6:2.
  function UimmLdsp(r: bv16): bv32 {
    Pick(r, 0x1000, 0x20) | Pick(r, 0x40, 0x10) | Pick(r, 0x20, 0x8) | Pick(r, 0x10, 0x100) | Pick(r, 0x8, 0x80)
    | Pick(r, 0x4, 0x40)
  }

  // C.SWSP: uimm[5:2|7:6] at 12:7.
  function UimmSwsp(r: bv16): bv32 {
    Pick(r, 0x1000, 0x20) | Pick(r, 0x800, 0x10) | Pick(r, 0x400, 0x8) | Pick(r, 0x200, 0x4)
    | Pick(r, 0x100, 0x80) | Pick(r, 0x80, 0x40)
  }

  // C.SDSP: uimm[5:3|8:6] at 12:7.
  function UimmSdsp(r: bv16): bv32 {
    Pick(r, 0x1000, 0x20) | Pick(r, 0x800, 0x10) | Pick(r, 0x400, 0x8) | Pick(r, 0x200, 0x100)
    | Pick(r, 0x100, 0x80) | Pick(r, 0x80, 0x40)
  }

  // C.ADDI4SPN: uimm[5:4|9:6|2|3] at 12:5.
  function Uimm4spn(r: bv16): bv32 {
    Pick(r, 0x1000, 0x20) | Pick(r, 0x800, 0x10) | Pick(r, 0x400, 0x200) | Pick(r, 0x200, 0x100)
    | Pick(r, 0x100, 0x80) | Pick(r, 0x80, 0x40) | Pick(r, 0x40, 0x4) | Pick(r, 0x20, 0x8)
  }

  // Register fields: rd and rs1 at 11:7, rs2 at 6:2, and the short forms naming x8 to x15.
  function FieldRd(r: bv16): bv5 {
    Five(Pick(r, 0x800, 0x10) | Pick(r, 0x400, 0x8) | Pick(r, 0x200, 0x4) | Pick(r, 0x100, 0x2) | Pick(r, 0x80, 0x1))
  }

  function FieldRs2(r: bv16): bv5 {
    Five(Pick(r, 0x40, 0x10) | Pick(r, 0x20, 0x8) | Pick(r, 0x10, 0x4) | Pick(r, 0x8, 0x2) | Pick(r, 0x4, 0x1))
  }

  function FieldRs1Short(r: bv16): bv5 {
    Five(0x8 | Pick(r, 0x200, 0x4) | Pick(r, 0x100, 0x2) | Pick(r, 0x80, 0x1))
  }

  function FieldRs2Short(r: bv16): bv5 {
    Five(0x8 | Pick(r, 0x10, 0x4) | Pick(r, 0x8, 0x2) | Pick(r, 0x4, 0x1))
  }

  // The 32-bit instruction that the fields of a halfword spell in the format its selectors
  // name. None: they name no format.
  function Spelled(r: bv16): Option<bv32>
    requires Quadrant(r) != 3
  {
    match Quadrant(r)
    case 0 => Spelled0(r)
    case 1 => Spelled1(r)
    case _ => Spelled2(r)
  }

  function Spelled0(r: bv16): Option<bv32> {
    var rd, rs1 := FieldRs2Short(r), FieldRs1Short(r);
    match F3(r)
    case 0 => Some(IType(Twelve(Uimm4spn(r)), 2, 0, rd, 0x13))
    case 1 => Some(IType(Twelve(UimmDouble(r)), rs1, 3, rd, 0x07))
    case 2 => Some(IType(Twelve(UimmWord(r)), rs1, 2, rd, 0x03))
    case 3 => Some(IType(Twelve(UimmDouble(r)), rs1, 3, rd, 0x03))
    case 4 => None
    case 5 => Some(SType(Twelve(UimmDouble(r)), rd, rs1, 3, 0x27))
    case 6 => Some(SType(Twelve(UimmWord(r)), rd, rs1, 2, 0x23))
    case _ => Some(SType(Twelve(UimmDouble(r)), rd, rs1, 3, 0x23))
  }

  function SpelledAlu(r: bv16): Option<bv32> {
    var rd, rs2 := FieldRs1Short(r), FieldRs2Short(r);
    match (Sub(r), B12(r), Arith(r))
    case (0, _, _) => Some(IType(Twelve(Uimm6(r)), rd, 5, rd, 0x13))
    case (1, _, _) => Some(IType(Twelve(Uimm6(r) | 0x400), rd, 5, rd, 0x13))
    case (2, _, _) => Some(IType(Twelve(Imm6(r)), rd, 7, rd, 0x13))
    case (_, false, 0) => Some(RType(0x20, rs2, rd, 0, rd, 0x33))
    case (_, false, 1) => Some(RType(0, rs2, rd, 4, rd, 0x33))
    case (_, false, 2) => Some(RType(0, rs2, rd, 6, rd, 0x33))
    case (_, false, _) => Some(RType(0, rs2, rd, 7, rd, 0x33))
    case (_, true, 0) => Some(RType(0x20, rs2, rd, 0, rd, 0x3B))
    case (_, true, 1) => Some(RType(0, rs2, rd, 0, rd, 0x3B))
    case _ => None
  }

  function Spelled1(r: bv16): Option<bv32> {
    var rd, rs1 := FieldRd(r), FieldRs1Short(r);
    match F3(r)
    case 0 => Some(IType(Twelve(Imm6(r)), rd, 0, rd, 0x13))
    case 1 => Some(IType(Twelve(Imm6(r)), rd, 0, rd, 0x1B))
    case 2 => Some(IType(Twelve(Imm6(r)), 0, 0, rd, 0x13))
    case 3 => Some(if rd == 2 then IType(Twelve(Imm16sp(r)), 2, 0, 2, 0x13) else UType(Twenty(ImmUpper(r)), rd, 0x37))
    case 4 => SpelledAlu(r)
    case 5 => Some(JType(TwentyOne(ImmJump(r)), 0))
    case 6 => Some(BType(Thirteen(ImmBranch(r)), 0, rs1, 0))
    case _ => Some(BType(Thirteen(ImmBranch(r)), 0, rs1, 1))
  }

  function SpelledJump(r: bv16): bv32 {
    var rd, rs2 := FieldRd(r), FieldRs2(r);
    if rs2 == 0 then
      if !B12(r) then IType(0, rd, 0, 0, 0x67)
      else if rd == 0 then IType(1, 0, 0, 0, 0x73)
      else IType(0, rd, 0, 1, 0x67)
    else RType(0, rs2, if B12(r) then rd else 0, 0, rd, 0x33)
  }

  function Spelled2(r: bv16): Option<bv32> {
    var rd, rs2 := FieldRd(r), FieldRs2(r);
    match F3(r)
    case 0 => Some(IType(Twelve(Uimm6(r)), rd, 1, rd, 0x13))
    case 1 => Some(IType(Twelve(UimmLdsp(r)), 2, 3, rd, 0x07))
    case 2 => Some(IType(Twelve(UimmLwsp(r)), 2, 2, rd, 0x03))
    case 3 => Some(IType(Twelve(UimmLdsp(r)), 2, 3, rd, 0x03))
    case 4 => Some(SpelledJump(r))
    case 5 => Some(SType(Twelve(UimmSdsp(r)), rs2, 2, 3, 0x27))
    case 6 => Some(SType(Twelve(UimmSwsp(r)), rs2, 2, 2, 0x23))
    case _ => Some(SType(Twelve(UimmSdsp(r)), rs2, 2, 3, 0x23))
  }

  // ---------------------------------------------------------------- Reserved forms

  // Reserved for want of an operand: the selectors name a format, but a field that must not
  // be zero is. C.ADDI4SPN with a zero immediate (the all-zero halfword among them), C.ADDIW,
  // C.LWSP and C.LDSP with rd x0, C.LUI and C.ADDI16SP with a zero immediate, C.JR with x0.
  predicate ZeroOperand(r: bv16) {
    || (r & 0xE003 == 0x0000 && r & 0x1FE0 == 0)
    || (r & 0xE003 == 0x2001 && r & 0x0F80 == 0)
    || (r & 0xE003 == 0x6001 && r & 0x107C == 0)
    || (r & 0xE003 == 0x4002 && r & 0x0F80 == 0)
    || (r & 0xE003 == 0x6002 && r & 0x0F80 == 0)
    || r == 0x8002
  }

  // Reserved outright: funct3 100 of quadrant 0, and the last two W operations.
  predicate NoFormat(r: bv16) {
    r & 0xE003 == 0x8000 || r & 0xFC43 == 0x9C41
  }

  // What the listings mark reserved (RES) for RV64, or leave as the illegal instruction.
  predicate IsaReserved(r: bv16) {
    ZeroOperand(r) || NoFormat(r)
  }

  // The instruction a halfword stands for by the listings. None: reserved.
  function Expand(r: bv16): Option<bv32>
    requires Quadrant(r) != 3
  {
    if IsaReserved(r) then None else Spelled(r)
  }

  lemma SpelledByFormat(r: bv16)
    requires Quadrant(r) != 3
    ensures Spelled(r).None? <==> NoFormat(r)
  {
    hide IType, SType, BType, UType, JType, RType, Twelve, Thirteen, Twenty, TwentyOne, FieldRd, FieldRs2;
    hide FieldRs1Short, FieldRs2Short, SpelledJump, NoFormat;
    Formats(r);
  }

  lemma Formats(r: bv16)
    requires Quadrant(r) != 3
    ensures NoFormat(r) <==> || (Quadrant(r) == 0 && F3(r) == 4)
                             || (Quadrant(r) == 1 && F3(r) == 4 && Sub(r) == 3 && B12(r) && Arith(r) >= 2)
  {
  }

  // ---------------------------------------------------------------- Fields agree

  lemma RegisterFields(r: bv16)
    ensures Rd(r) == FieldRd(r) && Rs2(r) == FieldRs2(r)
  {
  }

  lemma ShortFields(r: bv16)
    ensures Rs1S(r) == FieldRs1Short(r)
    ensures RdS(r) == FieldRs2Short(r)
  {
    hide Short, FieldRs1Short, FieldRs2Short;
    ShortIs(r >> 7);
    ShortIs(r >> 2);
    ShortBits(r);
  }

  lemma ShortBits(r: bv16)
    ensures (((r >> 7) & 0x7) as bv5) | 8 == FieldRs1Short(r)
    ensures (((r >> 2) & 0x7) as bv5) | 8 == FieldRs2Short(r)
  {
  }

  lemma ShortIs(x: bv16)
    ensures Short(x) == ((x & 0x7) as bv5) | 8
  {
    var y := (x & 0x7) as bv5;
    assert y & 0x18 == 0;
    ShortForm(y);
  }

  lemma ShortForm(x: bv5)
    requires x & 0x18 == 0
    ensures x + 8 == x | 8
  {
  }

  lemma SignedImmediates(r: bv16)
    ensures Sext12(Twelve(Imm6(r))) == ImmCi(r)
    ensures Sext12(Twelve(Imm16sp(r))) == ImmAddi16sp(r)
    ensures A.Sext32((Twenty(ImmUpper(r)) as bv32) << 12) == ImmLui(r)
  {
  }

  lemma JumpForward(r: bv16)
    requires r & 0x1000 == 0
    ensures Sext21(TwentyOne(ImmJump(r))) == ImmCj(r)
  {
  }

  lemma JumpBackward(r: bv16)
    requires r & 0x1000 != 0
    ensures Sext21(TwentyOne(ImmJump(r))) == ImmCj(r)
  {
  }

  lemma JumpImmediate(r: bv16)
    ensures Sext21(TwentyOne(ImmJump(r))) == ImmCj(r)
  {
    hide Sext21, TwentyOne, ImmJump, ImmCj;
    if r & 0x1000 == 0 {
      JumpForward(r);
    } else {
      JumpBackward(r);
    }
  }

  lemma JumpEven(r: bv16)
    ensures TwentyOne(ImmJump(r)) & 1 == 0
  {
  }

  lemma BranchImmediate(r: bv16)
    ensures Sext13(Thirteen(ImmBranch(r))) == ImmCb(r) && Thirteen(ImmBranch(r)) & 1 == 0
  {
  }

  lemma OffsetImmediates(r: bv16)
    ensures Sext12(Twelve(UimmWord(r))) == ImmClw(r)
    ensures Sext12(Twelve(UimmDouble(r))) == ImmCld(r)
    ensures Sext12(Twelve(Uimm4spn(r))) == ImmAddi4spn(r)
  {
  }

  lemma StackLoads(r: bv16)
    ensures Sext12(Twelve(UimmLwsp(r))) == ImmLwsp(r)
    ensures Sext12(Twelve(UimmLdsp(r))) == ImmLdsp(r)
  {
  }

  lemma StackStores(r: bv16)
    ensures Sext12(Twelve(UimmSwsp(r))) == ImmSwsp(r)
    ensures Sext12(Twelve(UimmSdsp(r))) == ImmSdsp(r)
  {
  }

  lemma ShiftImmediates(r: bv16)
    ensures Sext12(Twelve(Uimm6(r))) == ImmShift(r) && !Arithmetic((Twelve(Uimm6(r)) >> 5) as bv7)
    ensures A.Shamt6(Sext12(Twelve(Uimm6(r)))) == A.Shamt6(Shamt(r))
    ensures A.Shamt6(Sext12(Twelve(Uimm6(r) | 0x400))) == A.Shamt6(Shamt(r))
    ensures Arithmetic((Twelve(Uimm6(r) | 0x400) >> 5) as bv7)
  {
  }

  // ---------------------------------------------------------------- Meaning

  // i and j agree on every field that executing their opcode looks at.
  predicate SameMeaning(i: Instruction, j: Instruction) {
    && i.opcode == j.opcode && i.size == j.size
    && match i.opcode
       case OP_LUI => i.rd == j.rd && i.imm == j.imm
       case OP_AUIPC => i.rd == j.rd && i.imm == j.imm
       case OP_JAL => i.rd == j.rd && i.imm == j.imm
       case OP_JALR => i.rd == j.rd && i.rs1 == j.rs1 && i.imm == j.imm
       case OP_BRANCH => i.funct3 == j.funct3 && i.rs1 == j.rs1 && i.rs2 == j.rs2 && i.imm == j.imm
       case OP_LOAD => i.funct3 == j.funct3 && i.rd == j.rd && i.rs1 == j.rs1 && i.imm == j.imm
       case OP_FLW_FLD => i.funct3 == j.funct3 && i.rd == j.rd && i.rs1 == j.rs1 && i.imm == j.imm
       case OP_STORE => i.funct3 == j.funct3 && i.rs1 == j.rs1 && i.rs2 == j.rs2 && i.imm == j.imm
       case OP_FSW_FSD => i.funct3 == j.funct3 && i.rs1 == j.rs1 && i.rs2 == j.rs2 && i.imm == j.imm
       case OP_I_ARITH =>
         && i.funct3 == j.funct3 && i.rd == j.rd && i.rs1 == j.rs1
         && if i.funct3 == 1 || i.funct3 == 5 then
              A.Shamt6(i.imm) == A.Shamt6(j.imm) && Arithmetic(i.funct7) == Arithmetic(j.funct7)
            else i.imm == j.imm
       case OP_I_ARITH_W =>
         && i.funct3 == j.funct3 && i.rd == j.rd && i.rs1 == j.rs1 && i.imm == j.imm
         && (i.funct3 != 0 ==> i.funct7 == j.funct7)
       case OP_R_ARITH =>
         i.funct3 == j.funct3 && i.funct7 == j.funct7 && i.rd == j.rd && i.rs1 == j.rs1 && i.rs2 == j.rs2
       case OP_R_ARITH_W =>
         i.funct3 == j.funct3 && i.funct7 == j.funct7 && i.rd == j.rd && i.rs1 == j.rs1 && i.rs2 == j.rs2
       case OP_AMO => i.funct3 == j.funct3 && i.funct7 == j.funct7 && i.rd == j.rd && i.rs1 == j.rs1 && i.rs2 == j.rs2
       case OP_SYSTEM => i.funct3 == j.funct3 && i.imm == j.imm && (i.funct3 != 0 ==> i.rd == j.rd && i.rs1 == j.rs1)
       case OP_FENCE => true
       case _ => i.rd == j.rd
  }

  lemma SameMemory(m: Machine, i: Instruction, j: Instruction, r: Reply)
    requires i.size == j.size && i.funct3 == j.funct3 && i.rs1 == j.rs1 && i.imm == j.imm
    ensures i.rd == j.rd ==> ExecLoad(m, i, r) == ExecLoad(m, j, r) && ExecFpLoad(m, i, r) == ExecFpLoad(m, j, r)
    ensures i.rs2 == j.rs2 ==> ExecStore(m, i, r) == ExecStore(m, j, r) && ExecFpStore(m, i, r) == ExecFpStore(m, j, r)
  {
    hide VmRead, VmWrite, Retire, Advance, Reg, A.Add, Extend, MergeLow, LoadKind, StoreWidth;
  }

  lemma SameShift(f: bv3, a: bool, imm: bv64, imm': bv64, x: bv64)
    requires f == 1 || f == 5
    requires A.Shamt6(imm) == A.Shamt6(imm')
    ensures ArithI(f, a, imm, x) == ArithI(f, a, imm', x)
  {
    hide A.Sll, A.Srl, A.Sra, A.Shamt6;
  }

  lemma OnlyShifts(f: bv3, a: bool, b: bool, imm: bv64, x: bv64)
    requires f != 5
    ensures ArithI(f, a, imm, x) == ArithI(f, b, imm, x)
  {
    hide A.Add, A.Sll, A.Srl, A.Sra, A.Shamt6, A.Less, A.LessU, A.Xor, A.Or, A.And, A.Flag;
  }

  lemma ShiftlessWord(f: bv7, g: bv7, imm: bv64, x: bv64)
    ensures ArithIW(0, f, imm, x) == ArithIW(0, g, imm, x)
  {
    hide A.Low32, A.Sext32, Shift32;
  }

  lemma SameImmediate(m: Machine, i: Instruction, j: Instruction, f: FpResult)
    requires SameMeaning(i, j) && i.opcode == OP_I_ARITH
    ensures ExecRegister(m, i, f) == ExecRegister(m, j, f)
  {
    hide ArithI, Computed, Reg, A.Shamt6, Arithmetic;
    var x := Reg(m, i.rs1);
    if i.funct3 == 1 || i.funct3 == 5 {
      SameShift(i.funct3, Arithmetic(i.funct7), i.imm, j.imm, x);
    } else {
      OnlyShifts(i.funct3, Arithmetic(i.funct7), Arithmetic(j.funct7), i.imm, x);
    }
    SameComputed(m, i, j, Some(ArithI(i.funct3, Arithmetic(i.funct7), i.imm, x)));
  }

  lemma SameImmediateWord(m: Machine, i: Instruction, j: Instruction, f: FpResult)
    requires SameMeaning(i, j) && i.opcode == OP_I_ARITH_W
    ensures ExecRegister(m, i, f) == ExecRegister(m, j, f)
  {
    hide ArithIW, Computed, Reg;
    var x := Reg(m, i.rs1);
    if i.funct3 == 0 {
      ShiftlessWord(i.funct7, j.funct7, i.imm, x);
    }
    SameComputed(m, i, j, ArithIW(i.funct3, i.funct7, i.imm, x));
  }

  lemma SameComputed(m: Machine, i: Instruction, j: Instruction, v: Option<bv64>)
    requires i.rd == j.rd && i.size == j.size
    ensures Computed(m, i, v) == Computed(m, j, v)
  {
    hide Retire;
  }

  lemma SameArithmetic(m: Machine, i: Instruction, j: Instruction, f: FpResult)
    requires SameMeaning(i, j)
    requires i.opcode in {OP_I_ARITH, OP_I_ARITH_W, OP_R_ARITH, OP_R_ARITH_W, OP_LUI, OP_AUIPC}
    ensures ExecRegister(m, i, f) == ExecRegister(m, j, f)
  {
    hide ArithI, ArithIW, ArithR, ArithRW, Retire, Reg, A.Add, A.Shamt6, Arithmetic;
    match i.opcode
    case OP_I_ARITH => SameImmediate(m, i, j, f);
    case OP_I_ARITH_W => SameImmediateWord(m, i, j, f);
    case _ =>
  }

  lemma SameRegister(m: Machine, i: Instruction, j: Instruction, f: FpResult)
    requires SameMeaning(i, j)
    requires i.opcode !in {OP_LOAD, OP_FLW_FLD, OP_STORE, OP_FSW_FSD, OP_AMO, OP_SYSTEM}
    ensures ExecRegister(m, i, f) == ExecRegister(m, j, f)
  {
    hide Computed, Taken, Advance, Reg, SetReg, A.Add, A.AndNot, A.Shamt6, Arithmetic, ExecFp;
    if i.opcode in {OP_I_ARITH, OP_I_ARITH_W, OP_R_ARITH, OP_R_ARITH_W, OP_LUI, OP_AUIPC} {
      SameArithmetic(m, i, j, f);
    } else if i.opcode in {OP_FMADD, OP_FMSUB, OP_FNMSUB, OP_FNMADD, OP_FP} {
      SameFp(m, i, j, f);
    }
  }

  lemma SameFp(m: Machine, i: Instruction, j: Instruction, f: FpResult)
    requires i.size == j.size && i.rd == j.rd
    ensures ExecFp(m, i, true, f) == ExecFp(m, j, true, f) && ExecFp(m, i, false, f) == ExecFp(m, j, false, f)
  {
    hide Retire, Advance;
  }

  lemma SameAtomic(m: Machine, i: Instruction, j: Instruction, env: Env)
    requires i.size == j.size && i.funct3 == j.funct3 && i.funct7 == j.funct7
    requires i.rd == j.rd && i.rs1 == j.rs1 && i.rs2 == j.rs2
    ensures ExecAtomic(m, i, env) == ExecAtomic(m, j, env)
  {
    hide Translate, PhysRead, PhysWrite, AmoRead, AmoResult, Reg, SetReg, Advance, Funct5;
  }

  lemma SameCsr(m: Machine, i: Instruction, j: Instruction)
    requires i.size == j.size && i.funct3 == j.funct3 && i.imm == j.imm && i.rd == j.rd && i.rs1 == j.rs1
    ensures ExecCsr(m, i) == ExecCsr(m, j)
  {
    hide Retire, Trap, CsrRead, CsrWrite, CsrStore, Denied, CsrIndex;
    SameStore(m.cpu, i, j);
  }

  lemma SameStore(c: Cpu, i: Instruction, j: Instruction)
    requires i.funct3 == j.funct3 && i.imm == j.imm && i.rs1 == j.rs1
    ensures CsrStore(c, i) == CsrStore(c, j)
  {
    hide CsrRead, CsrResult, CsrIndex, CsrSource, CsrOp;
    SameOperand(c, i, j);
  }

  lemma SameOperand(c: Cpu, i: Instruction, j: Instruction)
    requires i.funct3 == j.funct3 && i.rs1 == j.rs1
    ensures CsrSource(c, i) == CsrSource(c, j) && CsrOp(i) == CsrOp(j)
  {
  }

  lemma SameEffect(m: Machine, i: Instruction, j: Instruction, env: Env)
    requires SameMeaning(i, j)
    ensures Execute(m, i, env) == Execute(m, j, env)
  {
    hide ExecLoad, ExecFpLoad, ExecStore, ExecFpStore, ExecRegister, ExecEnvironment, ExecCsr, ExecAtomic;
    hide A.Shamt6, Arithmetic;
    match i.opcode
    case OP_LOAD => SameMemory(m, i, j, env.first);
    case OP_FLW_FLD => SameMemory(m, i, j, env.first);
    case OP_STORE => SameMemory(m, i, j, env.first);
    case OP_FSW_FSD => SameMemory(m, i, j, env.first);
    case OP_AMO => SameAtomic(m, i, j, env);
    case OP_SYSTEM =>
      if i.funct3 != 0 {
        SameCsr(m, i, j);
      }
    case _ => SameRegister(m, i, j, env.fp);
  }

  // ---------------------------------------------------------------- The translator

  function Op8(op: bv7): bv8 { op as bv8 }

  predicate CarriesI(op: bv7) {
    op == 0x13 || op == 0x1B || op == 0x03 || op == 0x07 || op == 0x67 || op == 0x73
  }

  lemma AsI(imm: bv12, rs1: bv5, funct3: bv3, rd: bv5, op: bv7)
    requires CarriesI(op)
    ensures var i := DecodeWord(IType(imm, rs1, funct3, rd, op));
            && i.opcode == Op8(op) && i.rd == rd && i.rs1 == rs1 && i.funct3 == funct3
            && i.funct7 == (imm >> 5) as bv7 && i.imm == Sext12(imm)
  {
    hide ImmI, Sext12, IType;
    DecodeI(imm, rs1, funct3, rd, op);
  }

  lemma AsS(imm: bv12, rs2: bv5, rs1: bv5, funct3: bv3, op: bv7)
    requires op == 0x23 || op == 0x27
    ensures var i := DecodeWord(SType(imm, rs2, rs1, funct3, op));
            i.opcode == Op8(op) && i.rs2 == rs2 && i.rs1 == rs1 && i.funct3 == funct3 && i.imm == Sext12(imm)
  {
    hide ImmS, Sext12, SType;
    DecodeS(imm, rs2, rs1, funct3, op);
  }

  lemma AsB(imm: bv13, rs2: bv5, rs1: bv5, funct3: bv3)
    requires imm & 1 == 0
    ensures var i := DecodeWord(BType(imm, rs2, rs1, funct3));
            i.opcode == OP_BRANCH && i.rs2 == rs2 && i.rs1 == rs1 && i.funct3 == funct3 && i.imm == Sext13(imm)
  {
    hide ImmB, Sext13, BType;
    DecodeB(imm, rs2, rs1, funct3);
  }

  lemma AsU(imm: bv20, rd: bv5)
    ensures var i := DecodeWord(UType(imm, rd, 0x37));
            i.opcode == OP_LUI && i.rd == rd && i.imm == A.Sext32((imm as bv32) << 12)
  {
    hide ImmU, A.Sext32, UType;
    DecodeU(imm, rd, 0x37);
  }

  lemma AsJ(imm: bv21, rd: bv5)
    requires imm & 1 == 0
    ensures var i := DecodeWord(JType(imm, rd)); i.opcode == OP_JAL && i.rd == rd && i.imm == Sext21(imm)
  {
    hide ImmJ, Sext21, JType;
    DecodeJ(imm, rd);
  }

  lemma AsR(funct7: bv7, rs2: bv5, rs1: bv5, funct3: bv3, rd: bv5, op: bv7)
    ensures var i := DecodeWord(RType(funct7, rs2, rs1, funct3, rd, op));
            && i.opcode == Op8(op) && i.rd == rd && i.rs1 == rs1 && i.rs2 == rs2
            && i.funct3 == funct3 && i.funct7 == funct7
  {
    hide RType, ImmOf;
    DecodeR(funct7, rs2, rs1, funct3, rd, op);
  }

  // The translation of r is reserved exactly when i is illegal, and otherwise means i.
  predicate Translates(w: Option<bv32>, i: Instruction) {
    match w
    case None => i.opcode == OP_ILLEGAL
    case Some(raw) => i.opcode != OP_ILLEGAL && SameMeaning(i, DecodeWord(raw).(size := 2))
  }

  lemma TranslatesLoads0(r: bv16)
    requires F3(r) < 4
    ensures Translates(Spelled0(r), Quadrant0(r))
  {
    hide IType, SType, DecodeWord, Sext12, Twelve, UimmWord, UimmDouble, Uimm4spn, ImmClw, ImmCld, ImmAddi4spn;
    hide RdS, Rs1S, FieldRs1Short, FieldRs2Short, F3, A.Shamt6, Arithmetic;
    ShortFields(r);
    OffsetImmediates(r);
    var rd, rs1 := FieldRs2Short(r), FieldRs1Short(r);
    match F3(r)
    case 0 => AsI(Twelve(Uimm4spn(r)), 2, 0, rd, 0x13);
    case 1 => AsI(Twelve(UimmDouble(r)), rs1, 3, rd, 0x07);
    case 2 => AsI(Twelve(UimmWord(r)), rs1, 2, rd, 0x03);
    case _ => AsI(Twelve(UimmDouble(r)), rs1, 3, rd, 0x03);
  }

  lemma Translates0(r: bv16)
    ensures Translates(Spelled0(r), Quadrant0(r))
  {
    hide IType, SType, DecodeWord, Sext12, Twelve, UimmWord, UimmDouble, Uimm4spn, ImmClw, ImmCld, ImmAddi4spn;
    hide RdS, Rs1S, FieldRs1Short, FieldRs2Short, F3, A.Shamt6, Arithmetic;
    ShortFields(r);
    OffsetImmediates(r);
    var rd, rs1 := FieldRs2Short(r), FieldRs1Short(r);
    match F3(r)
    case 4 =>
    case 5 => AsS(Twelve(UimmDouble(r)), rd, rs1, 3, 0x27);
    case 6 => AsS(Twelve(UimmWord(r)), rd, rs1, 2, 0x23);
    case 7 => AsS(Twelve(UimmDouble(r)), rd, rs1, 3, 0x23);
    case _ => TranslatesLoads0(r);
  }

  lemma TranslatesRegisters(r: bv16)
    requires Sub(r) == 3
    ensures Translates(SpelledAlu(r), MiscAlu(r))
  {
    hide IType, RType, DecodeWord, RdS, Rs1S, FieldRs1Short, FieldRs2Short, B12, Sub, Arith, A.Shamt6, Arithmetic;
    ShortFields(r);
    var rd, rs2 := FieldRs1Short(r), FieldRs2Short(r);
    match (B12(r), Arith(r))
    case (false, 0) => AsR(0x20, rs2, rd, 0, rd, 0x33);
    case (false, 1) => AsR(0, rs2, rd, 4, rd, 0x33);
    case (false, 2) => AsR(0, rs2, rd, 6, rd, 0x33);
    case (false, _) => AsR(0, rs2, rd, 7, rd, 0x33);
    case (true, 0) => AsR(0x20, rs2, rd, 0, rd, 0x3B);
    case (true, 1) => AsR(0, rs2, rd, 0, rd, 0x3B);
    case _ =>
  }

  lemma TranslatesShifts(r: bv16)
    requires Sub(r) < 2
    ensures Translates(SpelledAlu(r), MiscAlu(r))
  {
    hide IType, RType, DecodeWord, Sext12, Twelve, Uimm6, Shamt, ImmShift;
    hide RdS, Rs1S, FieldRs1Short, FieldRs2Short, B12, Sub, Arith, A.Shamt6, Arithmetic;
    ShortFields(r);
    ShiftImmediates(r);
    AltIsArithmetic();
    var rd := FieldRs1Short(r);
    if Sub(r) == 0 {
      AsI(Twelve(Uimm6(r)), rd, 5, rd, 0x13);
    } else {
      AsI(Twelve(Uimm6(r) | 0x400), rd, 5, rd, 0x13);
    }
  }

  lemma TranslatesAlu(r: bv16)
    ensures Translates(SpelledAlu(r), MiscAlu(r))
  {
    hide IType, RType, DecodeWord, Sext12, Twelve, Imm6, ImmCi;
    hide RdS, Rs1S, FieldRs1Short, FieldRs2Short, B12, Sub, Arith, A.Shamt6, Arithmetic;
    match Sub(r)
    case 2 =>
      ShortFields(r);
      SignedImmediates(r);
      AsI(Twelve(Imm6(r)), FieldRs1Short(r), 7, FieldRs1Short(r), 0x13);
    case 3 => TranslatesRegisters(r);
    case _ => TranslatesShifts(r);
  }

  lemma AltIsArithmetic()
    ensures Arithmetic(0x20) && !Arithmetic(0)
  {
  }

  lemma TranslatesUpper(r: bv16)
    requires F3(r) == 3
    ensures Translates(Spelled1(r), Quadrant1(r))
  {
    hide IType, UType, DecodeWord, Sext12, A.Sext32, Twelve, Twenty, Imm16sp, ImmUpper, ImmAddi16sp, ImmLui;
    hide Rd, FieldRd, F3, SpelledAlu, MiscAlu, A.Shamt6, Arithmetic;
    RegisterFields(r);
    SignedImmediates(r);
    var rd := FieldRd(r);
    if rd == 2 {
      AsI(Twelve(Imm16sp(r)), 2, 0, 2, 0x13);
    } else {
      AsU(Twenty(ImmUpper(r)), rd);
    }
  }

  lemma TranslatesImmediates1(r: bv16)
    requires F3(r) < 4
    ensures Translates(Spelled1(r), Quadrant1(r))
  {
    hide IType, SType, BType, UType, JType, DecodeWord, Sext12, Sext13, Sext21, A.Sext32, Twelve, Thirteen;
    hide Twenty, TwentyOne;
    hide Imm6, Imm16sp, ImmUpper, ImmJump, ImmBranch, ImmCi, ImmAddi16sp, ImmLui, ImmCj, ImmCb;
    hide Rd, Rs1S, FieldRd, FieldRs1Short, F3, SpelledAlu, MiscAlu, A.Shamt6, Arithmetic;
    RegisterFields(r);
    SignedImmediates(r);
    var rd := FieldRd(r);
    match F3(r)
    case 0 => AsI(Twelve(Imm6(r)), rd, 0, rd, 0x13);
    case 1 => AsI(Twelve(Imm6(r)), rd, 0, rd, 0x1B);
    case 2 => AsI(Twelve(Imm6(r)), 0, 0, rd, 0x13);
    case _ => TranslatesUpper(r);
  }

  lemma Translates1(r: bv16)
    ensures Translates(Spelled1(r), Quadrant1(r))
  {
    hide IType, SType, BType, UType, JType, DecodeWord, Sext12, Sext13, Sext21, A.Sext32, Twelve, Thirteen;
    hide Twenty, TwentyOne;
    hide Imm6, Imm16sp, ImmUpper, ImmJump, ImmBranch, ImmCi, ImmAddi16sp, ImmLui, ImmCj, ImmCb;
    hide Rd, Rs1S, FieldRd, FieldRs1Short, F3, SpelledAlu, MiscAlu, A.Shamt6, Arithmetic;
    ShortFields(r);
    JumpImmediate(r);
    JumpEven(r);
    BranchImmediate(r);
    var rs1 := FieldRs1Short(r);
    match F3(r)
    case 4 => TranslatesAlu(r);
    case 5 => AsJ(TwentyOne(ImmJump(r)), 0);
    case 6 => AsB(Thirteen(ImmBranch(r)), 0, rs1, 0);
    case 7 => AsB(Thirteen(ImmBranch(r)), 0, rs1, 1);
    case _ => TranslatesImmediates1(r);
  }

  lemma TranslatesJump(r: bv16)
    ensures Translates(Some(SpelledJump(r)), JumpMoveAdd(r))
  {
    hide IType, RType, DecodeWord, Rd, Rs2, FieldRd, FieldRs2, B12;
    RegisterFields(r);
    assert Sext12(0) == 0 && Sext12(1) == 1;
    hide Sext12;
    var rd, rs2 := FieldRd(r), FieldRs2(r);
    if rs2 != 0 {
      AsR(0, rs2, if B12(r) then rd else 0, 0, rd, 0x33);
    } else if !B12(r) {
      AsI(0, rd, 0, 0, 0x67);
    } else if rd == 0 {
      AsI(1, 0, 0, 0, 0x73);
    } else {
      AsI(0, rd, 0, 1, 0x67);
    }
  }

  lemma Translates2(r: bv16)
    ensures Translates(Spelled2(r), Quadrant2(r))
  {
    hide IType, SType, DecodeWord, Sext12, Twelve, Uimm6, UimmLdsp, UimmLwsp, UimmSdsp, UimmSwsp, ImmShift;
    hide ImmLdsp, ImmLwsp, ImmSdsp, ImmSwsp;
    hide Rd, Rs2, FieldRd, FieldRs2, F3, SpelledJump, JumpMoveAdd, A.Shamt6, Arithmetic, Shamt;
    RegisterFields(r);
    ShiftImmediates(r);
    StackLoads(r);
    StackStores(r);
    AltIsArithmetic();
    var rd, rs2 := FieldRd(r), FieldRs2(r);
    match F3(r)
    case 0 => AsI(Twelve(Uimm6(r)), rd, 1, rd, 0x13);
    case 1 => AsI(Twelve(UimmLdsp(r)), 2, 3, rd, 0x07);
    case 2 => AsI(Twelve(UimmLwsp(r)), 2, 2, rd, 0x03);
    case 3 => AsI(Twelve(UimmLdsp(r)), 2, 3, rd, 0x03);
    case 4 => TranslatesJump(r);
    case 5 => AsS(Twelve(UimmSdsp(r)), rs2, 2, 3, 0x27);
    case 6 => AsS(Twelve(UimmSwsp(r)), rs2, 2, 2, 0x23);
    case _ => AsS(Twelve(UimmSdsp(r)), rs2, 2, 3, 0x23);
  }

  // Every halfword does what its fields spell, or is illegal when they spell nothing.
  lemma TranslatesSpelled(r: bv16)
    requires Quadrant(r) != 3
    ensures Translates(Spelled(r), DecodeRvc(r))
  {
    hide Spelled0, Spelled1, Spelled2, Quadrant0, Quadrant1, Quadrant2, Translates;
    Translates0(r);
    Translates1(r);
    Translates2(r);
  }

  /** Translation preserves meaning: an instruction of the listings does to every machine
      exactly what its 32-bit expansion does, but is two bytes long. */
  lemma CompressedMeansExpansion(m: Machine, r: bv16, env: Env)
    requires Quadrant(r) != 3 && !IsaReserved(r)
    ensures Expand(r).Some? && Execute(m, DecodeRvc(r), env) == Execute(m, DecodeWord(Expand(r).value).(size := 2), env)
  {
    hide Execute, Spelled, DecodeRvc, DecodeWord, SameMeaning, NoFormat, ZeroOperand;
    TranslatesSpelled(r);
    SpelledByFormat(r);
    SameEffect(m, DecodeRvc(r), DecodeWord(Expand(r).value).(size := 2), env);
  }

  /** Rejection is exact up to one family: a halfword is illegal to the translator if and only
      if the listings reserve it, unless they do so for a zero operand. */
  lemma RejectsExactly(r: bv16)
    requires Quadrant(r) != 3
    ensures DecodeRvc(r).opcode == OP_ILLEGAL <==> IsaReserved(r) && !ZeroOperand(r)
  {
    hide Spelled, DecodeRvc, DecodeWord, SameMeaning;
    TranslatesSpelled(r);
    SpelledByFormat(r);
    ZeroHasFormat(r);
  }

  lemma ZeroHasFormat(r: bv16)
    ensures ZeroOperand(r) ==> !NoFormat(r)
  {
  }

  /** A reserved halfword stops the emulator, or, in that family, runs as what its fields
      spell. */
  lemma ReservedRuns(m: Machine, r: bv16, env: Env)
    requires Quadrant(r) != 3 && IsaReserved(r)
    ensures if ZeroOperand(r) then
              && Spelled(r).Some?
              && Execute(m, DecodeRvc(r), env) == Execute(m, DecodeWord(Spelled(r).value).(size := 2), env)
            else Execute(m, DecodeRvc(r), env) == Stop
  {
    hide Execute, Spelled, DecodeRvc, DecodeWord, SameMeaning, NoFormat, ZeroOperand;
    TranslatesSpelled(r);
    SpelledByFormat(r);
    ZeroHasFormat(r);
    if ZeroOperand(r) {
      SameEffect(m, DecodeRvc(r), DecodeWord(Spelled(r).value).(size := 2), env);
    } else {
      IllegalStops(m, DecodeRvc(r), env);
    }
  }

  // The defined illegal instruction, the all-zero halfword, copies x2 to x8.
  lemma AllZeroRuns(m: Machine, env: Env)
    ensures IsaReserved(0)
    ensures Execute(m, DecodeRvc(0), env) == Next(Retire(m, 8, Reg(m, 2), 2))
  {
    hide Retire, Reg, Arithmetic;
    ZeroWord();
    AddZero(Reg(m, 2));
  }

  lemma ZeroWord()
    ensures DecodeRvc(0) == Instruction(OP_I_ARITH, 8, 2, 0, 0, 0, 0, 2)
  {
  }

  lemma AddZero(x: bv64)
    ensures A.Add(x, 0) == x
  {
  }

  lemma IllegalStops(m: Machine, i: Instruction, env: Env)
    requires i.opcode == OP_ILLEGAL
    ensures Execute(m, i, env) == Stop
  {
    hide Reg;
  }
}

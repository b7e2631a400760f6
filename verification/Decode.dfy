/** The decoded instruction record, the decoder of 32-bit instructions, and the translator of
    16-bit compressed instructions into the same record. */
module Decode {
  import A = Alu

  datatype Instruction = Instruction(opcode: bv8, rd: bv5, rs1: bv5, rs2: bv5, funct3: bv3, funct7: bv7, imm: bv64,
                                     size: bv64)

  const OP_LUI: bv8 := 0x37
  const OP_AUIPC: bv8 := 0x17
  const OP_JAL: bv8 := 0x6F
  const OP_JALR: bv8 := 0x67
  const OP_BRANCH: bv8 := 0x63
  const OP_LOAD: bv8 := 0x03
  const OP_STORE: bv8 := 0x23
  const OP_I_ARITH: bv8 := 0x13
  const OP_R_ARITH: bv8 := 0x33
  const OP_I_ARITH_W: bv8 := 0x1B
  const OP_R_ARITH_W: bv8 := 0x3B
  const OP_SYSTEM: bv8 := 0x73
  const OP_AMO: bv8 := 0x2F
  const OP_FLW_FLD: bv8 := 0x07
  const OP_FSW_FSD: bv8 := 0x27
  const OP_FENCE: bv8 := 0x0F
  const OP_FMADD: bv8 := 0x43
  const OP_FMSUB: bv8 := 0x47
  const OP_FNMSUB: bv8 := 0x4B
  const OP_FNMADD: bv8 := 0x4F
  const OP_FP: bv8 := 0x53
  const OP_ILLEGAL: bv8 := 0xFF

  // ---------------------------------------------------------------- 32-bit instructions

  function Sext12(x: bv12): bv64 {
    if x & 0x800 != 0 then (x as bv64) | 0xFFFF_FFFF_FFFF_F000 else x as bv64
  }

  function Sext13(x: bv13): bv64 {
    if x & 0x1000 != 0 then (x as bv64) | 0xFFFF_FFFF_FFFF_E000 else x as bv64
  }

  function Sext21(x: bv21): bv64 {
    if x & 0x10_0000 != 0 then (x as bv64) | 0xFFFF_FFFF_FFE0_0000 else x as bv64
  }

  function ImmI(raw: bv32): bv64 {
    Sext12((raw >> 20) as bv12)
  }

  function ImmS(raw: bv32): bv64 {
    Sext12((((raw >> 25) << 5) | ((raw >> 7) & 0x1F)) as bv12)
  }

  function ImmB(raw: bv32): bv64 {
    Sext13((((raw >> 31) << 12) | (((raw >> 7) & 1) << 11)
            | (((raw >> 25) & 0x3F) << 5) | (((raw >> 8) & 0xF) << 1)) as bv13)
  }

  function ImmU(raw: bv32): bv64 {
    A.Sext32(raw & 0xFFFF_F000)
  }

  function ImmJ(raw: bv32): bv64 {
    Sext21((((raw >> 31) << 20) | (((raw >> 12) & 0xFF) << 12)
            | (((raw >> 20) & 1) << 11) | (((raw >> 21) & 0x3FF) << 1)) as bv21)
  }

  function ImmOf(opcode: bv8, raw: bv32): bv64 {
    if opcode == OP_JALR || opcode == OP_LOAD || opcode == OP_FLW_FLD
      || opcode == OP_I_ARITH || opcode == OP_I_ARITH_W || opcode == OP_SYSTEM then ImmI(raw)
    else if opcode == OP_STORE || opcode == OP_FSW_FSD then ImmS(raw)
    else if opcode == OP_BRANCH then ImmB(raw)
    else if opcode == OP_LUI || opcode == OP_AUIPC then ImmU(raw)
    else if opcode == OP_JAL then ImmJ(raw)
    else 0
  }

  function DecodeWord(raw: bv32): Instruction {
    var opcode := (raw & 0x7F) as bv8;
    Instruction(opcode, ((raw >> 7) & 0x1F) as bv5, ((raw >> 15) & 0x1F) as bv5, ((raw >> 20) & 0x1F) as bv5,
                ((raw >> 12) & 0x7) as bv3, ((raw >> 25) & 0x7F) as bv7, ImmOf(opcode, raw), 4)
  }

  // ---------------------------------------------------------------- 16-bit instructions

  function Short(x: bv16): bv5 { ((x & 0x7) as bv5) + 8 }

  function RdS(r: bv16): bv5 { Short(r >> 2) }

  function Rs1S(r: bv16): bv5 { Short(r >> 7) }

  function Rd(r: bv16): bv5 { ((r >> 7) & 0x1F) as bv5 }

  function Rs2(r: bv16): bv5 { ((r >> 2) & 0x1F) as bv5 }

  // Sign extension: copy the field's top bit into the bits above it.
  function Sext(v: bv64, bit: bv64, high: bv64): bv64 {
    if v & bit != 0 then v | high else v
  }

  function W(r: bv16): bv64 { r as bv64 }

  function ImmCi(r: bv16): bv64 {
    Sext((((W(r) >> 12) & 1) << 5) | ((W(r) >> 2) & 0x1F), 0x20, 0xFFFF_FFFF_FFFF_FFC0)
  }

  function ImmAddi16sp(r: bv16): bv64 {
    Sext((((W(r) >> 12) & 1) << 9) | (((W(r) >> 6) & 1) << 4) | (((W(r) >> 5) & 1) << 6)
         | (((W(r) >> 3) & 3) << 7) | (((W(r) >> 2) & 1) << 5),
         0x200, 0xFFFF_FFFF_FFFF_FC00)
  }

  function ImmLui(r: bv16): bv64 {
    Sext((((W(r) >> 12) & 1) << 17) | (((W(r) >> 2) & 0x1F) << 12), 0x2_0000, 0xFFFF_FFFF_FFFC_0000)
  }

  function ImmClw(r: bv16): bv64 {
    (((W(r) >> 10) & 7) << 3) | (((W(r) >> 6) & 1) << 2) | (((W(r) >> 5) & 1) << 6)
  }

  function ImmCld(r: bv16): bv64 {
    (((W(r) >> 10) & 7) << 3) | (((W(r) >> 5) & 3) << 6)
  }

  function ImmCj(r: bv16): bv64 {
    Sext((((W(r) >> 12) & 1) << 11) | (((W(r) >> 11) & 1) << 4) | (((W(r) >> 9) & 3) << 8) | (((W(r) >> 8) & 1) << 10)
         | (((W(r) >> 7) & 1) << 6) | (((W(r) >> 6) & 1) << 7) | (((W(r) >> 3) & 7) << 1) | (((W(r) >> 2) & 1) << 5),
         0x800, 0xFFFF_FFFF_FFFF_F000)
  }

  function ImmCb(r: bv16): bv64 {
    Sext((((W(r) >> 12) & 1) << 8) | (((W(r) >> 10) & 3) << 3) | (((W(r) >> 5) & 3) << 6)
         | (((W(r) >> 3) & 3) << 1) | (((W(r) >> 2) & 1) << 5),
         0x100, 0xFFFF_FFFF_FFFF_FE00)
  }

  function ImmLwsp(r: bv16): bv64 {
    (((W(r) >> 12) & 1) << 5) | (((W(r) >> 4) & 7) << 2) | (((W(r) >> 2) & 3) << 6)
  }

  function ImmLdsp(r: bv16): bv64 {
    (((W(r) >> 12) & 1) << 5) | (((W(r) >> 5) & 3) << 3) | (((W(r) >> 2) & 7) << 6)
  }

  function ImmSwsp(r: bv16): bv64 {
    (((W(r) >> 9) & 0xF) << 2) | (((W(r) >> 7) & 3) << 6)
  }

  function ImmSdsp(r: bv16): bv64 {
    (((W(r) >> 10) & 7) << 3) | (((W(r) >> 7) & 7) << 6)
  }

  function ImmAddi4spn(r: bv16): bv64 {
    (((W(r) >> 6) & 1) << 2) | (((W(r) >> 5) & 1) << 3) | (((W(r) >> 11) & 3) << 4) | (((W(r) >> 7) & 0xF) << 6)
  }

  // The six-bit shift amount of C.SLLI.
  function ImmShift(r: bv16): bv64 {
    (((W(r) >> 12) & 1) << 5) | ((W(r) >> 2) & 0x1F)
  }

  function Shamt(r: bv16): bv64 { ImmCi(r) & 0x3F }

  const ILLEGAL := Instruction(OP_ILLEGAL, 0, 0, 0, 0, 0, 0, 2)

  function I(opcode: bv8, rd: bv5, rs1: bv5, funct3: bv3, funct7: bv7, imm: bv64): Instruction {
    Instruction(opcode, rd, rs1, 0, funct3, funct7, imm, 2)
  }

  function S(opcode: bv8, rs1: bv5, rs2: bv5, funct3: bv3, imm: bv64): Instruction {
    Instruction(opcode, 0, rs1, rs2, funct3, 0, imm, 2)
  }

  function R(opcode: bv8, rd: bv5, rs1: bv5, rs2: bv5, funct3: bv3, funct7: bv7): Instruction {
    Instruction(opcode, rd, rs1, rs2, funct3, funct7, 0, 2)
  }

  function F3(r: bv16): bv3 { ((r >> 13) & 0x7) as bv3 }

  function Quadrant(r: bv16): bv2 { (r & 0x3) as bv2 }

  predicate B12(r: bv16) { (r >> 12) & 1 != 0 }

  function Sub(r: bv16): bv2 { ((r >> 10) & 0x3) as bv2 }

  function Arith(r: bv16): bv2 { ((r >> 5) & 0x3) as bv2 }

  function Quadrant0(r: bv16): Instruction {
    match F3(r)
    case 0 => I(OP_I_ARITH, RdS(r), 2, 0, 0, ImmAddi4spn(r))
    case 1 => I(OP_FLW_FLD, RdS(r), Rs1S(r), 3, 0, ImmCld(r))
    case 2 => I(OP_LOAD, RdS(r), Rs1S(r), 2, 0, ImmClw(r))
    case 3 => I(OP_LOAD, RdS(r), Rs1S(r), 3, 0, ImmCld(r))
    case 4 => ILLEGAL
    case 5 => S(OP_FSW_FSD, Rs1S(r), RdS(r), 3, ImmCld(r))
    case 6 => S(OP_STORE, Rs1S(r), RdS(r), 2, ImmClw(r))
    case _ => S(OP_STORE, Rs1S(r), RdS(r), 3, ImmCld(r))
  }

  function MiscAlu(r: bv16): Instruction {
    var rd, rs2 := Rs1S(r), RdS(r);
    match Sub(r)
    case 0 => I(OP_I_ARITH, rd, rd, 5, 0, Shamt(r))
    case 1 => I(OP_I_ARITH, rd, rd, 5, 0x20, Shamt(r))
    case 2 => I(OP_I_ARITH, rd, rd, 7, 0, ImmCi(r))
    case _ =>
      if !B12(r) then
        match Arith(r)
        case 0 => R(OP_R_ARITH, rd, rd, rs2, 0, 0x20)
        case 1 => R(OP_R_ARITH, rd, rd, rs2, 4, 0)
        case 2 => R(OP_R_ARITH, rd, rd, rs2, 6, 0)
        case _ => R(OP_R_ARITH, rd, rd, rs2, 7, 0)
      else
        match Arith(r)
        case 0 => R(OP_R_ARITH_W, rd, rd, rs2, 0, 0x20)
        case 1 => R(OP_R_ARITH_W, rd, rd, rs2, 0, 0)
        case _ => R(OP_ILLEGAL, rd, rd, rs2, 0, 0)
  }

  function Quadrant1(r: bv16): Instruction {
    match F3(r)
    case 0 => I(OP_I_ARITH, Rd(r), Rd(r), 0, 0, ImmCi(r))
    case 1 => I(OP_I_ARITH_W, Rd(r), Rd(r), 0, 0, ImmCi(r))
    case 2 => I(OP_I_ARITH, Rd(r), 0, 0, 0, ImmCi(r))
    case 3 =>
      if Rd(r) == 2 then I(OP_I_ARITH, 2, 2, 0, 0, ImmAddi16sp(r))
      else I(OP_LUI, Rd(r), 0, 0, 0, ImmLui(r))
    case 4 => MiscAlu(r)
    case 5 => I(OP_JAL, 0, 0, 0, 0, ImmCj(r))
    case 6 => S(OP_BRANCH, Rs1S(r), 0, 0, ImmCb(r))
    case _ => S(OP_BRANCH, Rs1S(r), 0, 1, ImmCb(r))
  }

  function JumpMoveAdd(r: bv16): Instruction {
    var rs1, rs2 := Rd(r), Rs2(r);
    if !B12(r) && rs2 == 0 then I(OP_JALR, 0, rs1, 0, 0, 0)
    else if !B12(r) then R(OP_R_ARITH, rs1, 0, rs2, 0, 0)
    else if rs1 == 0 && rs2 == 0 then I(OP_SYSTEM, 0, 0, 0, 0, 1)
    else if rs2 == 0 then I(OP_JALR, 1, rs1, 0, 0, 0)
    else R(OP_R_ARITH, rs1, rs1, rs2, 0, 0)
  }

  function Quadrant2(r: bv16): Instruction {
    match F3(r)
    case 0 => I(OP_I_ARITH, Rd(r), Rd(r), 1, 0, ImmShift(r))
    case 1 => I(OP_FLW_FLD, Rd(r), 2, 3, 0, ImmLdsp(r))
    case 2 => I(OP_LOAD, Rd(r), 2, 2, 0, ImmLwsp(r))
    case 3 => I(OP_LOAD, Rd(r), 2, 3, 0, ImmLdsp(r))
    case 4 => JumpMoveAdd(r)
    case 5 => S(OP_FSW_FSD, 2, Rs2(r), 3, ImmSdsp(r))
    case 6 => S(OP_STORE, 2, Rs2(r), 2, ImmSwsp(r))
    case _ => S(OP_STORE, 2, Rs2(r), 3, ImmSdsp(r))
  }

  function DecodeRvc(r: bv16): Instruction {
    match Quadrant(r)
    case 0 => Quadrant0(r)
    case 1 => Quadrant1(r)
    case 2 => Quadrant2(r)
    case _ => Instruction(0, 0, 0, 0, 0, 0, 0, 2)
  }
}

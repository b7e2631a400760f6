/** The atomics over numbers: what LR, SC and each AMO, on words and on doublewords, leave in
    memory, in rd and in the reservation. */
module AtomicNumbers {
  import opened Words
  import opened Memory
  import opened Mmu
  import opened Numbers
  import opened Shifts
  import opened Isa
  import opened Hart
  import opened Decode
  import opened Machine
  import A = Alu
  import At = Atomics

  // ---------------------------------------------------------------- On numbers

  // funct3 is 2 for a word; any other value is taken for a doubleword.
  function Bytewidth(funct3: bv3): nat { if funct3 == 2 then 4 else 8 }

  // The value read from the cell, sign-extended if it is a word.
  function CellValue(m: Ram, a: nat, w: nat): nat
    requires InRam(m, a, w)
  {
    if w == 4 then Extended(GetNat(m, a, 4)) else GetNat(m, a, w)
  }

  // The operation: the upper five bits of funct7.
  function Operation(funct7: bv7): bv5 { (funct7 >> 2) as bv5 }

  // What operation f makes of the value read and the operand.
  function Amo(f: bv5, prev: nat, src: nat): nat {
    var a, b := Reading(prev, TWO_64), Reading(src, TWO_64);
    match f
    case 0x01 => src
    case 0x00 => (prev + src) % TWO_64
    case 0x04 => XorNat(prev, src)
    case 0x0C => AndNat(prev, src)
    case 0x08 => OrNat(prev, src)
    case 0x10 => if a < b then prev else src
    case 0x14 => if a > b then prev else src
    case 0x18 => if prev < src then prev else src
    case 0x1C => if prev > src then prev else src
    case _ => prev
  }

  // ---------------------------------------------------------------- Bytes as numbers

  lemma OperationNumber(funct7: bv7)
    ensures Funct5(funct7) == Operation(funct7)
  {
  }

  predicate Compares(f: bv5) { f == 0x10 || f == 0x14 || f == 0x18 || f == 0x1C }

  lemma CompareNumber(f: bv5, prev: bv64, src: bv64)
    requires Compares(f)
    ensures ToNat(AmoResult(f, prev, src)) == Amo(f, ToNat(prev), ToNat(src))
  {
    hide ToNat, A.Add, A.Xor, A.And, A.Or, A.Less, A.LessU, Reading, Int, XorNat, AndNat, OrNat;
    ReadingIsInt(prev);
    ReadingIsInt(src);
    Comparisons(prev, src);
    Comparisons(src, prev);
  }

  lemma ComputeNumber(f: bv5, prev: bv64, src: bv64)
    requires !Compares(f)
    ensures ToNat(AmoResult(f, prev, src)) == Amo(f, ToNat(prev), ToNat(src))
  {
    hide ToNat, A.Add, A.Xor, A.And, A.Or, A.Less, A.LessU, Reading, XorNat, AndNat, OrNat;
    match f
    case 0x00 => Sum(prev, src);
    case 0x04 => XorNumber(prev, src);
    case 0x0C => AndNumber(prev, src);
    case 0x08 => OrNumber(prev, src);
    case _ =>
  }

  lemma AmoNumber(f: bv5, prev: bv64, src: bv64)
    ensures ToNat(AmoResult(f, prev, src)) == Amo(f, ToNat(prev), ToNat(src))
  {
    hide ToNat, AmoResult, Amo, Compares;
    if Compares(f) {
      CompareNumber(f, prev, src);
    } else {
      ComputeNumber(f, prev, src);
    }
  }

  lemma WideBytes(s: seq<bv8>)
    requires |s| == 4
    ensures Bytes64(A.Wide(Word32(s))) == [s[0], s[1], s[2], s[3], 0, 0, 0, 0] && Digit(0) == 0
  {
  }

  lemma WordNumber(s: seq<bv8>)
    requires |s| == 4
    ensures Number32(Word32(s)) == Nat(s)
  {
    hide Bytes64, Word32, A.Wide, Digit;
    WideBytes(s);
    Nat8(Bytes64(A.Wide(Word32(s))));
    Nat4(s, 0);
    assert s[0..] == s && Nat(s[4..]) == 0;
    hide Nat;
  }

  lemma DoubleNumber(s: seq<bv8>)
    requires |s| == 8
    ensures ToNat(WordOf(s)) == Nat(s)
  {
    hide Bytes64, Word64, Word32, Word16, Nat;
    BytesRoundTrip(s);
  }

  lemma {:induction false} BytesPrefix(n: nat, w: nat, v: nat)
    requires w <= v
    ensures Bytes(n, v)[..w] == Bytes(n, w)
    decreases w
  {
    if w > 0 {
      BytesPrefix(n / 256, w - 1, v - 1);
      FirstThen((n % 256) as bv8, Bytes(n / 256, v - 1), w);
    }
  }

  lemma FirstThen(b: bv8, s: seq<bv8>, w: nat)
    requires 1 <= w <= |s| + 1
    ensures ([b] + s)[..w] == [b] + s[..w - 1]
  {
  }

  lemma StoredBytes(v: bv64, w: nat)
    requires w <= 8
    ensures LowBytes(v, w) == Bytes(ToNat(v), w)
  {
    hide Bytes64, Nat, Bytes;
    BytesOfNat(Bytes64(v));
    BytesPrefix(ToNat(v), w, 8);
  }

  lemma ReadNumber(m: Ram, a: nat, funct3: bv3)
    requires InRam(m, a, Bytewidth(funct3))
    ensures var v := WordOf(Peek(m, a, Bytewidth(funct3)));
            ToNat(if funct3 == 2 then A.Sext32(A.Low32(v)) else v) == CellValue(m, a, Bytewidth(funct3))
  {
    hide ToNat, A.Sext32, A.Low32, Nat, WordOf, Number32, Extended;
    var s := Peek(m, a, Bytewidth(funct3));
    if funct3 == 2 {
      At.LowOfWord(s);
      WordNumber(s);
      SextNumber(Word32(s));
    } else {
      DoubleNumber(s);
    }
  }

  // ---------------------------------------------------------------- Instructions

  // The address that rs1 names translates for the access to pa, and the cell is in RAM.
  predicate Cell(m: Machine, i: Instruction, access: Access, m': Machine, pa: bv64) {
    && Translate(m, m.cpu.regs[i.rs1 as nat], access) == Some((m', pa)) && pa != MMU_FAULT
    && InRam(m'.ram, ToNat(pa), Bytewidth(i.funct3))
  }

  function Next64(m: Machine, i: Instruction): nat {
    (ToNat(m.cpu.pc) + ToNat(i.size)) % TWO_64
  }

  lemma FinishFollows(m: Machine, i: Instruction, v: bv64)
    ensures var e := Next(Advance(m.(cpu := SetReg(m.cpu, i.rd, v)), i.size));
            Follows(m, i.rd, e, Goes(Some(ToNat(v)), Next64(m, i)))
  {
    hide ToNat, A.Add, Follows, SetReg;
    RetireFollows(m, i.rd, v, i.size);
  }

  lemma ReadsCell(m: Machine, pa: bv64, funct3: bv3, r: Reply)
    requires InRam(m.ram, ToNat(pa), Bytewidth(funct3))
    ensures var v := WordOf(Peek(m.ram, ToNat(pa), Bytewidth(funct3)));
            AmoRead(m, pa, funct3, r) == Some((m, if funct3 == 2 then A.Sext32(A.Low32(v)) else v))
  {
    hide ToNat, WordOf, A.Sext32, A.Low32, Answer, PlicEffect, Peek;
  }

  lemma WritesCell(m: Machine, pa: bv64, funct3: bv3, v: bv64, r: Reply)
    requires InRam(m.ram, ToNat(pa), Bytewidth(funct3))
    ensures PhysWrite(m, pa, AmoWidth(funct3), v, r)
         == Some(m.(ram := Poke(m.ram, ToNat(pa), Bytes(ToNat(v), Bytewidth(funct3)))))
  {
    hide ToNat, LowBytes, Answer, PlicEffect, Poke, Bytes;
    StoredBytes(v, Bytewidth(funct3));
  }

  /** LR leaves in rd the word at the address, sign-extended, or the doubleword, and reserves
      the virtual address. */
  lemma LrByNumbers(m: Machine, i: Instruction, env: Env, m': Machine, pa: bv64)
    requires i.opcode == 0x2F && Operation(i.funct7) == 2 && Cell(m, i, Load, m', pa)
    ensures Follows(m'.(reservation := m.cpu.regs[i.rs1 as nat]), i.rd, Execute(m, i, env),
                    Goes(Some(CellValue(m'.ram, ToNat(pa), Bytewidth(i.funct3))), Next64(m', i)))
  {
    hide ToNat, Translate, PhysRead, AmoRead, CellValue, Follows, SetReg, WordOf, Peek, A.Sext32, A.Low32, Advance;
    OperationNumber(i.funct7);
    var m1 := m'.(reservation := m.cpu.regs[i.rs1 as nat]);
    ReadsCell(m1, pa, i.funct3, env.first);
    ReadNumber(m'.ram, ToNat(pa), i.funct3);
    var v := AmoRead(m1, pa, i.funct3, env.first).value.1;
    FinishFollows(m1, i, v);
  }

  /** SC at the reserved address stores the low 4 or 8 bytes of rs2, leaves 0 in rd and drops
      the reservation. */
  lemma ScByNumbers(m: Machine, i: Instruction, env: Env, m': Machine, pa: bv64)
    requires i.opcode == 0x2F && Operation(i.funct7) == 3 && Cell(m, i, Store, m', pa)
    requires m.cpu.regs[i.rs1 as nat] == m.reservation
    ensures var stored := Bytes(ToNat(m.cpu.regs[i.rs2 as nat]), Bytewidth(i.funct3));
            Follows(m'.(ram := Poke(m'.ram, ToNat(pa), stored), reservation := 0xFFFF_FFFF_FFFF_FFFF), i.rd,
                    Execute(m, i, env), Goes(Some(0), Next64(m', i)))
  {
    hide ToNat, Translate, PhysWrite, Follows, SetReg, Advance, Bytes, Poke;
    OperationNumber(i.funct7);
    TranslateFrame(m, m.cpu.regs[i.rs1 as nat], Store);
    var y := m.cpu.regs[i.rs2 as nat];
    WritesCell(m', pa, i.funct3, y, env.first);
    var ram := Poke(m'.ram, ToNat(pa), Bytes(ToNat(y), Bytewidth(i.funct3)));
    ZeroNat();
    FinishFollows(m'.(ram := ram, reservation := NO_RESERVATION), i, 0);
  }

  /** SC elsewhere leaves 1 in rd and nothing more than the translation did. */
  lemma FailedScByNumbers(m: Machine, i: Instruction, env: Env, m': Machine, pa: bv64)
    requires i.opcode == 0x2F && Operation(i.funct7) == 3 && Cell(m, i, Store, m', pa)
    requires m.cpu.regs[i.rs1 as nat] != m.reservation
    ensures Follows(m', i.rd, Execute(m, i, env), Goes(Some(1), Next64(m', i)))
  {
    hide ToNat, Translate, PhysWrite, Follows, SetReg, Advance;
    OperationNumber(i.funct7);
    TranslateFrame(m, m.cpu.regs[i.rs1 as nat], Store);
    Small();
    FinishFollows(m', i, 1);
  }

  /** An AMO leaves the old value in rd, the word sign-extended, and in the cell the low 4 or 8
      bytes of what its operation makes of that value and rs2. */
  lemma AmoByNumbers(m: Machine, i: Instruction, env: Env, m': Machine, pa: bv64)
    requires i.opcode == 0x2F && Operation(i.funct7) != 2 && Operation(i.funct7) != 3 && Cell(m, i, Store, m', pa)
    ensures var a, w := ToNat(pa), Bytewidth(i.funct3);
            var prev := CellValue(m'.ram, a, w);
            var result := Amo(Operation(i.funct7), prev, ToNat(m.cpu.regs[i.rs2 as nat]));
            var ram := Poke(m'.ram, a, Bytes(result, w));
            Follows(m'.(ram := ram), i.rd, Execute(m, i, env), Goes(Some(prev), Next64(m', i)))
  {
    hide ToNat, Translate, PhysRead, PhysWrite, AmoRead, CellValue, Follows, SetReg, WordOf, Peek, Poke, Bytes;
    hide A.Sext32, A.Low32, Advance, AmoResult, Amo;
    OperationNumber(i.funct7);
    TranslateFrame(m, m.cpu.regs[i.rs1 as nat], Store);
    ReadsCell(m', pa, i.funct3, env.first);
    ReadNumber(m'.ram, ToNat(pa), i.funct3);
    var v := AmoRead(m', pa, i.funct3, env.first).value.1;
    var y := m.cpu.regs[i.rs2 as nat];
    var result := AmoResult(Operation(i.funct7), v, y);
    AmoNumber(Operation(i.funct7), v, y);
    WritesCell(m', pa, i.funct3, result, env.second);
    FinishFollows(m'.(ram := Poke(m'.ram, ToNat(pa), Bytes(ToNat(result), Bytewidth(i.funct3)))), i, v);
  }
}

/** Atomics: what a word AMO computed in 64 bits means in 32, and the reservation protocol of
    LR and SC over whole runs. */
module Atomics {
  import opened Words
  import opened Memory
  import opened Mmu
  import opened MmuStability
  import opened Hart
  import opened Decode
  import opened Machine
  import opened Confinement
  import A = Alu
  import N = Numbers

  // ---------------------------------------------------------------- 32-bit semantics

  predicate Less32(x: bv32, y: bv32) { (x ^ 0x8000_0000) < (y ^ 0x8000_0000) }

  predicate LessU32(x: bv32, y: bv32) { x < y }

  function Xor32(x: bv32, y: bv32): bv32 { x ^ y }

  function And32(x: bv32, y: bv32): bv32 { x & y }

  function Or32(x: bv32, y: bv32): bv32 { x | y }

  // The AMO of the architecture on 32-bit words.
  function Amo32(funct5: bv5, prev: bv32, src: bv32): bv32 {
    match funct5
    case 0x01 => src
    case 0x00 => A.Add32(prev, src)
    case 0x04 => Xor32(prev, src)
    case 0x0C => And32(prev, src)
    case 0x08 => Or32(prev, src)
    case 0x10 => if Less32(prev, src) then prev else src
    case 0x14 => if Less32(src, prev) then prev else src
    case 0x18 => if LessU32(prev, src) then prev else src
    case 0x1C => if LessU32(src, prev) then prev else src
    case _ => prev
  }

  predicate SignedChoice(funct5: bv5) { funct5 == 0x10 || funct5 == 0x14 }

  predicate UnsignedChoice(funct5: bv5) { funct5 == 0x18 || funct5 == 0x1C }

  const MAX32: bv32 := 0x7FFF_FFFF
  const MIN32: bv32 := 0x8000_0000

  // src lies above, or below, every sign-extended word in the signed order.
  predicate AboveAll(src: bv64) { A.Less(A.Sext32(MAX32), src) }

  predicate BelowAll(src: bv64) { A.Less(src, A.Sext32(MIN32)) }

  // src stands among the sign-extended words where its low half stands among the words.
  predicate InPlace(funct5: bv5, src: bv64) {
    var low := A.Low32(src);
    || A.Sext32(low) == src
    || (SignedChoice(funct5) && ((low == MAX32 && AboveAll(src)) || (low == MIN32 && BelowAll(src))))
    || (UnsignedChoice(funct5) && (low == MAX32 || low == MIN32))
  }

  predicate Refines(funct5: bv5, prev: bv32, src: bv64) {
    A.Low32(AmoResult(funct5, A.Sext32(prev), src)) == Amo32(funct5, prev, A.Low32(src))
  }

  // ---------------------------------------------------------------- Order under sign extension

  lemma WideOrder(x: bv32, y: bv32)
    requires LessU32(x, y)
    ensures A.LessU(A.Wide(x), A.Wide(y))
  {
  }

  lemma WideOrderBack(x: bv32, y: bv32)
    requires A.LessU(A.Wide(x), A.Wide(y))
    ensures LessU32(x, y)
  {
  }

  lemma HighOrder(x: bv32, y: bv32)
    requires LessU32(x, y)
    ensures A.LessU(A.High(x), A.High(y))
  {
  }

  lemma HighOrderBack(x: bv32, y: bv32)
    requires A.LessU(A.High(x), A.High(y))
    ensures LessU32(x, y)
  {
  }

  lemma MixedOrder(x: bv32, y: bv32)
    requires !A.Neg(x) && A.Neg(y)
    ensures A.LessU(A.Wide(x), A.High(y)) && LessU32(x, y)
    ensures !A.LessU(A.High(y), A.Wide(x)) && !LessU32(y, x)
  {
  }

  lemma SameSign(x: bv32, y: bv32)
    requires A.Neg(x) == A.Neg(y)
    ensures Less32(x, y) == LessU32(x, y)
  {
  }

  lemma SameSign64(x: bv64, y: bv64)
    requires A.Neg64(x) == A.Neg64(y)
    ensures A.Less(x, y) == A.LessU(x, y)
  {
  }

  lemma OtherSign(x: bv32, y: bv32)
    requires A.Neg(x) && !A.Neg(y)
    ensures Less32(x, y) && !Less32(y, x)
  {
  }

  lemma OtherSign64(x: bv64, y: bv64)
    requires A.Neg64(x) && !A.Neg64(y)
    ensures A.Less(x, y) && !A.Less(y, x)
  {
  }

  /** Sign extension preserves the unsigned and the signed order of words. */
  lemma SextOrder(x: bv32, y: bv32)
    ensures A.LessU(A.Sext32(x), A.Sext32(y)) <==> LessU32(x, y)
    ensures A.Less(A.Sext32(x), A.Sext32(y)) <==> Less32(x, y)
  {
    SextUnsignedOrder(x, y);
    hide A.Less, A.LessU, A.Sext32, A.Low32, Less32, LessU32, A.High, A.Wide, A.Neg, A.Neg64;
    A.SextParts(x);
    A.SextParts(y);
    if A.Neg(x) == A.Neg(y) {
      SameSign(x, y);
      SameSign64(A.Sext32(x), A.Sext32(y));
    } else if A.Neg(x) {
      OtherSign(x, y);
      OtherSign64(A.Sext32(x), A.Sext32(y));
    } else {
      OtherSign(y, x);
      OtherSign64(A.Sext32(y), A.Sext32(x));
    }
  }

  lemma SextUnsignedOrder(x: bv32, y: bv32)
    ensures A.LessU(A.Sext32(x), A.Sext32(y)) <==> LessU32(x, y)
  {
    hide A.Sext32, A.LessU, LessU32, A.Low32, A.High, A.Wide, A.Neg, A.Neg64;
    A.SextParts(x);
    A.SextParts(y);
    if A.Neg(x) == A.Neg(y) {
      if LessU32(x, y) {
        WideOrder(x, y);
        HighOrder(x, y);
      }
      if A.LessU(A.Wide(x), A.Wide(y)) {
        WideOrderBack(x, y);
      }
      if A.LessU(A.High(x), A.High(y)) {
        HighOrderBack(x, y);
      }
    } else if A.Neg(y) {
      MixedOrder(x, y);
    } else {
      MixedOrder(y, x);
    }
  }

  // ---------------------------------------------------------------- Each operation

  lemma LowXor(x: bv64, y: bv64)
    ensures A.Low32(A.Xor(x, y)) == Xor32(A.Low32(x), A.Low32(y))
  {
  }

  lemma LowAnd(x: bv64, y: bv64)
    ensures A.Low32(A.And(x, y)) == And32(A.Low32(x), A.Low32(y))
  {
  }

  lemma LowOr(x: bv64, y: bv64)
    ensures A.Low32(A.Or(x, y)) == Or32(A.Low32(x), A.Low32(y))
  {
  }

  lemma LowSum(x: bv64, y: bv64)
    ensures A.Low32(x + y) == A.Add32((x & 0xFFFF_FFFF) as bv32, (y & 0xFFFF_FFFF) as bv32)
  {
  }

  lemma PlainLow(x: bv64)
    ensures A.Low32(x) == (x & 0xFFFF_FFFF) as bv32
  {
  }

  lemma LowAdd(x: bv64, y: bv64)
    ensures A.Low32(A.Add(x, y)) == A.Add32(A.Low32(x), A.Low32(y))
  {
    hide A.Low32, A.Add32;
    LowSum(x, y);
    PlainLow(x);
    PlainLow(y);
  }

  // Swap, add and the logical operations refine the word operation for every operand.
  lemma ArithmeticRefines(funct5: bv5, prev: bv32, src: bv64)
    requires !SignedChoice(funct5) && !UnsignedChoice(funct5)
    ensures Refines(funct5, prev, src)
  {
    hide A.Low32, A.Sext32, A.Add, A.Xor, A.And, A.Or, A.Add32, Xor32, And32, Or32;
    A.LowSext(prev);
    LowXor(A.Sext32(prev), src);
    LowAnd(A.Sext32(prev), src);
    LowOr(A.Sext32(prev), src);
    LowAdd(A.Sext32(prev), src);
  }

  lemma Ends(x: bv32)
    ensures !Less32(MAX32, x) && !Less32(x, MIN32)
    ensures x != MAX32 ==> Less32(x, MAX32)
    ensures x != MIN32 ==> Less32(MIN32, x)
  {
  }

  lemma EndsU(x: bv32)
    ensures A.Neg(x) ==> !LessU32(x, MAX32) && LessU32(MAX32, x) && !LessU32(x, MIN32)
    ensures !A.Neg(x) ==> LessU32(x, MIN32) && !LessU32(MIN32, x) && !LessU32(MAX32, x)
    ensures x != MAX32 && !A.Neg(x) ==> LessU32(x, MAX32)
    ensures x != MIN32 && A.Neg(x) ==> LessU32(MIN32, x)
  {
  }

  lemma EndSigns()
    ensures !A.Neg(MAX32) && A.Neg(MIN32)
  {
  }

  lemma Above(src: bv64, x: bv32)
    requires AboveAll(src)
    ensures A.Less(A.Sext32(x), src)
  {
    assert A.Sext32(MAX32) == 0x7FFF_FFFF;
  }

  lemma Below(src: bv64, x: bv32)
    requires BelowAll(src)
    ensures A.Less(src, A.Sext32(x))
  {
    assert A.Sext32(MIN32) == 0xFFFF_FFFF_8000_0000;
  }

  lemma Asymmetric64(x: bv64, y: bv64)
    ensures A.Less(x, y) ==> !A.Less(y, x)
  {
  }

  lemma SignedRefines(funct5: bv5, prev: bv32, src: bv64)
    requires SignedChoice(funct5) && InPlace(funct5, src)
    ensures Refines(funct5, prev, src)
  {
    hide A.Low32, A.Sext32, A.Less, A.LessU, Less32, LessU32, AboveAll, BelowAll;
    var low := A.Low32(src);
    A.LowSext(prev);
    if A.Sext32(low) == src {
      SextOrder(prev, low);
      SextOrder(low, prev);
    } else {
      Ends(prev);
      if low == MAX32 && AboveAll(src) {
        Above(src, prev);
      } else {
        Below(src, prev);
      }
      Asymmetric64(A.Sext32(prev), src);
      Asymmetric64(src, A.Sext32(prev));
    }
  }

  // A word that is not sign-extended lies between the two halves of those that are.
  lemma InGap(src: bv64)
    requires A.Sext32(A.Low32(src)) != src
    ensures A.LessU(0x7FFF_FFFF, src) && A.LessU(src, 0xFFFF_FFFF_8000_0000)
    ensures AboveAll(src) || BelowAll(src)
  {
    hide A.Sext32, A.Low32, A.Less, A.LessU;
    if !A.LessU(0x7FFF_FFFF, src) {
      LowHalf(src);
    }
    if !A.LessU(src, 0xFFFF_FFFF_8000_0000) {
      HighHalf(src);
    }
    GapSides(src);
  }

  lemma LowHalf(src: bv64)
    requires !A.LessU(0x7FFF_FFFF, src)
    ensures A.Sext32(A.Low32(src)) == src
  {
    assert src <= 0x7FFF_FFFF;
  }

  lemma HighHalf(src: bv64)
    requires !A.LessU(src, 0xFFFF_FFFF_8000_0000)
    ensures A.Sext32(A.Low32(src)) == src
  {
    assert src >= 0xFFFF_FFFF_8000_0000;
  }

  lemma GapSides(src: bv64)
    requires A.LessU(0x7FFF_FFFF, src) && A.LessU(src, 0xFFFF_FFFF_8000_0000)
    ensures AboveAll(src) || BelowAll(src)
  {
    assert A.Sext32(MAX32) == 0x7FFF_FFFF && A.Sext32(MIN32) == 0xFFFF_FFFF_8000_0000;
  }

  lemma GapOrder(src: bv64, x: bv32)
    requires A.LessU(0x7FFF_FFFF, src) && A.LessU(src, 0xFFFF_FFFF_8000_0000)
    ensures !A.Neg(x) ==> A.LessU(A.Sext32(x), src)
    ensures A.Neg(x) ==> A.LessU(src, A.Sext32(x))
  {
  }

  lemma AsymmetricU(x: bv64, y: bv64)
    ensures A.LessU(x, y) ==> !A.LessU(y, x)
  {
  }

  lemma UnsignedRefines(funct5: bv5, prev: bv32, src: bv64)
    requires UnsignedChoice(funct5) && InPlace(funct5, src)
    ensures Refines(funct5, prev, src)
  {
    hide A.Low32, A.Sext32, A.Less, A.LessU, Less32, LessU32, AboveAll, BelowAll, A.Neg;
    var low := A.Low32(src);
    A.LowSext(prev);
    if A.Sext32(low) == src {
      SextOrder(prev, low);
      SextOrder(low, prev);
    } else {
      EndsU(prev);
      InGap(src);
      GapOrder(src, prev);
      AsymmetricU(A.Sext32(prev), src);
      AsymmetricU(src, A.Sext32(prev));
    }
  }

  // A word whose result is wrong when src is not in place.
  function Witness(funct5: bv5, src: bv64): bv32 {
    if SignedChoice(funct5) then if AboveAll(src) then MAX32 else MIN32
    else if A.Neg(A.Low32(src)) then MIN32 else MAX32
  }

  lemma SignedWitness(funct5: bv5, src: bv64)
    requires SignedChoice(funct5) && !InPlace(funct5, src)
    ensures !Refines(funct5, Witness(funct5, src), src)
  {
    hide A.Low32, A.Sext32, A.Less, A.LessU, Less32, LessU32, A.Neg;
    var low, prev := A.Low32(src), Witness(funct5, src);
    A.LowSext(prev);
    InGap(src);
    Ends(low);
    Asymmetric64(A.Sext32(prev), src);
    Asymmetric64(src, A.Sext32(prev));
  }

  lemma UnsignedWitness(funct5: bv5, src: bv64)
    requires UnsignedChoice(funct5) && !InPlace(funct5, src)
    ensures !Refines(funct5, Witness(funct5, src), src)
  {
    hide A.Low32, A.Sext32, A.Less, A.LessU, Less32, LessU32, A.Neg, AboveAll, BelowAll;
    var low, prev := A.Low32(src), Witness(funct5, src);
    A.LowSext(prev);
    InGap(src);
    EndsU(low);
    EndSigns();
    GapOrder(src, prev);
    AsymmetricU(A.Sext32(prev), src);
    AsymmetricU(src, A.Sext32(prev));
  }

  /** A word AMO computed on 64-bit values has the 32-bit meaning for every memory word exactly
      when the operation does not compare, or its operand keeps its place under truncation. */
  lemma WordAmoExact(funct5: bv5, src: bv64)
    ensures (forall prev :: Refines(funct5, prev, src))
       <==> (SignedChoice(funct5) || UnsignedChoice(funct5) ==> InPlace(funct5, src))
  {
    hide Refines, InPlace, Witness, SignedChoice, UnsignedChoice;
    forall prev | SignedChoice(funct5) || UnsignedChoice(funct5) ==> InPlace(funct5, src)
      ensures Refines(funct5, prev, src)
    {
      if SignedChoice(funct5) {
        SignedRefines(funct5, prev, src);
      } else if UnsignedChoice(funct5) {
        UnsignedRefines(funct5, prev, src);
      } else {
        ArithmeticRefines(funct5, prev, src);
      }
    }
    if SignedChoice(funct5) && !InPlace(funct5, src) {
      SignedWitness(funct5, src);
    }
    if UnsignedChoice(funct5) && !InPlace(funct5, src) {
      UnsignedWitness(funct5, src);
    }
  }

  // A word max of 5 with 2^32, whose low word is 0, stores 0.
  lemma WordMaxDiffers()
    ensures Amo32(0x14, 5, A.Low32(0x1_0000_0000)) == 5
    ensures A.Low32(AmoResult(0x14, A.Sext32(5), 0x1_0000_0000)) == 0
    ensures !InPlace(0x14, 0x1_0000_0000)
  {
  }

  lemma LowOfWord(s: seq<bv8>)
    requires |s| == 4
    ensures A.Low32(WordOf(s)) == Word32(s)
  {
    hide Word32, Word16, Word64;
    LowOfWide(Word32(s));
  }

  lemma LowOfWide(w: bv32)
    ensures ((w as bv64) & 0xFFFF_FFFF) as bv32 == w
  {
  }

  lemma LowStored(v: bv64)
    ensures LowBytes(v, 4) == Bytes32(A.Low32(v))
  {
  }

  /** A word AMO in RAM stores the 32-bit result and returns the sign-extended old word. */
  lemma WordAmoRefines(m: Machine, i: Instruction, first: Reply, second: Reply)
    requires i.funct3 == 2
    requires Translate(m, Reg(m, i.rs1), Store).Some?
    requires var (m', pa) := Translate(m, Reg(m, i.rs1), Store).value; pa != MMU_FAULT && InRam(m'.ram, Place(pa), 4)
    requires var f := Funct5(i.funct7); SignedChoice(f) || UnsignedChoice(f) ==> InPlace(f, Reg(m, i.rs2))
    ensures var (m', pa) := Translate(m, Reg(m, i.rs1), Store).value;
            var word := Word32(Peek(m'.ram, Place(pa), 4));
            var stored := Amo32(Funct5(i.funct7), word, A.Low32(Reg(m, i.rs2)));
            var ram := Poke(m'.ram, Place(pa), Bytes32(stored));
            ExecAmo(m, i, first, second) == Next(m'.(ram := ram, cpu := SetReg(m.cpu, i.rd, A.Sext32(word))))
  {
    hide Resolve, Touch, ContextOf, Place, Trap, Funct5, AmoResult, Amo32, InPlace, SignedChoice, UnsignedChoice;
    hide Answer;
    hide A.Low32, A.Sext32, WordOf, LowBytes, Word32, Bytes32, SetReg, PlicEffect;
    var (m', pa) := Translate(m, Reg(m, i.rs1), Store).value;
    var bytes := Peek(m'.ram, Place(pa), 4);
    LowOfWord(bytes);
    LowStored(AmoResult(Funct5(i.funct7), A.Sext32(Word32(bytes)), Reg(m, i.rs2)));
    WordAmoExact(Funct5(i.funct7), Reg(m, i.rs2));
    assert Refines(Funct5(i.funct7), Word32(bytes), Reg(m, i.rs2));
  }

  // ---------------------------------------------------------------- The reservation

  // What an instruction does to the reservation.
  datatype Atomic = Reserved(va: bv64) | Conditional(va: bv64) | Failed(va: bv64) | Neither

  predicate Reaches(m: Machine, va: bv64, access: Access) {
    Translate(m, va, access).Some? && Translate(m, va, access).value.1 != MMU_FAULT
  }

  function Effect(m: Machine, i: Instruction): Atomic {
    var va, f := Reg(m, i.rs1), Funct5(i.funct7);
    if i.opcode != OP_AMO then Neither
    else if f == 2 && Reaches(m, va, Load) then Reserved(va)
    else if f == 3 && Reaches(m, va, Store) then if va == m.reservation then Conditional(va) else Failed(va)
    else Neither
  }

  function After(reservation: bv64, a: Atomic): bv64 {
    match a
    case Reserved(va) => va
    case Conditional(_) => NO_RESERVATION
    case _ => reservation
  }

  lemma {:induction false} DoAllFrame(m: Machine, deeds: seq<Deed>)
    ensures DoAll(m, deeds).reservation == m.reservation && DoAll(m, deeds).ram == m.ram
    decreases |deeds|
  {
    hide Plic.Read, Plic.Write, Plic.Raise, Plic.AfterEffect, U32Of, MaskOf;
    if deeds != [] {
      DoAllFrame(Do(m, deeds[0]), deeds[1..]);
    }
  }

  lemma AnswerFrame(m: Machine, r: Reply)
    requires r.Answers?
    ensures Answer(m, r).reservation == m.reservation
  {
    hide DoAll;
    DoAllFrame(if |r.dma| == |m.ram.bytes| then m.(ram := m.ram.(bytes := r.dma)) else m, r.deeds);
  }

  lemma PhysFrame(m: Machine, pa: bv64, w: nat, v: bv64, r: Reply)
    requires w <= 8
    ensures PhysRead(m, pa, w, r).Some? ==> PhysRead(m, pa, w, r).value.0.reservation == m.reservation
    ensures PhysWrite(m, pa, w, v, r).Some? ==> PhysWrite(m, pa, w, v, r).value.reservation == m.reservation
  {
    hide Place, Answer, Plic.Read, Plic.Write, Plic.AfterEffect, WordOf, Truncate, LowBytes, FromU32, U32Of, MaskOf;
    if r.Answers? {
      AnswerFrame(m, r);
    }
  }

  lemma AccessFrame(m: Machine, va: bv64, w: nat, v: bv64, r: Reply)
    requires w <= 8
    ensures VmRead(m, va, w, r).Halted? || VmRead(m, va, w, r).m.reservation == m.reservation
    ensures VmWrite(m, va, w, v, r).Halted? || VmWrite(m, va, w, v, r).m.reservation == m.reservation
  {
    hide PhysRead, PhysWrite, Translate;
    if Translate(m, va, Load).Some? {
      TranslateFrame(m, va, Load);
      PhysFrame(Translate(m, va, Load).value.0, Translate(m, va, Load).value.1, w, v, r);
    }
    if Translate(m, va, Store).Some? {
      TranslateFrame(m, va, Store);
      PhysFrame(Translate(m, va, Store).value.0, Translate(m, va, Store).value.1, w, v, r);
    }
  }

  lemma LoadFrame(m: Machine, i: Instruction, r: Reply)
    ensures ExecLoad(m, i, r).Next? ==> ExecLoad(m, i, r).m.reservation == m.reservation
  {
    hide VmRead, Extend, SetReg, A.Add, Reg;
    if LoadKind(i.funct3).Some? {
      AccessFrame(m, A.Add(Reg(m, i.rs1), i.imm), LoadKind(i.funct3).value.0, 0, r);
    }
  }

  lemma StoreFrame(m: Machine, i: Instruction, r: Reply)
    ensures ExecStore(m, i, r).Next? ==> ExecStore(m, i, r).m.reservation == m.reservation
  {
    hide VmWrite, A.Add, Reg;
    if StoreWidth(i.funct3).Some? {
      AccessFrame(m, A.Add(Reg(m, i.rs1), i.imm), StoreWidth(i.funct3).value, Reg(m, i.rs2), r);
    }
  }

  lemma FpAccessFrame(m: Machine, i: Instruction, r: Reply)
    ensures ExecFpLoad(m, i, r).Next? ==> ExecFpLoad(m, i, r).m.reservation == m.reservation
    ensures ExecFpStore(m, i, r).Next? ==> ExecFpStore(m, i, r).m.reservation == m.reservation
  {
    hide VmRead, VmWrite, MergeLow, A.Add, Reg;
    AccessFrame(m, A.Add(Reg(m, i.rs1), i.imm), if i.funct3 == 2 then 4 else 8, m.cpu.fregs[i.rs2 as nat], r);
  }

  lemma LrFrame(m: Machine, i: Instruction, r: Reply)
    requires ExecLr(m, i, r).Next?
    ensures ExecLr(m, i, r).m.reservation == if Reaches(m, Reg(m, i.rs1), Load) then Reg(m, i.rs1) else m.reservation
  {
    hide PhysRead, Translate, SetReg, A.Sext32, A.Low32, Reg;
    var va := Reg(m, i.rs1);
    TranslateFrame(m, va, Load);
    var (m', pa) := Translate(m, va, Load).value;
    PhysFrame(m'.(reservation := va), pa, AmoWidth(i.funct3), 0, r);
  }

  lemma ScFrame(m: Machine, i: Instruction, r: Reply)
    requires ExecSc(m, i, r).Next?
    ensures ExecSc(m, i, r).m.reservation
         == if Reaches(m, Reg(m, i.rs1), Store) && Reg(m, i.rs1) == m.reservation then NO_RESERVATION else m.reservation
  {
    hide PhysWrite, Translate, SetReg, Reg;
    TranslateFrame(m, Reg(m, i.rs1), Store);
  }

  lemma AmoFrame(m: Machine, i: Instruction, first: Reply, second: Reply)
    requires ExecAmo(m, i, first, second).Next?
    ensures ExecAmo(m, i, first, second).m.reservation == m.reservation
  {
    hide PhysRead, PhysWrite, Translate, SetReg, A.Sext32, A.Low32, AmoResult, Funct5, Reg;
    var w := AmoWidth(i.funct3);
    TranslateFrame(m, Reg(m, i.rs1), Store);
    var (m', pa) := Translate(m, Reg(m, i.rs1), Store).value;
    PhysFrame(m', pa, w, 0, first);
    if pa != MMU_FAULT {
      var (m'', prev) := AmoRead(m', pa, i.funct3, first).value;
      PhysFrame(m'', pa, w, AmoResult(Funct5(i.funct7), prev, Reg(m'', i.rs2)), second);
    }
  }

  lemma AtomicFrame(m: Machine, i: Instruction, env: Env)
    requires i.opcode == OP_AMO && ExecAtomic(m, i, env).Next?
    ensures ExecAtomic(m, i, env).m.reservation == After(m.reservation, Effect(m, i))
  {
    hide ExecLr, ExecSc, ExecAmo, A.Add, Funct5, Reg, Reaches;
    var f := Funct5(i.funct7);
    if f == 2 {
      LrFrame(m, i, env.first);
    } else if f == 3 {
      ScFrame(m, i, env.first);
    } else {
      AmoFrame(m, i, env.first, env.second);
    }
  }

  // Nothing but a completed LR or a successful SC moves the reservation.
  lemma ExecuteFrame(m: Machine, i: Instruction, env: Env)
    requires Execute(m, i, env).Next?
    ensures Execute(m, i, env).m.reservation == After(m.reservation, Effect(m, i))
  {
    hide ExecLoad, ExecStore, ExecFpLoad, ExecFpStore, ExecAtomic, ExecEnvironment, ExecCsr, ExecRegister;
    hide Reaches, Funct5, Reg;
    LoadFrame(m, i, env.first);
    StoreFrame(m, i, env.first);
    FpAccessFrame(m, i, env.first);
    SystemFrame(m, i);
    RegisterFrame(m, i, env.fp);
    if i.opcode == OP_AMO {
      AtomicFrame(m, i, env);
    }
  }

  // ---------------------------------------------------------------- Over runs

  // What one step does to the reservation. A step that ends the process does nothing.
  function StepEffect(m: Machine, env: Env): Atomic {
    var m1 := Poll(m, env.polled);
    if Step(m, env).Ended? || !Step(m, env).event.Executed? then Neither
    else Effect(Translate(m1, m1.cpu.pc, Fetch).value.0, Step(m, env).event.i)
  }

  lemma PollFrame(m: Machine, deeds: seq<Deed>)
    ensures Poll(m, deeds).reservation == m.reservation
  {
    hide DoAll, SetStip, TimerDue, Bump;
    DoAllFrame(m.(cpu := m.cpu.(steps := Bump(m.cpu.steps))), deeds);
  }

  lemma StepFrame(m: Machine, env: Env)
    requires Step(m, env).Stepped?
    ensures Step(m, env).m.reservation == After(m.reservation, StepEffect(m, env))
    ensures StepEffect(m, env).Conditional? ==> StepEffect(m, env).va == m.reservation
  {
    hide Poll, Select, Trap, Translate, Fetched, Execute, Reaches, Funct5, Reg, IrqCause;
    var m1 := Poll(m, env.polled);
    PollFrame(m, env.polled);
    if Select(m1.cpu).None? {
      TranslateFrame(m1, m1.cpu.pc, Fetch);
      var (m', pa) := Translate(m1, m1.cpu.pc, Fetch).value;
      if pa != MMU_FAULT {
        ExecuteFrame(m', Fetched(m', pa).value, env);
      }
    }
  }

  // The effect of step n of a run.
  function EffectAt(m: Machine, envs: seq<Env>, n: nat): Atomic
    requires n < |envs|
  {
    if Run(m, envs[..n]).None? then Neither else StepEffect(Run(m, envs[..n]).value, envs[n])
  }

  lemma ReservationMoves(m: Machine, envs: seq<Env>, n: nat)
    requires n < |envs| && Run(m, envs[..n]).Some?
    ensures Run(m, envs[..n + 1]).Some?
        ==> Run(m, envs[..n + 1]).value.reservation == After(Run(m, envs[..n]).value.reservation, EffectAt(m, envs, n))
    ensures EffectAt(m, envs, n).Conditional? ==> EffectAt(m, envs, n).va == Run(m, envs[..n]).value.reservation
  {
    hide Step, Run, StepEffect, After;
    assert envs[..n + 1] == envs[..n] + [envs[n]];
    RunSnoc(m, envs[..n], envs[n]);
    var m' := Run(m, envs[..n]).value;
    if Step(m', envs[n]).Stepped? {
      StepFrame(m', envs[n]);
    } else {
      EndedDoesNothing(m', envs[n]);
    }
  }

  lemma EndedDoesNothing(m: Machine, env: Env)
    requires Step(m, env).Ended?
    ensures StepEffect(m, env) == Neither
  {
    hide Step, Effect;
  }

  // Step k reserved va, and between k and n nothing reserved again or succeeded.
  ghost predicate Licenses(m: Machine, envs: seq<Env>, k: nat, n: nat, va: bv64)
    requires n <= |envs|
  {
    && k < n
    && EffectAt(m, envs, k) == Reserved(va)
    && forall j :: k < j < n ==> !EffectAt(m, envs, j).Reserved? && !EffectAt(m, envs, j).Conditional?
  }

  // A reservation in force was made by the latest LR, and no SC has used it.
  lemma {:induction false} ReservationLicensed(m: Machine, envs: seq<Env>, n: nat) returns (k: nat)
    requires n <= |envs| && m.reservation == NO_RESERVATION && Run(m, envs[..n]).Some?
    requires Run(m, envs[..n]).value.reservation != NO_RESERVATION
    ensures Licenses(m, envs, k, n, Run(m, envs[..n]).value.reservation)
  {
    hide EffectAt, Step, Run;
    RunNothing(m);
    assert envs[..0] == [];
    if n > 0 {
      PrefixRuns(m, envs, n - 1, n);
      ReservationMoves(m, envs, n - 1);
      if EffectAt(m, envs, n - 1).Reserved? {
        k := n - 1;
      } else {
        k := ReservationLicensed(m, envs, n - 1);
      }
    }
  }

  lemma {:induction false} PrefixRuns(m: Machine, envs: seq<Env>, a: nat, b: nat)
    requires a <= b <= |envs| && Run(m, envs[..b]).Some?
    ensures Run(m, envs[..a]).Some?
  {
    hide Step, Run;
    if a < b {
      assert envs[..b] == envs[..b - 1] + [envs[b - 1]];
      RunSnoc(m, envs[..b - 1], envs[b - 1]);
      PrefixRuns(m, envs, a, b - 1);
    }
  }

  /** LR/SC: in any run that starts without a reservation, an SC that succeeds at an address
      other than 2^64 - 1 was licensed: the latest LR was at the same address and no SC has
      succeeded since. */
  lemma SuccessfulScLicensed(m: Machine, envs: seq<Env>, n: nat, va: bv64) returns (k: nat)
    requires n < |envs| && m.reservation == NO_RESERVATION
    requires EffectAt(m, envs, n) == Conditional(va) && va != NO_RESERVATION
    ensures Licenses(m, envs, k, n, va)
  {
    hide Step, Run, Licenses;
    ReservationMoves(m, envs, n);
    k := ReservationLicensed(m, envs, n);
  }

  // Completed LRs, and successful SCs away from 2^64 - 1, in the first n steps.
  function Lrs(m: Machine, envs: seq<Env>, n: nat): nat
    requires n <= |envs|
  {
    if n == 0 then 0 else Lrs(m, envs, n - 1) + if EffectAt(m, envs, n - 1).Reserved? then 1 else 0
  }

  function Scs(m: Machine, envs: seq<Env>, n: nat): nat
    requires n <= |envs|
  {
    if n == 0 then 0 else Scs(m, envs, n - 1) + if Licensed(EffectAt(m, envs, n - 1)) then 1 else 0
  }

  predicate Licensed(a: Atomic) {
    a.Conditional? && a.va != NO_RESERVATION
  }

  /** Each LR licenses at most one SC: successful SCs, and one more if a reservation is still
      in force, never outnumber the LRs. */
  lemma {:induction false} ScsAtMostLrs(m: Machine, envs: seq<Env>, n: nat)
    requires n <= |envs| && m.reservation == NO_RESERVATION && Run(m, envs[..n]).Some?
    ensures var reserved := Run(m, envs[..n]).value.reservation != NO_RESERVATION;
            Scs(m, envs, n) + (if reserved then 1 else 0) <= Lrs(m, envs, n)
  {
    hide EffectAt, Step, Run;
    RunNothing(m);
    assert envs[..0] == [];
    if n > 0 {
      PrefixRuns(m, envs, n - 1, n);
      ScsAtMostLrs(m, envs, n - 1);
      ReservationMoves(m, envs, n - 1);
    }
  }

  /** At 2^64 - 1 the idle value is itself a reservation: there, and only there, an SC that
      translates reports success with no LR outstanding. Elsewhere it reports failure. */
  lemma UnlicensedSc(m: Machine, i: Instruction, r: Reply)
    requires Reaches(m, Reg(m, i.rs1), Store) && m.reservation == NO_RESERVATION && i.rd != 0
    requires ExecSc(m, i, r).Next?
    ensures Reg(ExecSc(m, i, r).m, i.rd) == if Reg(m, i.rs1) == 0xFFFF_FFFF_FFFF_FFFF then 0 else 1
  {
    hide Resolve, ContextOf, Trap, Touch, PhysWrite;
  }

  // One gigabyte leaf, readable and writable, in the last entry of the root table.
  function TopLeaf(): (m: Ram)
    ensures m.base == 0x3FFF_F000 && |m.bytes| == 0x2000
    ensures Peek(m, 0x3FFF_FFF8, 8) == Bytes64(0xC7)
  {
    Poke(Ram(0x3FFF_F000, seq(0x2000, _ => 0)), 0x3FFF_FFF8, Bytes64(0xC7))
  }

  lemma TopEntry()
    ensures Active(Context(PRIV_S, 0x8000_0000_0003_FFFF, false))
    ensures Root(Context(PRIV_S, 0x8000_0000_0003_FFFF, false)) == 0x3_FFFF && Vpn(NO_RESERVATION, 2) == 511
    ensures !Invalid(0xC7) && IsLeaf(0xC7) && PtePpn(0xC7) == 0 && Permits(0xC7, PRIV_S, false, Store)
    ensures PageAddr(0, NO_RESERVATION, 2) == 0x3FFF_FFFF
  {
  }

  lemma TopPlaces()
    ensures PteAddr(0x3_FFFF, 511) == 0x3FFF_FFF8 && Place(0x3FFF_FFFF) == 0x3FFF_FFFF
  {
    TopFrame();
    TopAddress();
    assert (0x3_FFFF as bv44) as bv64 == 0x3_FFFF;
    hide ToNat;
  }

  lemma TopFrame()
    ensures ToNat(0x3_FFFF) == 0x3_FFFF
  {
    var s := Bytes64(0x3_FFFF);
    assert s == [0xFF, 0xFF, 0x3, 0, 0, 0, 0, 0];
    hide Bytes64, Nat;
    N.Nat8(s);
  }

  lemma TopAddress()
    ensures ToNat(0x3FFF_FFFF) == 0x3FFF_FFFF
  {
    var s := Bytes64(0x3FFF_FFFF);
    assert s == [0xFF, 0xFF, 0xFF, 0x3F, 0, 0, 0, 0];
    hide Bytes64, Nat;
    N.Nat8(s);
  }

  // Such an SC does happen: with this table it stores and reports success.
  lemma UnlicensedScHappens(m: Machine, i: Instruction, r: Reply)
    requires m.ram == TopLeaf() && ContextOf(m.cpu) == Context(PRIV_S, 0x8000_0000_0003_FFFF, false)
    requires m.reservation == NO_RESERVATION && Reg(m, i.rs1) == NO_RESERVATION && i.rd != 0
    ensures ExecSc(m, i, r).Next? && Reg(ExecSc(m, i, r).m, i.rd) == 0
  {
    hide Active, Root, Vpn, Invalid, IsLeaf, PtePpn, Permits, PageAddr, PteAddr, Place, Word64, Bytes64, TopLeaf;
    hide ContextOf, LowBytes;
    TopEntry();
    TopPlaces();
    WordsRoundTrip(0, 0, 0xC7);
  }

  /** A failed SC writes 1 to rd, keeps the reservation and changes memory only in A and D
      bits. */
  lemma FailedSc(m: Machine, i: Instruction, r: Reply)
    requires Reaches(m, Reg(m, i.rs1), Store) && Reg(m, i.rs1) != m.reservation
    ensures var e := ExecSc(m, i, r);
            && e.Next? && e.m == m.(cpu := SetReg(m.cpu, i.rd, 1), ram := e.m.ram)
            && AdOnly(m.ram, e.m.ram)
  {
    hide PhysWrite, Resolve, ContextOf, Trap, Touch, AdOnly, SetReg, Reg;
    TouchIsAdOnly(m.ram, Request(ContextOf(m.cpu), Reg(m, i.rs1), Store));
  }

  // The low bytes of rs2, as many as the width names.
  function ScBytes(m: Machine, i: Instruction): seq<bv8> {
    LowBytes(Reg(m, i.rs2), AmoWidth(i.funct3))
  }

  /** A successful SC in RAM stores the low 4 or 8 bytes of rs2 at the translated address
      and changes memory otherwise only in A and D bits; it writes 0 to rd and drops the
      reservation. */
  lemma SuccessfulSc(m: Machine, i: Instruction, r: Reply)
    requires Reaches(m, Reg(m, i.rs1), Store) && Reg(m, i.rs1) == m.reservation
    requires InRam(m.ram, Place(Translate(m, Reg(m, i.rs1), Store).value.1), AmoWidth(i.funct3))
    ensures var e, (m', pa) := ExecSc(m, i, r), Translate(m, Reg(m, i.rs1), Store).value;
            && e.Next? && e.m == m.(cpu := SetReg(m.cpu, i.rd, 0), ram := e.m.ram, reservation := NO_RESERVATION)
            && AdOnly(m.ram, m'.ram) && e.m.ram == Poke(m'.ram, Place(pa), ScBytes(m, i))
  {
    hide Resolve, ContextOf, Trap, Touch, AdOnly, SetReg, LowBytes, Poke, Place, Answer, PlicEffect;
    TouchIsAdOnly(m.ram, Request(ContextOf(m.cpu), Reg(m, i.rs1), Store));
  }
}

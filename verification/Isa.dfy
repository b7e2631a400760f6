/** The integer instructions over numbers: what each leaves in rd and pc, written out in the
    arithmetic of register values, and the code's instructions proved to do that. */
module Isa {
  import opened Words
  import opened Numbers
  import opened Shifts
  import opened Hart
  import opened Decode
  import opened Machine
  import A = Alu

  // ---------------------------------------------------------------- On numbers

  // The signed reading of a number below m.
  function Reading(n: nat, m: nat): int {
    if 2 * n >= m then n - m else n
  }

  function Truth(b: bool): nat { if b then 1 else 0 }

  function Size(n: int): nat { if n < 0 then -n else n }

  // Division that truncates toward zero.
  function Quotient(a: int, b: int): int
    requires b != 0
  {
    if (a < 0) == (b < 0) then Size(a) / Size(b) else -(Size(a) / Size(b))
  }

  function Remainder(a: int, b: int): int
    requires b != 0
  {
    if a < 0 then -(Size(a) % Size(b)) else Size(a) % Size(b)
  }

  // Shifts of an m-valued number: left, and right without and with the sign.
  function Left(x: nat, k: nat, m: nat): nat
    requires m > 0
  {
    x * Pow2(k) % m
  }

  function Right(x: nat, k: nat): (r: nat) {
    DivNat(x, Pow2(k));
    x / Pow2(k)
  }

  lemma DivNat(x: nat, p: nat)
    requires p > 0
    ensures x / p >= 0
  {
  }

  function RightSigned(x: nat, k: nat, m: nat): nat
    requires m > 0
  {
    Reading(x, m) / Pow2(k) % m
  }

  // Arithmetic on 64-bit values; alternate: sub for add, sra for srl.
  function Alu64(funct3: bv3, alternate: bool, x: nat, y: nat): nat {
    match funct3
    case 0 => if alternate then (x - y) % TWO_64 else (x + y) % TWO_64
    case 1 => Left(x, y % 64, TWO_64)
    case 2 => Truth(Reading(x, TWO_64) < Reading(y, TWO_64))
    case 3 => Truth(x < y)
    case 4 => XorNat(x, y)
    case 5 => if alternate then RightSigned(x, y % 64, TWO_64) else Right(x, y % 64)
    case 6 => OrNat(x, y)
    case _ => AndNat(x, y)
  }

  // On 32-bit values, before sign extension.
  function Alu32(funct3: bv3, alternate: bool, x: nat, y: nat): Option<nat> {
    match funct3
    case 0 => Some(if alternate then (x - y) % TWO_32 else (x + y) % TWO_32)
    case 1 => Some(Left(x, y % 32, TWO_32))
    case 5 => Some(if alternate then RightSigned(x, y % 32, TWO_32) else Right(x, y % 32))
    case _ => None
  }

  // Multiply and divide for values below m, with the three high products as the code computes
  // them. None: undefined in C.
  function Muldiv(funct3: bv3, x: nat, y: nat, m: nat): Option<nat>
    requires y < m
  {
    var a, b := Reading(x, m), Reading(y, m);
    var overflow := 2 * x == m && y == m - 1;
    match funct3
    case 0 => Some(x * y % m)
    case 4 => if y == 0 then Some(m - 1) else if overflow then None else Some(Quotient(a, b) % m)
    case 5 => if y == 0 then Some(m - 1) else DivNat(x, y); Some(x / y)
    case 6 => if y == 0 then Some(x) else if overflow then None else Some(Remainder(a, b) % m)
    case 7 => if y == 0 then Some(x) else Some(x % y)
    case _ => DivNat(x * y, m); Some(x * y / m)
  }

  function Branches(funct3: bv3, x: nat, y: nat): Option<bool> {
    var a, b := Reading(x, TWO_64), Reading(y, TWO_64);
    match funct3
    case 0 => Some(x == y)
    case 1 => Some(x != y)
    case 4 => Some(a < b)
    case 5 => Some(a >= b)
    case 6 => Some(x < y)
    case 7 => Some(x >= y)
    case _ => None
  }

  // What rd gets, unless it is x0 or the instruction has none, and where pc goes.
  datatype Outcome = Stops | Goes(v: Option<nat>, pc: nat)

  function Computes(v: Option<nat>, next: nat): Outcome {
    if v.None? then Stops else Goes(v, next)
  }

  // The word that a 32-bit result leaves.
  function Spread(v: Option<nat>): Option<nat> {
    if v.None? then None else Some(Extended(v.value))
  }

  predicate IsInteger(opcode: bv8) {
    opcode in {0x37, 0x17, 0x6F, 0x67, 0x63, 0x13, 0x33, 0x1B, 0x3B, 0x0F}
  }

  // Instruction i at pc, with x and y in its source registers.
  function Integer(i: Instruction, pc: nat, x: nat, y: nat): Outcome
    requires y < TWO_64
  {
    var imm, next := ToNat(i.imm), (pc + ToNat(i.size)) % TWO_64;
    var xw, yw, iw := x % TWO_32, y % TWO_32, imm % TWO_32;
    match i.opcode
    case 0x37 => Goes(Some(imm), next)
    case 0x17 => Goes(Some((pc + imm) % TWO_64), next)
    case 0x6F => Goes(Some(next), (pc + imm) % TWO_64)
    case 0x67 => Goes(Some(next), (x + imm) % TWO_64 / 2 * 2)
    case 0x63 =>
      var taken := Branches(i.funct3, x, y);
      if taken.None? then Stops else Goes(None, if taken.value then (pc + imm) % TWO_64 else next)
    case 0x13 => Goes(Some(Alu64(i.funct3, i.funct3 == 5 && i.funct7 as nat / 32 % 2 == 1, x, imm)), next)
    case 0x33 =>
      if i.funct7 == 1 then Computes(Muldiv(i.funct3, x, y, TWO_64), next)
      else Goes(Some(Alu64(i.funct3, i.funct7 == 32, x, y)), next)
    case 0x1B => Computes(Spread(Alu32(i.funct3, i.funct3 == 5 && i.funct7 == 32, xw, iw)), next)
    case 0x3B =>
      if i.funct7 == 1 then
        if 1 <= i.funct3 <= 3 then Stops else Computes(Spread(Muldiv(i.funct3, xw, yw, TWO_32)), next)
      else Computes(Spread(Alu32(i.funct3, i.funct7 == 32, xw, yw)), next)
    case 0x0F => Goes(None, next)
    case _ => Stops
  }

  /** e is what instruction i does to m according to o: rd and pc hold the numbers of o, and
      no other register and nothing else of the machine has moved. */
  predicate Follows(m: Machine, rd: bv5, e: Exec, o: Outcome) {
    match o
    case Stops => e == Stop
    case Goes(v, pc) =>
      e.Next?
      && var c, c' := m.cpu, e.m.cpu;
         && e.m == m.(cpu := c.(regs := c'.regs, pc := c'.pc)) && ToNat(c'.pc) == pc
         && forall r :: 0 <= r < 32 ==>
              if v.Some? && r != 0 && r == rd as nat then ToNat(c'.regs[r]) == v.value else c'.regs[r] == c.regs[r]
  }

  // ---------------------------------------------------------------- The operations

  lemma ReadingIsInt(x: bv64)
    ensures Reading(ToNat(x), TWO_64) == Int(x)
  {
    hide ToNat;
  }

  lemma ShortAmount(y: bv64)
    ensures A.Shamt6(y) as nat == Digit((y & 0x3F) as bv8) && A.Shamt5(y) as nat == Digit((y & 0x1F) as bv8)
    ensures Bytes64(y & 0x3F) == [(y & 0x3F) as bv8, 0, 0, 0, 0, 0, 0, 0]
    ensures Bytes64(y & 0x1F) == [(y & 0x1F) as bv8, 0, 0, 0, 0, 0, 0, 0]
    ensures Digit(0) == 0
  {
  }

  lemma AmountMasks()
    ensures ToNat(0x3F) == 63 && ToNat(0x1F) == 31 && Pow2(6) == 64 && Pow2(5) == 32
  {
    ByteWord(0x3F);
    ByteWord(0x1F);
    assert Digit(0x3F) == 63 && Digit(0x1F) == 31;
    assert Pow2(3) == 8 && Pow2(4) == 16;
  }

  lemma AmountAnd(y: bv64)
    ensures A.And(y, 0x3F) == y & 0x3F && A.And(y, 0x1F) == y & 0x1F
  {
  }

  // The amounts are the low six and five bits.
  lemma Amounts(y: bv64)
    ensures A.Shamt6(y) as nat == ToNat(y) % 64 && A.Shamt5(y) as nat == ToNat(y) % 32
  {
    hide Bytes64, Nat, Digit, A.And, Pow2, A.Shamt6, A.Shamt5;
    ShortAmount(y);
    AmountMasks();
    AmountAnd(y);
    Nat8(Bytes64(y & 0x3F));
    Nat8(Bytes64(y & 0x1F));
    MaskKeeps(y, 0x3F, 6);
    MaskKeeps(y, 0x1F, 5);
  }

  lemma FlagNumber(b: bool)
    ensures ToNat(A.Flag(b)) == Truth(b)
  {
    hide ToNat;
    Small();
  }

  lemma ImmediateNumber(funct3: bv3, arithmetic: bool, imm: bv64, x: bv64)
    ensures ToNat(ArithI(funct3, arithmetic, imm, x)) == Alu64(funct3, funct3 == 5 && arithmetic, ToNat(x), ToNat(imm))
  {
    hide ToNat, A.Add, A.Sll, A.Srl, A.Sra, A.Less, A.LessU, A.Flag, A.Or, A.And, A.Xor, A.Shamt6;
    hide Reading, Pow2, OrNat, AndNat, XorNat, Int;
    ReadingIsInt(x);
    ReadingIsInt(imm);
    match funct3
    case 0 => Sum(x, imm);
    case 1 =>
      Amounts(imm);
      LeftNumber(x, A.Shamt6(imm));
    case 2 =>
      Comparisons(x, imm);
      FlagNumber(A.Less(x, imm));
    case 3 =>
      Comparisons(x, imm);
      FlagNumber(A.LessU(x, imm));
    case 4 => XorNumber(x, imm);
    case 5 =>
      Amounts(imm);
      RightNumber(x, A.Shamt6(imm));
      SignedRight(x, A.Shamt6(imm));
    case 6 => OrNumber(x, imm);
    case _ => AndNumber(x, imm);
  }

  lemma RegisterNumber(funct3: bv3, funct7: bv7, x: bv64, y: bv64)
    requires funct7 != 1
    ensures var v := ArithR(funct3, funct7, x, y);
            v.Some? && ToNat(v.value) == Alu64(funct3, funct7 == 32, ToNat(x), ToNat(y))
  {
    hide ToNat, A.Add, A.Sub, A.Sll, A.Srl, A.Sra, A.Less, A.LessU, A.Flag, A.Or, A.And, A.Xor, A.Shamt6;
    hide Reading, Pow2, OrNat, AndNat, XorNat, Int;
    ReadingIsInt(x);
    ReadingIsInt(y);
    match funct3
    case 0 =>
      Sum(x, y);
      Difference(x, y);
    case 1 =>
      Amounts(y);
      LeftNumber(x, A.Shamt6(y));
    case 2 =>
      Comparisons(x, y);
      FlagNumber(A.Less(x, y));
    case 3 =>
      Comparisons(x, y);
      FlagNumber(A.LessU(x, y));
    case 4 => XorNumber(x, y);
    case 5 =>
      Amounts(y);
      RightNumber(x, A.Shamt6(y));
      SignedRight(x, A.Shamt6(y));
    case 6 => OrNumber(x, y);
    case _ => AndNumber(x, y);
  }

  lemma ReadingIsInt32(n: nat)
    ensures Reading(n, TWO_32) == Int32(n)
  {
  }

  // The word that a shift leaves.
  lemma ShiftNumber32(funct3: bv3, funct7: bv7, w: bv32, y: bv64)
    requires funct3 == 1 || funct3 == 5
    ensures var v := Shift32(funct3, funct7, w, A.Shamt5(y));
            v.Some? && Alu32(funct3, funct7 == 32, Number32(w), ToNat(y) % TWO_32) == Some(Number32(v.value))
  {
    hide ToNat, Number32, A.Sll32, A.Srl32, A.Sra32, A.Shamt5, Pow2, Reading;
    Amounts(y);
    LowAmount(ToNat(y));
    Shifts32(w, A.Shamt5(y));
    SignedRight32(w, A.Shamt5(y));
    ReadingIsInt32(Number32(w));
  }

  lemma LowAmount(n: nat)
    ensures n % TWO_32 % 32 == n % 32
  {
    var q, r := n / TWO_32, n % TWO_32;
    var q', r' := r / 32, r % 32;
    ModUnique(n, 32, 0x800_0000 * q + q', r');
  }

  lemma ImmediateNumber32(funct3: bv3, funct7: bv7, imm: bv64, x: bv64)
    ensures var v, a, b := ArithIW(funct3, funct7, imm, x), ToNat(x) % TWO_32, ToNat(imm) % TWO_32;
            var n := Alu32(funct3, funct3 == 5 && funct7 == 32, a, b);
            if v.None? then n.None? else Spread(n) == Some(ToNat(v.value))
  {
    hide ToNat, Number32, A.Add32, A.Low32, A.Sext32, A.Shamt5, Pow2, Reading, Extended;
    var w := A.Low32(x);
    LowNumber(x);
    LowNumber(imm);
    if funct3 == 0 {
      SumDifference32(w, A.Low32(imm));
      SextNumber(A.Add32(w, A.Low32(imm)));
    } else if funct3 == 1 || funct3 == 5 {
      ShiftNumber32(funct3, funct7, w, imm);
      SextNumber(Shift32(funct3, funct7, w, A.Shamt5(imm)).value);
    }
  }

  lemma RegisterNumber32(funct3: bv3, funct7: bv7, x: bv64, y: bv64)
    requires funct7 != 1
    ensures var v, a, b := ArithRW(funct3, funct7, x, y), ToNat(x) % TWO_32, ToNat(y) % TWO_32;
            var n := Alu32(funct3, funct7 == 32, a, b);
            if v.None? then n.None? else Spread(n) == Some(ToNat(v.value))
  {
    hide ToNat, Number32, A.Add32, A.Sub32, A.Low32, A.Sext32, A.Shamt5, Pow2, Reading, Extended;
    var w, z := A.Low32(x), A.Low32(y);
    LowNumber(x);
    LowNumber(y);
    if funct3 == 0 {
      SumDifference32(w, z);
      SextNumber(A.Add32(w, z));
      SextNumber(A.Sub32(w, z));
    } else if funct3 == 1 || funct3 == 5 {
      ShiftNumber32(funct3, funct7, w, y);
      SextNumber(Shift32(funct3, funct7, w, A.Shamt5(y)).value);
    }
  }

  // ---------------------------------------------------------------- Multiply and divide

  lemma MuldivNumber(funct3: bv3, x: nat, y: nat, m: nat)
    requires m > 1 && x < m && y < m
    ensures A.MulDiv(MulOpOf(funct3), x, y, m) == Muldiv(funct3, x, y, m)
  {
    hide A.DivT, A.RemT, Quotient, Remainder;
    Truncations(Reading(x, m), Reading(y, m));
  }

  lemma Truncations(a: int, b: int)
    ensures b != 0 ==> A.DivT(a, b) == Quotient(a, b) && A.RemT(a, b) == Remainder(a, b)
  {
  }

  lemma MultiplyNumber(funct3: bv3, x: bv64, y: bv64)
    requires ToNat(y) < TWO_64
    ensures var v, n := Multiply64(funct3, x, y), Muldiv(funct3, ToNat(x), ToNat(y), TWO_64);
            if v.None? then n.None? else n == Some(ToNat(v.value))
  {
    hide ToNat, FromNat, A.MulDiv, Muldiv;
    InWord(x);
    InWord(y);
    MuldivNumber(funct3, ToNat(x), ToNat(y), TWO_64);
    var r := A.MulDiv(MulOpOf(funct3), ToNat(x), ToNat(y), TWO_64);
    if r.Some? {
      RegisterRoundTrip(0, r.value);
      ModUnique(r.value, TWO_64, 0, r.value);
    }
  }

  lemma MultiplyNumber32(funct3: bv3, x: bv64, y: bv64)
    requires !(1 <= funct3 <= 3)
    ensures var v, n := Multiply32(funct3, x, y), Muldiv(funct3, ToNat(x) % TWO_32, ToNat(y) % TWO_32, TWO_32);
            if v.None? then n.None? else Spread(n) == Some(ToNat(v.value))
  {
    hide ToNat, FromNat, A.MulDiv, Muldiv, A.Sext32, A.Low32, Extended, Number32;
    var a, b := ToNat(x) % TWO_32, ToNat(y) % TWO_32;
    MuldivNumber(funct3, a, b, TWO_32);
    var r := A.MulDiv(MulOpOf(funct3), a, b, TWO_32);
    if r.Some? {
      RegisterRoundTrip(0, r.value);
      ModUnique(r.value, TWO_64, 0, r.value);
      ModUnique(r.value, TWO_32, 0, r.value);
      LowNumber(FromNat(r.value));
      SextNumber(A.Low32(FromNat(r.value)));
    }
  }

  // ---------------------------------------------------------------- Instructions

  lemma RetireIs(m: Machine, rd: bv5, v: bv64, size: bv64)
    ensures Retire(m, rd, v, size) == m.(cpu := SetReg(m.cpu, rd, v).(pc := A.Add(m.cpu.pc, size)))
  {
    hide A.Add;
  }

  lemma RetireFollows(m: Machine, rd: bv5, v: bv64, size: bv64)
    ensures Follows(m, rd, Next(Retire(m, rd, v, size)), Goes(Some(ToNat(v)), (ToNat(m.cpu.pc) + ToNat(size)) % TWO_64))
  {
    hide ToNat, A.Add, Follows, Retire, SetReg;
    RetireIs(m, rd, v, size);
    JumpFollows(m, rd, v, A.Add(m.cpu.pc, size));
    Sum(m.cpu.pc, size);
  }

  lemma JumpFollows(m: Machine, rd: bv5, v: bv64, pc: bv64)
    ensures Follows(m, rd, Next(m.(cpu := SetReg(m.cpu, rd, v).(pc := pc))), Goes(Some(ToNat(v)), ToNat(pc)))
  {
    hide ToNat;
    assert rd == 0 <==> rd as nat == 0;
  }

  lemma AdvanceFollows(m: Machine, rd: bv5, d: bv64)
    ensures Follows(m, rd, Next(Advance(m, d)), Goes(None, (ToNat(m.cpu.pc) + ToNat(d)) % TWO_64))
  {
    hide ToNat, A.Add;
    Sum(m.cpu.pc, d);
  }

  lemma EvenNumber(x: bv64)
    ensures ToNat(A.AndNot(x, 1)) == ToNat(x) / 2 * 2
  {
    hide ToNat, A.AndNot, Half, Twice;
    EvenIs(x);
    Halved(x);
    InWord(x);
    Doubled(Half(x));
  }

  lemma EvenIs(x: bv64)
    ensures A.AndNot(x, 1) == Twice(Half(x))
  {
  }

  lemma BranchNumber(funct3: bv3, x: bv64, y: bv64)
    ensures Taken(funct3, x, y) == Branches(funct3, ToNat(x), ToNat(y))
  {
    hide ToNat, A.Less, A.LessU, Reading, Int;
    Comparisons(x, y);
    ReadingIsInt(x);
    ReadingIsInt(y);
    Unique(x, y);
  }

  lemma AlternateNumber(f: bv7)
    ensures Arithmetic(f) <==> f as nat / 32 % 2 == 1
  {
  }

  function X(m: Machine, i: Instruction): nat { ToNat(m.cpu.regs[i.rs1 as nat]) }

  function Y(m: Machine, i: Instruction): nat { ToNat(m.cpu.regs[i.rs2 as nat]) }

  lemma ComputedFollows(m: Machine, i: Instruction, v: Option<bv64>, n: Option<nat>)
    requires if v.None? then n.None? else n == Some(ToNat(v.value))
    ensures Follows(m, i.rd, Computed(m, i, v), Computes(n, (ToNat(m.cpu.pc) + ToNat(i.size)) % TWO_64))
  {
    hide ToNat, Retire, A.Add;
    if v.Some? {
      hide Follows;
      RetireFollows(m, i.rd, v.value, i.size);
    }
  }

  predicate ByNumbers(m: Machine, i: Instruction, e: Exec)
  {
    Y(m, i) < TWO_64 && Follows(m, i.rd, e, Integer(i, ToNat(m.cpu.pc), X(m, i), Y(m, i)))
  }

  lemma UpperFollows(m: Machine, i: Instruction, f: FpResult)
    requires i.opcode in {0x37, 0x17, 0x0F}
    ensures ByNumbers(m, i, ExecRegister(m, i, f))
  {
    hide ToNat, Follows, A.Add, Computed, Advance;
    var pc := m.cpu.pc;
    InWord(Reg(m, i.rs2));
    if i.opcode == 0x37 {
      ComputedFollows(m, i, Some(i.imm), Some(ToNat(i.imm)));
    } else if i.opcode == 0x17 {
      Sum(pc, i.imm);
      ComputedFollows(m, i, Some(A.Add(pc, i.imm)), Some(ToNat(A.Add(pc, i.imm))));
    } else {
      AdvanceFollows(m, i.rd, i.size);
    }
  }

  lemma JalFollows(m: Machine, i: Instruction, f: FpResult)
    requires i.opcode == 0x6F
    ensures ByNumbers(m, i, ExecRegister(m, i, f))
  {
    hide ToNat, Follows, A.Add, SetReg;
    var pc := m.cpu.pc;
    InWord(Reg(m, i.rs2));
    Sum(pc, i.imm);
    Sum(pc, i.size);
    JumpFollows(m, i.rd, A.Add(pc, i.size), A.Add(pc, i.imm));
  }

  lemma JalrFollows(m: Machine, i: Instruction, f: FpResult)
    requires i.opcode == 0x67
    ensures ByNumbers(m, i, ExecRegister(m, i, f))
  {
    hide ToNat, Follows, A.Add, A.AndNot, SetReg;
    var pc, x := m.cpu.pc, Reg(m, i.rs1);
    InWord(Reg(m, i.rs2));
    Sum(pc, i.size);
    Sum(x, i.imm);
    EvenNumber(A.Add(x, i.imm));
    JumpFollows(m, i.rd, A.Add(pc, i.size), A.AndNot(A.Add(x, i.imm), 1));
  }

  lemma BranchFollows(m: Machine, i: Instruction, f: FpResult)
    requires i.opcode == 0x63
    ensures ByNumbers(m, i, ExecRegister(m, i, f))
  {
    hide ToNat, Follows, Advance, Taken, Branches;
    InWord(Reg(m, i.rs2));
    BranchNumber(i.funct3, Reg(m, i.rs1), Reg(m, i.rs2));
    AdvanceFollows(m, i.rd, i.imm);
    AdvanceFollows(m, i.rd, i.size);
    StopFollows(m, i.rd);
  }

  lemma StopFollows(m: Machine, rd: bv5)
    ensures Follows(m, rd, Stop, Stops)
  {
  }

  lemma ArithmeticFollows(m: Machine, i: Instruction, f: FpResult)
    requires i.opcode == 0x13 || (i.opcode == 0x33 && i.funct7 != 1)
    ensures ByNumbers(m, i, ExecRegister(m, i, f))
  {
    hide ToNat, Follows, Computed, ArithI, Alu64, Arithmetic;
    var x, y := Reg(m, i.rs1), Reg(m, i.rs2);
    InWord(y);
    if i.opcode == 0x13 {
      AlternateNumber(i.funct7);
      ImmediateNumber(i.funct3, Arithmetic(i.funct7), i.imm, x);
      var v := ArithI(i.funct3, Arithmetic(i.funct7), i.imm, x);
      ComputedFollows(m, i, Some(v), Some(ToNat(v)));
    } else {
      hide ArithR;
      RegisterNumber(i.funct3, i.funct7, x, y);
      var v := ArithR(i.funct3, i.funct7, x, y);
      ComputedFollows(m, i, v, Some(ToNat(v.value)));
    }
  }

  lemma WordFollows(m: Machine, i: Instruction, f: FpResult)
    requires i.opcode == 0x1B || (i.opcode == 0x3B && i.funct7 != 1)
    ensures ByNumbers(m, i, ExecRegister(m, i, f))
  {
    hide ToNat, Follows, Computed, ArithIW, ArithRW, Alu32, Spread;
    var x, y := Reg(m, i.rs1), Reg(m, i.rs2);
    InWord(y);
    if i.opcode == 0x1B {
      ImmediateNumber32(i.funct3, i.funct7, i.imm, x);
      var n := Spread(Alu32(i.funct3, i.funct3 == 5 && i.funct7 == 32, ToNat(x) % TWO_32, ToNat(i.imm) % TWO_32));
      SpreadNone();
      ComputedFollows(m, i, ArithIW(i.funct3, i.funct7, i.imm, x), n);
    } else {
      RegisterNumber32(i.funct3, i.funct7, x, y);
      var n := Spread(Alu32(i.funct3, i.funct7 == 32, ToNat(x) % TWO_32, ToNat(y) % TWO_32));
      SpreadNone();
      ComputedFollows(m, i, ArithRW(i.funct3, i.funct7, x, y), n);
    }
  }

  lemma SpreadNone()
    ensures Spread(None) == None
  {
  }

  lemma MuldivFollows(m: Machine, i: Instruction, f: FpResult)
    requires (i.opcode == 0x33 || i.opcode == 0x3B) && i.funct7 == 1
    ensures ByNumbers(m, i, ExecRegister(m, i, f))
  {
    hide ToNat, Follows, Computed, Multiply64, Muldiv, Spread, Multiply32;
    var x, y := Reg(m, i.rs1), Reg(m, i.rs2);
    InWord(y);
    if i.opcode == 0x33 {
      MultiplyNumber(i.funct3, x, y);
      ComputedFollows(m, i, Multiply64(i.funct3, x, y), Muldiv(i.funct3, ToNat(x), ToNat(y), TWO_64));
    } else if 1 <= i.funct3 <= 3 {
      NoHighWord(i.funct3, x, y);
      ComputedFollows(m, i, None, None);
    } else {
      MultiplyNumber32(i.funct3, x, y);
      SpreadNone();
      var n := Spread(Muldiv(i.funct3, ToNat(x) % TWO_32, ToNat(y) % TWO_32, TWO_32));
      ComputedFollows(m, i, Multiply32(i.funct3, x, y), n);
    }
  }

  lemma NoHighWord(funct3: bv3, x: bv64, y: bv64)
    requires 1 <= funct3 <= 3
    ensures Multiply32(funct3, x, y).None?
  {
    hide ToNat;
  }

  /** The integer instructions by numbers: on every machine, each of them stops, or leaves in rd
      and pc what the arithmetic above says of the register values, pc, the immediate and the
      instruction's size, and changes nothing else. */
  lemma IntegerByNumbers(m: Machine, i: Instruction, env: Env)
    requires IsInteger(i.opcode)
    ensures ByNumbers(m, i, Execute(m, i, env))
  {
    hide ExecRegister, ByNumbers;
    match i.opcode
    case 0x63 => BranchFollows(m, i, env.fp);
    case 0x13 => ArithmeticFollows(m, i, env.fp);
    case 0x1B => WordFollows(m, i, env.fp);
    case 0x33 =>
      if i.funct7 == 1 {
        MuldivFollows(m, i, env.fp);
      } else {
        ArithmeticFollows(m, i, env.fp);
      }
    case 0x3B =>
      if i.funct7 == 1 {
        MuldivFollows(m, i, env.fp);
      } else {
        WordFollows(m, i, env.fp);
      }
    case 0x6F => JalFollows(m, i, env.fp);
    case 0x67 => JalrFollows(m, i, env.fp);
    case _ => UpperFollows(m, i, env.fp);
  }
}

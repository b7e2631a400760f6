/** Loads and stores over numbers, in RAM: how many bytes each moves, between which cell and
    which register, and how a load extends them. */
module MemoryNumbers {
  import opened Words
  import opened Memory
  import opened Mmu
  import opened Numbers
  import opened Shifts
  import opened Isa
  import opened Hart
  import opened Decode
  import opened Machine
  import opened AtomicNumbers
  import A = Alu
  import At = Atomics

  // ---------------------------------------------------------------- On numbers

  // lb, lh, lw, ld, lbu, lhu, lwu; 7 is none.
  function LoadBytes(funct3: bv3): nat {
    match funct3
    case 0 => 1
    case 1 => 2
    case 2 => 4
    case 3 => 8
    case 4 => 1
    case 5 => 2
    case 6 => 4
    case _ => 0
  }

  // A number of w bytes read as signed, and as a word again.
  function SignExtended(n: nat, w: nat): nat {
    if w == 1 then if n >= 0x80 then n + (TWO_64 - 0x100) else n
    else if w == 2 then if n >= 0x8000 then n + (TWO_64 - 0x1_0000) else n
    else Extended(n)
  }

  function LoadValue(funct3: bv3, n: nat): nat {
    if funct3 <= 2 then SignExtended(n, LoadBytes(funct3)) else n
  }

  // sb, sh, sw, sd; the others are none.
  function StoreBytes(funct3: bv3): nat {
    match funct3
    case 0 => 1
    case 1 => 2
    case 2 => 4
    case 3 => 8
    case _ => 0
  }

  // ---------------------------------------------------------------- Bytes as numbers

  lemma ByteTop(b: bv8)
    ensures b & 0x80 != 0 <==> b as nat >= 0x80
  {
  }

  // A negative byte or halfword is extended by adding the ones above it.
  lemma ByteSign(b: bv8)
    ensures A.Sext8(b) == if b & 0x80 != 0 then A.Add(b as bv64, 0xFFFF_FFFF_FFFF_FF00) else b as bv64
  {
  }

  lemma HalfSign(h: bv16)
    ensures A.Sext16(h) == if h & 0x8000 != 0 then A.Add(h as bv64, 0xFFFF_FFFF_FFFF_0000) else h as bv64
  {
  }

  lemma HalfTop(s: seq<bv8>)
    requires |s| == 2
    ensures Word16(s) & 0x8000 != 0 <==> s[1] & 0x80 != 0
  {
  }

  lemma OnesAbove()
    ensures ToNat(0xFFFF_FFFF_FFFF_FF00) == TWO_64 - 0x100
  {
    var s := Bytes64(0xFFFF_FFFF_FFFF_FF00);
    assert s == [0, 0xFF, 0xFF, 0xFF, 0xFF, 0xFF, 0xFF, 0xFF];
    hide Bytes64, Nat;
    Nat8(s);
  }

  lemma OnesAboveHalf()
    ensures ToNat(0xFFFF_FFFF_FFFF_0000) == TWO_64 - 0x1_0000
  {
    var s := Bytes64(0xFFFF_FFFF_FFFF_0000);
    assert s == [0, 0, 0xFF, 0xFF, 0xFF, 0xFF, 0xFF, 0xFF];
    hide Bytes64, Nat;
    Nat8(s);
  }

  lemma NatOf1(s: seq<bv8>)
    requires |s| == 1
    ensures Nat(s) == Digit(s[0]) && 0 <= Digit(s[0]) < 256
  {
    assert Nat(s[1..]) == 0;
    NatOfByteBound(s[0]);
  }

  lemma NatOfByteBound(b: bv8)
    ensures Digit(b) < 256
  {
  }

  lemma NatOf2(s: seq<bv8>)
    requires |s| == 2
    ensures Nat(s) == Digit(s[0]) + 256 * Digit(s[1]) && Digit(s[0]) < 256 && Digit(s[1]) < 256
  {
    NatStep(s, 0);
    NatStep(s, 1);
    assert s[0..] == s && Nat(s[2..]) == 0;
    NatOfByteBound(s[0]);
    NatOfByteBound(s[1]);
  }

  lemma PlainBytes(s: seq<bv8>)
    ensures |s| == 1 ==> Bytes64(WordOf(s)) == [s[0], 0, 0, 0, 0, 0, 0, 0]
    ensures |s| == 2 ==> Bytes64(WordOf(s)) == [s[0], s[1], 0, 0, 0, 0, 0, 0]
    ensures Digit(0) == 0
  {
  }

  lemma Plain1(s: seq<bv8>)
    requires |s| == 1
    ensures ToNat(WordOf(s)) == Nat(s)
  {
    hide Bytes64, WordOf;
    PlainBytes(s);
    NatOf1(s);
    hide Nat, Digit;
    Nat8(Bytes64(WordOf(s)));
  }

  lemma Plain2(s: seq<bv8>)
    requires |s| == 2
    ensures ToNat(WordOf(s)) == Nat(s)
  {
    hide Bytes64, WordOf;
    PlainBytes(s);
    NatOf2(s);
    hide Nat, Digit;
    Nat8(Bytes64(WordOf(s)));
  }

  function Wide8(b: bv8): bv64 { b as bv64 }

  function Wide16(h: bv16): bv64 { h as bv64 }

  predicate Neg8(b: bv8) { b & 0x80 != 0 }

  predicate Neg16(h: bv16) { h & 0x8000 != 0 }

  lemma Named8(b: bv8)
    ensures A.Sext8(b) == if Neg8(b) then A.Add(Wide8(b), 0xFFFF_FFFF_FFFF_FF00) else Wide8(b)
  {
    ByteSign(b);
    hide A.Sext8, A.Add;
  }

  lemma Named16(h: bv16)
    ensures A.Sext16(h) == if Neg16(h) then A.Add(Wide16(h), 0xFFFF_FFFF_FFFF_0000) else Wide16(h)
  {
    HalfSign(h);
    hide A.Sext16, A.Add;
  }

  lemma Neg8Number(s: seq<bv8>)
    requires |s| == 1
    ensures Neg8(s[0]) <==> Nat(s) >= 0x80
    ensures ToNat(Wide8(s[0])) == Nat(s) && Nat(s) < 0x100
  {
    NatOf1(s);
    ByteTop(s[0]);
    Plain1(s);
    assert WordOf(s) == Wide8(s[0]);
  }

  lemma Neg16Number(s: seq<bv8>)
    requires |s| == 2
    ensures Neg16(Word16(s)) <==> Nat(s) >= 0x8000
    ensures Nat(s) < 0x1_0000
  {
    NatOf2(s);
    hide Nat;
    ByteTop(s[1]);
    HalfTop(s);
    hide Word16;
  }

  lemma Wide16Number(s: seq<bv8>)
    requires |s| == 2
    ensures ToNat(Wide16(Word16(s))) == Nat(s)
  {
    Plain2(s);
    assert WordOf(s) == Wide16(Word16(s));
    hide ToNat, Nat, WordOf;
  }

  lemma Extends1(s: seq<bv8>)
    requires |s| == 1
    ensures ToNat(A.Sext8(s[0])) == SignExtended(Nat(s), 1)
  {
    hide ToNat, Nat, A.Sext8, A.Add, Wide8, Neg8;
    Named8(s[0]);
    Neg8Number(s);
    OnesAbove();
    Sum(Wide8(s[0]), 0xFFFF_FFFF_FFFF_FF00);
    ModUnique(Nat(s) + (TWO_64 - 0x100), TWO_64, 0, Nat(s) + (TWO_64 - 0x100));
  }

  lemma Extends2(s: seq<bv8>)
    requires |s| == 2
    ensures ToNat(A.Sext16(Word16(s))) == SignExtended(Nat(s), 2)
  {
    hide ToNat, Nat, A.Sext16, A.Add, Wide16, Neg16, Word16;
    Named16(Word16(s));
    Neg16Number(s);
    Wide16Number(s);
    OnesAboveHalf();
    Sum(Wide16(Word16(s)), 0xFFFF_FFFF_FFFF_0000);
    ModUnique(Nat(s) + (TWO_64 - 0x1_0000), TWO_64, 0, Nat(s) + (TWO_64 - 0x1_0000));
  }

  lemma Extends4(s: seq<bv8>)
    requires |s| == 4
    ensures ToNat(A.Sext32(Word32(s))) == SignExtended(Nat(s), 4)
  {
    hide ToNat, Nat, A.Sext32, Word32, Number32;
    WordNumber(s);
    SextNumber(Word32(s));
  }

  // Without extension: the bytes, and zeros above.
  lemma Plain(s: seq<bv8>)
    requires |s| == 1 || |s| == 2 || |s| == 4 || |s| == 8
    ensures ToNat(WordOf(s)) == Nat(s)
  {
    hide ToNat, Nat;
    match |s|
    case 1 => Plain1(s);
    case 2 => Plain2(s);
    case 4 =>
      WordNumber(s);
      WordOf4(s);
    case _ => DoubleNumber(s);
  }

  lemma WordOf4(s: seq<bv8>)
    requires |s| == 4
    ensures WordOf(s) == A.Wide(Word32(s)) && ToNat(A.Wide(Word32(s))) == Number32(Word32(s))
  {
    hide Word32, ToNat;
  }

  lemma LowOf(s: seq<bv8>)
    ensures |s| == 1 ==> (WordOf(s) & 0xFF) as bv8 == s[0]
    ensures |s| == 2 ==> (WordOf(s) & 0xFFFF) as bv16 == Word16(s)
  {
  }

  lemma LoadNumber(funct3: bv3, s: seq<bv8>)
    requires funct3 != 7 && |s| == LoadBytes(funct3)
    ensures LoadKind(funct3).Some? && LoadKind(funct3).value.0 == |s|
    ensures ToNat(Extend(WordOf(s), LoadKind(funct3).value.0, LoadKind(funct3).value.1)) == LoadValue(funct3, Nat(s))
  {
    hide ToNat, Nat, A.Sext8, A.Sext16, A.Sext32, A.Low32, Word16, Word32, WordOf, SignExtended;
    LowOf(s);
    match funct3
    case 0 => Extends1(s);
    case 1 => Extends2(s);
    case 2 =>
      At.LowOfWord(s);
      Extends4(s);
    case _ => Plain(s);
  }

  // ---------------------------------------------------------------- Instructions

  // The address of a load or store, and where its translation leads.
  predicate Reaches(m: Machine, i: Instruction, access: Access, w: nat, va: bv64, m': Machine, pa: bv64) {
    && ToNat(va) == (ToNat(m.cpu.regs[i.rs1 as nat]) + ToNat(i.imm)) % TWO_64
    && Translate(m, va, access) == Some((m', pa)) && pa != MMU_FAULT && InRam(m'.ram, ToNat(pa), w)
  }

  lemma Reads(m: Machine, va: bv64, w: nat, m': Machine, pa: bv64, r: Reply)
    requires w <= 8 && Translate(m, va, Load) == Some((m', pa)) && pa != MMU_FAULT && InRam(m'.ram, ToNat(pa), w)
    ensures VmRead(m, va, w, r) == Got(m', WordOf(Peek(m'.ram, ToNat(pa), w)))
  {
    hide ToNat, Translate, WordOf, Peek, Answer, PlicEffect;
  }

  lemma Writes(m: Machine, va: bv64, w: nat, v: bv64, m': Machine, pa: bv64, r: Reply)
    requires w <= 8 && Translate(m, va, Store) == Some((m', pa)) && pa != MMU_FAULT && InRam(m'.ram, ToNat(pa), w)
    ensures VmWrite(m, va, w, v, r) == Got(m'.(ram := Poke(m'.ram, ToNat(pa), LowBytes(v, w))), 0)
  {
    hide ToNat, Translate, LowBytes, Poke, Answer, PlicEffect;
  }

  lemma AddressIs(x: bv64, imm: bv64, va: bv64)
    requires ToNat(va) == (ToNat(x) + ToNat(imm)) % TWO_64
    ensures va == A.Add(x, imm)
  {
    hide ToNat, A.Add;
    Sum(x, imm);
    Unique(va, A.Add(x, imm));
  }

  lemma LoadIs(m: Machine, i: Instruction, env: Env, va: bv64, m': Machine, pa: bv64, s: seq<bv8>)
    requires i.opcode == 0x03 && i.funct3 != 7 && Reaches(m, i, Load, LoadBytes(i.funct3), va, m', pa)
    requires s == Peek(m'.ram, ToNat(pa), LoadBytes(i.funct3))
    requires LoadKind(i.funct3).Some? && LoadKind(i.funct3).value.0 == |s|
    ensures var v := Extend(WordOf(s), |s|, LoadKind(i.funct3).value.1);
            Execute(m, i, env) == Next(Retire(m', i.rd, v, i.size))
  {
    hide ToNat, Translate, VmRead, Retire, WordOf, Peek, A.Add, LoadKind, Extend;
    AddressIs(m.cpu.regs[i.rs1 as nat], i.imm, va);
    Reads(m, va, |s|, m', pa, env.first);
  }

  /** A load of 1, 2, 4 or 8 bytes leaves their number in rd, sign-extended for lb, lh and lw. */
  lemma LoadByNumbers(m: Machine, i: Instruction, env: Env, va: bv64, m': Machine, pa: bv64)
    requires i.opcode == 0x03 && i.funct3 != 7 && Reaches(m, i, Load, LoadBytes(i.funct3), va, m', pa)
    ensures Follows(m', i.rd, Execute(m, i, env),
                    Goes(Some(LoadValue(i.funct3, GetNat(m'.ram, ToNat(pa), LoadBytes(i.funct3)))), Next64(m', i)))
  {
    hide Execute, Translate, ToNat, Nat, Follows, Retire, WordOf, Peek, LoadValue, LoadKind, Extend;
    var s := Peek(m'.ram, ToNat(pa), LoadBytes(i.funct3));
    LoadNumber(i.funct3, s);
    LoadIs(m, i, env, va, m', pa, s);
    RetireFollows(m', i.rd, Extend(WordOf(s), |s|, LoadKind(i.funct3).value.1), i.size);
  }

  lemma StoreIs(m: Machine, i: Instruction, env: Env, va: bv64, m': Machine, pa: bv64, s: seq<bv8>)
    requires i.opcode == 0x23 && i.funct3 <= 3 && Reaches(m, i, Store, StoreBytes(i.funct3), va, m', pa)
    requires s == LowBytes(m.cpu.regs[i.rs2 as nat], StoreBytes(i.funct3))
    ensures Execute(m, i, env) == Next(Advance(m'.(ram := Poke(m'.ram, ToNat(pa), s)), i.size))
  {
    hide ToNat, Translate, VmWrite, Advance, Poke, A.Add, LowBytes;
    AddressIs(m.cpu.regs[i.rs1 as nat], i.imm, va);
    Writes(m, va, |s|, m.cpu.regs[i.rs2 as nat], m', pa, env.first);
  }

  /** A store puts the low 1, 2, 4 or 8 bytes of rs2 in memory and steps on. */
  lemma StoreByNumbers(m: Machine, i: Instruction, env: Env, va: bv64, m': Machine, pa: bv64)
    requires i.opcode == 0x23 && i.funct3 <= 3 && Reaches(m, i, Store, StoreBytes(i.funct3), va, m', pa)
    ensures var bytes := Bytes(ToNat(m.cpu.regs[i.rs2 as nat]), StoreBytes(i.funct3));
            Follows(m'.(ram := Poke(m'.ram, ToNat(pa), bytes)), i.rd, Execute(m, i, env), Goes(None, Next64(m', i)))
  {
    hide Execute, Translate, ToNat, Follows, Advance, Poke, Bytes, LowBytes;
    var w, y := StoreBytes(i.funct3), m.cpu.regs[i.rs2 as nat];
    StoredBytes(y, w);
    StoreIs(m, i, env, va, m', pa, LowBytes(y, w));
    AdvanceFollows(m'.(ram := Poke(m'.ram, ToNat(pa), Bytes(ToNat(y), w))), i.rd, i.size);
  }

  // The other codes end the process.
  lemma NoSuchAccess(m: Machine, i: Instruction, env: Env)
    requires (i.opcode == 0x03 && i.funct3 == 7) || (i.opcode == 0x23 && i.funct3 > 3)
    ensures Execute(m, i, env) == Stop
  {
    hide VmRead, VmWrite, Reg;
  }

  // ---------------------------------------------------------------- Floating-point registers

  lemma MergedBytes(f: bv64, s: seq<bv8>)
    requires |s| == 4
    ensures Bytes64(MergeLow(f, WordOf(s))) == s + Bytes64(f)[4..]
  {
    hide Word16, Word64;
    MergedWord(f, Word32(s));
    hide MergeLow;
    WordsRoundTrip(0, Word32(s), 0);
    FourBytes(s);
  }

  // The upper and the lower four bytes of a word.
  function Upper(x: bv64): bv64 { x >> 32 }

  function Lower(x: bv64): bv64 { x & 0xFFFF_FFFF }

  function Four(x: bv64): seq<bv8> {
    [(x & 0xFF) as bv8, ((x >> 8) & 0xFF) as bv8, ((x >> 16) & 0xFF) as bv8, ((x >> 24) & 0xFF) as bv8]
  }

  lemma UpperBytes(x: bv64)
    ensures Bytes64(x)[4..] == Four(x >> 32)
  {
  }

  lemma LowerBytes(x: bv64)
    ensures Bytes64(x)[..4] == Four(x & 0xFFFF_FFFF)
  {
  }

  lemma MergedParts(f: bv64, v: bv64)
    ensures Upper((f & 0xFFFF_FFFF_0000_0000) | (v & 0xFFFF_FFFF)) == f >> 32
    ensures Lower((f & 0xFFFF_FFFF_0000_0000) | (v & 0xFFFF_FFFF)) == v & 0xFFFF_FFFF
  {
  }

  lemma PartsAre(x: bv64)
    ensures Upper(x) == x >> 32 && Lower(x) == x & 0xFFFF_FFFF
  {
  }

  lemma MergeIs(f: bv64, v: bv64)
    ensures MergeLow(f, v) == (f & 0xFFFF_FFFF_0000_0000) | (v & 0xFFFF_FFFF)
  {
  }

  lemma Merged(f: bv64, v: bv64)
    ensures Upper(MergeLow(f, v)) == Upper(f) && Lower(MergeLow(f, v)) == Lower(v)
  {
    hide Upper, Lower, MergeLow;
    MergeIs(f, v);
    MergedParts(f, v);
    PartsAre(f);
    PartsAre(v);
  }

  lemma ByParts(x: bv64)
    ensures Bytes64(x) == Four(Lower(x)) + Four(Upper(x))
  {
    hide Bytes64, Four;
    UpperBytes(x);
    LowerBytes(x);
    assert Bytes64(x) == Bytes64(x)[..4] + Bytes64(x)[4..];
  }

  lemma FourOfWord(w: bv32)
    ensures Four(Lower(w as bv64)) == Bytes32(w)
  {
  }

  lemma MergedWord(f: bv64, w: bv32)
    ensures Bytes64(MergeLow(f, w as bv64)) == Bytes32(w) + Bytes64(f)[4..]
  {
    hide Upper, Lower, Four, Bytes32, MergeLow;
    Merged(f, w as bv64);
    ByParts(MergeLow(f, w as bv64));
    ByParts(f);
    FourLength(Lower(f));
    FourOfWord(w);
    hide Bytes64;
  }

  lemma FourLength(x: bv64)
    ensures |Four(x)| == 4
  {
  }

  lemma FourBytes(s: seq<bv8>)
    requires |s| == 4
    ensures Bytes32(Word32(s)) == s
  {
  }

  // Register rd holds the given bytes, in its low half if there are four; pc is at the number
  // given; nothing else has moved.
  predicate FpHolds(m: Machine, e: Exec, rd: bv5, s: seq<bv8>, pc: nat) {
    e.Next?
    && var f, f' := m.cpu.fregs[rd as nat], e.m.cpu.fregs[rd as nat];
       && e.m == m.(cpu := m.cpu.(fregs := m.cpu.fregs[rd as nat := f'], pc := e.m.cpu.pc)) && ToNat(e.m.cpu.pc) == pc
       && Bytes64(f') == if |s| == 4 then s + Bytes64(f)[4..] else s
  }

  lemma FpHoldsIs(m: Machine, rd: bv5, v: bv64, s: seq<bv8>, size: bv64)
    requires Bytes64(v) == if |s| == 4 then s + Bytes64(m.cpu.fregs[rd as nat])[4..] else s
    ensures FpHolds(m, Next(Advance(WithFreg(m, rd, v), size)), rd, s, (ToNat(m.cpu.pc) + ToNat(size)) % TWO_64)
  {
    hide ToNat, Bytes64, A.Add;
    Sum(m.cpu.pc, size);
  }

  function FpWord(f: bv64, s: seq<bv8>): bv64 {
    if |s| == 4 then MergeLow(f, WordOf(s)) else WordOf(s)
  }

  // The machine with v in floating register rd.
  function WithFreg(m: Machine, rd: bv5, v: bv64): Machine {
    m.(cpu := m.cpu.(fregs := m.cpu.fregs[rd as nat := v]))
  }

  lemma FpLoadIs(m: Machine, i: Instruction, env: Env, va: bv64, m': Machine, pa: bv64, s: seq<bv8>)
    requires i.opcode == 0x07 && Reaches(m, i, Load, Bytewidth(i.funct3), va, m', pa)
    requires s == Peek(m'.ram, ToNat(pa), Bytewidth(i.funct3))
    ensures Execute(m, i, env) == Next(Advance(WithFreg(m', i.rd, FpWord(m'.cpu.fregs[i.rd as nat], s)), i.size))
  {
    hide ToNat, Translate, VmRead, WordOf, Peek, A.Add, MergeLow, Advance;
    AddressIs(m.cpu.regs[i.rs1 as nat], i.imm, va);
    Reads(m, va, Bytewidth(i.funct3), m', pa, env.first);
  }

  /** FLW replaces the low four bytes of the register by those at the address, FLD all eight. */
  lemma FpLoadByBytes(m: Machine, i: Instruction, env: Env, va: bv64, m': Machine, pa: bv64, s: seq<bv8>)
    requires i.opcode == 0x07 && Reaches(m, i, Load, Bytewidth(i.funct3), va, m', pa)
    requires s == Peek(m'.ram, ToNat(pa), Bytewidth(i.funct3))
    ensures FpHolds(m', Execute(m, i, env), i.rd, s, Next64(m', i))
  {
    hide Execute, ToNat, Translate, Bytes64, Peek, FpWord, FpHolds, Advance;
    var f := m'.cpu.fregs[i.rd as nat];
    FpLoadIs(m, i, env, va, m', pa, s);
    FpValue(f, s);
    FpHoldsIs(m', i.rd, FpWord(f, s), s, i.size);
  }

  lemma FpValue(f: bv64, s: seq<bv8>)
    requires |s| == 4 || |s| == 8
    ensures Bytes64(FpWord(f, s)) == if |s| == 4 then s + Bytes64(f)[4..] else s
  {
    hide Bytes64, Word64, Word32, Word16, MergeLow;
    if |s| == 4 {
      MergedBytes(f, s);
    } else {
      BytesRoundTrip(s);
    }
  }

  /** FSW stores the low four bytes of the register, FSD all eight. */
  lemma FpStoreByBytes(m: Machine, i: Instruction, env: Env, va: bv64, m': Machine, pa: bv64)
    requires i.opcode == 0x27 && Reaches(m, i, Store, Bytewidth(i.funct3), va, m', pa)
    ensures var bytes := Bytes64(m.cpu.fregs[i.rs2 as nat])[..Bytewidth(i.funct3)];
            Follows(m'.(ram := Poke(m'.ram, ToNat(pa), bytes)), i.rd, Execute(m, i, env), Goes(None, Next64(m', i)))
  {
    hide ToNat, Translate, VmWrite, Follows, Advance, Poke, Bytes64, A.Add;
    AddressIs(m.cpu.regs[i.rs1 as nat], i.imm, va);
    Writes(m, va, Bytewidth(i.funct3), m.cpu.fregs[i.rs2 as nat], m', pa, env.first);
    var bytes := Bytes64(m.cpu.fregs[i.rs2 as nat])[..Bytewidth(i.funct3)];
    AdvanceFollows(m'.(ram := Poke(m'.ram, ToNat(pa), bytes)), i.rd, i.size);
  }
}

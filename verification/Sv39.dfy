/** Sv39 over numbers: translation written out in the arithmetic of va, satp and 8-byte
    entries, and the code's translation proved to compute it. */
module Sv39 {
  import opened Words
  import opened Memory
  import opened Mmu
  import opened Numbers
  import A = Alu

  // ---------------------------------------------------------------- On numbers

  // What an entry at a level maps: 4 KiB, 2 MiB, 1 GiB.
  function PageSize(level: nat): nat
    requires level <= 2
  {
    if level == 0 then 0x1000 else if level == 1 then 0x20_0000 else 0x4000_0000
  }

  const FRAMES: nat := 0x1000_0000_0000

  // Missing: an entry to read lies outside RAM. To: the physical address, and the address of
  // the leaf that gave it.
  datatype Answer = Missing | Faults | To(pa: nat, leaf: nat)

  predicate Grants(e: nat, priv: nat, sum: bool, access: Access) {
    var r, w, x, u := e / 2 % 2 == 1, e / 4 % 2 == 1, e / 8 % 2 == 1, e / 16 % 2 == 1;
    && (match access case Fetch => x case Load => r case Store => w)
    && (priv == 0 ==> u) && (priv == 1 && u ==> sum)
  }

  // Not valid, or writable and not readable.
  predicate Broken(e: nat) {
    e % 2 == 0 || (e / 4 % 2 == 1 && e / 2 % 2 == 0)
  }

  // Readable or executable: a leaf.
  predicate IsPage(e: nat) {
    e / 2 % 2 == 1 || e / 8 % 2 == 1
  }

  function Frame(e: nat): nat {
    e / 1024 % FRAMES
  }

  function Spot(table: nat, va: nat, level: nat): nat
    requires level <= 2
  {
    table * 4096 + 8 * (va / PageSize(level) % 512)
  }

  function Look(m: Ram, table: nat, va: nat, priv: nat, sum: bool, access: Access, level: nat): Answer
    requires level <= 2
    decreases level
  {
    var a := Spot(table, va, level);
    if !InRam(m, a, 8) then Missing
    else
      var e := GetNat(m, a, 8);
      if Broken(e) then Faults
      else if IsPage(e) then
        if Grants(e, priv, sum, access) then To(OrNat(Frame(e) * 4096, va % PageSize(level)), a) else Faults
      else if level == 0 then Faults
      else Look(m, Frame(e), va, priv, sum, access, level - 1)
  }

  // The answer for a hart: satp holds the mode in its top 4 bits and the root in its low 44.
  function Answered(m: Ram, c: Context, va: bv64, access: Access): Answer {
    Look(m, ToNat(c.satp) % FRAMES, ToNat(va), c.priv as nat, c.sum, access, 2)
  }

  // ---------------------------------------------------------------- Words as numbers

  lemma NineBits(v: bv64)
    ensures ((v & 0x1FF) as bv9) as nat == Digit((v & 0xFF) as bv8) + 256 * Digit(((v >> 8) & 1) as bv8)
    ensures Bytes64(v & 0x1FF) == [(v & 0xFF) as bv8, ((v >> 8) & 1) as bv8, 0, 0, 0, 0, 0, 0]
    ensures Digit(0) == 0
  {
  }

  lemma NineMask()
    ensures ToNat(0x1FF) == 511
  {
    var s := Bytes64(0x1FF);
    assert s == [0xFF, 1, 0, 0, 0, 0, 0, 0];
    hide Bytes64, Nat;
    Nat8(s);
  }

  lemma IndexNumber(v: bv64)
    ensures ((v & 0x1FF) as bv9) as nat == ToNat(v) % 512
  {
    hide Bytes64, Nat, Digit, A.And, AndNat, Pow2;
    NineBits(v);
    Nat8(Bytes64(v & 0x1FF));
    AndIs(v, 0x1FF);
    AndNumber(v, 0x1FF);
    NineMask();
    Pow2Of9();
    MaskIsMod(ToNat(v), 9);
  }

  lemma VpnNumber(va: bv64, level: nat)
    requires level <= 2
    ensures Vpn(va, level) as nat == ToNat(va) / PageSize(level) % 512
  {
    hide ToNat;
    Shift12(va);
    Shift30(va);
    IndexNumber(va >> 12);
    IndexNumber(va >> 21);
    IndexNumber(va >> 30);
  }

  lemma MaskNumbers()
    ensures ToNat(0xFFF) == 0xFFF && ToNat(0x1F_FFFF) == 0x1F_FFFF && ToNat(0x3FFF_FFFF) == 0x3FFF_FFFF
    ensures ToNat(0xFFF_FFFF_FFFF) == FRAMES - 1
  {
    Mask12();
    Mask21();
    Mask30();
    Mask44();
  }

  lemma Mask12()
    ensures ToNat(0xFFF) == 0xFFF
  {
    var s := Bytes64(0xFFF);
    assert s == [0xFF, 0xF, 0, 0, 0, 0, 0, 0];
    hide Bytes64, Nat;
    Nat8(s);
  }

  lemma Mask21()
    ensures ToNat(0x1F_FFFF) == 0x1F_FFFF
  {
    var s := Bytes64(0x1F_FFFF);
    assert s == [0xFF, 0xFF, 0x1F, 0, 0, 0, 0, 0];
    hide Bytes64, Nat;
    Nat8(s);
  }

  lemma Mask30()
    ensures ToNat(0x3FFF_FFFF) == 0x3FFF_FFFF
  {
    var s := Bytes64(0x3FFF_FFFF);
    assert s == [0xFF, 0xFF, 0xFF, 0x3F, 0, 0, 0, 0];
    hide Bytes64, Nat;
    Nat8(s);
  }

  lemma Mask44()
    ensures ToNat(0xFFF_FFFF_FFFF) == FRAMES - 1
  {
    var s := Bytes64(0xFFF_FFFF_FFFF);
    assert s == [0xFF, 0xFF, 0xFF, 0xFF, 0xFF, 0xF, 0, 0];
    hide Bytes64, Nat;
    Nat8(s);
  }

  lemma Powers()
    ensures Pow2(12) == 0x1000 && Pow2(21) == 0x20_0000 && Pow2(30) == 0x4000_0000 && Pow2(44) == FRAMES
  {
    Pow2Of9();
    assert Pow2(3) == 8 && Pow2(2) == 4 && Pow2(5) == 32;
    hide Pow2;
    Pow2Sum(9, 3);
    Pow2Sum(9, 12);
    Pow2Sum(9, 21);
    Pow2Sum(12, 30);
    Pow2Sum(2, 42);
  }

  lemma Kept44(x: bv64)
    ensures ToNat(A.And(x, 0xFFF_FFFF_FFFF)) == ToNat(x) % FRAMES
  {
    hide ToNat, A.And, Pow2;
    MaskNumbers();
    Powers();
    MaskKeeps(x, 0xFFF_FFFF_FFFF, 44);
  }

  function Wide(ppn: bv44): bv64 { ppn as bv64 }

  lemma WidePpn(pte: bv64)
    ensures Wide(PtePpn(pte)) == A.And(pte >> 10, 0xFFF_FFFF_FFFF)
  {
  }

  lemma FrameNumber(pte: bv64)
    ensures ToNat(Wide(PtePpn(pte))) == Frame(ToNat(pte))
  {
    hide ToNat, Wide, PtePpn, A.And;
    WidePpn(pte);
    Kept44(pte >> 10);
    Shift12(pte);
  }

  lemma WideRoot(c: Context)
    ensures Wide(Root(c)) == A.And(c.satp, 0xFFF_FFFF_FFFF)
  {
  }

  lemma RootNumber(c: Context)
    ensures ToNat(Wide(Root(c))) == ToNat(c.satp) % FRAMES
  {
    hide ToNat, Wide, Root, A.And;
    WideRoot(c);
    Kept44(c.satp);
  }

  lemma EntryNumber(ppn: bv44, va: bv64, level: nat)
    requires level <= 2
    ensures PteAddr(ppn, Vpn(va, level)) == Spot(ToNat(Wide(ppn)), ToNat(va), level)
  {
    hide ToNat, Vpn, PageSize;
    VpnNumber(va, level);
  }

  lemma WideBelow(ppn: bv44)
    ensures ToNat(Wide(ppn)) < FRAMES
  {
    assert A.And(Wide(ppn), 0xFFF_FFFF_FFFF) == Wide(ppn);
    hide ToNat, Wide, A.And;
    Kept44(Wide(ppn));
  }

  function Offset(va: bv64, level: nat): bv64
    requires level <= 2
  {
    A.And(va, OffsetMask(level))
  }

  lemma OffsetNumber(va: bv64, level: nat)
    requires level <= 2
    ensures ToNat(Offset(va, level)) == ToNat(va) % PageSize(level)
  {
    hide ToNat, A.And, Pow2;
    MaskNumbers();
    Powers();
    MaskKeeps(va, OffsetMask(level), if level == 0 then 12 else if level == 1 then 21 else 30);
  }

  lemma PageIs(ppn: bv44, va: bv64, level: nat)
    requires level <= 2
    ensures PageAddr(ppn, va, level) == A.Or(Wide(ppn) << 12, Offset(va, level))
  {
  }

  // The frame and the offset that a leaf's page leaves of va.
  lemma PageNumber(ppn: bv44, va: bv64, level: nat)
    requires level <= 2
    ensures ToNat(PageAddr(ppn, va, level)) == OrNat(ToNat(Wide(ppn)) * 4096, ToNat(va) % PageSize(level))
  {
    hide ToNat, A.Or, OrNat, Wide, Offset, PageAddr, PageSize;
    WideBelow(ppn);
    ShiftedUp(Wide(ppn));
    OffsetNumber(va, level);
    PageIs(ppn, va, level);
    OrNumber(Wide(ppn) << 12, Offset(va, level));
  }

  // ---------------------------------------------------------------- Flags

  lemma FlagBits(e: bv64)
    ensures (e & 0x1 != 0 <==> Odd(e)) && (e & 0x2 != 0 <==> Odd(Half(e))) && (e & 0x4 != 0 <==> Odd(Half(Half(e))))
    ensures e & 0x8 != 0 <==> Odd(Half(Half(Half(e))))
    ensures e & 0x10 != 0 <==> Odd(Half(Half(Half(Half(e)))))
  {
  }

  lemma Quarters(n: nat)
    ensures n / 2 / 2 == n / 4 && n / 4 / 2 == n / 8 && n / 8 / 2 == n / 16
  {
  }

  lemma FlagNumbers(e: bv64)
    ensures (Odd(e) <==> ToNat(e) % 2 == 1) && (Odd(Half(e)) <==> ToNat(e) / 2 % 2 == 1)
    ensures (Odd(Half(Half(e))) <==> ToNat(e) / 4 % 2 == 1) && (Odd(Half(Half(Half(e)))) <==> ToNat(e) / 8 % 2 == 1)
    ensures Odd(Half(Half(Half(Half(e))))) <==> ToNat(e) / 16 % 2 == 1
  {
    hide ToNat, Half, Odd;
    Quarters(ToNat(e));
    Halved(e);
    Halved(Half(e));
    Halved(Half(Half(e)));
    Halved(Half(Half(Half(e))));
    Halved(Half(Half(Half(Half(e)))));
  }

  // What the code's tests of an entry mean for its number.
  lemma EntryTests(e: bv64, c: Context, access: Access)
    ensures Invalid(e) <==> Broken(ToNat(e))
    ensures IsLeaf(e) <==> IsPage(ToNat(e))
    ensures Permits(e, c.priv, c.sum, access) <==> Grants(ToNat(e), c.priv as nat, c.sum, access)
  {
    FlagBits(e);
    FlagNumbers(e);
    hide ToNat, Half, Odd;
  }

  // ---------------------------------------------------------------- The walk

  // What a walk comes to, as an answer.
  predicate Means(w: Walked, c: Context, va: bv64, access: Access, n: Answer) {
    match w
    case OffRam => n == Missing
    case NoLeaf => n == Faults
    case Leaf(at, pte, level) =>
      if level <= 2 && Permits(pte, c.priv, c.sum, access) then n == To(ToNat(PageAddr(PtePpn(pte), va, level)), at)
      else n == Faults
  }

  lemma EntryRead(m: Ram, a: nat)
    requires InRam(m, a, 8)
    ensures ToNat(Get64(m, a)) == GetNat(m, a, 8)
  {
    hide Bytes64, Word64, Nat, Peek;
    BytesRoundTrip(Peek(m, a, 8));
  }

  lemma {:induction false} WalkMeans(m: Ram, ppn: bv44, c: Context, va: bv64, access: Access, level: nat)
    requires level <= 2
    ensures Means(WalkAt(m, PteAddr(ppn, Vpn(va, level)), va, level), c, va, access,
                  Look(m, ToNat(Wide(ppn)), ToNat(va), c.priv as nat, c.sum, access, level))
    decreases level
  {
    hide ToNat, Get64, GetNat, Invalid, IsLeaf, Permits, Grants, PageAddr, PtePpn, PteAddr, Vpn, Wide, OrNat, PageSize;
    hide Broken, IsPage, Frame, Spot;
    var a := PteAddr(ppn, Vpn(va, level));
    EntryNumber(ppn, va, level);
    if InRam(m, a, 8) {
      var e := Get64(m, a);
      EntryRead(m, a);
      EntryTests(e, c, access);
      FrameNumber(e);
      PageNumber(PtePpn(e), va, level);
      if level > 0 {
        WalkMeans(m, PtePpn(e), c, va, access, level - 1);
      }
    }
  }

  // Translation is on below M-mode when the mode field of satp is 8.
  predicate On(c: Context) {
    c.priv as nat < 3 && ToNat(c.satp) / 0x1000_0000_0000_0000 == 8
  }

  lemma SomeNumbers()
    ensures ToNat(8) == 8 && ToNat(0x40) == 0x40 && ToNat(0xC0) == 0xC0
  {
    ByteWord(8);
    ByteWord(0x40);
    ByteWord(0xC0);
    assert Digit(8) == 8 && Digit(0x40) == 0x40 && Digit(0xC0) == 0xC0;
  }

  lemma OnIsActive(c: Context)
    ensures On(c) <==> Active(c)
  {
    SomeNumbers();
    hide ToNat;
    Shift60(c.satp);
    Unique(c.satp >> 60, 8);
  }

  // An entry with A set, and D for a store.
  function MarkedEntry(e: nat, access: Access): nat {
    OrNat(e, if access.Store? then 0xC0 else 0x40)
  }

  lemma MarkNumber(e: bv64, access: Access)
    ensures Bytes64(AddMark(e, access)) == Bytes(MarkedEntry(ToNat(e), access), 8)
  {
    var marked := AddMark(e, access);
    assert AddMark(e, access) == A.Or(e, Mark(access));
    SomeNumbers();
    hide Bytes64, A.Or, AddMark, OrNat;
    OrNumber(e, Mark(access));
    BytesOfNat(Bytes64(marked));
  }

  /** Translation by numbers: the code's translation is the one written out above, for every
      memory, hart and address. With translation on, it takes the root from satp, indexes the
      tables by the 9-bit fields of va, and answers with the leaf's frame joined with the
      offset of va in the leaf's page; it then sets A, and D for a store, in that leaf and
      changes nothing else. Off, it is the identity. */
  lemma TranslatesByNumbers(m: Ram, c: Context, va: bv64, access: Access)
    ensures !On(c) ==> Resolve(m, c, va, access) == Phys(va) && Touch(m, c, va, access) == m
    ensures On(c) ==>
              match Answered(m, c, va, access)
              case Missing => Resolve(m, c, va, access) == Stuck && Touch(m, c, va, access) == m
              case Faults => Resolve(m, c, va, access) == PageFault && Touch(m, c, va, access) == m
              case To(pa, leaf) =>
                && Resolve(m, c, va, access).Phys? && ToNat(Resolve(m, c, va, access).pa) == pa
                && InRam(m, leaf, 8)
                && Touch(m, c, va, access) == Poke(m, leaf, Bytes(MarkedEntry(GetNat(m, leaf, 8), access), 8))
  {
    hide ToNat, Active, On, Look, Permits, PageAddr, PtePpn, PteAddr, Vpn, Root, Wide, WalkAt, MarkedEntry, Get64;
    hide GetNat, AddMark;
    OnIsActive(c);
    if On(c) {
      RootNumber(c);
      WalkMeans(m, Root(c), c, va, access, 2);
      var w := Walk(m, c, va);
      if w.Leaf? {
        EntryRead(m, w.at);
        MarkNumber(w.pte, access);
      }
    }
  }

  // Where the frame is aligned, joining is adding.
  lemma AlignedJoin(frame: nat, va: nat, level: nat)
    requires level <= 2 && frame * 4096 % PageSize(level) == 0
    ensures OrNat(frame * 4096, va % PageSize(level)) == frame * 4096 + va % PageSize(level)
  {
    hide OrNat, Pow2;
    Powers();
    OrIsSum(frame * 4096, va % PageSize(level), if level == 0 then 12 else if level == 1 then 21 else 30);
  }
}

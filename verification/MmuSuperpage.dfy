/** A superpage leaf and any tree of smaller leaves that covers the same frames with the same
    flags are indistinguishable to every translation. */
module MmuSuperpage {
  import opened Words
  import opened Memory
  import opened Mmu
  import N = Numbers

  // Flags of a leaf apart from A and D.
  function Flags(pte: bv64): bv64 {
    pte & 0x3F
  }

  // The frame number lies on a boundary of the level's page size.
  predicate Aligned(ppn: bv44, level: nat)
    requires level <= 2
  {
    if level == 0 then true else if level == 1 then ppn & 0x1FF == 0 else ppn & 0x3_FFFF == 0
  }

  // First frame of the i-th part of a page one level down.
  function SubFrame(ppn: bv44, i: bv9, level: nat): bv44
    requires 1 <= level <= 2
  {
    Plus(ppn, if level == 1 then Index(i) else HighIndex(i))
  }

  function Plus(x: bv44, y: bv44): bv44 { x + y }

  function Index(i: bv9): bv44 { i as bv44 }

  function HighIndex(i: bv9): bv44 { (i as bv44) << 9 }

  /** The entry at `at` maps the aligned run of frames that starts at ppn, with these flags:
      as one leaf, or by leading to a table whose 512 entries map the 512 parts. */
  ghost predicate Tiles(m: Ram, at: nat, ppn: bv44, flags: bv64, level: nat)
    requires level <= 2
    decreases level
  {
    && InRam(m, at, 8)
    && var pte := Get64(m, at);
       if IsLeaf(pte) then PtePpn(pte) == ppn && Flags(pte) == flags
       else
         && !Invalid(pte) && level > 0
         && forall i: bv9 :: Tiles(m, PteAddr(PtePpn(pte), i), SubFrame(ppn, i, level), flags, level - 1)
  }

  // What an entry yields for a va, as seen from its table.
  function ResolveAt(m: Ram, at: nat, c: Context, va: bv64, access: Access, level: nat): Outcome
    requires level <= 2
  {
    match WalkAt(m, at, va, level)
    case OffRam => Stuck
    case NoLeaf => PageFault
    case Leaf(_, pte, l) =>
      if Permits(pte, c.priv, c.sum, access) then Phys(PageAddr(PtePpn(pte), va, l)) else PageFault
  }

  lemma ResolveIsResolveAt(m: Ram, c: Context, va: bv64, access: Access)
    requires Active(c)
    ensures Resolve(m, c, va, access) == ResolveAt(m, PteAddr(Root(c), Vpn(va, 2)), c, va, access, 2)
  {
  }

  // The same two verdicts, read off the six flag bits alone.
  predicate FlagsAllow(flags: bv64, priv: bv2, sum: bool, access: Access) {
    Permits(flags, priv, sum, access) && !Invalid(flags)
  }

  lemma PermitsByFlags(pte: bv64, priv: bv2, sum: bool, access: Access)
    ensures Permits(pte, priv, sum, access) == Permits(Flags(pte), priv, sum, access)
  {
    assert pte & PTE_U == (pte & 0x3F) & PTE_U;
    assert pte & PTE_R == (pte & 0x3F) & PTE_R;
    assert pte & PTE_W == (pte & 0x3F) & PTE_W;
    assert pte & PTE_X == (pte & 0x3F) & PTE_X;
  }

  lemma InvalidByFlags(pte: bv64)
    ensures Invalid(pte) == Invalid(Flags(pte))
  {
    assert pte & PTE_V == (pte & 0x3F) & PTE_V;
    assert pte & PTE_R == (pte & 0x3F) & PTE_R;
    assert pte & PTE_W == (pte & 0x3F) & PTE_W;
  }

  // Going down one level keeps the translated address.
  lemma SubFrameAddr(ppn: bv44, va: bv64, level: nat)
    requires 1 <= level <= 2 && Aligned(ppn, level)
    ensures Aligned(SubFrame(ppn, Vpn(va, level - 1), level), level - 1)
    ensures PageAddr(SubFrame(ppn, Vpn(va, level - 1), level), va, level - 1) == PageAddr(ppn, va, level)
  {
    if level == 1 {
      SumIsOr1(ppn, ((va >> 12) & 0x1FF) as bv9);
      SubFrameAddr1(ppn, va);
    } else {
      SumIsOr2(ppn, ((va >> 21) & 0x1FF) as bv9);
      SubFrameAddr2(ppn, va);
    }
  }

  lemma SumIsOr1(ppn: bv44, i: bv9)
    requires ppn & 0x1FF == 0
    ensures ppn + (i as bv44) == ppn | (i as bv44)
  {
  }

  lemma SumIsOr2(ppn: bv44, i: bv9)
    requires ppn & 0x3_FFFF == 0
    ensures ppn + ((i as bv44) << 9) == ppn | ((i as bv44) << 9)
    ensures (ppn | ((i as bv44) << 9)) & 0x1FF == 0
  {
  }

  lemma SubFrameAddr1(ppn: bv44, va: bv64)
    ensures (((ppn | (((va >> 12) & 0x1FF) as bv9 as bv44)) as bv64) << 12) | (va & 0xFFF)
         == ((ppn as bv64) << 12) | (va & 0x1F_FFFF)
  {
  }

  lemma SubFrameAddr2(ppn: bv44, va: bv64)
    ensures (((ppn | ((((va >> 21) & 0x1FF) as bv9 as bv44) << 9)) as bv64) << 12) | (va & 0x1F_FFFF)
         == ((ppn as bv64) << 12) | (va & 0x3FFF_FFFF)
  {
  }

  lemma Distinct(x: bv44, y: bv44)
    requires x != y
    ensures (x as bv64) << 12 != (y as bv64) << 12
  {
  }

  /** Whatever the shape of the tiling, the outcome is the superpage's: the frame run plus
      the offset, or a fault exactly when the flags refuse. */
  lemma {:induction false} TilesResolve(m: Ram, at: nat, ppn: bv44, flags: bv64, c: Context, va: bv64,
                                        access: Access, level: nat)
    requires level <= 2 && Aligned(ppn, level) && Tiles(m, at, ppn, flags, level)
    ensures ResolveAt(m, at, c, va, access, level)
         == if FlagsAllow(flags, c.priv, c.sum, access) then Phys(PageAddr(ppn, va, level)) else PageFault
    decreases level
  {
    hide Permits, Invalid, IsLeaf, PageAddr, PtePpn, Vpn, PteAddr, Get64, Flags, SubFrame, Aligned;
    var pte := Get64(m, at);
    PermitsByFlags(pte, c.priv, c.sum, access);
    InvalidByFlags(pte);
    if !IsLeaf(pte) {
      var i := Vpn(va, level - 1);
      SubFrameAddr(ppn, va, level);
      TilesResolve(m, PteAddr(PtePpn(pte), i), SubFrame(ppn, i, level), flags, c, va, access, level - 1);
    }
  }

  // ---------------------------------------------------------------- Alignment is needed

  // The frame of the 4 KiB part of a page that va falls in.
  function PartFrame(ppn: bv44, va: bv64, level: nat): bv44
    requires level <= 2
    decreases level
  {
    if level == 0 then ppn else PartFrame(SubFrame(ppn, Vpn(va, level - 1), level), va, level - 1)
  }

  predicate SameAddr(ppn: bv44, va: bv64, level: nat)
    requires level <= 2
  {
    PageAddr(PartFrame(ppn, va, level), va, 0) == PageAddr(ppn, va, level)
  }

  // The frame bits below a page's boundary: of a 2 MiB page, and the rest of a 1 GiB one.
  function LowBits(ppn: bv44): bv44 { ppn & 0x1FF }

  function HighBits(ppn: bv44): bv44 { ppn & 0x3_FE00 }

  // The va whose part index is these frame bits.
  function Stray(bits: bv44): bv64 { (bits as bv64) << 12 }

  lemma StrayIndex(ppn: bv44)
    ensures Index(Vpn(Stray(LowBits(ppn)), 0)) == LowBits(ppn) && HighIndex(Vpn(Stray(LowBits(ppn)), 1)) == 0
    ensures HighIndex(Vpn(Stray(HighBits(ppn)), 1)) == HighBits(ppn) && Index(Vpn(Stray(HighBits(ppn)), 0)) == 0
  {
  }

  lemma Sums(p: bv44, x: bv44)
    ensures x != 0 ==> Plus(p, x) != p
    ensures Plus(p, 0) == p
  {
  }

  // The bits are set in the frame number, and lie below the boundary of a level.
  predicate Inside(ppn: bv44, bits: bv44) { ppn | bits == ppn }

  predicate Below(bits: bv44, level: nat) {
    if level == 1 then bits & 0x1FF == bits else bits & 0x3_FFFF == bits
  }

  lemma LowInside(ppn: bv44)
    ensures Inside(ppn, LowBits(ppn))
  {
  }

  lemma LowBelow(ppn: bv44)
    ensures Below(LowBits(ppn), 1) && Below(LowBits(ppn), 2)
  {
  }

  lemma HighInside(ppn: bv44)
    ensures Inside(ppn, HighBits(ppn))
  {
  }

  lemma HighBelow(ppn: bv44)
    ensures Below(HighBits(ppn), 2)
  {
  }

  // A stray address adds nothing to a frame, and to a leaf nothing that its frame lacks.
  lemma StrayFrame(bits: bv44, frame: bv44)
    requires Below(bits, 2)
    ensures PageAddr(frame, Stray(bits), 0) == (frame as bv64) << 12
  {
    assert Stray(bits) & 0xFFF == 0;
  }

  function Join(ppn: bv44, offset: bv64): bv64 { ((ppn as bv64) << 12) | offset }

  lemma StrayInside(ppn: bv44, bits: bv44)
    requires Inside(ppn, bits)
    ensures Join(ppn, Stray(bits)) == (ppn as bv64) << 12
  {
  }

  lemma StrayMasked(bits: bv44, level: nat)
    requires 1 <= level <= 2 && Below(bits, level)
    ensures Stray(bits) & OffsetMask(level) == Stray(bits)
  {
    if level == 1 {
      assert ((bits as bv64) << 12) & 0x1F_FFFF == (bits as bv64) << 12;
    }
  }

  lemma JoinIsPageAddr(ppn: bv44, va: bv64, level: nat)
    requires level <= 2 && va & OffsetMask(level) == va
    ensures PageAddr(ppn, va, level) == Join(ppn, va)
  {
    hide OffsetMask;
  }

  lemma StrayLeaf(ppn: bv44, bits: bv44, level: nat)
    requires 1 <= level <= 2 && Inside(ppn, bits) && Below(bits, level)
    ensures PageAddr(ppn, Stray(bits), level) == (ppn as bv64) << 12
  {
    hide Stray, Inside, Below, PageAddr, Join;
    StrayInside(ppn, bits);
    StrayMasked(bits, level);
    JoinIsPageAddr(ppn, Stray(bits), level);
  }

  // Where the part lands in another frame, the address differs.
  lemma StraysApart(ppn: bv44, bits: bv44, level: nat)
    requires 1 <= level <= 2 && Inside(ppn, bits) && Below(bits, level) && Below(bits, 2)
    requires PartFrame(ppn, Stray(bits), level) != ppn
    ensures !SameAddr(ppn, Stray(bits), level)
  {
    hide PageAddr, PartFrame, Stray, Inside, Below;
    var frame := PartFrame(ppn, Stray(bits), level);
    StrayFrame(bits, frame);
    StrayLeaf(ppn, bits, level);
    Distinct(frame, ppn);
  }

  lemma StraysLow(ppn: bv44, level: nat)
    requires 1 <= level <= 2 && LowBits(ppn) != 0
    ensures !SameAddr(ppn, Stray(LowBits(ppn)), level)
  {
    hide SameAddr, Stray, Vpn, Plus, Index, HighIndex, LowBits, Inside, Below;
    var va := Stray(LowBits(ppn));
    StrayIndex(ppn);
    Sums(ppn, LowBits(ppn));
    assert PartFrame(ppn, va, 2) == PartFrame(SubFrame(ppn, Vpn(va, 1), 2), va, 1);
    LowInside(ppn);
    LowBelow(ppn);
    StraysApart(ppn, LowBits(ppn), level);
  }

  lemma StraysHigh(ppn: bv44)
    requires HighBits(ppn) != 0
    ensures !SameAddr(ppn, Stray(HighBits(ppn)), 2)
  {
    hide SameAddr, Stray, Vpn, Plus, Index, HighIndex, HighBits, Inside, Below;
    var va := Stray(HighBits(ppn));
    StrayIndex(ppn);
    Sums(ppn, HighBits(ppn));
    Sums(Plus(ppn, HighBits(ppn)), 0);
    assert PartFrame(ppn, va, 2) == PartFrame(SubFrame(ppn, Vpn(va, 1), 2), va, 1);
    HighInside(ppn);
    HighBelow(ppn);
    StraysApart(ppn, HighBits(ppn), 2);
  }

  lemma AlignedBits(ppn: bv44)
    ensures Aligned(ppn, 1) <==> LowBits(ppn) == 0
    ensures Aligned(ppn, 2) <==> LowBits(ppn) == 0 && HighBits(ppn) == 0
  {
  }

  lemma {:induction false} AlignedSameAddr(ppn: bv44, va: bv64, level: nat)
    requires level <= 2 && Aligned(ppn, level)
    ensures SameAddr(ppn, va, level)
    decreases level
  {
    hide PageAddr, SubFrame, Vpn, Aligned;
    if level > 0 {
      SubFrameAddr(ppn, va, level);
      AlignedSameAddr(SubFrame(ppn, Vpn(va, level - 1), level), va, level - 1);
    }
  }

  /** The alignment that translation never checks: the address a superpage leaf gives is the
      one its 4 KiB parts give, for every va, exactly when the frame number is aligned. */
  lemma AlignmentExactly(ppn: bv44, level: nat)
    requires 1 <= level <= 2
    ensures (forall va :: SameAddr(ppn, va, level)) <==> Aligned(ppn, level)
  {
    hide SameAddr, Aligned, LowBits, HighBits;
    AlignedBits(ppn);
    if Aligned(ppn, level) {
      forall va ensures SameAddr(ppn, va, level) {
        AlignedSameAddr(ppn, va, level);
      }
    } else if LowBits(ppn) != 0 {
      StraysLow(ppn, level);
    } else {
      StraysHigh(ppn);
    }
  }

  // The entry leads to the complete tree of 4 KiB leaves for the parts of a page at ppn.
  ghost predicate SplitFully(m: Ram, at: nat, ppn: bv44, flags: bv64, level: nat)
    requires level <= 2
    decreases level
  {
    && InRam(m, at, 8)
    && var pte := Get64(m, at);
       if level == 0 then IsLeaf(pte) && PtePpn(pte) == ppn && Flags(pte) == flags
       else
         && !Invalid(pte) && !IsLeaf(pte)
         && forall i: bv9 :: SplitFully(m, PteAddr(PtePpn(pte), i), SubFrame(ppn, i, level), flags, level - 1)
  }

  lemma {:induction false} SplitResolves(m: Ram, at: nat, ppn: bv44, flags: bv64, c: Context, va: bv64,
                                         access: Access, level: nat)
    requires level <= 2 && SplitFully(m, at, ppn, flags, level)
    ensures ResolveAt(m, at, c, va, access, level)
         == if !FlagsAllow(flags, c.priv, c.sum, access) then PageFault
            else Phys(PageAddr(PartFrame(ppn, va, level), va, 0))
    decreases level
  {
    hide Permits, Invalid, IsLeaf, PageAddr, PtePpn, Vpn, PteAddr, Get64, Flags, SubFrame, ResolveAt, FlagsAllow;
    var pte := Get64(m, at);
    if level == 0 {
      LeafResolves(m, at, ppn, flags, c, va, access, 0);
    } else {
      var i := Vpn(va, level - 1);
      SplitResolves(m, PteAddr(PtePpn(pte), i), SubFrame(ppn, i, level), flags, c, va, access, level - 1);
      NodeResolves(m, at, c, va, access, level);
    }
  }

  // An inner entry yields what its entry for va yields.
  lemma NodeResolves(m: Ram, at: nat, c: Context, va: bv64, access: Access, level: nat)
    requires 1 <= level <= 2 && InRam(m, at, 8) && !Invalid(Get64(m, at)) && !IsLeaf(Get64(m, at))
    ensures ResolveAt(m, at, c, va, access, level)
         == ResolveAt(m, PteAddr(PtePpn(Get64(m, at)), Vpn(va, level - 1)), c, va, access, level - 1)
  {
    hide Permits, Invalid, IsLeaf, PageAddr, PtePpn, Vpn, PteAddr, Get64;
  }

  // The entry is one leaf for the page at ppn.
  predicate OneLeaf(m: Ram, at: nat, ppn: bv44, flags: bv64) {
    InRam(m, at, 8) && IsLeaf(Get64(m, at)) && PtePpn(Get64(m, at)) == ppn && Flags(Get64(m, at)) == flags
  }

  predicate SameOutcome(m: Ram, at: nat, m': Ram, at': nat, c: Context, va: bv64, access: Access, level: nat)
    requires level <= 2
  {
    ResolveAt(m, at, c, va, access, level) == ResolveAt(m', at', c, va, access, level)
  }

  /** In the tables: a superpage leaf whose flags grant an access does what its complete tree
      of 4 KiB leaves does, at every va, exactly when it is aligned. */
  lemma SplitExactly(m: Ram, at: nat, m': Ram, at': nat, ppn: bv44, flags: bv64, c: Context, access: Access, level: nat)
    requires 1 <= level <= 2 && OneLeaf(m, at, ppn, flags) && SplitFully(m', at', ppn, flags, level)
    requires FlagsAllow(flags, c.priv, c.sum, access)
    ensures (forall va :: SameOutcome(m, at, m', at', c, va, access, level)) <==> Aligned(ppn, level)
  {
    hide Permits, Invalid, IsLeaf, PageAddr, PtePpn, Get64, Flags, Aligned, PartFrame, SplitFully, FlagsAllow;
    AlignmentExactly(ppn, level);
    forall va ensures SameOutcome(m, at, m', at', c, va, access, level) <==> SameAddr(ppn, va, level) {
      SplitResolves(m', at', ppn, flags, c, va, access, level);
      LeafResolves(m, at, ppn, flags, c, va, access, level);
    }
  }

  lemma LeafResolves(m: Ram, at: nat, ppn: bv44, flags: bv64, c: Context, va: bv64, access: Access, level: nat)
    requires level <= 2 && OneLeaf(m, at, ppn, flags)
    ensures ResolveAt(m, at, c, va, access, level)
         == if FlagsAllow(flags, c.priv, c.sum, access) then Phys(PageAddr(ppn, va, level)) else PageFault
  {
    hide Permits, Invalid, IsLeaf, PageAddr, PtePpn, Get64, Flags;
    PermitsByFlags(Get64(m, at), c.priv, c.sum, access);
    InvalidByFlags(Get64(m, at));
  }

  // ---------------------------------------------------------------- Two misaligned tables

  function Leaf4(ppn: bv44): bv64 { ((ppn as bv64) << 10) | 0xF }

  function PartEntry(i: bv9): bv64 { Leaf4(Plus(1, Index(i))) }

  function IndexOf(n: nat): bv9
    requires n < 512
  {
    n as bv9
  }

  // A table of 512 leaves for the frames from 1 on.
  function PartTable(): (s: seq<bv8>)
    ensures |s| == 4096
    ensures forall k {:trigger s[k]} :: 0 <= k < 4096 ==> s[k] == Bytes64(PartEntry(IndexOf(k / 8)))[k % 8]
  {
    seq(4096, k requires 0 <= k < 4096 => Bytes64(PartEntry(IndexOf(k / 8)))[k % 8])
  }

  // Root table at 0, leading to a table at 0x1000 whose first entry is given, and the table
  // of parts at 0x2000.
  function Tables(entry: bv64): (m: Ram)
    ensures m.base == 0 && |m.bytes| == 0x3000
    ensures Peek(m, 0, 8) == Bytes64(0x401) && Peek(m, 0x1000, 8) == Bytes64(entry)
    ensures forall k :: 0x2000 <= k < 0x3000 ==> At(m, k) == PartTable()[k - 0x2000]
  {
    Poke(Poke(Ram(0, seq(0x2000, _ => 0) + PartTable()), 0, Bytes64(0x401)), 0x1000, Bytes64(entry))
  }

  lemma EntryFacts()
    ensures !Invalid(0x401) && !IsLeaf(0x401) && PtePpn(0x401) == 1
    ensures !Invalid(0x801) && !IsLeaf(0x801) && PtePpn(0x801) == 2
    ensures !Invalid(0x40F) && IsLeaf(0x40F) && PtePpn(0x40F) == 1 && Flags(0x40F) == 0xF
    ensures FlagsAllow(0xF, PRIV_S, false, Load)
  {
  }

  lemma PartFacts(ppn: bv44)
    ensures IsLeaf(Leaf4(ppn)) && PtePpn(Leaf4(ppn)) == ppn && Flags(Leaf4(ppn)) == 0xF
  {
  }

  lemma PlaceFacts()
    ensures PteAddr(0, 0) == 0 && PteAddr(1, 0) == 0x1000
  {
    N.Small();
  }

  lemma PartPlace(i: bv9)
    ensures PteAddr(2, i) == 0x2000 + 8 * (i as nat) && i as nat < 512 && IndexOf(i as nat) == i
  {
    N.Small();
  }

  lemma PartBytes(n: nat)
    requires n < 512
    ensures PartTable()[8 * n..8 * n + 8] == Bytes64(PartEntry(IndexOf(n)))
  {
    hide Bytes64, PartTable, PartEntry, IndexOf;
    forall b | 0 <= b < 8 ensures PartTable()[8 * n + b] == Bytes64(PartEntry(IndexOf(n)))[b] {
      ModUnique(8 * n + b, 8, n, b);
    }
  }

  lemma TableBytes(entry: bv64, n: nat)
    requires n < 512
    ensures Peek(Tables(entry), 0x2000 + 8 * n, 8) == PartTable()[8 * n..8 * n + 8]
  {
    hide Bytes64, PartTable, Tables;
  }

  lemma PartAt(entry: bv64, i: bv9)
    ensures InRam(Tables(entry), PteAddr(2, i), 8) && Get64(Tables(entry), PteAddr(2, i)) == PartEntry(i)
  {
    hide Bytes64, Word64, PteAddr, Tables, PartTable, PartEntry, IndexOf;
    PartPlace(i);
    PartBytes(i as nat);
    TableBytes(entry, i as nat);
    WordsRoundTrip(0, 0, PartEntry(i));
  }

  // The second memory splits the leaf of the first completely.
  lemma TablesSplit()
    ensures OneLeaf(Tables(0x40F), 0x1000, 1, 0xF)
    ensures SplitFully(Tables(0x801), 0x1000, 1, 0xF, 1)
  {
    hide Bytes64, Word64, PteAddr, Tables, PartTable, Invalid, IsLeaf, PtePpn, Flags, Leaf4, Plus, Index;
    EntryFacts();
    WordsRoundTrip(0, 0, 0x40F);
    WordsRoundTrip(0, 0, 0x801);
    var m := Tables(0x801);
    forall i: bv9 ensures SplitFully(m, PteAddr(2, i), SubFrame(1, i, 1), 0xF, 0) {
      PartAt(0x801, i);
      PartFacts(Plus(1, Index(i)));
    }
  }

  lemma ContextFacts()
    ensures Active(Context(PRIV_S, 0x8000_0000_0000_0000, false))
    ensures Root(Context(PRIV_S, 0x8000_0000_0000_0000, false)) == 0
    ensures Vpn(0x1000, 2) == 0 && Vpn(0x1000, 1) == 0 && Vpn(0x1000, 0) == 1
    ensures PageAddr(1, 0x1000, 1) == 0x1000 && PageAddr(2, 0x1000, 0) == 0x2000 && Plus(1, Index(1)) == 2
  {
  }

  lemma FromRoot(entry: bv64, access: Access)
    ensures var c, m := Context(PRIV_S, 0x8000_0000_0000_0000, false), Tables(entry);
            Resolve(m, c, 0x1000, access) == ResolveAt(m, 0x1000, c, 0x1000, access, 1)
  {
    hide Bytes64, Word64, PteAddr, Tables, Invalid, IsLeaf, PtePpn, Vpn, Root, Active, PageAddr, Permits;
    EntryFacts();
    PlaceFacts();
    ContextFacts();
    WordsRoundTrip(0, 0, 0x401);
  }

  /** Such tables exist: a 2 MiB leaf at frame 1 and the complete table of its 512 parts send
      the load at 0x1000 to different frames. */
  lemma MisalignedTablesDiffer()
    ensures var c := Context(PRIV_S, 0x8000_0000_0000_0000, false);
            && Resolve(Tables(0x40F), c, 0x1000, Load) == Phys(0x1000)
            && Resolve(Tables(0x801), c, 0x1000, Load) == Phys(0x2000)
  {
    hide Tables, ResolveAt, PageAddr, Plus, Index, Vpn, Permits, Invalid, FlagsAllow, OneLeaf, SplitFully, Resolve;
    hide Active, Root;
    var c := Context(PRIV_S, 0x8000_0000_0000_0000, false);
    TablesSplit();
    EntryFacts();
    ContextFacts();
    FromRoot(0x40F, Load);
    FromRoot(0x801, Load);
    LeafResolves(Tables(0x40F), 0x1000, 1, 0xF, c, 0x1000, Load, 1);
    SplitResolves(Tables(0x801), 0x1000, 1, 0xF, c, 0x1000, Load, 1);
  }

  // The address of the entry the walk for va reads at the given level, if it gets there.
  function EntryAt(m: Ram, at: nat, va: bv64, level: nat, target: nat): (e: Option<nat>)
    requires target <= level <= 2
    decreases level
  {
    if level == target then Some(at)
    else if !InRam(m, at, 8) || Invalid(Get64(m, at)) || IsLeaf(Get64(m, at)) then None
    else EntryAt(m, PteAddr(PtePpn(Get64(m, at)), Vpn(va, level - 1)), va, level - 1, target)
  }

  lemma {:induction false} ResolveFromEntry(m: Ram, at: nat, c: Context, va: bv64, access: Access, level: nat,
                                            target: nat)
    requires target <= level <= 2 && EntryAt(m, at, va, level, target).Some?
    ensures ResolveAt(m, at, c, va, access, level)
         == ResolveAt(m, EntryAt(m, at, va, level, target).value, c, va, access, target)
    decreases level
  {
    hide Permits, Invalid, IsLeaf, PageAddr, PtePpn, Vpn, PteAddr, Get64;
    if level > target {
      ResolveFromEntry(m, PteAddr(PtePpn(Get64(m, at)), Vpn(va, level - 1)), c, va, access, level - 1, target);
    }
  }

  /** Superpage equivalence: if the walks for va in two memories reach entries that tile the
      same aligned frames with the same flags, every access at va has the same outcome. Take
      a lone leaf on one side and a table of 4 KiB leaves, or a tree of them, on the other. */
  lemma SuperpageEquivalence(m: Ram, m': Ram, c: Context, c': Context, va: bv64, access: Access,
                             ppn: bv44, flags: bv64, level: nat)
    requires level <= 2 && Aligned(ppn, level)
    requires Active(c) && Active(c') && c.priv == c'.priv && c.sum == c'.sum
    requires var e := EntryAt(m, PteAddr(Root(c), Vpn(va, 2)), va, 2, level);
             e.Some? && Tiles(m, e.value, ppn, flags, level)
    requires var e := EntryAt(m', PteAddr(Root(c'), Vpn(va, 2)), va, 2, level);
             e.Some? && Tiles(m', e.value, ppn, flags, level)
    ensures Resolve(m, c, va, access) == Resolve(m', c', va, access)
  {
    hide Permits, PageAddr, Vpn, PteAddr, Root, Tiles, EntryAt, WalkAt, Active, Aligned;
    var root, root' := PteAddr(Root(c), Vpn(va, 2)), PteAddr(Root(c'), Vpn(va, 2));
    var at, at' := EntryAt(m, root, va, 2, level).value, EntryAt(m', root', va, 2, level).value;
    ResolveIsResolveAt(m, c, va, access);
    ResolveIsResolveAt(m', c', va, access);
    ResolveFromEntry(m, root, c, va, access, 2, level);
    ResolveFromEntry(m', root', c', va, access, 2, level);
    TilesResolve(m, at, ppn, flags, c, va, access, level);
    TilesResolve(m', at', ppn, flags, c', va, access, level);
  }

  // The i-th entry of the table is a leaf for the i-th part of a page one level up.
  predicate SplitEntry(m: Ram, table: bv44, ppn: bv44, flags: bv64, level: nat, i: bv9)
    requires 1 <= level <= 2
  {
    var e := PteAddr(table, i);
    && InRam(m, e, 8) && IsLeaf(Get64(m, e))
    && PtePpn(Get64(m, e)) == SubFrame(ppn, i, level) && Flags(Get64(m, e)) == flags
  }

  // Splitting a superpage into a full table of next-size leaves is one such tiling.
  lemma SplitTiles(m: Ram, at: nat, table: bv44, ppn: bv44, flags: bv64, level: nat)
    requires 1 <= level <= 2
    requires InRam(m, at, 8) && !Invalid(Get64(m, at)) && !IsLeaf(Get64(m, at)) && PtePpn(Get64(m, at)) == table
    requires forall i: bv9 :: SplitEntry(m, table, ppn, flags, level, i)
    ensures Tiles(m, at, ppn, flags, level)
  {
    hide Invalid, IsLeaf, PtePpn, PteAddr, Get64, Flags, SubFrame;
    forall i: bv9 ensures Tiles(m, PteAddr(table, i), SubFrame(ppn, i, level), flags, level - 1) {
      assert SplitEntry(m, table, ppn, flags, level, i);
    }
  }
}

/** Sv39 address translation over guest RAM: the page walk as a recursive function, the
    permission check, and the accessed/dirty write-back. */
module Mmu {
  import opened Words
  import opened Memory

  datatype Access = Fetch | Load | Store

  const PRIV_U: bv2 := 0
  const PRIV_S: bv2 := 1
  const PRIV_M: bv2 := 3

  const MMU_FAULT: bv64 := 0xFFFF_FFFF_FFFF_FFFF

  const PTE_V: bv64 := 0x01
  const PTE_R: bv64 := 0x02
  const PTE_W: bv64 := 0x04
  const PTE_X: bv64 := 0x08
  const PTE_U: bv64 := 0x10
  const PTE_A: bv64 := 0x40
  const PTE_AD: bv64 := 0xC0

  // What translation reads of the hart: privilege, satp and mstatus.SUM.
  datatype Context = Context(priv: bv2, satp: bv64, sum: bool)

  predicate Active(c: Context) {
    c.priv != PRIV_M && c.satp >> 60 == 8
  }

  function Root(c: Context): bv44 {
    (c.satp & 0xFFF_FFFF_FFFF) as bv44
  }

  function Vpn(va: bv64, level: nat): bv9
    requires level <= 2
  {
    if level == 0 then ((va >> 12) & 0x1FF) as bv9
    else if level == 1 then ((va >> 21) & 0x1FF) as bv9
    else ((va >> 30) & 0x1FF) as bv9
  }

  function PteAddr(ppn: bv44, vpn: bv9): (a: nat)
    ensures a % 8 == 0
  {
    ToNat(ppn as bv64) * 4096 + vpn as nat * 8
  }

  function PtePpn(pte: bv64): bv44 {
    ((pte >> 10) & 0xFFF_FFFF_FFFF) as bv44
  }

  predicate Invalid(pte: bv64) {
    pte & PTE_V == 0 || (pte & PTE_R == 0 && pte & PTE_W != 0)
  }

  predicate IsLeaf(pte: bv64) {
    pte & PTE_R != 0 || pte & PTE_X != 0
  }

  predicate Permits(pte: bv64, priv: bv2, sum: bool, access: Access) {
    && (match access
        case Fetch => pte & PTE_X != 0
        case Load => pte & PTE_R != 0
        case Store => pte & PTE_W != 0)
    && !(priv == PRIV_U && pte & PTE_U == 0)
    && !(priv == PRIV_S && pte & PTE_U != 0 && !sum)
  }

  function OffsetMask(level: nat): bv64
    requires level <= 2
  {
    if level == 0 then 0xFFF else if level == 1 then 0x1F_FFFF else 0x3FFF_FFFF
  }

  function PageAddr(ppn: bv44, va: bv64, level: nat): bv64
    requires level <= 2
  {
    ((ppn as bv64) << 12) | (va & OffsetMask(level))
  }

  // The host index of a physical address.
  function Place(pa: bv64): nat {
    ToNat(pa)
  }

  // ---------------------------------------------------------------- The walk

  // Where a walk ends. OffRam: the entry to read next lies outside RAM.
  datatype Walked = Leaf(at: nat, pte: bv64, level: nat) | NoLeaf | OffRam

  // Resolve the entry at an address of a table of the given level.
  function WalkAt(m: Ram, at: nat, va: bv64, level: nat): (w: Walked)
    requires level <= 2
    ensures w.Leaf? ==> InRam(m, w.at, 8) && w.pte == Get64(m, w.at) && w.level <= level
    ensures w.Leaf? ==> !Invalid(w.pte) && IsLeaf(w.pte)
    ensures w.Leaf? && at % 8 == 0 ==> w.at % 8 == 0
    decreases level
  {
    if !InRam(m, at, 8) then OffRam
    else
      var pte := Get64(m, at);
      if Invalid(pte) then NoLeaf
      else if IsLeaf(pte) then Leaf(at, pte, level)
      else if level == 0 then NoLeaf
      else WalkAt(m, PteAddr(PtePpn(pte), Vpn(va, level - 1)), va, level - 1)
  }

  function Walk(m: Ram, c: Context, va: bv64): (w: Walked)
    ensures w.Leaf? ==> InRam(m, w.at, 8) && w.at % 8 == 0 && w.pte == Get64(m, w.at) && w.level <= 2
  {
    WalkAt(m, PteAddr(Root(c), Vpn(va, 2)), va, 2)
  }

  // The entry addresses a walk reads, in order.
  function Trail(m: Ram, at: nat, va: bv64, level: nat): (s: seq<nat>)
    requires level <= 2
    decreases level
  {
    if !InRam(m, at, 8) then []
    else
      var pte := Get64(m, at);
      if Invalid(pte) || IsLeaf(pte) || level == 0 then [at]
      else [at] + Trail(m, PteAddr(PtePpn(pte), Vpn(va, level - 1)), va, level - 1)
  }

  // ---------------------------------------------------------------- Translation

  datatype Outcome = Phys(pa: bv64) | PageFault | Stuck

  function Resolve(m: Ram, c: Context, va: bv64, access: Access): (o: Outcome)
    ensures Active(c) && o.Phys? ==> Walk(m, c, va).Leaf?
  {
    if !Active(c) then Phys(va)
    else
      match Walk(m, c, va)
      case OffRam => Stuck
      case NoLeaf => PageFault
      case Leaf(_, pte, level) =>
        if Permits(pte, c.priv, c.sum, access) then Phys(PageAddr(PtePpn(pte), va, level)) else PageFault
  }

  function Mark(access: Access): bv64 {
    if access.Store? then PTE_AD else PTE_A
  }

  function AddMark(pte: bv64, access: Access): bv64 {
    pte | Mark(access)
  }

  // The leaf entry a translation marks, if it succeeds through the tables.
  function Marked(m: Ram, c: Context, va: bv64, access: Access): (a: Option<nat>)
    ensures a.Some? ==> InRam(m, a.value, 8) && a.value % 8 == 0
  {
    if Active(c) && Resolve(m, c, va, access).Phys? then Some(Walk(m, c, va).at) else None
  }

  // RAM after the accessed/dirty write-back of one translation.
  function Touch(m: Ram, c: Context, va: bv64, access: Access): (m': Ram)
    ensures SameShape(m, m')
  {
    match Marked(m, c, va, access)
    case None => m
    case Some(a) => Poke(m, a, Bytes64(AddMark(Get64(m, a), access)))
  }
}

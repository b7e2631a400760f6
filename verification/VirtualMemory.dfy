/** Loads and stores through translation: what a store leaves behind for any later load that
    reaches the same bytes. */
module VirtualMemory {
  import opened Words
  import opened Memory
  import opened Mmu
  import opened MmuStability

  // Missed: the physical access falls outside RAM, in a device or nowhere.
  datatype Loaded = Loaded(m: Ram, s: seq<bv8>) | LoadFault | LoadMissed
  datatype Stored = Stored(m: Ram) | StoreFault | StoreMissed

  function LoadRam(m: Ram, c: Context, va: bv64, n: nat): Loaded {
    match Resolve(m, c, va, Load)
    case Stuck => LoadMissed
    case PageFault => LoadFault
    case Phys(pa) =>
      if pa == MMU_FAULT then LoadFault
      else if !InRam(m, Place(pa), n) then LoadMissed
      else
        var m' := Touch(m, c, va, Load);
        Loaded(m', Peek(m', Place(pa), n))
  }

  function StoreRam(m: Ram, c: Context, va: bv64, s: seq<bv8>): Stored {
    match Resolve(m, c, va, Store)
    case Stuck => StoreMissed
    case PageFault => StoreFault
    case Phys(pa) =>
      if pa == MMU_FAULT then StoreFault
      else if !InRam(m, Place(pa), |s|) then StoreMissed
      else Stored(Poke(Touch(m, c, va, Store), Place(pa), s))
  }

  // The page-table entries the walk for va reads.
  function Entries(m: Ram, c: Context, va: bv64): seq<nat> {
    if Active(c) then Trail(m, PteAddr(Root(c), Vpn(va, 2)), va, 2) else []
  }

  predicate Misses(pa: nat, n: nat, entries: seq<nat>) {
    forall a <- entries :: Apart(pa, n, a, 8)
  }

  // A walk depends only on the words on its trail.
  lemma {:induction false} WalkFrame(m: Ram, m': Ram, at: nat, va: bv64, level: nat)
    requires level <= 2 && SameShape(m, m')
    requires forall a <- Trail(m, at, va, level) :: InRam(m, a, 8) && Peek(m', a, 8) == Peek(m, a, 8)
    ensures WalkAt(m', at, va, level) == WalkAt(m, at, va, level)
    ensures Trail(m', at, va, level) == Trail(m, at, va, level)
    ensures WalkAt(m, at, va, level).Leaf? ==> WalkAt(m, at, va, level).at in Trail(m, at, va, level)
    decreases level
  {
    hide PteAddr, PtePpn, Vpn, Invalid, IsLeaf, Word64;
    if InRam(m, at, 8) {
      assert Trail(m, at, va, level)[0] == at;
      assert Get64(m', at) == Get64(m, at);
      var pte := Get64(m, at);
      if !Invalid(pte) && !IsLeaf(pte) && level > 0 {
        var next := PteAddr(PtePpn(pte), Vpn(va, level - 1));
        assert Trail(m, at, va, level) == [at] + Trail(m, next, va, level - 1);
        WalkFrame(m, m', next, va, level - 1);
      }
    }
  }

  lemma {:induction false} TrailInRam(m: Ram, at: nat, va: bv64, level: nat)
    requires level <= 2
    ensures forall a <- Trail(m, at, va, level) :: InRam(m, a, 8)
    decreases level
  {
    hide PteAddr, PtePpn, Vpn, Invalid, IsLeaf, Get64;
    if InRam(m, at, 8) && !Invalid(Get64(m, at)) && !IsLeaf(Get64(m, at)) && level > 0 {
      TrailInRam(m, PteAddr(PtePpn(Get64(m, at)), Vpn(va, level - 1)), va, level - 1);
    }
  }

  // Marking entries moves no walk, so trails stay put too.
  lemma {:induction false} TrailStable(m: Ram, m': Ram, at: nat, va: bv64, level: nat)
    requires AdOnly(m, m') && at % 8 == 0 && level <= 2
    ensures Trail(m', at, va, level) == Trail(m, at, va, level)
    decreases level
  {
    hide AdOnly, AdWord, Invalid, IsLeaf, PtePpn, Vpn, PteAddr, Get64;
    if InRam(m, at, 8) {
      AlignedWord(m, m', at);
      AdValid(Get64(m, at), Get64(m', at));
      AdLeaf(Get64(m, at), Get64(m', at));
      AdPpn(Get64(m, at), Get64(m', at));
      if level > 0 {
        TrailStable(m, m', PteAddr(PtePpn(Get64(m, at)), Vpn(va, level - 1)), va, level - 1);
      }
    }
  }

  // A store that misses the entries of va changes neither its outcome nor its trail.
  lemma PokeKeepsResolve(m: Ram, pa: nat, s: seq<bv8>, c: Context, va: bv64, access: Access)
    requires InRam(m, pa, |s|) && Misses(pa, |s|, Entries(m, c, va))
    ensures Resolve(Poke(m, pa, s), c, va, access) == Resolve(m, c, va, access)
    ensures Marked(Poke(m, pa, s), c, va, access) == Marked(m, c, va, access)
    ensures Marked(m, c, va, access).Some? ==> Marked(m, c, va, access).value in Entries(m, c, va)
  {
    hide Word64, PteAddr, Vpn, Root, PageAddr, PtePpn, Permits, WalkAt, Trail;
    if Active(c) {
      var at := PteAddr(Root(c), Vpn(va, 2));
      TrailInRam(m, at, va, 2);
      var m' := Poke(m, pa, s);
      forall a | a in Trail(m, at, va, 2) ensures Peek(m', a, 8) == Peek(m, a, 8) {
        PeekPoke(m, pa, s, a, 8);
      }
      WalkFrame(m, m', at, va, 2);
    }
  }

  // What may be written may be read: a writable leaf that is not readable is invalid.
  lemma StoreImpliesLoad(m: Ram, c: Context, va: bv64)
    requires Resolve(m, c, va, Store).Phys?
    ensures Resolve(m, c, va, Load) == Resolve(m, c, va, Store)
  {
    hide WalkAt, PageAddr, PtePpn, Vpn, Root, PteAddr;
    if Active(c) {
      var w := Walk(m, c, va);
      assert !Invalid(w.pte);
    }
  }

  /** Store then load: after a store at va succeeds, a load at any address that reached the
      same physical bytes, under any context, returns what was stored, provided the target
      lies off the entries that load walks. Every byte outside the target keeps its value
      up to A and D. */
  lemma StoreThenLoad(m: Ram, c: Context, va: bv64, s: seq<bv8>, c': Context, va': bv64)
    requires StoreRam(m, c, va, s).Stored?
    requires Resolve(m, c', va', Load) == Resolve(m, c, va, Store)
    requires Misses(Place(Resolve(m, c, va, Store).pa), |s|, Entries(m, c', va'))
    ensures var l := LoadRam(StoreRam(m, c, va, s).m, c', va', |s|);
            && l.Loaded? && l.s == s
            && SameShape(m, l.m)
            && var pa := Place(Resolve(m, c, va, Store).pa);
               forall k :: InRam(m, k, 1) && !(pa <= k < pa + |s|) ==> AdAt(m, l.m, k)
  {
    hide Resolve, Marked, Touch, Entries, AdOnly, Place;
    var r, q := Request(c, va, Store), Request(c', va', Load);
    var m1 := Touch(m, c, va, Store);
    assert m1 == TouchReq(m, r);
    TouchIsAdOnly(m, r);
    TouchPreservesResolve(m, r, q);
    EntriesStable(m, m1, c', va');
    var pa := Place(Resolve(m, c, va, Store).pa);
    var m2 := Poke(m1, pa, s);
    PokeKeepsResolve(m1, pa, s, c', va', Load);
    assert StoreRam(m, c, va, s) == Stored(m2);
    var m3 := TouchReq(m2, q);
    TouchIsAdOnly(m2, q);
    AdOnlyAt(m, m1);
    AdOnlyAt(m2, m3);
    if Marked(m2, c', va', Load).Some? {
      var t := Marked(m2, c', va', Load).value;
      assert Apart(pa, |s|, t, 8);
    }
    forall k | pa <= k < pa + |s| ensures At(m3, k) == s[k - pa] {
      TouchTarget(m2, q, k);
    }
    assert Peek(m3, pa, |s|) == s;
    forall k | InRam(m, k, 1) && !(pa <= k < pa + |s|) ensures AdAt(m, m3, k) {
      assert AdAt(m, m1, k) && AdAt(m2, m3, k);
    }
  }

  lemma AdOnlyAt(m: Ram, m': Ram)
    requires AdOnly(m, m')
    ensures forall k {:trigger AdAt(m, m', k)} :: InRam(m, k, 1) ==> AdAt(m, m', k)
  {
  }

  ghost predicate Covers(t: Option<nat>, k: int) {
    t.Some? && t.value <= k < t.value + 8
  }

  ghost predicate Keeps(m: Ram, m': Ram, k: int) {
    InRam(m, k, 1) ==> InRam(m', k, 1) && At(m', k) == At(m, k)
  }

  // A byte off the marked entry is untouched.
  lemma TouchTarget(m: Ram, r: Request, k: int)
    requires !Covers(Target(m, r), k)
    ensures Keeps(m, TouchReq(m, r), k)
  {
    hide Marked, Get64, Bytes64, Mark;
  }

  lemma EntriesStable(m: Ram, m': Ram, c: Context, va: bv64)
    requires AdOnly(m, m')
    ensures Entries(m', c, va) == Entries(m, c, va)
  {
    hide AdOnly, PteAddr, Root, Vpn, Trail;
    TrailStable(m, m', PteAddr(Root(c), Vpn(va, 2)), va, 2);
  }

  // The address just stored to is such an address.
  lemma StoreThenLoadSame(m: Ram, c: Context, va: bv64, s: seq<bv8>)
    requires StoreRam(m, c, va, s).Stored?
    requires Misses(Place(Resolve(m, c, va, Store).pa), |s|, Entries(m, c, va))
    ensures var l := LoadRam(StoreRam(m, c, va, s).m, c, va, |s|); l.Loaded? && l.s == s
  {
    StoreImpliesLoad(m, c, va);
    StoreThenLoad(m, c, va, s, c, va);
  }
}

/** The accessed/dirty write-back mutates the tables the walk reads. No translation, and no
    sequence of translations in any order, changes what any other translation yields. */
module MmuStability {
  import opened Words
  import opened Memory
  import opened Mmu

  // b and b' agree outside bits 6 and 7.
  predicate AdByte(b: bv8, b': bv8) {
    b | 0xC0 == b' | 0xC0
  }

  predicate AdWord(p: bv64, p': bv64) {
    p | 0xC0 == p' | 0xC0
  }

  // m and m' agree outside bits 6 and 7 of the low bytes of 8-aligned words.
  ghost predicate AdOnly(m: Ram, m': Ram)
    ensures AdOnly(m, m') ==> SameShape(m, m')
  {
    && SameShape(m, m')
    && forall k {:trigger AdAt(m, m', k)} :: InRam(m, k, 1) ==> AdAt(m, m', k)
  }

  predicate AdAt(m: Ram, m': Ram, k: int)
    requires SameShape(m, m') && InRam(m, k, 1)
  {
    if k % 8 == 0 then AdByte(At(m, k), At(m', k)) else At(m', k) == At(m, k)
  }

  lemma AdOnlyTransitive(m: Ram, m': Ram, m'': Ram)
    requires AdOnly(m, m') && AdOnly(m', m'')
    ensures AdOnly(m, m'')
  {
    forall k | InRam(m, k, 1) ensures AdAt(m, m'', k) {
      assert AdAt(m, m', k) && AdAt(m', m'', k);
    }
  }

  lemma AlignedWord(m: Ram, m': Ram, a: nat)
    requires AdOnly(m, m') && a % 8 == 0 && InRam(m, a, 8)
    ensures InRam(m', a, 8) && AdWord(Get64(m, a), Get64(m', a))
  {
    hide Word64, AdByte, AdWord, AdAt, Peek;
    forall k | 0 <= k < 8
      ensures if k == 0 then AdByte(Peek(m, a, 8)[0], Peek(m', a, 8)[0]) else Peek(m, a, 8)[k] == Peek(m', a, 8)[k]
    {
      AlignedByte(m, m', a, k);
    }
    AdBytes(Peek(m, a, 8), Peek(m', a, 8));
  }

  // Of the eight bytes of an aligned word only the first lies at a multiple of 8.
  lemma OffsetInWord(a: nat, k: nat)
    requires a % 8 == 0 && k < 8
    ensures (a + k) % 8 == k
  {
    var q := a / 8;
    ModUnique(8 * q + k, 8, q, k);
  }

  lemma AlignedByte(m: Ram, m': Ram, a: nat, k: nat)
    requires AdOnly(m, m') && a % 8 == 0 && InRam(m, a, 8) && k < 8
    ensures if k == 0 then AdByte(At(m, a), At(m', a)) else At(m', a + k) == At(m, a + k)
  {
    hide AdByte, At;
    OffsetInWord(a, k);
    assert AdAt(m, m', a + k);
  }

  lemma AdBytes(s: seq<bv8>, s': seq<bv8>)
    requires |s| == |s'| == 8 && AdByte(s[0], s'[0])
    requires s[1] == s'[1] && s[2] == s'[2] && s[3] == s'[3] && s[4] == s'[4]
    requires s[5] == s'[5] && s[6] == s'[6] && s[7] == s'[7]
    ensures AdWord(Word64(s), Word64(s'))
  {
  }

  // Everything a walk and a permission check look at lies outside A and D.
  lemma AdValid(p: bv64, p': bv64)
    requires AdWord(p, p')
    ensures Invalid(p') == Invalid(p)
  {
  }

  lemma AdLeaf(p: bv64, p': bv64)
    requires AdWord(p, p')
    ensures IsLeaf(p') == IsLeaf(p)
  {
  }

  lemma AdPpn(p: bv64, p': bv64)
    requires AdWord(p, p')
    ensures PtePpn(p') == PtePpn(p)
  {
  }

  lemma AdPermits(p: bv64, p': bv64, c: Context, access: Access)
    requires AdWord(p, p')
    ensures Permits(p', c.priv, c.sum, access) == Permits(p, c.priv, c.sum, access)
  {
    assert p' & PTE_U == p & PTE_U;
  }

  predicate SameWalk(w: Walked, w': Walked) {
    match w
    case Leaf(at, pte, level) => w'.Leaf? && w'.at == at && w'.level == level && AdWord(pte, w'.pte)
    case _ => w' == w
  }

  // Leaves stay leaves and inner entries lead where they led: the walk takes the same path.
  lemma {:induction false} WalkStable(m: Ram, m': Ram, at: nat, va: bv64, level: nat)
    requires AdOnly(m, m') && at % 8 == 0 && level <= 2
    ensures SameWalk(WalkAt(m, at, va, level), WalkAt(m', at, va, level))
    decreases level
  {
    hide AdOnly, AdWord, Invalid, IsLeaf, PtePpn, Vpn, PteAddr, Get64;
    if InRam(m, at, 8) {
      AlignedWord(m, m', at);
      AdValid(Get64(m, at), Get64(m', at));
      AdLeaf(Get64(m, at), Get64(m', at));
      AdPpn(Get64(m, at), Get64(m', at));
      if level > 0 {
        WalkStable(m, m', PteAddr(PtePpn(Get64(m, at)), Vpn(va, level - 1)), va, level - 1);
      }
    }
  }

  lemma ResolveStable(m: Ram, m': Ram, c: Context, va: bv64, access: Access)
    requires AdOnly(m, m')
    ensures Resolve(m', c, va, access) == Resolve(m, c, va, access)
    ensures SameWalk(Walk(m, c, va), Walk(m', c, va))
  {
    hide AdOnly, Root, Vpn, PteAddr, WalkAt, Permits, PageAddr, PtePpn, AdWord, Active;
    WalkStable(m, m', PteAddr(Root(c), Vpn(va, 2)), va, 2);
    var w, w' := Walk(m, c, va), Walk(m', c, va);
    if w.Leaf? {
      AdPpn(w.pte, w'.pte);
      AdPermits(w.pte, w'.pte, c, access);
    }
  }

  // ---------------------------------------------------------------- One translation

  datatype Request = Request(c: Context, va: bv64, access: Access)

  function ResolveReq(m: Ram, r: Request): Outcome {
    Resolve(m, r.c, r.va, r.access)
  }

  function TouchReq(m: Ram, r: Request): (m': Ram)
    ensures SameShape(m, m')
  {
    Touch(m, r.c, r.va, r.access)
  }

  function Target(m: Ram, r: Request): (t: Option<nat>)
    ensures t.Some? ==> t.value % 8 == 0 && InRam(m, t.value, 8)
  {
    Marked(m, r.c, r.va, r.access)
  }

  function MarkByte(access: Access): bv8 {
    if access.Store? then 0xC0 else 0x40
  }

  function OrByte(b: bv8, c: bv8): bv8 {
    b | c
  }

  lemma OrNothing(b: bv8)
    ensures OrByte(b, 0) == b
  {
  }

  // The bits translation r contributes to the byte at k.
  function Contribution(m: Ram, r: Request, k: int): bv8 {
    if Target(m, r) == Some(k) then MarkByte(r.access) else 0
  }

  // Storing back the marked entry changes one byte, by an OR.
  lemma PokeMarked(m: Ram, a: nat, access: Access)
    requires InRam(m, a, 8)
    ensures Poke(m, a, Bytes64(AddMark(Get64(m, a), access))) == Poke(m, a, [OrByte(At(m, a), MarkByte(access))])
  {
    hide Word64, Bytes64, AddMark, MarkByte, OrByte, Poke;
    var s := Peek(m, a, 8);
    MarkedBytes(s, access);
    PokeFirst(m, a, OrByte(s[0], MarkByte(access)));
  }

  // Storing back all but the first of eight bytes is storing the first.
  lemma PokeFirst(m: Ram, a: nat, b: bv8)
    requires InRam(m, a, 8)
    ensures Poke(m, a, Peek(m, a, 8)[0 := b]) == Poke(m, a, [b])
  {
    hide Poke, Peek, At;
    var s, m' := Peek(m, a, 8), Poke(m, a, [b]);
    PokeAdjacent(m, a, [b], s[1..]);
    PeekPoke(m, a, [b], a + 1, 7);
    PeekRest(m, a);
    PokePeek(m', a + 1, 7);
    assert s[0 := b] == [b] + s[1..];
  }

  lemma PeekRest(m: Ram, a: nat)
    requires InRam(m, a, 8)
    ensures Peek(m, a + 1, 7) == Peek(m, a, 8)[1..]
  {
  }

  lemma TouchByte(m: Ram, r: Request, k: int)
    requires InRam(m, k, 1)
    ensures At(TouchReq(m, r), k) == OrByte(At(m, k), Contribution(m, r, k))
  {
    hide Marked, Get64, AddMark, MarkByte, Bytes64, OrByte;
    OrNothing(At(m, k));
    var t := Target(m, r);
    if t.Some? {
      PokeMarked(m, t.value, r.access);
    }
  }

  lemma MarkedBytes(s: seq<bv8>, access: Access)
    requires |s| == 8
    ensures Bytes64(AddMark(Word64(s), access)) == s[0 := OrByte(s[0], MarkByte(access))]
  {
    hide Bytes64, Word64, AddMark, MarkByte, OrByte, OrWord;
    var t := s[0 := OrByte(s[0], MarkByte(access))];
    assert t[0 := 0] == s[0 := 0];
    MarkWord(s[0], Word64(s[0 := 0]), access);
    LowByte(s);
    LowByte(t);
    BytesRoundTrip(t);
  }

  function OrWord(b: bv8, rest: bv64): bv64 {
    b as bv64 | rest
  }

  lemma LowByte(s: seq<bv8>)
    requires |s| == 8
    ensures Word64(s) == OrWord(s[0], Word64(s[0 := 0]))
  {
  }

  lemma MarkWord(b: bv8, rest: bv64, access: Access)
    ensures OrWord(OrByte(b, MarkByte(access)), rest) == AddMark(OrWord(b, rest), access)
  {
    if access.Store? {
      MarkAD(b, rest);
    } else {
      MarkA(b, rest);
    }
  }

  lemma MarkA(b: bv8, rest: bv64)
    ensures (b | 0x40) as bv64 | rest == (b as bv64 | rest) | 0x40
  {
  }

  lemma MarkAD(b: bv8, rest: bv64)
    ensures (b | 0xC0) as bv64 | rest == (b as bv64 | rest) | 0xC0
  {
  }

  lemma TouchIsAdOnly(m: Ram, r: Request)
    ensures AdOnly(m, TouchReq(m, r))
  {
    forall k | InRam(m, k, 1)
      ensures AdAt(m, TouchReq(m, r), k)
    {
      TouchByte(m, r, k);
    }
  }

  /** The write-back of one translation changes the outcome of no translation, whatever its
      address, access kind, privilege, SUM setting or root. */
  lemma TouchPreservesResolve(m: Ram, r: Request, q: Request)
    ensures ResolveReq(TouchReq(m, r), q) == ResolveReq(m, q)
    ensures Target(TouchReq(m, r), q) == Target(m, q)
  {
    TouchIsAdOnly(m, r);
    ResolveStable(m, TouchReq(m, r), q.c, q.va, q.access);
  }

  // ---------------------------------------------------------------- Runs of translations

  function RunWalks(m: Ram, rs: seq<Request>): (m': Ram)
    ensures SameShape(m, m')
    decreases |rs|
  {
    if rs == [] then m else RunWalks(TouchReq(m, rs[0]), rs[1..])
  }

  // The bits a run contributes to the byte at k, all judged in the starting memory.
  function Contributions(m: Ram, rs: seq<Request>, k: int): bv8 {
    if rs == [] then 0 else Contribution(m, rs[0], k) | Contributions(m, rs[1..], k)
  }

  lemma {:induction false} ContributionsStable(m: Ram, m': Ram, rs: seq<Request>, k: int)
    requires forall q :: Target(m', q) == Target(m, q)
    ensures Contributions(m', rs, k) == Contributions(m, rs, k)
  {
    if rs != [] {
      ContributionsStable(m, m', rs[1..], k);
    }
  }

  /** A run of translations ORs into each byte exactly the marks its requests would
      contribute alone: earlier write-backs never redirect later ones. */
  lemma {:induction false} RunWalksBytes(m: Ram, rs: seq<Request>, k: int)
    requires InRam(m, k, 1)
    ensures At(RunWalks(m, rs), k) == At(m, k) | Contributions(m, rs, k)
    decreases |rs|
  {
    if rs != [] {
      var m' := TouchReq(m, rs[0]);
      forall q ensures Target(m', q) == Target(m, q) {
        TouchPreservesResolve(m, rs[0], q);
      }
      RunWalksBytes(m', rs[1..], k);
      ContributionsStable(m, m', rs[1..], k);
      TouchByte(m, rs[0], k);
    }
  }

  lemma {:induction false} RunWalksAdOnly(m: Ram, rs: seq<Request>)
    ensures AdOnly(m, RunWalks(m, rs))
    decreases |rs|
  {
    if rs != [] {
      TouchIsAdOnly(m, rs[0]);
      RunWalksAdOnly(TouchReq(m, rs[0]), rs[1..]);
      AdOnlyTransitive(m, TouchReq(m, rs[0]), RunWalks(m, rs));
    }
  }

  // After any run every translation still yields what it yielded before.
  lemma RunWalksPreserveResolve(m: Ram, rs: seq<Request>, q: Request)
    ensures ResolveReq(RunWalks(m, rs), q) == ResolveReq(m, q)
  {
    RunWalksAdOnly(m, rs);
    ResolveStable(m, RunWalks(m, rs), q.c, q.va, q.access);
  }

  lemma {:induction false} ContributionsSplit(m: Ram, p: seq<Request>, q: seq<Request>, k: int)
    ensures Contributions(m, p + q, k) == Contributions(m, p, k) | Contributions(m, q, k)
  {
    if p == [] {
      assert p + q == q;
    } else {
      assert (p + q)[1..] == p[1..] + q;
      ContributionsSplit(m, p[1..], q, k);
    }
  }

  lemma OrSwap(a: bv8, b: bv8, c: bv8)
    ensures b | (a | c) == a | (b | c)
  {
  }

  lemma ContributionsMoveFront(m: Ram, p: seq<Request>, r: Request, q: seq<Request>, k: int)
    ensures Contributions(m, p + ([r] + q), k) == Contribution(m, r, k) | Contributions(m, p + q, k)
  {
    ContributionsSplit(m, p, [r] + q, k);
    ContributionsSplit(m, p, q, k);
    assert ([r] + q)[1..] == q;
    OrSwap(Contribution(m, r, k), Contributions(m, p, k), Contributions(m, q, k));
  }

  // An element of a multiset of requests stands somewhere in any listing of it.
  lemma Pluck(p: seq<Request>, q: seq<Request>) returns (i: nat)
    requires p != [] && multiset(p) == multiset(q)
    ensures i < |q| && q == q[..i] + ([p[0]] + q[i + 1..])
    ensures multiset(p[1..]) == multiset(q[..i] + q[i + 1..])
  {
    assert p[0] in multiset(q);
    i :| 0 <= i < |q| && q[i] == p[0];
    WithoutAt(p, 0);
    WithoutAt(q, i);
    assert p[..0] + p[1..] == p[1..];
  }

  lemma WithoutAt(s: seq<Request>, i: nat)
    requires i < |s|
    ensures s == s[..i] + ([s[i]] + s[i + 1..])
    ensures multiset(s[..i] + s[i + 1..]) == multiset(s) - multiset{s[i]}
  {
    assert s == s[..i] + ([s[i]] + s[i + 1..]);
    assert multiset(s) == multiset(s[..i]) + (multiset{s[i]} + multiset(s[i + 1..]));
  }

  lemma {:induction false} ContributionsPermute(m: Ram, p: seq<Request>, q: seq<Request>, k: int)
    requires multiset(p) == multiset(q)
    ensures Contributions(m, p, k) == Contributions(m, q, k)
    decreases |p|
  {
    if p == [] {
      assert |multiset(q)| == 0;
    } else {
      var i := Pluck(p, q);
      ContributionsPermute(m, p[1..], q[..i] + q[i + 1..], k);
      ContributionsMoveFront(m, q[..i], p[0], q[i + 1..], k);
    }
  }

  /** Translations commute: any two orders of the same requests leave the same memory. */
  lemma RunWalksPermute(m: Ram, p: seq<Request>, q: seq<Request>)
    requires multiset(p) == multiset(q)
    ensures RunWalks(m, p) == RunWalks(m, q)
  {
    forall k | InRam(m, k, 1) ensures At(RunWalks(m, p), k) == At(RunWalks(m, q), k) {
      RunWalksBytes(m, p, k);
      RunWalksBytes(m, q, k);
      ContributionsPermute(m, p, q, k);
    }
    SameBytes(RunWalks(m, p), RunWalks(m, q));
  }

  // Repeating a run changes nothing more.
  lemma RunWalksTwice(m: Ram, rs: seq<Request>)
    ensures RunWalks(m, rs + rs) == RunWalks(m, rs)
  {
    forall k | InRam(m, k, 1) ensures At(RunWalks(m, rs + rs), k) == At(RunWalks(m, rs), k) {
      RunWalksBytes(m, rs, k);
      RunWalksBytes(m, rs + rs, k);
      ContributionsSplit(m, rs, rs, k);
    }
    SameBytes(RunWalks(m, rs + rs), RunWalks(m, rs));
  }
}

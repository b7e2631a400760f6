/** The platform interrupt controller: claimable sources, the claim/complete protocol, the
    memory-mapped registers, and the SEIP line they drive. */
module Plic {
  import opened Words
  import B = Shifts

  const SOURCES: nat := 32
  const CTX_S: nat := 1

  type U32 = n: nat | n < 0x1_0000_0000

  datatype State = State(priority: seq<U32>, pending: bv32, enable: seq<bv32>, threshold: seq<U32>, claimed: bv32)

  predicate Valid(p: State) {
    |p.priority| == SOURCES && |p.enable| == |p.threshold| == 2
  }

  type Plic = p: State | Valid(p)
    witness State(seq(32, _ => 0), 0, [0, 0], [0, 0], 0)

  // ---------------------------------------------------------------- Source masks

  function And(x: bv32, y: bv32): bv32 { x & y }

  function Or(x: bv32, y: bv32): bv32 { x | y }

  function Minus(x: bv32, y: bv32): bv32 { x & !y }

  function Mask(id: bv5): bv32 { 1 << (id as bv32) }

  function Id(irq: nat): bv5
    requires irq < SOURCES
  {
    irq as bv5
  }

  predicate Has(x: bv32, irq: nat)
    requires irq < SOURCES
  {
    And(x, Mask(Id(irq))) != 0
  }

  function With(x: bv32, irq: nat): bv32
    requires irq < SOURCES
  {
    Or(x, Mask(Id(irq)))
  }

  function Without(x: bv32, irq: nat): bv32
    requires irq < SOURCES
  {
    Minus(x, Mask(Id(irq)))
  }

  lemma MaskFacts(i: bv5, j: bv5)
    ensures Mask(i) != 0
    ensures i != j ==> And(Mask(i), Mask(j)) == 0
  {
  }

  lemma OneBit(x: bv32, i: bv5)
    ensures And(x, Mask(i)) == 0 || And(x, Mask(i)) == Mask(i)
  {
  }

  lemma SetHits(x: bv32, m: bv32)
    ensures And(Or(x, m), m) == m && And(Minus(x, m), m) == 0
  {
  }

  lemma SetKeeps(x: bv32, m: bv32, n: bv32)
    requires And(m, n) == 0
    ensures And(Or(x, m), n) == And(x, n)
  {
  }

  lemma ClearKeeps(x: bv32, m: bv32, n: bv32)
    requires And(m, n) == 0
    ensures And(Minus(x, m), n) == And(x, n)
  {
  }

  lemma IdValue(i: nat)
    requires i < SOURCES
    ensures Id(i) as nat == i
  {
  }

  lemma IdInjective(i: nat, j: nat)
    requires i < SOURCES && j < SOURCES && i != j
    ensures Id(i) != Id(j)
  {
    hide Id;
    IdValue(i);
    IdValue(j);
  }

  // With and Without change exactly one source.
  lemma MaskLaws(x: bv32, i: nat, j: nat)
    requires i < SOURCES && j < SOURCES
    ensures Has(With(x, i), j) <==> i == j || Has(x, j)
    ensures Has(Without(x, i), j) <==> i != j && Has(x, j)
  {
    hide And, Or, Minus, Mask, Id;
    MaskFacts(Id(i), Id(j));
    if i == j {
      SetHits(x, Mask(Id(i)));
    } else {
      IdInjective(i, j);
      SetKeeps(x, Mask(Id(i)), Mask(Id(j)));
      ClearKeeps(x, Mask(Id(i)), Mask(Id(j)));
    }
  }

  // a, b and c are each empty or the one bit m.
  lemma OneBitLogic(a: bv32, b: bv32, c: bv32, m: bv32)
    requires m != 0 && (a == 0 || a == m) && (b == 0 || b == m) && (c == 0 || c == m)
    ensures Minus(And(a, b), c) != 0 <==> a != 0 && b != 0 && c == 0
  {
    assert m & m == m && m & !m == 0 && m & !0 == m;
  }

  lemma Distribute(x: bv32, y: bv32, z: bv32, m: bv32)
    ensures And(Minus(And(x, y), z), m) == Minus(And(And(x, m), And(y, m)), And(z, m))
  {
  }

  lemma CombineLaw(x: bv32, y: bv32, z: bv32, i: nat)
    requires i < SOURCES
    ensures Has(Minus(And(x, y), z), i) <==> Has(x, i) && Has(y, i) && !Has(z, i)
  {
    hide And, Minus, Mask, Id;
    var b := Id(i);
    Distribute(x, y, z, Mask(b));
    OneBit(x, b);
    OneBit(y, b);
    OneBit(z, b);
    MaskFacts(b, b);
    OneBitLogic(And(x, Mask(b)), And(y, Mask(b)), And(z, Mask(b)), Mask(b));
  }

  // ---------------------------------------------------------------- Claiming

  function Actionable(p: Plic, ctx: nat): bv32
    requires ctx < 2
  {
    Minus(And(p.pending, p.enable[ctx]), p.claimed)
  }

  // Source irq is enabled, pending, unclaimed and above the threshold of the context.
  predicate Ready(p: Plic, ctx: nat, irq: nat)
    requires ctx < 2
  {
    && 1 <= irq < SOURCES
    && Has(p.pending, irq) && Has(p.enable[ctx], irq) && !Has(p.claimed, irq)
    && p.priority[irq] > p.threshold[ctx]
  }

  lemma ReadyMask(p: Plic, ctx: nat, irq: nat)
    requires ctx < 2 && 1 <= irq < SOURCES
    ensures Ready(p, ctx, irq) <==> Has(Actionable(p, ctx), irq) && p.priority[irq] > p.threshold[ctx]
  {
    hide Has, And, Minus;
    CombineLaw(p.pending, p.enable[ctx], p.claimed, irq);
  }

  // Higher priority first, then lower id.
  predicate Before(p: Plic, i: nat, j: nat)
    requires i < SOURCES && j < SOURCES
  {
    p.priority[i] > p.priority[j] || (p.priority[i] == p.priority[j] && i < j)
  }

  predicate IsBestBelow(p: Plic, ctx: nat, n: nat, r: nat)
    requires ctx < 2 && n <= SOURCES
  {
    && r < SOURCES
    && (r == 0 ==> forall j :: 1 <= j < n ==> !Ready(p, ctx, j))
    && (r != 0 ==>
          && r < n && Ready(p, ctx, r)
          && forall j :: 1 <= j < n && j != r && Ready(p, ctx, j) ==> Before(p, r, j))
  }

  // r is the source to claim: the first of the ready ones, or 0 when there is none.
  predicate IsBest(p: Plic, ctx: nat, r: nat)
    requires ctx < 2
  {
    IsBestBelow(p, ctx, SOURCES, r)
  }

  lemma BestUnique(p: Plic, ctx: nat, r: nat, s: nat)
    requires ctx < 2 && IsBest(p, ctx, r) && IsBest(p, ctx, s)
    ensures r == s
  {
    hide Has;
    assert r != 0 ==> Ready(p, ctx, r);
    assert s != 0 ==> Ready(p, ctx, s);
  }

  function BestBelow(p: Plic, ctx: nat, n: nat): (r: nat)
    requires ctx < 2 && 1 <= n <= SOURCES
    ensures IsBestBelow(p, ctx, n, r)
  {
    if n == 1 then 0
    else
      var r, irq := BestBelow(p, ctx, n - 1), n - 1;
      if Ready(p, ctx, irq) && (r == 0 || p.priority[irq] > p.priority[r]) then irq else r
  }

  function Best(p: Plic, ctx: nat): (r: nat)
    requires ctx < 2
    ensures IsBest(p, ctx, r)
  {
    BestBelow(p, ctx, SOURCES)
  }

  function Claim(p: Plic, ctx: nat): (r: (Plic, nat))
    requires ctx < 2
  {
    var irq := Best(p, ctx);
    if irq == 0 then (p, 0)
    else (p.(claimed := With(p.claimed, irq), pending := Without(p.pending, irq)), irq)
  }

  function Raise(p: Plic, irq: nat): Plic {
    if irq == 0 || irq >= SOURCES then p else p.(pending := With(p.pending, irq))
  }

  function Complete(p: Plic, irq: nat): Plic {
    if irq == 0 || irq >= SOURCES then p else p.(claimed := Without(p.claimed, irq))
  }

  // ---------------------------------------------------------------- SEIP

  predicate Fires(p: Plic) {
    Best(p, CTX_S) != 0
  }

  function DriveSeip(mip: bv64, p: Plic): bv64 {
    if Fires(p) then mip | 0x200 else mip & 0xFFFF_FFFF_FFFF_FDFF
  }

  // ---------------------------------------------------------------- Registers

  // Effect of one register access: the new state, the value read, and whether SEIP is
  // re-evaluated.
  datatype Effect = Effect(p: Plic, value: U32, drives: bool)

  function MaskNat(x: bv32): U32 {
    B.WordBound(x);
    B.Number32(x)
  }

  function Read(p: Plic, offset: nat): Effect {
    if offset < 0x1000 then Effect(p, if offset / 4 < SOURCES then p.priority[offset / 4] else 0, false)
    else if offset == 0x1000 then Effect(p, MaskNat(p.pending), false)
    else if 0x2000 <= offset < 0x20_0000 then
      var ctx := (offset - 0x2000) / 0x80;
      Effect(p, if ctx < 2 && (offset - 0x2000) % 0x80 == 0 then MaskNat(p.enable[ctx]) else 0, false)
    else if offset >= 0x20_0000 then
      var ctx, at := (offset - 0x20_0000) / 0x1000, (offset - 0x20_0000) % 0x1000;
      if ctx < 2 && at == 0 then Effect(p, p.threshold[ctx], false)
      else if ctx < 2 && at == 4 then
        var (p', irq) := Claim(p, ctx);
        Effect(p', irq, irq != 0)
      else Effect(p, 0, false)
    else Effect(p, 0, false)
  }

  // The value is given both ways: as a number and as a source mask.
  function Write(p: Plic, offset: nat, v: U32, mask: bv32): Effect {
    if offset < 0x1000 then
      if offset / 4 < SOURCES then Effect(p.(priority := p.priority[offset / 4 := v]), 0, true) else Effect(p, 0, false)
    else if offset == 0x1000 then Effect(p, 0, false)
    else if 0x2000 <= offset < 0x20_0000 then
      var ctx := (offset - 0x2000) / 0x80;
      if ctx < 2 && (offset - 0x2000) % 0x80 == 0 then Effect(p.(enable := p.enable[ctx := mask]), 0, true)
      else Effect(p, 0, false)
    else if offset >= 0x20_0000 then
      var ctx, at := (offset - 0x20_0000) / 0x1000, (offset - 0x20_0000) % 0x1000;
      if ctx < 2 && at == 0 then Effect(p.(threshold := p.threshold[ctx := v]), 0, true)
      else if ctx < 2 && at == 4 then Effect(Complete(p, v), 0, 1 <= v < SOURCES)
      else Effect(p, 0, false)
    else Effect(p, 0, false)
  }

  function AfterEffect(mip: bv64, e: Effect): bv64 {
    if e.drives then DriveSeip(mip, e.p) else mip
  }

  // MIP.SEIP is set exactly when a claim by the supervisor context would return a source.
  predicate SeipTruth(mip: bv64, p: Plic) {
    mip & 0x200 != 0 <==> Fires(p)
  }

  lemma DriveSeipTruth(mip: bv64, p: Plic)
    ensures SeipTruth(DriveSeip(mip, p), p)
  {
    assert (mip | 0x200) & 0x200 != 0;
    assert (mip & 0xFFFF_FFFF_FFFF_FDFF) & 0x200 == 0;
  }

  // An access that does not re-evaluate SEIP has not changed what it depends on.
  lemma QuietAccess(p: Plic, offset: nat, v: U32, mask: bv32)
    ensures !Read(p, offset).drives ==> Read(p, offset).p == p
    ensures !Write(p, offset, v, mask).drives ==> Write(p, offset, v, mask).p == p
  {
    hide With, Without, MaskNat, Best;
  }

  // Every register access keeps SEIP truthful, including the claims that reads make.
  lemma AccessKeepsSeip(mip: bv64, p: Plic, offset: nat, v: U32, mask: bv32)
    requires SeipTruth(mip, p)
    ensures SeipTruth(AfterEffect(mip, Read(p, offset)), Read(p, offset).p)
    ensures SeipTruth(AfterEffect(mip, Write(p, offset, v, mask)), Write(p, offset, v, mask).p)
  {
    hide DriveSeip, SeipTruth, Read, Write;
    QuietAccess(p, offset, v, mask);
    DriveSeipTruth(mip, Read(p, offset).p);
    DriveSeipTruth(mip, Write(p, offset, v, mask).p);
  }

  // Registers are read back as written: priorities, and the thresholds and enables of the
  // two contexts.
  lemma ReadBack(p: Plic, irq: nat, ctx: nat, v: U32, mask: bv32)
    requires irq < SOURCES && ctx < 2
    ensures Read(Write(p, 4 * irq, v, mask).p, 4 * irq).value == v
    ensures Read(Write(p, 0x2000 + 0x80 * ctx, v, mask).p, 0x2000 + 0x80 * ctx).value == MaskNat(mask)
    ensures Read(Write(p, 0x20_0000 + 0x1000 * ctx, v, mask).p, 0x20_0000 + 0x1000 * ctx).value == v
  {
    hide MaskNat, Claim, Complete;
    ModUnique(4 * irq, 4, irq, 0);
    ModUnique(0x80 * ctx, 0x80, ctx, 0);
    ModUnique(0x1000 * ctx, 0x1000, ctx, 0);
  }

  // The pending mask is read at 0x1000, and never written there.
  lemma PendingRead(p: Plic, v: U32, mask: bv32)
    ensures Read(p, 0x1000) == Effect(p, MaskNat(p.pending), false) && Write(p, 0x1000, v, mask).p == p
  {
  }

  // What a claim and a complete do to each source.
  lemma ClaimMoves(p: Plic, ctx: nat, j: nat)
    requires ctx < 2 && 1 <= j < SOURCES
    ensures var (q, r) := Claim(p, ctx);
            && (Has(q.claimed, j) <==> Has(p.claimed, j) || j == r)
            && (Has(q.pending, j) <==> Has(p.pending, j) && j != r)
  {
    hide Has, With, Without, IsBest;
    var r := Best(p, ctx);
    BestInRange(p, ctx);
    if r != 0 {
      MaskLaws(p.claimed, r, j);
      MaskLaws(p.pending, r, j);
    }
  }

  lemma BestInRange(p: Plic, ctx: nat)
    requires ctx < 2
    ensures Best(p, ctx) < SOURCES
  {
    hide Has;
  }

  /** The claim register of a context: reading it claims the best source, writing a source
      to it completes that source, and nothing else of the controller moves. */
  lemma ClaimRegister(p: Plic, ctx: nat, irq: nat, mask: bv32, j: nat)
    requires ctx < 2 && irq < SOURCES && 1 <= j < SOURCES
    ensures var e := Read(p, 0x20_0004 + 0x1000 * ctx);
            && IsBest(p, ctx, e.value) && e.p == p.(claimed := e.p.claimed, pending := e.p.pending)
            && (Has(e.p.claimed, j) <==> Has(p.claimed, j) || j == e.value)
            && (Has(e.p.pending, j) <==> Has(p.pending, j) && j != e.value)
    ensures var e := Write(p, 0x20_0004 + 0x1000 * ctx, irq, mask);
            e.p == p.(claimed := e.p.claimed) && (Has(e.p.claimed, j) <==> Has(p.claimed, j) && j != irq)
  {
    hide Has, With, Without, IsBest, Ready, Before;
    ModUnique(4 + 0x1000 * ctx, 0x1000, ctx, 4);
    ClaimMoves(p, ctx, j);
    MaskLaws(p.claimed, irq, j);
  }
}

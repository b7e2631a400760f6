/** The claim/complete protocol over whole traces: the order in which claims drain the
    controller, and the conservation of raises. */
module PlicProtocol {
  import opened Words
  import opened Plic

  // ---------------------------------------------------------------- Draining

  function ReadySet(p: Plic, ctx: nat): (s: set<nat>)
    requires ctx < 2
    ensures 0 !in s
  {
    set i: nat | 1 <= i < SOURCES && Ready(p, ctx, i)
  }

  // A claim takes the best source out of the ready set and touches no other.
  lemma ClaimTakesBest(p: Plic, ctx: nat)
    requires ctx < 2
    ensures var (p', r) := Claim(p, ctx);
            if r == 0 then p' == p && ReadySet(p, ctx) == {}
            else r in ReadySet(p, ctx) && ReadySet(p', ctx) == ReadySet(p, ctx) - {r}
    ensures Claim(p, ctx).0.priority == p.priority
  {
    hide Has, With, Without, BestBelow;
    var (p', r) := Claim(p, ctx);
    if r != 0 {
      forall j: nat | 1 <= j < SOURCES ensures Ready(p', ctx, j) <==> Ready(p, ctx, j) && j != r {
        MaskLaws(p.claimed, r, j);
        MaskLaws(p.pending, r, j);
      }
    }
  }

  // Claim until nothing is left.
  function Drain(p: Plic, ctx: nat): (s: seq<nat>)
    requires ctx < 2
    decreases |ReadySet(p, ctx)|
  {
    ClaimTakesBest(p, ctx);
    var (p', r) := Claim(p, ctx);
    if r == 0 then [] else [r] + Drain(p', ctx)
  }

  predicate Ordered(p: Plic, s: seq<nat>) {
    && (forall i :: 0 <= i < |s| ==> s[i] < SOURCES)
    && forall i, j :: 0 <= i < j < |s| ==> Before(p, s[i], s[j])
  }

  // Priorities alone order sources, and a source before all others may go first.
  lemma PrependOrdered(p: Plic, p': Plic, r: nat, s: seq<nat>)
    requires p'.priority == p.priority && Ordered(p', s) && r < SOURCES
    requires forall i :: 0 <= i < |s| ==> s[i] < SOURCES && Before(p, r, s[i])
    ensures Ordered(p, [r] + s)
  {
    var t := [r] + s;
    forall i, j | 0 <= i < j < |t| ensures Before(p, t[i], t[j]) {
      assert t[j] == s[j - 1] && (i > 0 ==> t[i] == s[i - 1]);
    }
  }

  // The claimed source precedes whatever stays ready.
  lemma ClaimFirst(p: Plic, ctx: nat, j: nat)
    requires ctx < 2 && j in ReadySet(Claim(p, ctx).0, ctx)
    ensures Claim(p, ctx).1 != 0 && Claim(p, ctx).1 < SOURCES && j < SOURCES && Before(p, Claim(p, ctx).1, j)
  {
    hide Has, With, Without, BestBelow, Ready, Before;
    ClaimTakesBest(p, ctx);
    assert j in ReadySet(p, ctx);
  }

  /** Draining returns each ready source exactly once, highest priority first and lowest id
      first among equals. */
  lemma {:induction false} DrainOrder(p: Plic, ctx: nat)
    requires ctx < 2
    ensures Ordered(p, Drain(p, ctx))
    ensures forall i: nat :: i in Drain(p, ctx) <==> i in ReadySet(p, ctx)
    ensures |Drain(p, ctx)| == |ReadySet(p, ctx)|
    decreases |ReadySet(p, ctx)|
  {
    hide Claim, ReadySet, Ordered, Before;
    ClaimTakesBest(p, ctx);
    var (p', r) := Claim(p, ctx);
    if r == 0 {
      assert Ordered(p, []) by { NoneOrdered(p); }
    } else {
      DrainOrder(p', ctx);
      var rest := Drain(p', ctx);
      ReadyIds(p, ctx);
      forall i | 0 <= i < |rest| ensures rest[i] < SOURCES && Before(p, r, rest[i]) {
        assert rest[i] in rest;
        ClaimFirst(p, ctx, rest[i]);
      }
      PrependOrdered(p, p', r, rest);
      assert ReadySet(p, ctx) == ReadySet(p', ctx) + {r};
    }
  }

  lemma NoneOrdered(p: Plic)
    ensures Ordered(p, [])
  {
  }

  lemma ReadyIds(p: Plic, ctx: nat)
    requires ctx < 2
    ensures forall i :: i in ReadySet(p, ctx) ==> i < SOURCES
  {
    hide Ready;
  }

  // At most 31 claims succeed before the controller answers 0.
  lemma DrainEnds(p: Plic, ctx: nat)
    requires ctx < 2
    ensures |Drain(p, ctx)| <= 31
  {
    hide Has, With, Without, BestBelow, Drain, Ready;
    DrainOrder(p, ctx);
    SubsetSize(ReadySet(p, ctx), Ids(31));
  }

  function Ids(n: nat): (s: set<nat>)
    ensures |s| == n && forall i: nat :: i in s <==> 1 <= i <= n
  {
    if n == 0 then {} else Ids(n - 1) + {n}
  }

  lemma {:induction false} SubsetSize(a: set<nat>, b: set<nat>)
    requires a <= b
    ensures |a| <= |b|
  {
    if a != {} {
      var x :| x in a;
      SubsetSize(a - {x}, b - {x});
    }
  }

  // ---------------------------------------------------------------- Traces

  // What can happen to the controller, through its registers or from a device.
  datatype Op =
    | RaiseOp(irq: nat)
    | ClaimOp(ctx: nat)
    | CompleteOp(irq: nat)
    | PriorityOp(irq: nat, v: U32)
    | EnableOp(ctx: nat, mask: bv32)
    | ThresholdOp(ctx: nat, v: U32)

  predicate Legal(op: Op) {
    match op
    case ClaimOp(ctx) => ctx < 2
    case EnableOp(ctx, _) => ctx < 2
    case ThresholdOp(ctx, _) => ctx < 2
    case PriorityOp(irq, _) => irq < SOURCES
    case _ => true
  }

  type LegalOp = op: Op | Legal(op) witness RaiseOp(0)

  function Apply(p: Plic, op: LegalOp): Plic {
    match op
    case RaiseOp(irq) => Raise(p, irq)
    case ClaimOp(ctx) => Claim(p, ctx).0
    case CompleteOp(irq) => Complete(p, irq)
    case PriorityOp(irq, v) => p.(priority := p.priority[irq := v])
    case EnableOp(ctx, mask) => p.(enable := p.enable[ctx := mask])
    case ThresholdOp(ctx, v) => p.(threshold := p.threshold[ctx := v])
  }

  // The source a step claims, or 0.
  function Claimed(p: Plic, op: LegalOp): nat {
    if op.ClaimOp? then Claim(p, op.ctx).1 else 0
  }

  // The state before step n of a trace.
  function StateAt(p: Plic, ops: seq<LegalOp>, n: nat): Plic
    requires n <= |ops|
  {
    if n == 0 then p else Apply(StateAt(p, ops, n - 1), ops[n - 1])
  }

  function ClaimedAt(p: Plic, ops: seq<LegalOp>, n: nat): nat
    requires n < |ops|
  {
    Claimed(StateAt(p, ops, n), ops[n])
  }

  // Only a complete of k ends its claim; only a claim of k starts one.
  lemma ClaimedStep(p: Plic, op: LegalOp, k: nat)
    requires 1 <= k < SOURCES
    ensures Has(Apply(p, op).claimed, k) <==> Claimed(p, op) == k || (Has(p.claimed, k) && op != CompleteOp(k))
    ensures Claimed(p, op) == k ==> Has(p.pending, k) && !Has(p.claimed, k)
  {
    hide Has, With, Without, BestBelow;
    match op
    case ClaimOp(ctx) =>
      if Claim(p, ctx).1 != 0 {
        MaskLaws(p.claimed, Claim(p, ctx).1, k);
      }
    case CompleteOp(irq) =>
      if 1 <= irq < SOURCES {
        MaskLaws(p.claimed, irq, k);
      }
    case _ =>
  }

  // Only a raise of k makes it pending; only a claim of k ends that.
  lemma PendingStep(p: Plic, op: LegalOp, k: nat)
    requires 1 <= k < SOURCES
    ensures Has(Apply(p, op).pending, k) <==> op == RaiseOp(k) || (Has(p.pending, k) && Claimed(p, op) != k)
  {
    hide Has, With, Without, BestBelow;
    match op
    case ClaimOp(ctx) =>
      if Claim(p, ctx).1 != 0 {
        MaskLaws(p.pending, Claim(p, ctx).1, k);
      }
    case RaiseOp(irq) =>
      if 1 <= irq < SOURCES {
        MaskLaws(p.pending, irq, k);
      }
    case _ =>
  }

  // If a source is claimed at step a and no longer at step b, it was completed in between.
  lemma {:induction false} FindComplete(p: Plic, ops: seq<LegalOp>, a: nat, b: nat, k: nat) returns (m: nat)
    requires a <= b <= |ops| && 1 <= k < SOURCES
    requires Has(StateAt(p, ops, a).claimed, k) && !Has(StateAt(p, ops, b).claimed, k)
    ensures a <= m < b && ops[m] == CompleteOp(k)
  {
    hide Has, Apply, Claimed;
    var q := StateAt(p, ops, b - 1);
    ClaimedStep(q, ops[b - 1], k);
    if Has(q.claimed, k) {
      m := b - 1;
    } else {
      m := FindComplete(p, ops, a, b - 1, k);
    }
  }

  // If a source is not pending at step a and is at step b, it was raised in between.
  lemma {:induction false} FindRaise(p: Plic, ops: seq<LegalOp>, a: nat, b: nat, k: nat) returns (m: nat)
    requires a <= b <= |ops| && 1 <= k < SOURCES
    requires !Has(StateAt(p, ops, a).pending, k) && Has(StateAt(p, ops, b).pending, k)
    ensures a <= m < b && ops[m] == RaiseOp(k)
  {
    hide Has, Apply, Claimed;
    var q := StateAt(p, ops, b - 1);
    PendingStep(q, ops[b - 1], k);
    if Has(q.pending, k) {
      m := FindRaise(p, ops, a, b - 1, k);
    } else {
      m := b - 1;
    }
  }

  /** Between two successful claims of the same source lie a completion and a new raise. */
  lemma ClaimsSeparated(p: Plic, ops: seq<LegalOp>, i: nat, j: nat, k: nat) returns (c: nat, r: nat)
    requires i < j < |ops| && 1 <= k < SOURCES
    requires ClaimedAt(p, ops, i) == k && ClaimedAt(p, ops, j) == k
    ensures i < c < j && ops[c] == CompleteOp(k)
    ensures i < r < j && ops[r] == RaiseOp(k)
  {
    hide Has, Apply, Claimed;
    ClaimedStep(StateAt(p, ops, i), ops[i], k);
    PendingStep(StateAt(p, ops, i), ops[i], k);
    ClaimedStep(StateAt(p, ops, j), ops[j], k);
    NotClaimTwice(ops[i], k);
    c := FindComplete(p, ops, i + 1, j, k);
    r := FindRaise(p, ops, i + 1, j, k);
  }

  lemma NotClaimTwice(op: LegalOp, k: nat)
    ensures forall p :: Claimed(p, op) == k && k != 0 ==> op != RaiseOp(k)
  {
    hide Claim;
  }

  /** A raise is never lost: while its source goes unclaimed it stays pending. */
  lemma {:induction false} RaiseStays(p: Plic, ops: seq<LegalOp>, a: nat, b: nat, k: nat)
    requires a <= b <= |ops| && 1 <= k < SOURCES && Has(StateAt(p, ops, a).pending, k)
    requires forall n :: a <= n < b ==> ClaimedAt(p, ops, n) != k
    ensures Has(StateAt(p, ops, b).pending, k)
  {
    hide Has, Apply, Claimed;
    if a < b {
      RaiseStays(p, ops, a, b - 1, k);
      assert ClaimedAt(p, ops, b - 1) != k;
      PendingStep(StateAt(p, ops, b - 1), ops[b - 1], k);
    }
  }

  // Successful claims of k in the first n steps, and raises of k.
  function Claims(p: Plic, ops: seq<LegalOp>, n: nat, k: nat): nat
    requires n <= |ops|
  {
    if n == 0 then 0 else Claims(p, ops, n - 1, k) + if ClaimedAt(p, ops, n - 1) == k then 1 else 0
  }

  function Raises(ops: seq<LegalOp>, n: nat, k: nat): nat
    requires n <= |ops|
  {
    if n == 0 then 0 else Raises(ops, n - 1, k) + if ops[n - 1] == RaiseOp(k) then 1 else 0
  }

  function Count(b: bool): nat {
    if b then 1 else 0
  }

  /** Conservation: a source is never claimed more often than it was raised (one more if it
      was pending to begin with), counting what is still pending. */
  lemma {:induction false} ClaimsAtMostRaises(p: Plic, ops: seq<LegalOp>, n: nat, k: nat)
    requires n <= |ops| && 1 <= k < SOURCES
    ensures Claims(p, ops, n, k) + Count(Has(StateAt(p, ops, n).pending, k))
         <= Raises(ops, n, k) + Count(Has(p.pending, k))
  {
    hide Has, Apply, Claimed;
    if n > 0 {
      ClaimsAtMostRaises(p, ops, n - 1, k);
      PendingStep(StateAt(p, ops, n - 1), ops[n - 1], k);
      ClaimedStep(StateAt(p, ops, n - 1), ops[n - 1], k);
      NotClaimTwice(ops[n - 1], k);
    }
  }
}

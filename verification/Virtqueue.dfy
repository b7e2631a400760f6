/** Split virtqueue rings in guest RAM: 16-bit free-running indices taken modulo the queue
    size, as first-in first-out queues. */
module Virtqueue {
  import opened Words
  import opened Memory

  const WRAP: nat := 0x1_0000

  // The available ring holds 2-byte heads, the used ring 8-byte (id, len) pairs. Both start
  // with 2 bytes of flags and a 2-byte index.
  datatype Kind = Avail | Used

  function Width(k: Kind): nat {
    if k.Avail? then 2 else 8
  }

  function RingBytes(k: Kind, size: nat): nat {
    4 + if k.Avail? then 2 * size else 8 * size
  }

  // The slot of a free-running index.
  function SlotOf(size: nat, i: nat): (s: nat)
    requires size > 0
    ensures s < size
  {
    i % WRAP % size
  }

  function Cell(k: Kind, base: nat, size: nat, i: nat): (a: nat)
    requires size > 0
    ensures base + 4 <= a && a + Width(k) <= base + RingBytes(k, size)
  {
    base + 4 + if k.Avail? then 2 * SlotOf(size, i) else 8 * SlotOf(size, i)
  }

  predicate RingInRam(m: Ram, k: Kind, base: nat, size: nat) {
    0 < size < WRAP && InRam(m, base, RingBytes(k, size))
  }

  // The index field: how many entries were ever pushed, modulo 2^16.
  function Idx(m: Ram, base: nat): (i: nat)
    requires InRam(m, base, 4)
    ensures i < WRAP
  {
    BytesOfNat(Peek(m, base + 2, 2));
    Pow256Of8();
    GetNat(m, base + 2, 2)
  }

  // Add an entry: write its cell, then advance the index. The driver does this to the
  // available ring, vq_ring_post to the used ring.
  function Push(m: Ram, k: Kind, base: nat, size: nat, entry: seq<bv8>): (m': Ram)
    requires RingInRam(m, k, base, size) && |entry| == Width(k)
    ensures SameShape(m, m')
  {
    var i := Idx(m, base);
    Poke(Poke(m, Cell(k, base, size, i), entry), base + 2, Bytes((i + 1) % WRAP, 2))
  }

  // ---------------------------------------------------------------- As a queue

  // The ring holds the entries q, the first of them at index start.
  ghost predicate Holds(m: Ram, k: Kind, base: nat, size: nat, start: nat, q: seq<seq<bv8>>) {
    && RingInRam(m, k, base, size)
    && |q| <= size
    && Idx(m, base) == (start + |q|) % WRAP
    && forall i :: 0 <= i < |q| ==> HoldsAt(m, k, base, size, start, q, i)
  }

  ghost predicate HoldsAt(m: Ram, k: Kind, base: nat, size: nat, start: nat, q: seq<seq<bv8>>, i: nat)
    requires RingInRam(m, k, base, size) && i < |q|
  {
    Peek(m, Cell(k, base, size, start + i), Width(k)) == q[i]
  }

  lemma SlotPeriodic(size: nat, i: nat)
    requires size > 0 && WRAP % size == 0
    ensures SlotOf(size, i) == i % size
  {
    var t, u := WRAP / size, i / WRAP;
    assert WRAP == size * t;
    assert i == WRAP * u + i % WRAP;
    var q, r := i % WRAP / size, i % WRAP % size;
    assert i % WRAP == size * q + r;
    calc {
      i;
      (size * t) * u + (size * q + r);
      size * (t * u) + size * q + r;
      size * (t * u + q) + r;
    }
    ModUnique(i, size, t * u + q, r);
  }

  lemma ResidueApart(size: nat, i: nat, j: nat)
    requires i < j < i + size
    ensures i % size != j % size
  {
    if i % size == j % size {
      var d := j / size - i / size;
      assert j - i == size * d;
      Multiple(size, d);
    }
  }

  // Any two of size consecutive indices have different slots.
  ghost predicate SlotsDistinct(size: nat)
    requires size > 0
  {
    forall a: nat, b: nat :: a < b < a + size ==> SlotOf(size, a) != SlotOf(size, b)
  }

  /** A full queue never shares slots, wherever the 16-bit index wraps, exactly when the size
      divides 2^16. */
  lemma SlotsDistinctExactly(size: nat)
    requires 0 < size < WRAP
    ensures SlotsDistinct(size) <==> WRAP % size == 0
  {
    if WRAP % size == 0 {
      forall a: nat, b: nat | a < b < a + size
        ensures SlotOf(size, a) != SlotOf(size, b)
      {
        SlotPeriodic(size, a);
        SlotPeriodic(size, b);
        ResidueApart(size, a, b);
      }
    } else {
      WrapCollides(size, WRAP % size);
      assert WRAP - 1 < WRAP - 1 + WRAP % size < WRAP - 1 + size;
    }
  }

  // Otherwise the last index before the wrap shares its slot with a later one.
  lemma WrapCollides(size: nat, r: nat)
    requires 0 < size < WRAP && r == WRAP % size && r > 0
    ensures SlotOf(size, WRAP - 1) == SlotOf(size, WRAP - 1 + r)
  {
    DivMod(WRAP, size);
    ModUnique(WRAP - 1, size, WRAP / size, r - 1);
    ModUnique(WRAP - 1 + r, WRAP, 1, r - 1);
    SmallMod(r - 1, size);
  }

  lemma DivMod(n: nat, d: nat)
    requires d > 0
    ensures n == d * (n / d) + n % d && 0 <= n % d < d
  {
  }

  lemma SmallMod(n: nat, d: nat)
    requires n < d
    ensures n % d == n
  {
  }

  // ---------------------------------------------------------------- Pushing and taking

  // The two stores of a push.
  lemma PushIs(m: Ram, k: Kind, base: nat, size: nat, entry: seq<bv8>)
    requires RingInRam(m, k, base, size) && |entry| == Width(k)
    ensures var m1 := Poke(m, Cell(k, base, size, Idx(m, base)), entry);
            Push(m, k, base, size, entry) == Poke(m1, base + 2, Bytes((Idx(m, base) + 1) % WRAP, 2))
  {
    hide Poke, Idx, Cell, Bytes;
  }

  lemma PushIndex(m: Ram, k: Kind, base: nat, size: nat, entry: seq<bv8>)
    requires RingInRam(m, k, base, size) && |entry| == Width(k)
    ensures Idx(Push(m, k, base, size, entry), base) == (Idx(m, base) + 1) % WRAP
  {
    hide Poke, Peek, Cell, Bytes, Push;
    var i, m' := Idx(m, base), Push(m, k, base, size, entry);
    var v := Bytes((i + 1) % WRAP, 2);
    PushIs(m, k, base, size, entry);
    PeekPoke(Poke(m, Cell(k, base, size, i), entry), base + 2, v, base + 2, 2);
    assert Peek(m', base + 2, 2) == v;
    NatOfBytes((i + 1) % WRAP, 2);
    Pow256Of8();
    SmallMod((i + 1) % WRAP, WRAP);
  }

  // The index is not in any cell.
  lemma PushCell(m: Ram, k: Kind, base: nat, size: nat, entry: seq<bv8>, j: nat)
    requires RingInRam(m, k, base, size) && |entry| == Width(k)
    ensures var m1, b := Poke(m, Cell(k, base, size, Idx(m, base)), entry), Cell(k, base, size, j);
            Peek(Push(m, k, base, size, entry), b, Width(k)) == Peek(m1, b, Width(k))
  {
    hide Poke, Peek, Cell, Bytes, Push, Idx;
    var i := Idx(m, base);
    PushIs(m, k, base, size, entry);
    var m1, v := Poke(m, Cell(k, base, size, i), entry), Bytes((i + 1) % WRAP, 2);
    PeekPoke(m1, base + 2, v, Cell(k, base, size, j), Width(k));
  }

  // Cells are the same or disjoint, as their slots are.
  lemma CellsApart(k: Kind, base: nat, size: nat, i: nat, j: nat)
    requires size > 0
    ensures SlotOf(size, i) == SlotOf(size, j) ==> Cell(k, base, size, i) == Cell(k, base, size, j)
    ensures var a, b := Cell(k, base, size, i), Cell(k, base, size, j);
            SlotOf(size, i) != SlotOf(size, j) ==> Apart(a, Width(k), b, Width(k))
  {
    hide SlotOf;
  }

  lemma PushCells(m: Ram, k: Kind, base: nat, size: nat, entry: seq<bv8>, j: nat)
    requires RingInRam(m, k, base, size) && |entry| == Width(k)
    ensures var m' := Push(m, k, base, size, entry);
            && Idx(m', base) == (Idx(m, base) + 1) % WRAP
            && (SlotOf(size, j) == SlotOf(size, Idx(m, base)) ==> Peek(m', Cell(k, base, size, j), Width(k)) == entry)
            && (SlotOf(size, j) != SlotOf(size, Idx(m, base)) ==>
                  Peek(m', Cell(k, base, size, j), Width(k)) == Peek(m, Cell(k, base, size, j), Width(k)))
  {
    hide SlotOf, Cell, Push, Idx, Poke, Peek;
    PushIndex(m, k, base, size, entry);
    PushCell(m, k, base, size, entry, j);
    CellsApart(k, base, size, Idx(m, base), j);
    PeekPoke(m, Cell(k, base, size, Idx(m, base)), entry, Cell(k, base, size, j), Width(k));
  }

  // Nothing outside the ring moves.
  lemma PushFrame(m: Ram, k: Kind, base: nat, size: nat, entry: seq<bv8>, a: nat, n: nat)
    requires RingInRam(m, k, base, size) && |entry| == Width(k)
    requires InRam(m, a, n) && Apart(a, n, base, RingBytes(k, size))
    ensures Peek(Push(m, k, base, size, entry), a, n) == Peek(m, a, n)
  {
    hide SlotOf, Cell, Push, Idx, Poke, Peek, Bytes;
    var i := Idx(m, base);
    var at, v := Cell(k, base, size, i), Bytes((i + 1) % WRAP, 2);
    PushIs(m, k, base, size, entry);
    PeekPoke(m, at, entry, a, n);
    PeekPoke(Poke(m, at, entry), base + 2, v, a, n);
  }

  lemma SlotOfWrapped(size: nat, i: nat)
    requires size > 0
    ensures SlotOf(size, i % WRAP) == SlotOf(size, i)
  {
    SmallMod(i % WRAP, WRAP);
  }

  lemma WrapAdd(i: nat, k: nat)
    ensures (i % WRAP + k) % WRAP == (i + k) % WRAP
  {
  }

  // A push appends, given room and a size that divides 2^16.
  lemma PushAppends(m: Ram, k: Kind, base: nat, size: nat, start: nat, q: seq<seq<bv8>>, entry: seq<bv8>)
    requires Holds(m, k, base, size, start, q) && |q| < size && WRAP % size == 0 && |entry| == Width(k)
    ensures Holds(Push(m, k, base, size, entry), k, base, size, start, q + [entry])
  {
    hide Peek, Cell, Idx, Push, SlotOf;
    SlotsDistinctExactly(size);
    var m' := Push(m, k, base, size, entry);
    var n := start + |q|;
    SlotOfWrapped(size, n);
    WrapAdd(n, 1);
    forall i | 0 <= i < |q| + 1 ensures HoldsAt(m', k, base, size, start, q + [entry], i) {
      PushCells(m, k, base, size, entry, start + i);
      if i < |q| {
        assert HoldsAt(m, k, base, size, start, q, i);
        assert SlotOf(size, start + i) != SlotOf(size, n);
      }
    }
    PushCells(m, k, base, size, entry, n);
  }

  /** Otherwise a push can lose an entry: with the oldest entry at index 2^16 - 1 and
      2^16 mod size entries waiting, the next push overwrites it. */
  lemma PushOverwrites(m: Ram, k: Kind, base: nat, size: nat, q: seq<seq<bv8>>, entry: seq<bv8>)
    requires Holds(m, k, base, size, WRAP - 1, q) && WRAP % size != 0 && |q| == WRAP % size && |entry| == Width(k)
    ensures |q| < size
    ensures Peek(Push(m, k, base, size, entry), Cell(k, base, size, WRAP - 1), Width(k)) == entry
  {
    hide Peek, Cell, Idx, Push, SlotOf;
    WrapCollides(size, |q|);
    SlotOfWrapped(size, WRAP - 1 + |q|);
    PushCells(m, k, base, size, entry, WRAP - 1);
  }

  // Taking the first entry advances the start.
  lemma TakeFirst(m: Ram, k: Kind, base: nat, size: nat, start: nat, q: seq<seq<bv8>>)
    requires Holds(m, k, base, size, start, q) && q != []
    ensures Peek(m, Cell(k, base, size, start), Width(k)) == q[0]
    ensures Holds(m, k, base, size, start + 1, q[1..])
  {
    hide Peek, Cell, Idx;
    assert HoldsAt(m, k, base, size, start, q, 0);
    var next, rest := start + 1, q[1..];
    forall i | 0 <= i < |rest| ensures HoldsAt(m, k, base, size, next, rest, i) {
      assert HoldsAt(m, k, base, size, start, q, i + 1);
    }
  }

  lemma StartWraps(m: Ram, k: Kind, base: nat, size: nat, start: nat, q: seq<seq<bv8>>)
    requires Holds(m, k, base, size, start, q)
    ensures Holds(m, k, base, size, start % WRAP, q)
  {
    hide Peek, Idx, SlotOf;
    WrapAdd(start, |q|);
    forall i | 0 <= i < |q| ensures HoldsAt(m, k, base, size, start % WRAP, q, i) {
      assert HoldsAt(m, k, base, size, start, q, i);
      WrapAdd(start, i);
      SlotOfWrapped(size, start + i);
      SlotOfWrapped(size, start % WRAP + i);
    }
  }

  // The index differs from the cursor exactly when entries wait.
  lemma EmptyExactly(m: Ram, k: Kind, base: nat, size: nat, cursor: nat, q: seq<seq<bv8>>)
    requires Holds(m, k, base, size, cursor, q) && cursor < WRAP
    ensures cursor != Idx(m, base) <==> q != []
  {
    hide Idx, Peek, Cell;
    if cursor + |q| < WRAP {
      SmallMod(cursor + |q|, WRAP);
    } else {
      ModUnique(cursor + |q|, WRAP, 1, cursor + |q| - WRAP);
    }
  }

  // Bytes outside the ring are free to change.
  lemma HoldsFrame(m: Ram, m': Ram, k: Kind, base: nat, size: nat, start: nat, q: seq<seq<bv8>>)
    requires Holds(m, k, base, size, start, q) && SameShape(m, m')
    requires Peek(m', base, RingBytes(k, size)) == Peek(m, base, RingBytes(k, size))
    ensures Holds(m', k, base, size, start, q)
  {
    hide Peek, Cell;
    PeekWithin(m, m', base, RingBytes(k, size), base + 2, 2);
    forall i | 0 <= i < |q| ensures HoldsAt(m', k, base, size, start, q, i) {
      assert HoldsAt(m, k, base, size, start, q, i);
      PeekWithin(m, m', base, RingBytes(k, size), Cell(k, base, size, start + i), Width(k));
    }
  }

  // ---------------------------------------------------------------- Driver and device

  // vq_ring_has_next and vq_ring_next read the available ring at a cursor of their own.
  predicate HasNext(m: Ram, base: nat, cursor: nat)
    requires InRam(m, base, 4)
  {
    cursor != Idx(m, base)
  }

  function HeadAt(m: Ram, base: nat, size: nat, cursor: nat): (h: nat)
    requires RingInRam(m, Avail, base, size)
    ensures h < WRAP
  {
    BytesOfNat(Peek(m, Cell(Avail, base, size, cursor), 2));
    Pow256Of8();
    GetNat(m, Cell(Avail, base, size, cursor), 2)
  }

  // The index and the heads depend on the bytes of the ring alone.
  lemma RingReads(m: Ram, m': Ram, base: nat, size: nat, cursor: nat)
    requires RingInRam(m, Avail, base, size) && SameShape(m, m')
    requires Peek(m', base, RingBytes(Avail, size)) == Peek(m, base, RingBytes(Avail, size))
    ensures Idx(m', base) == Idx(m, base) && HeadAt(m', base, size, cursor) == HeadAt(m, base, size, cursor)
  {
    hide Peek, Cell;
    PeekWithin(m, m', base, RingBytes(Avail, size), base + 2, 2);
    PeekWithin(m, m', base, RingBytes(Avail, size), Cell(Avail, base, size, cursor), 2);
  }

  // How many entries wait at a cursor.
  function Waiting(m: Ram, base: nat, cursor: nat): (n: nat)
    requires InRam(m, base, 4) && cursor < WRAP
    ensures n < WRAP
  {
    (Idx(m, base) + WRAP - cursor) % WRAP
  }

  // Advancing the cursor meets the index after exactly that many entries.
  lemma WaitingExactly(m: Ram, base: nat, cursor: nat, i: nat)
    requires InRam(m, base, 4) && cursor < WRAP && i <= Waiting(m, base, cursor)
    ensures (cursor + i) % WRAP == Idx(m, base) <==> i == Waiting(m, base, cursor)
  {
    var idx := Idx(m, base);
    if cursor <= idx {
      ModUnique(idx + WRAP - cursor, WRAP, 1, idx - cursor);
      SmallMod(cursor + i, WRAP);
    } else {
      SmallMod(idx + WRAP - cursor, WRAP);
      if cursor + i < WRAP {
        SmallMod(cursor + i, WRAP);
      } else {
        ModUnique(cursor + i, WRAP, 1, cursor + i - WRAP);
      }
    }
  }

  lemma HeadWrapped(m: Ram, base: nat, size: nat, i: nat)
    requires RingInRam(m, Avail, base, size)
    ensures HeadAt(m, base, size, i % WRAP) == HeadAt(m, base, size, i)
  {
    SlotOfWrapped(size, i);
  }

  type U16 = n: nat | n < WRAP

  // The heads as ring entries.
  function Entries(q: seq<U16>): (s: seq<seq<bv8>>)
    ensures |s| == |q|
  {
    seq(|q|, i requires 0 <= i < |q| => Bytes(q[i], 2))
  }

  // The driver offers a head, the device takes the next one if there is one, or somebody
  // writes memory outside the ring.
  datatype Op = Offer(head: U16) | Take | Write(a: nat, s: seq<bv8>)

  // At most size entries are ever outstanding; n of them are now.
  predicate Legal(m: Ram, base: nat, size: nat, n: nat, ops: seq<Op>)
    decreases |ops|
  {
    ops == [] ||
    match ops[0]
    case Offer(_) => n < size && Legal(m, base, size, n + 1, ops[1..])
    case Take => Legal(m, base, size, if n > 0 then n - 1 else 0, ops[1..])
    case Write(a, s) =>
      InRam(m, a, |s|) && Apart(a, |s|, base, RingBytes(Avail, size)) && Legal(m, base, size, n, ops[1..])
  }

  datatype Taken = Taken(m: Ram, cursor: nat, heads: seq<U16>)

  function Perform(m: Ram, base: nat, size: nat, cursor: nat, op: Op): (t: Taken)
    requires RingInRam(m, Avail, base, size)
    ensures SameShape(m, t.m)
  {
    match op
    case Offer(h) => Taken(Push(m, Avail, base, size, Bytes(h, 2)), cursor, [])
    case Take =>
      if HasNext(m, base, cursor) then Taken(m, (cursor + 1) % WRAP, [HeadAt(m, base, size, cursor)])
      else Taken(m, cursor, [])
    case Write(a, s) => if InRam(m, a, |s|) then Taken(Poke(m, a, s), cursor, []) else Taken(m, cursor, [])
  }

  function PerformAll(m: Ram, base: nat, size: nat, cursor: nat, ops: seq<Op>): (t: Taken)
    requires RingInRam(m, Avail, base, size)
    ensures SameShape(m, t.m)
    decreases |ops|
  {
    if ops == [] then Taken(m, cursor, [])
    else
      var t := Perform(m, base, size, cursor, ops[0]);
      var u := PerformAll(t.m, base, size, t.cursor, ops[1..]);
      u.(heads := t.heads + u.heads)
  }

  function Offered(ops: seq<Op>): seq<U16> {
    if ops == [] then [] else (if ops[0].Offer? then [ops[0].head] else []) + Offered(ops[1..])
  }

  lemma LegalShape(m: Ram, m': Ram, base: nat, size: nat, n: nat, ops: seq<Op>)
    requires SameShape(m, m') && Legal(m, base, size, n, ops)
    ensures Legal(m', base, size, n, ops)
    decreases |ops|
  {
    if ops != [] {
      var n' := match ops[0] case Offer(_) => n + 1 case Take => (if n > 0 then n - 1 else 0) case _ => n;
      LegalShape(m, m', base, size, n', ops[1..]);
    }
  }

  // One operation moves the queue as it should: q' is what waits afterwards.
  lemma PerformQueue(m: Ram, base: nat, size: nat, cursor: nat, q: seq<U16>, op: Op) returns (q': seq<U16>)
    requires Holds(m, Avail, base, size, cursor, Entries(q)) && cursor < WRAP && WRAP % size == 0
    requires Legal(m, base, size, |q|, [op])
    ensures var t := Perform(m, base, size, cursor, op);
            t.cursor < WRAP && Holds(t.m, Avail, base, size, t.cursor, Entries(q')) && q + Offered([op]) == t.heads + q'
    ensures |q'| == match op case Offer(_) => |q| + 1 case Take => (if |q| > 0 then |q| - 1 else 0) case _ => |q|
  {
    hide Holds, Push, Idx, HeadAt, Peek, Bytes;
    assert [op][1..] == [];
    HoldsRegion(m, Avail, base, size, cursor, Entries(q));
    match op
    case Offer(h) =>
      PushAppends(m, Avail, base, size, cursor, Entries(q), Bytes(h, 2));
      q' := q + [h];
      assert Entries(q') == Entries(q) + [Bytes(h, 2)];
    case Take =>
      EmptyExactly(m, Avail, base, size, cursor, Entries(q));
      if q == [] {
        q' := [];
      } else {
        TakeFirst(m, Avail, base, size, cursor, Entries(q));
        StartWraps(m, Avail, base, size, cursor + 1, Entries(q)[1..]);
        q' := q[1..];
        assert Entries(q') == Entries(q)[1..];
        assert Entries(q)[0] == Bytes(q[0], Width(Avail));
        HeadIs(m, base, size, cursor, q[0]);
      }
    case Write(a, s) =>
      PeekPoke(m, a, s, base, RingBytes(Avail, size));
      HoldsFrame(m, Poke(m, a, s), Avail, base, size, cursor, Entries(q));
      q' := q;
  }

  lemma HoldsRegion(m: Ram, k: Kind, base: nat, size: nat, start: nat, q: seq<seq<bv8>>)
    requires Holds(m, k, base, size, start, q)
    ensures RingInRam(m, k, base, size)
  {
  }

  lemma HeadIs(m: Ram, base: nat, size: nat, cursor: nat, h: U16)
    requires RingInRam(m, Avail, base, size) && Peek(m, Cell(Avail, base, size, cursor), 2) == Bytes(h, 2)
    ensures HeadAt(m, base, size, cursor) == h
  {
    hide Peek, Cell;
    NatOfBytes(h, 2);
    Pow256Of8();
    SmallMod(h, WRAP);
  }

  /** The ring is a first-in first-out queue: under any interleaving of offers, takes and
      writes elsewhere, with at most size entries outstanding and size dividing 2^16, the
      device receives what the driver offered, each entry once and in order, across every
      wrap of the cursor; what it has not received is still waiting. */
  lemma {:induction false} RingIsFifo(m: Ram, base: nat, size: nat, cursor: nat, q: seq<U16>, ops: seq<Op>)
    returns (q': seq<U16>)
    requires Holds(m, Avail, base, size, cursor, Entries(q)) && cursor < WRAP && WRAP % size == 0
    requires Legal(m, base, size, |q|, ops)
    ensures var t := PerformAll(m, base, size, cursor, ops);
            && q + Offered(ops) == t.heads + q'
            && Holds(t.m, Avail, base, size, t.cursor, Entries(q'))
    decreases |ops|
  {
    hide Holds, Perform, PerformAll, Offered, Entries;
    HoldsRegion(m, Avail, base, size, cursor, Entries(q));
    if ops == [] {
      q' := q;
      NoOps(m, base, size, cursor);
    } else {
      var op := ops[0];
      assert [op][1..] == [];
      var q1 := PerformQueue(m, base, size, cursor, q, op);
      var t := Perform(m, base, size, cursor, op);
      LegalShape(m, t.m, base, size, |q1|, ops[1..]);
      q' := RingIsFifo(t.m, base, size, t.cursor, q1, ops[1..]);
      FirstOp(m, base, size, cursor, ops);
      var u := PerformAll(t.m, base, size, t.cursor, ops[1..]);
      Regroup(q, Offered([op]), Offered(ops[1..]), t.heads, q1, u.heads, q');
    }
  }

  lemma NoOps(m: Ram, base: nat, size: nat, cursor: nat)
    requires RingInRam(m, Avail, base, size)
    ensures PerformAll(m, base, size, cursor, []) == Taken(m, cursor, []) && Offered([]) == []
  {
  }

  lemma FirstOp(m: Ram, base: nat, size: nat, cursor: nat, ops: seq<Op>)
    requires RingInRam(m, Avail, base, size) && ops != []
    ensures Offered(ops) == Offered([ops[0]]) + Offered(ops[1..])
    ensures var t := Perform(m, base, size, cursor, ops[0]);
            var u := PerformAll(t.m, base, size, t.cursor, ops[1..]);
            PerformAll(m, base, size, cursor, ops) == u.(heads := t.heads + u.heads)
  {
    hide Perform;
    assert [ops[0]][1..] == [];
  }

  // Appending what was offered later to what was delivered and kept so far.
  lemma Regroup(q: seq<U16>, first: seq<U16>, rest: seq<U16>, heads: seq<U16>, q1: seq<U16>, later: seq<U16>,
                q': seq<U16>)
    requires q + first == heads + q1 && q1 + rest == later + q'
    ensures q + (first + rest) == (heads + later) + q'
  {
    calc {
      q + (first + rest);
      (q + first) + rest;
      (heads + q1) + rest;
      heads + (q1 + rest);
      heads + (later + q');
      (heads + later) + q';
    }
  }

  // ---------------------------------------------------------------- What waits

  // The heads of the next n entries at a cursor.
  function Heads(m: Ram, base: nat, size: nat, cursor: nat, n: nat): (s: seq<nat>)
    requires RingInRam(m, Avail, base, size)
    ensures |s| == n
  {
    if n == 0 then [] else Heads(m, base, size, cursor, n - 1) + [HeadAt(m, base, size, cursor + n - 1)]
  }

  lemma {:induction false} HeadsAt(m: Ram, base: nat, size: nat, cursor: nat, n: nat, i: nat)
    requires RingInRam(m, Avail, base, size) && i < n
    ensures Heads(m, base, size, cursor, n)[i] == HeadAt(m, base, size, cursor + i)
  {
    hide HeadAt;
    if i < n - 1 {
      HeadsAt(m, base, size, cursor, n - 1, i);
    }
  }

  // The queue a ring holds is what a device that reads up to the index will find.
  lemma HeldIsWaiting(m: Ram, base: nat, size: nat, cursor: nat, q: seq<U16>)
    requires Holds(m, Avail, base, size, cursor, Entries(q)) && cursor < WRAP
    ensures Waiting(m, base, cursor) == |q|
    ensures Heads(m, base, size, cursor, |q|) == q
  {
    hide HeadAt, Idx, Heads, Holds, Entries, Waiting;
    HeldCount(m, base, size, cursor, q);
    forall i | 0 <= i < |q| ensures Heads(m, base, size, cursor, |q|)[i] == q[i] {
      HeadsAt(m, base, size, cursor, |q|, i);
      HeldHead(m, base, size, cursor, q, i);
    }
  }

  lemma HeldCount(m: Ram, base: nat, size: nat, cursor: nat, q: seq<U16>)
    requires Holds(m, Avail, base, size, cursor, Entries(q)) && cursor < WRAP
    ensures RingInRam(m, Avail, base, size) && Waiting(m, base, cursor) == |q|
  {
    hide Idx, HoldsAt;
    WaitingIs(cursor, |q|);
  }

  lemma HeldHead(m: Ram, base: nat, size: nat, cursor: nat, q: seq<U16>, i: nat)
    requires Holds(m, Avail, base, size, cursor, Entries(q)) && i < |q|
    ensures HeadAt(m, base, size, cursor + i) == q[i]
  {
    hide HeadAt, Peek, Cell, Bytes, Idx;
    assert HoldsAt(m, Avail, base, size, cursor, Entries(q), i);
    HeadIs(m, base, size, cursor + i, q[i]);
  }

  lemma WaitingIs(cursor: nat, n: nat)
    requires cursor < WRAP && n < WRAP
    ensures ((cursor + n) % WRAP + WRAP - cursor) % WRAP == n
  {
    if cursor + n < WRAP {
      SmallMod(cursor + n, WRAP);
      ModUnique(n + WRAP, WRAP, 1, n);
    } else {
      ModUnique(cursor + n, WRAP, 1, cursor + n - WRAP);
      SmallMod(n, WRAP);
    }
  }

  /** Nothing offered is lost: whatever the driver and the device have done so far, what was
      delivered, then what the device finds from its cursor up to the index, is what waited
      at the start and everything offered since, in order. */
  lemma DeliveredThenWaiting(m: Ram, base: nat, size: nat, cursor: nat, q: seq<U16>, ops: seq<Op>)
    requires Holds(m, Avail, base, size, cursor, Entries(q)) && cursor < WRAP && WRAP % size == 0
    requires Legal(m, base, size, |q|, ops)
    ensures var t := PerformAll(m, base, size, cursor, ops);
            && t.cursor < WRAP
            && q + Offered(ops) == t.heads + Heads(t.m, base, size, t.cursor, Waiting(t.m, base, t.cursor))
  {
    hide Holds, PerformAll, Legal, Offered, Heads, Waiting;
    HoldsRegion(m, Avail, base, size, cursor, Entries(q));
    var q' := RingIsFifo(m, base, size, cursor, q, ops);
    var t := PerformAll(m, base, size, cursor, ops);
    CursorBounded(m, base, size, cursor, ops);
    HeldIsWaiting(t.m, base, size, t.cursor, q');
  }

  lemma {:induction false} CursorBounded(m: Ram, base: nat, size: nat, cursor: nat, ops: seq<Op>)
    requires RingInRam(m, Avail, base, size) && cursor < WRAP
    ensures PerformAll(m, base, size, cursor, ops).cursor < WRAP
    decreases |ops|
  {
    hide HeadAt, Push;
    if ops != [] {
      var t := Perform(m, base, size, cursor, ops[0]);
      CursorBounded(t.m, base, size, t.cursor, ops[1..]);
    }
  }

  // ---------------------------------------------------------------- Other sizes

  function Offers(n: nat): (ops: seq<Op>)
    ensures |ops| == n
  {
    if n == 0 then [] else [Offer(0)] + Offers(n - 1)
  }

  // The ring after n offers of head 0.
  function Filled(m: Ram, base: nat, size: nat, n: nat): (m': Ram)
    requires RingInRam(m, Avail, base, size)
    ensures SameShape(m, m')
    decreases n
  {
    if n == 0 then m else Filled(Push(m, Avail, base, size, Bytes(0, 2)), base, size, n - 1)
  }

  lemma {:induction false} FillFirst(m: Ram, base: nat, size: nat, cursor: nat, n: nat, rest: seq<Op>)
    requires RingInRam(m, Avail, base, size)
    ensures PerformAll(m, base, size, cursor, Offers(n) + rest)
         == PerformAll(Filled(m, base, size, n), base, size, cursor, rest)
    decreases n
  {
    hide Push;
    if n == 0 {
      assert Offers(0) + rest == rest;
    } else {
      assert Offers(n) + rest == [Offer(0)] + (Offers(n - 1) + rest);
      assert ([Offer(0)] + (Offers(n - 1) + rest))[1..] == Offers(n - 1) + rest;
      FillFirst(Push(m, Avail, base, size, Bytes(0, 2)), base, size, cursor, n - 1, rest);
    }
  }

  // The index counts the offers, and the last one's slot holds its head.
  lemma {:induction false} FilledRing(m: Ram, base: nat, size: nat, n: nat)
    requires RingInRam(m, Avail, base, size)
    ensures Idx(Filled(m, base, size, n), base) == (Idx(m, base) + n) % WRAP
    ensures n > 0 ==> Peek(Filled(m, base, size, n), Cell(Avail, base, size, Idx(m, base) + n - 1), 2) == Bytes(0, 2)
    decreases n
  {
    hide Push, Peek, Idx, Cell, SlotOf;
    SmallMod(Idx(m, base), WRAP);
    if n > 0 {
      var m' := Push(m, Avail, base, size, Bytes(0, 2));
      PushCells(m, Avail, base, size, Bytes(0, 2), Idx(m, base));
      FilledRing(m', base, size, n - 1);
      WrapAdd(Idx(m, base) + 1, n - 1);
      if n > 1 {
        SlotOfWrapped(size, Idx(m, base) + 1 + n - 2);
        SlotOfWrapped(size, Idx(m', base) + n - 2);
        WrapAdd(Idx(m, base) + 1, n - 2);
        CellsApart(Avail, base, size, Idx(m', base) + n - 2, Idx(m, base) + n - 1);
      }
    }
  }

  // An empty ring about to wrap: index and cursor are 2^16 - 1.
  function AtWrap(size: nat): (m: Ram)
    ensures m.base == 0 && |m.bytes| == 4 + 2 * size
    ensures Peek(m, 2, 2) == [0xFF, 0xFF]
  {
    Ram(0, [0, 0, 0xFF, 0xFF] + seq(2 * size, _ => 0))
  }

  lemma AtWrapEmpty(size: nat)
    requires 0 < size < WRAP
    ensures Holds(AtWrap(size), Avail, 0, size, WRAP - 1, Entries([]))
    ensures Idx(AtWrap(size), 0) == WRAP - 1
  {
    hide AtWrap;
    AllOnes();
    SmallMod(WRAP - 1, WRAP);
  }

  lemma AllOnes()
    ensures Nat([0xFF, 0xFF]) == WRAP - 1
  {
    assert [0xFF as bv8, 0xFF][1..] == [0xFF];
    assert Nat([0xFF]) == 255 + 256 * Nat([]);
  }

  lemma {:induction false} OffersLegal(m: Ram, base: nat, size: nat, n: nat, k: nat)
    requires n + k <= size
    ensures Legal(m, base, size, n, Offers(k) + [Take])
    decreases k
  {
    if k == 0 {
      assert (Offers(0) + [Take])[1..] == [];
    } else {
      assert (Offers(k) + [Take])[1..] == Offers(k - 1) + [Take];
      OffersLegal(m, base, size, n + 1, k - 1);
    }
  }

  // One offer of head 1, then of head 0 until the wrap's residue is used up, then a take.
  function Overrun(size: nat): seq<Op>
    requires size > 0
  {
    [Offer(1)] + (Offers(WRAP % size) + [Take])
  }

  lemma OverrunOffersOneFirst(size: nat)
    requires size > 0
    ensures Offered(Overrun(size)) != [] && Offered(Overrun(size))[0] == 1
  {
    hide Offers;
  }

  lemma OverrunLegal(size: nat, m: Ram)
    requires 0 < size < WRAP && WRAP % size != 0
    ensures Legal(m, 0, size, 0, Overrun(size))
  {
    hide Offers;
    var ops := Overrun(size);
    assert ops[1..] == Offers(WRAP % size) + [Take];
    OffersLegal(m, 0, size, 1, WRAP % size);
  }

  // The take finds the last head offered, not the first.
  lemma OverrunDelivers(size: nat)
    requires 0 < size < WRAP && WRAP % size != 0
    ensures PerformAll(AtWrap(size), 0, size, WRAP - 1, Overrun(size)).heads == [0]
  {
    hide Push, Peek, Idx, Cell, SlotOf, Offers, Filled, HeadAt, AtWrap;
    var r, m, c := WRAP % size, AtWrap(size), WRAP - 1;
    AtWrapEmpty(size);
    var m1 := Push(m, Avail, 0, size, Bytes(1, 2));
    PushCells(m, Avail, 0, size, Bytes(1, 2), 0);
    assert Idx(m1, 0) == 0;
    FillFirst(m1, 0, size, c, r, [Take]);
    FilledRing(m1, 0, size, r);
    var m2 := Filled(m1, 0, size, r);
    SmallMod(r, WRAP);
    WrapCollides(size, r);
    ModUnique(c + r, WRAP, 1, r - 1);
    SlotOfWrapped(size, c + r);
    CellsApart(Avail, 0, size, r - 1, c);
    HeadIs(m2, 0, size, c, 0);
    assert Overrun(size)[1..] == Offers(r) + [Take];
    TakeOne(m2, 0, size, c);
  }

  lemma TakeOne(m: Ram, base: nat, size: nat, cursor: nat)
    requires RingInRam(m, Avail, base, size) && HasNext(m, base, cursor)
    ensures PerformAll(m, base, size, cursor, [Take]).heads == [HeadAt(m, base, size, cursor)]
  {
    hide HeadAt, Idx;
    assert [Take][1..] == [];
  }

  // What the device receives is a prefix of what waited and was offered.
  ghost predicate Delivers(m: Ram, base: nat, size: nat, cursor: nat, q: seq<U16>, ops: seq<Op>) {
    (Holds(m, Avail, base, size, cursor, Entries(q)) && cursor < WRAP && Legal(m, base, size, |q|, ops)) ==>
      PerformAll(m, base, size, cursor, ops).heads <= q + Offered(ops)
  }

  /** The ring of a given size delivers in order, from every state and under every legal
      interleaving, exactly when the size divides 2^16. */
  lemma FifoExactly(size: nat)
    requires 0 < size < WRAP
    ensures (forall m: Ram, base: nat, cursor: nat, q: seq<U16>, ops: seq<Op> ::
               Delivers(m, base, size, cursor, q, ops))
       <==> WRAP % size == 0
  {
    hide Holds, Legal, PerformAll, Entries, Offered, Overrun, AtWrap;
    if WRAP % size == 0 {
      forall m: Ram, base: nat, cursor: nat, q: seq<U16>, ops: seq<Op>
        ensures Delivers(m, base, size, cursor, q, ops)
      {
        if Holds(m, Avail, base, size, cursor, Entries(q)) && cursor < WRAP && Legal(m, base, size, |q|, ops) {
          var q' := RingIsFifo(m, base, size, cursor, q, ops);
        }
      }
    } else {
      AtWrapEmpty(size);
      OverrunLegal(size, AtWrap(size));
      OverrunDelivers(size);
      OverrunOffersOneFirst(size);
      assert [] + Offered(Overrun(size)) == Offered(Overrun(size));
      assert PerformAll(AtWrap(size), 0, size, WRAP - 1, Overrun(size)).heads[0] == 0;
      assert !Delivers(AtWrap(size), 0, size, WRAP - 1, [], Overrun(size));
    }
  }
}

/** Guest memory: a RAM bank as a value, its byte-level laws, and the region table that
    dispatches an address to RAM or to a device. */
module Memory {
  import opened Words

  // ---------------------------------------------------------------- RAM as a value

  datatype Ram = Ram(base: nat, bytes: seq<bv8>)

  // An access of n bytes at a lies wholly inside the bank.
  predicate InRam(m: Ram, a: int, n: nat) {
    m.base <= a && a + n <= m.base + |m.bytes|
  }

  function At(m: Ram, a: int): bv8
    requires InRam(m, a, 1)
  {
    m.bytes[a - m.base]
  }

  function Peek(m: Ram, a: int, n: nat): (s: seq<bv8>)
    requires InRam(m, a, n)
    ensures |s| == n
    ensures forall k {:trigger s[k]} :: 0 <= k < n ==> s[k] == At(m, a + k)
  {
    m.bytes[a - m.base..a - m.base + n]
  }

  function Poke(m: Ram, a: int, s: seq<bv8>): (m': Ram)
    requires InRam(m, a, |s|)
    ensures m'.base == m.base && |m'.bytes| == |m.bytes|
    ensures forall k {:trigger At(m', k)} :: InRam(m, k, 1) ==>
              At(m', k) == if a <= k < a + |s| then s[k - a] else At(m, k)
  {
    var i := a - m.base;
    m.(bytes := m.bytes[..i] + s + m.bytes[i + |s|..])
  }

  predicate SameShape(m: Ram, m': Ram) {
    m.base == m'.base && |m.bytes| == |m'.bytes|
  }

  // Two banks are equal when every byte is.
  lemma SameBytes(m: Ram, m': Ram)
    requires SameShape(m, m')
    requires forall k :: InRam(m, k, 1) ==> At(m, k) == At(m', k)
    ensures m == m'
  {
    forall i | 0 <= i < |m.bytes| ensures m.bytes[i] == m'.bytes[i] {
      assert InRam(m, m.base + i, 1);
      assert At(m, m.base + i) == At(m', m.base + i);
    }
  }

  predicate Apart(a: int, n: nat, b: int, k: nat) {
    a + n <= b || b + k <= a
  }

  // A load sees the last store to its cell and no store that misses it.
  lemma PeekPoke(m: Ram, a: int, s: seq<bv8>, b: int, n: nat)
    requires InRam(m, a, |s|) && InRam(m, b, n)
    ensures b == a && n == |s| ==> Peek(Poke(m, a, s), b, n) == s
    ensures Apart(a, |s|, b, n) ==> Peek(Poke(m, a, s), b, n) == Peek(m, b, n)
  {
  }

  // What two banks agree on, they agree on within.
  lemma PeekWithin(m: Ram, m': Ram, a: int, n: nat, b: int, k: nat)
    requires InRam(m, a, n) && InRam(m', a, n) && Peek(m', a, n) == Peek(m, a, n)
    requires a <= b && b + k <= a + n
    ensures Peek(m', b, k) == Peek(m, b, k)
  {
    assert Peek(m, b, k) == Peek(m, a, n)[b - a..b - a + k];
    assert Peek(m', b, k) == Peek(m', a, n)[b - a..b - a + k];
  }

  lemma PokePeek(m: Ram, a: int, n: nat)
    requires InRam(m, a, n)
    ensures Poke(m, a, Peek(m, a, n)) == m
  {
    SameBytes(Poke(m, a, Peek(m, a, n)), m);
  }

  // Two adjacent stores are one store of the concatenation.
  lemma PokeAdjacent(m: Ram, a: int, s: seq<bv8>, t: seq<bv8>)
    requires InRam(m, a, |s| + |t|)
    ensures Poke(Poke(m, a, s), a + |s|, t) == Poke(m, a, s + t)
  {
    SameBytes(Poke(Poke(m, a, s), a + |s|, t), Poke(m, a, s + t));
  }

  lemma PokeCommute(m: Ram, a: int, s: seq<bv8>, b: int, t: seq<bv8>)
    requires InRam(m, a, |s|) && InRam(m, b, |t|) && Apart(a, |s|, b, |t|)
    ensures Poke(Poke(m, a, s), b, t) == Poke(Poke(m, b, t), a, s)
  {
    SameBytes(Poke(Poke(m, a, s), b, t), Poke(Poke(m, b, t), a, s));
  }

  function Get64(m: Ram, a: int): bv64
    requires InRam(m, a, 8)
  {
    Word64(Peek(m, a, 8))
  }

  function GetNat(m: Ram, a: int, w: nat): nat
    requires InRam(m, a, w)
  {
    Nat(Peek(m, a, w))
  }

  // ---------------------------------------------------------------- RAM in place

  // A region backed by host bytes.
  class RamBank {
    const base: nat
    const data: array<bv8>

    constructor (base: nat, size: nat)
      ensures this.base == base && data.Length == size && fresh(data)
      ensures View() == Ram(base, seq(size, _ => 0))
    {
      this.base := base;
      data := new bv8[size](_ => 0);
    }

    ghost function View(): (m: Ram)
      reads this, data
    {
      Ram(base, data[..])
    }

    // default_read and mem_read_buf: copy n host bytes out.
    method Read(a: nat, n: nat) returns (s: seq<bv8>)
      requires InRam(View(), a, n)
      ensures s == Peek(View(), a, n)
    {
      s := data[a - base..a - base + n];
    }

    // default_write and mem_write_buf: copy host bytes in.
    method Write(a: nat, s: seq<bv8>)
      requires InRam(View(), a, |s|)
      modifies data
      ensures View() == Poke(old(View()), a, s)
    {
      forall k | 0 <= k < |s| {
        data[a - base + k] := s[k];
      }
      SameBytes(View(), Poke(old(View()), a, s));
    }
  }

  // ---------------------------------------------------------------- Region dispatch

  const MAX_REGIONS: nat := 8

  // bank is null for a device, whose accesses go to its handlers.
  datatype Region = Region(base: nat, size: nat, bank: RamBank?)

  // The test the dispatcher makes, in 64-bit arithmetic that wraps.
  predicate Matches(base: nat, size: nat, a: nat, n: nat) {
    a >= base && (a + n) % TWO_64 <= (base + size) % TWO_64
  }

  predicate Inside(base: nat, size: nat, a: nat, n: nat) {
    base <= a && a + n <= base + size
  }

  /** The dispatch test means containment exactly when the access does not wrap around the
      address space onto the low side of the region's end. */
  lemma MatchesIffInside(base: nat, size: nat, a: nat, n: nat)
    requires base + size < TWO_64 && a < TWO_64 && n < TWO_64
    ensures (Matches(base, size, a, n) <==> Inside(base, size, a, n))
       <==> !(base <= a && TWO_64 <= a + n <= TWO_64 + base + size)
  {
    assert (base + size) % TWO_64 == base + size;
    if a + n < TWO_64 {
      assert (a + n) % TWO_64 == a + n;
    } else {
      assert (a + n) % TWO_64 == a + n - TWO_64;
    }
  }

  // An 8-byte access at the top of the address space is accepted by RAM at 2 GiB.
  lemma WrappedAccessMatches()
    ensures Matches(0x8000_0000, 0x1000_0000, TWO_64 - 4, 8) && !Inside(0x8000_0000, 0x1000_0000, TWO_64 - 4, 8)
  {
  }

  predicate Hits(rs: seq<Region>, i: nat, a: nat, n: nat)
    requires i < |rs|
  {
    Matches(rs[i].base, rs[i].size, a, n)
  }

  class RegionTable {
    const regions: array<Region>
    var count: nat

    constructor ()
      ensures Valid() && Table() == [] && fresh(regions)
    {
      regions := new Region[MAX_REGIONS](_ => Region(0, 0, null));
      count := 0;
    }

    ghost predicate Valid()
      reads this
    {
      count <= regions.Length == MAX_REGIONS
    }

    ghost function Table(): (rs: seq<Region>)
      requires Valid()
      reads this, regions
    {
      regions[..count]
    }

    method AddRegion(r: Region) returns (ok: bool)
      requires Valid()
      modifies this, regions
      ensures Valid()
      ensures ok == (|old(Table())| < MAX_REGIONS)
      ensures Table() == if ok then old(Table()) + [r] else old(Table())
    {
      ok := count < MAX_REGIONS;
      if ok {
        regions[count] := r;
        count := count + 1;
      }
    }

    // The first region, in order of registration, that accepts the access; None is exit(1).
    method FindRegion(a: nat, n: nat) returns (r: Option<nat>)
      requires Valid()
      ensures r.Some? ==> r.value < |Table()| && Hits(Table(), r.value, a, n)
      ensures forall j :: 0 <= j < (if r.Some? then r.value else |Table()|) ==> !Hits(Table(), j, a, n)
    {
      var i := 0;
      while i < count
        invariant i <= count
        invariant forall j :: 0 <= j < i ==> !Hits(Table(), j, a, n)
      {
        var m := regions[i];
        if a >= m.base && (a + n) % TWO_64 <= (m.base + m.size) % TWO_64 {
          return Some(i);
        }
        i := i + 1;
      }
      return None;
    }
  }
}

/** The board as the program assembles it: five regions in a table, and what dispatching an
    access through that table has to do with the windows the machine's step goes by. */
module Board {
  import opened Words
  import opened Memory
  import opened Machine

  const RAM_BASE: nat := 0x8000_0000
  const RAM_SIZE: nat := 0x1000_0000

  // What answers an access.
  datatype Target = RamBytes | Console | Controller | Disk | Timer

  // The order of registration.
  function Targets(): seq<Target> {
    [RamBytes, Console, Controller, Disk, Timer]
  }

  function Rank(t: Target): (i: nat)
    ensures i < |Targets()| && Targets()[i] == t && forall j :: 0 <= j < |Targets()| && Targets()[j] == t ==> j == i
  {
    match t
    case RamBytes => 0
    case Console => 1
    case Controller => 2
    case Disk => 3
    case Timer => 4
  }

  function Base(t: Target): nat {
    match t
    case RamBytes => RAM_BASE
    case Console => 0x1000_0000
    case Controller => 0x0C00_0000
    case Disk => 0x1000_1000
    case Timer => 0x0200_0000
  }

  function Size(t: Target): nat {
    match t
    case RamBytes => RAM_SIZE
    case Console => 8
    case Controller => 0x0400_0000
    case Disk => 0x1000
    case Timer => 0x1_0000
  }

  function Device(t: Target): Region {
    Region(Base(t), Size(t), null)
  }

  predicate Assembled(rs: seq<Region>) {
    && |rs| == |Targets()|
    && forall i {:trigger rs[i]} :: 0 <= i < |rs| ==>
         rs[i].base == Base(Targets()[i]) && rs[i].size == Size(Targets()[i])
  }

  // The windows of the machine's accesses, in the order PhysRead and PhysWrite try them.
  predicate Answering(m: Ram, a: nat, w: nat, t: Target) {
    match t
    case RamBytes => InRam(m, a, w)
    case Controller => !InRam(m, a, w) && !InOther(a, w) && InPlic(a, w)
    case Timer => !InRam(m, a, w) && !InOther(a, w) && !InPlic(a, w) && InClint(a, w)
    case _ => !InRam(m, a, w) && InOther(a, w) && Window(a, w, Base(t), Size(t))
  }

  // What FindRegion promises of its result.
  predicate FirstHit(rs: seq<Region>, r: Option<nat>, a: nat, w: nat) {
    && (r.Some? ==> r.value < |rs| && Hits(rs, r.value, a, w))
    && forall j :: 0 <= j < (if r.Some? then r.value else |rs|) ==> !Hits(rs, j, a, w)
  }

  predicate Agrees(m: Ram, r: Option<nat>, a: nat, w: nat) {
    forall i :: 0 <= i < |Targets()| ==> (r == Some(i) <==> Answering(m, a, w, Targets()[i]))
  }

  lemma HitsWindow(rs: seq<Region>, i: nat, a: nat, w: nat)
    requires Assembled(rs) && i < |rs| && a < TWO_64 && 1 <= w <= 8
    ensures Hits(rs, i, a, w) <==> Window(a, w, Base(Targets()[i]), Size(Targets()[i])) || a + w >= TWO_64
  {
    MatchesIffInside(rs[i].base, rs[i].size, a, w);
  }

  lemma OneWindow(a: nat, w: nat, t: Target, u: Target)
    requires w >= 1 && Window(a, w, Base(t), Size(t)) && Window(a, w, Base(u), Size(u))
    ensures t == u
  {
  }

  /** Dispatch through the table reaches the RAM or device whose window holds the access, or
      none when none does, if and only if the access does not run past the top of the address
      space. One that does is taken for RAM, which lies far below. */
  lemma DispatchExactly(rs: seq<Region>, m: Ram, a: nat, w: nat, r: Option<nat>)
    requires Assembled(rs) && m.base == RAM_BASE && |m.bytes| == RAM_SIZE
    requires a < TWO_64 && 1 <= w <= 8 && FirstHit(rs, r, a, w)
    ensures Agrees(m, r, a, w) <==> a + w < TWO_64
    ensures a + w >= TWO_64 ==> r == Some(0) && !InRam(m, a, w)
  {
    hide Hits;
    forall i | 0 <= i < |rs|
      ensures Hits(rs, i, a, w) <==> Window(a, w, Base(Targets()[i]), Size(Targets()[i])) || a + w >= TWO_64
    {
      HitsWindow(rs, i, a, w);
    }
    if a + w >= TWO_64 {
      assert Hits(rs, 0, a, w);
      assert !Answering(m, a, w, Targets()[0]);
    } else {
      forall i | 0 <= i < |rs| ensures r == Some(i) <==> Answering(m, a, w, Targets()[i]) {
        if r.Some? && Window(a, w, Base(Targets()[i]), Size(Targets()[i])) {
          OneWindow(a, w, Targets()[r.value], Targets()[i]);
        }
      }
    }
  }

  // ---------------------------------------------------------------- Assembly

  // The regions that start-up registers, in order.
  function Registered(bank: RamBank?): (rs: seq<Region>)
    ensures Assembled(rs) && rs[0].bank == bank
  {
    [] + [Region(RAM_BASE, RAM_SIZE, bank)]
    + [Device(Console)] + [Device(Controller)] + [Device(Disk)] + [Device(Timer)]
  }

  /** Start-up: every registration is accepted. */
  method Assemble(bank: RamBank) returns (t: RegionTable)
    requires bank.base == RAM_BASE && bank.data.Length == RAM_SIZE
    ensures fresh(t) && fresh(t.regions) && t.Valid()
    ensures Assembled(t.Table()) && t.Table()[0].bank == bank
  {
    hide Base, Size, Device, Assembled;
    t := new RegionTable();
    var ok := t.AddRegion(Region(RAM_BASE, RAM_SIZE, bank));
    ok := t.AddRegion(Device(Console));
    ok := t.AddRegion(Device(Controller));
    ok := t.AddRegion(Device(Disk));
    ok := t.AddRegion(Device(Timer));
    assert t.Table() == Registered(bank);
  }

  /** Dispatch in place. */
  method Dispatch(t: RegionTable, m: Ram, a: nat, w: nat) returns (target: Option<Target>)
    requires t.Valid() && Assembled(t.Table()) && m.base == RAM_BASE && |m.bytes| == RAM_SIZE
    requires a < TWO_64 && 1 <= w <= 8
    ensures a + w < TWO_64 ==> forall u :: target == Some(u) <==> Answering(m, a, w, u)
    ensures a + w >= TWO_64 ==> target == Some(RamBytes)
  {
    var r := t.FindRegion(a, w);
    DispatchExactly(t.Table(), m, a, w, r);
    target := if r.None? then None else Some(Targets()[r.value]);
    forall u | a + w < TWO_64 ensures target == Some(u) <==> Answering(m, a, w, u) {
      var i := Rank(u);
      assert Targets()[i] == u;
    }
  }
}

/** The block device by bytes: where the ring, the descriptors and the header hold what, what
    the device does for each request type, and the register map of its slot. */
module RequestBytes {
  import opened Words
  import opened Memory
  import opened Virtqueue
  import opened Block
  import S = VirtioSlot

  // ---------------------------------------------------------------- Rings

  // The index of a ring is the 16-bit number at byte 2.
  function IndexAt(m: Ram, base: nat): nat
    requires InRam(m, base, 4)
  {
    GetNat(m, base + 2, 2)
  }

  /** The rings by bytes: the device has work when its cursor is not the number at byte 2 of the
      available ring; the next head is the 16-bit number at byte 4 + 2 * (cursor mod size); and
      posting writes 8 bytes at 4 + 8 * (index mod size) of the used ring, then the index plus
      one, modulo 2^16, at byte 2. */
  lemma RingsByBytes(m: Ram, base: nat, size: nat, cursor: nat, entry: seq<bv8>)
    requires RingInRam(m, Used, base, size) && cursor < 0x1_0000 && |entry| == 8
    ensures HasNext(m, base, cursor) <==> cursor != IndexAt(m, base)
    ensures base + 4 + 2 * (cursor % size) + 2 <= base + 4 + 2 * size
    ensures HeadAt(m, base, size, cursor) == GetNat(m, base + 4 + 2 * (cursor % size), 2)
    ensures InRam(m, base + 4 + 8 * (IndexAt(m, base) % size), 8)
    ensures var m1 := Poke(m, base + 4 + 8 * (IndexAt(m, base) % size), entry);
            Push(m, Used, base, size, entry) == Poke(m1, base + 2, Bytes((IndexAt(m, base) + 1) % 0x1_0000, 2))
  {
    hide Nat, Bytes, Poke, Peek;
    SmallMod(cursor, WRAP);
    SmallMod(Idx(m, base), WRAP);
    PushIs(m, Used, base, size, entry);
  }

  // ---------------------------------------------------------------- Chains

  // Descriptor i: address in bytes 0 to 7, length in 8 to 11, next in 14 and 15.
  predicate DescriptorInRam(m: Ram, table: nat, i: nat) {
    InRam(m, table + 16 * i, 16)
  }

  function AddressOf(m: Ram, table: nat, i: nat): nat
    requires DescriptorInRam(m, table, i)
  {
    GetNat(m, table + 16 * i, 8)
  }

  function LengthOf(m: Ram, table: nat, i: nat): nat
    requires DescriptorInRam(m, table, i)
  {
    GetNat(m, table + 16 * i + 8, 4)
  }

  function NextOf(m: Ram, table: nat, i: nat): nat
    requires DescriptorInRam(m, table, i)
  {
    GetNat(m, table + 16 * i + 14, 2)
  }

  // The head's descriptor, the next and the one after that are in RAM, and so is the header.
  predicate ChainInRam(m: Ram, table: nat, head: nat) {
    && DescriptorInRam(m, table, head)
    && DescriptorInRam(m, table, NextOf(m, table, head))
    && DescriptorInRam(m, table, NextOf(m, table, NextOf(m, table, head)))
    && InRam(m, AddressOf(m, table, head), 16)
  }

  lemma DescriptorByBytes(m: Ram, table: nat, i: nat)
    requires DescriptorInRam(m, table, i)
    ensures Has(m, DescRange(table, i))
    ensures var d := ReadDesc(m, table, i);
            d.addr == AddressOf(m, table, i) && d.len == LengthOf(m, table, i) && d.next == NextOf(m, table, i)
  {
    hide Nat;
    var a := table + 16 * i;
    var s := Peek(m, a, 16);
    assert s[..8] == Peek(m, a, 8) && s[8..12] == Peek(m, a + 8, 4) && s[14..16] == Peek(m, a + 14, 2);
  }

  // What a chain asks for: the header's type and sector, the second descriptor's buffer, and
  // where the third wants the status.
  datatype Asked = Asked(kind: nat, sector: nat, data: nat, len: nat, status: nat)

  function Ask(m: Ram, table: nat, head: nat): Asked
    requires ChainInRam(m, table, head)
  {
    var header, second := AddressOf(m, table, head), NextOf(m, table, head);
    Asked(GetNat(m, header, 4), GetNat(m, header + 8, 8), AddressOf(m, table, second), LengthOf(m, table, second),
          AddressOf(m, table, NextOf(m, table, second)))
  }

  lemma ChainByBytes(m: Ram, table: nat, head: nat)
    requires ChainInRam(m, table, head)
    ensures Parses(m, table, head)
    ensures var q := Ask(m, table, head); Parse(m, table, head) == Request(q.kind, q.sector, q.data, q.len, q.status)
  {
    hide Nat, ReadDesc, AddressOf, NextOf, LengthOf, Peek;
    var second := NextOf(m, table, head);
    DescriptorByBytes(m, table, head);
    DescriptorByBytes(m, table, second);
    DescriptorByBytes(m, table, NextOf(m, table, second));
    HeaderByBytes(m, AddressOf(m, table, head));
  }

  lemma HeaderByBytes(m: Ram, a: nat)
    requires InRam(m, a, 16)
    ensures Nat(Peek(m, a, 16)[..4]) == GetNat(m, a, 4) && Nat(Peek(m, a, 16)[8..16]) == GetNat(m, a + 8, 8)
  {
    hide Nat;
    assert Peek(m, a, 16)[..4] == Peek(m, a, 4) && Peek(m, a, 16)[8..16] == Peek(m, a + 8, 8);
  }

  // ---------------------------------------------------------------- Requests

  // The identity: "tinyvm-blk" and its terminating zero.
  const NAME: seq<bv8> := [0x74, 0x69, 0x6E, 0x79, 0x76, 0x6D, 0x2D, 0x62, 0x6C, 0x6B, 0x00]

  function Least(a: nat, b: nat): nat { if a < b then a else b }

  function At512(q: Asked): nat { q.sector * 512 % TWO_64 }

  // The bytes that a transfer of type 0 or 1 moved.
  function Count(q: Asked, o: Outcome): nat {
    if o.Done? then q.len else o.after
  }

  // A request is well placed: what it moves lies in RAM, and a read lies within the image.
  predicate Placed(d: Device, q: Asked, o: Outcome) {
    && InRam(d.ram, q.status, 1)
    && (q.kind == 0 || q.kind == 1 ==> Reachable(d.ram, q.data, q.len))
    && (q.kind == 0 ==> At512(q) + q.len <= |d.disk|)
    && (q.kind == 8 ==> Reachable(d.ram, q.data, Least(11, q.len)))
    && (o.Broke? ==> (q.kind == 0 || q.kind == 1) && o.after < q.len)
  }

  function PutBytes(d: Device, q: Asked, o: Outcome): seq<bv8>
    requires Placed(d, q, o)
  {
    if q.kind == 0 then d.disk[At512(q)..At512(q) + Count(q, o)]
    else if q.kind == 8 then NAME[..Least(11, q.len)]
    else []
  }

  function DiskAfter(d: Device, q: Asked, o: Outcome): seq<bv8>
    requires Placed(d, q, o)
  {
    if q.kind == 1 then DiskPut(d.disk, At512(q), Get(d.ram, q.data, Count(q, o))) else d.disk
  }

  function Verdict(q: Asked, o: Outcome): bv8 {
    if o.Done? && (q.kind == 0 || q.kind == 1 || q.kind == 8) then 0 else 1
  }

  function MemoryAfter(d: Device, q: Asked, o: Outcome): (m: Ram)
    requires Placed(d, q, o)
    ensures SameShape(d.ram, m)
  {
    Poke(Put(d.ram, q.data, PutBytes(d, q, o)), q.status, [Verdict(q, o)])
  }

  function AsRequest(q: Asked): Request {
    Request(q.kind, q.sector, q.data, q.len, q.status)
  }

  lemma Allowed(d: Device, q: Asked, o: Outcome)
    requires Placed(d, q, o)
    ensures Fits(d, AsRequest(q)) && Possible(AsRequest(q), o)
  {
    SectorBytes(AsRequest(q), q);
    hide Offset, At512;
  }

  function DeviceAfter(d: Device, l: Layout, head: nat, q: Asked, o: Outcome): Device
    requires Placed(d, q, o) && RingInRam(d.ram, Used, l.used, l.usedSize)
  {
    var m := MemoryAfter(d, q, o);
    Device(Push(m, Used, l.used, l.usedSize, Bytes(head, 4) + [0, 0, 0, 0]), DiskAfter(d, q, o))
  }

  /** A request by bytes: type 0 puts image bytes from 512 * sector in the buffer, type 1 puts
      the buffer in the image there, type 8 puts the identity in the buffer, any other type
      nothing anywhere; then the status byte, 0 for a finished type 0, 1 or 8 and 1 otherwise;
      then the head, four bytes, and four zeros in the used ring. */
  lemma RequestByBytes(d: Device, l: Layout, head: nat, q: Asked, o: Outcome)
    requires ChainInRam(d.ram, l.desc, head) && q == Ask(d.ram, l.desc, head)
    requires RingInRam(d.ram, Used, l.used, l.usedSize) && Placed(d, q, o)
    ensures Parses(d.ram, l.desc, head) && Parse(d.ram, l.desc, head) == AsRequest(q)
    ensures Fits(d, AsRequest(q)) && Possible(AsRequest(q), o)
    ensures Handled(d, l, AsRequest(q), o, head) == DeviceAfter(d, l, head, q, o)
  {
    hide Push, Poke, Put, Get, DiskPut, Parse, Parses, Ask, Bytes, ChainInRam;
    ChainByBytes(d.ram, l.desc, head);
    Allowed(d, q, o);
    FourZeros();
    SectorBytes(AsRequest(q), q);
  }

  // Where the status byte and the used ring lie elsewhere, a finished read leaves in the buffer
  // what the image holds there, and a finished write the other way round.
  lemma ReadLeaves(d: Device, l: Layout, head: nat, q: Asked)
    requires ChainInRam(d.ram, l.desc, head) && q == Ask(d.ram, l.desc, head) && q.kind == 0 && q.len > 0
    requires RingInRam(d.ram, Used, l.used, l.usedSize) && Placed(d, q, Done)
    requires Apart(q.status, 1, q.data, q.len) && Apart(l.used, 4 + 8 * l.usedSize, q.data, q.len)
    ensures Fits(d, AsRequest(q))
    ensures var d' := Handled(d, l, AsRequest(q), Done, head);
            Peek(d'.ram, q.data, q.len) == d.disk[At512(q)..At512(q) + q.len] && d'.disk == d.disk
  {
    hide Push, Poke, Peek, Put, Get, DiskPut, Parse, Parses, Ask, Bytes, ChainInRam, At512;
    RequestByBytes(d, l, head, q, Done);
    var s := PutBytes(d, q, Done);
    var m := Put(d.ram, q.data, s);
    PutIs(d.ram, q.data, s);
    PeekPoke(d.ram, q.data, s, q.data, q.len);
    PeekPoke(m, q.status, [Verdict(q, Done)], q.data, q.len);
    PushFrame(MemoryAfter(d, q, Done), Used, l.used, l.usedSize, Bytes(head, 4) + [0, 0, 0, 0], q.data, q.len);
  }

  lemma PutIs(m: Ram, a: nat, s: seq<bv8>)
    requires s != [] && InRam(m, a, |s|)
    ensures Put(m, a, s) == Poke(m, a, s)
  {
  }

  lemma WriteLeaves(d: Device, l: Layout, head: nat, q: Asked)
    requires ChainInRam(d.ram, l.desc, head) && q == Ask(d.ram, l.desc, head) && q.kind == 1 && q.len > 0
    requires RingInRam(d.ram, Used, l.used, l.usedSize) && Placed(d, q, Done)
    ensures Fits(d, AsRequest(q))
    ensures var d', off := Handled(d, l, AsRequest(q), Done, head), At512(q);
            && off + q.len <= |d'.disk| && d'.disk[off..off + q.len] == Peek(d.ram, q.data, q.len)
            && |d'.disk| >= |d.disk|
            && forall k :: 0 <= k < |d.disk| && !(off <= k < off + q.len) ==> d'.disk[k] == d.disk[k]
  {
    hide Push, Poke, Peek, Put, DiskPut, Parse, Parses, Ask, Bytes, ChainInRam, At512;
    RequestByBytes(d, l, head, q, Done);
    DiskPutBack(d.disk, At512(q), Get(d.ram, q.data, q.len));
  }

  lemma FourZeros()
    ensures Bytes(0, 4) == [0, 0, 0, 0]
  {
    assert (0 as bv8) == 0;
    assert Bytes(0, 0) == [] && Bytes(0, 1) == [0] && Bytes(0, 2) == [0, 0] && Bytes(0, 3) == [0, 0, 0];
  }

  lemma SectorBytes(r: Request, q: Asked)
    requires r.sector == q.sector
    ensures Offset(r) == At512(q) && NAME == ID
  {
  }

  // ---------------------------------------------------------------- Registers

  function Joined(low: nat, high: nat): nat { low % TWO_32 + TWO_32 * (high % TWO_32) }

  lemma HalvesJoin(addr: nat, low: nat, high: nat)
    ensures S.WithHigh(S.WithLow(addr, low), high) == Joined(low, high)
  {
    S.HalvesSpellAddress(addr, low % TWO_32, high % TWO_32);
    SmallMod(low % TWO_32, TWO_32);
    SmallMod(high % TWO_32, TWO_32);
  }

  /** The register map of a slot: where a driver writes the two halves of the descriptor table's
      address and of the two rings', their size, the ready flag, the acknowledgement and the
      status. */
  lemma RegisterMap(s: S.Registers, low: nat, high: nat)
    ensures S.Written(S.Written(s, 0x80, low), 0x84, high) == s.(desc := Joined(low, high))
    ensures S.Written(S.Written(s, 0x90, low), 0x94, high) == s.(avail := s.avail.(base := Joined(low, high)))
    ensures S.Written(S.Written(s, 0xA0, low), 0xA4, high) == s.(used := s.used.(base := Joined(low, high)))
    ensures S.Written(s, 0x30, low) == s.(queueSel := low % TWO_32)
    ensures S.Written(s, 0x38, low)
         == if s.queueSel != 0 then s
            else s.(avail := s.avail.(size := low % 0x1_0000), used := s.used.(size := low % 0x1_0000))
    ensures S.Written(s, 0x44, low) == if s.queueSel != 0 then s else s.(ready := low != 0)
    ensures low != 0 ==> S.Written(s, 0x70, low) == s.(status := low % TWO_32)
    ensures S.Written(s, 0x14, low) == s.(deviceFeaturesSel := low % TWO_32)
    ensures S.Written(s, 0x24, low) == s.(driverFeaturesSel := low % TWO_32)
  {
    hide S.WithLow, S.WithHigh;
    HalvesJoin(s.desc, low, high);
    HalvesJoin(s.avail.base, low, high);
    HalvesJoin(s.used.base, low, high);
  }

  // Acknowledging clears the bits given.
  lemma Acknowledge(s: S.Registers, low: nat)
    ensures S.Written(s, 0x64, low) == s.(interrupts := s.interrupts & !((low % TWO_32) as bv32))
  {
  }

  // A status of 0 resets the queue and drops the interrupt.
  lemma Reset(s: S.Registers)
    ensures S.Written(s, 0x70, 0)
         == s.(desc := 0, avail := S.Ring(0, 0, 0), used := S.Ring(0, 0, 0), ready := false, status := 0,
               interrupts := 0)
  {
  }
}

/** The block device: requests read from descriptor chains, served against the disk image, and
    the notify loop as a sequential device over the requests that were waiting. */
module Block {
  import opened Words
  import opened Memory
  import opened Virtqueue
  import S = VirtioSlot
  import Plic

  // ---------------------------------------------------------------- Disk and buffers

  // The size of an image after n bytes were written at a given offset.
  function SizeAfter(size: nat, at: nat, n: nat): nat {
    if n > 0 && at + n > size then at + n else size
  }

  // A disk image grows, zero-filled, when written past its end.
  function DiskPut(disk: seq<bv8>, at: nat, s: seq<bv8>): (d: seq<bv8>)
    ensures |d| == SizeAfter(|disk|, at, |s|)
    ensures forall i {:trigger d[i]} :: 0 <= i < |d| ==> d[i] == DiskByte(disk, at, s, i)
  {
    seq(SizeAfter(|disk|, at, |s|), i requires i >= 0 => DiskByte(disk, at, s, i))
  }

  function DiskByte(disk: seq<bv8>, at: nat, s: seq<bv8>, i: nat): bv8 {
    if at <= i < at + |s| then s[i - at] else if i < |disk| then disk[i] else 0
  }

  // Two adjacent writes are one.
  lemma DiskPutAdjacent(disk: seq<bv8>, at: nat, s: seq<bv8>, t: seq<bv8>)
    ensures DiskPut(DiskPut(disk, at, s), at + |s|, t) == DiskPut(disk, at, s + t)
  {
    hide DiskPut;
    var d, e := DiskPut(DiskPut(disk, at, s), at + |s|, t), DiskPut(disk, at, s + t);
    forall i | 0 <= i < |d| ensures d[i] == e[i] {
      var inner := DiskPut(disk, at, s);
      assert i < |inner| ==> inner[i] == DiskByte(disk, at, s, i);
    }
  }

  // A read of the range just written finds what was written.
  lemma DiskPutBack(disk: seq<bv8>, at: nat, s: seq<bv8>)
    requires s != []
    ensures at + |s| <= |DiskPut(disk, at, s)| && DiskPut(disk, at, s)[at..at + |s|] == s
  {
    hide DiskPut;
    var d := DiskPut(disk, at, s);
    assert forall i :: 0 <= i < |s| ==> d[at + i] == s[i];
  }

  // Bytes of the image; none of it lie anywhere.
  function Slice(disk: seq<bv8>, at: nat, n: nat): (s: seq<bv8>)
    requires n > 0 ==> at + n <= |disk|
    ensures |s| == n
  {
    if n == 0 then [] else disk[at..at + n]
  }

  // How much of an image of a given size lies from an offset on.
  function Rest(size: nat, at: nat): nat {
    if at < size then size - at else 0
  }

  lemma SliceMore(disk: seq<bv8>, at: nat, n: nat, k: nat)
    requires at + n + k <= |disk|
    ensures Slice(disk, at, n + k) == Slice(disk, at, n) + Slice(disk, at + n, k)
  {
  }

  // From here on an offset is negative as a signed 64-bit number.
  const NEGATIVE: nat := 0x8000_0000_0000_0000

  // Copies of no bytes touch nothing, wherever they point.
  predicate Reachable(m: Ram, a: nat, n: nat) {
    n == 0 || InRam(m, a, n)
  }

  function Put(m: Ram, a: nat, s: seq<bv8>): (m': Ram)
    requires Reachable(m, a, |s|)
    ensures SameShape(m, m')
  {
    if s == [] then m else Poke(m, a, s)
  }

  function Get(m: Ram, a: nat, n: nat): (s: seq<bv8>)
    requires Reachable(m, a, n)
    ensures |s| == n
  {
    if n == 0 then [] else Peek(m, a, n)
  }

  predicate Off(a: nat, n: nat, b: nat, k: nat) {
    n == 0 || k == 0 || Apart(a, n, b, k)
  }

  lemma PutAdjacent(m: Ram, a: nat, s: seq<bv8>, t: seq<bv8>)
    requires Reachable(m, a, |s| + |t|)
    ensures Put(Put(m, a, s), a + |s|, t) == Put(m, a, s + t)
  {
    if s == [] {
      assert s + t == t;
    } else if t == [] {
      assert s + t == s;
    } else {
      PokeAdjacent(m, a, s, t);
    }
  }

  lemma PutFrame(m: Ram, a: nat, s: seq<bv8>, b: nat, n: nat)
    requires Reachable(m, a, |s|) && Reachable(m, b, n) && Off(a, |s|, b, n)
    ensures Get(Put(m, a, s), b, n) == Get(m, b, n)
  {
    if s != [] && n != 0 {
      PeekPoke(m, a, s, b, n);
    }
  }

  // ---------------------------------------------------------------- Requests

  datatype Desc = Desc(addr: nat, len: nat, flags: nat, next: nat)

  datatype Range = Range(at: nat, n: nat)

  function DescRange(base: nat, i: nat): Range {
    Range(base + 16 * i, 16)
  }

  predicate Has(m: Ram, p: Range) {
    InRam(m, p.at, p.n)
  }

  // vq_desc_read.
  function ReadDesc(m: Ram, base: nat, i: nat): Desc
    requires Has(m, DescRange(base, i))
  {
    var s := Peek(m, base + 16 * i, 16);
    Desc(Nat(s[..8]), Nat(s[8..12]), Nat(s[12..14]), Nat(s[14..16]))
  }

  const T_IN: nat := 0
  const T_OUT: nat := 1
  const T_GET_ID: nat := 8

  const S_OK: bv8 := 0
  const S_IOERR: bv8 := 1

  datatype Request = Request(kind: nat, sector: nat, data: nat, len: nat, status: nat)

  // A chain of three descriptors, header, data and status, all in RAM.
  predicate Parses(m: Ram, base: nat, head: nat) {
    && Has(m, DescRange(base, head))
    && var hdr := ReadDesc(m, base, head);
       && Has(m, DescRange(base, hdr.next))
       && Has(m, DescRange(base, ReadDesc(m, base, hdr.next).next))
       && Has(m, Range(hdr.addr, 16))
  }

  function Parse(m: Ram, base: nat, head: nat): Request
    requires Parses(m, base, head)
  {
    var hdr := ReadDesc(m, base, head);
    var data := ReadDesc(m, base, hdr.next);
    var status := ReadDesc(m, base, data.next);
    var h := Peek(m, hdr.addr, 16);
    Request(Nat(h[..4]), Nat(h[8..16]), data.addr, data.len, status.addr)
  }

  // The memory a request is read from.
  function Sources(m: Ram, base: nat, head: nat): seq<Range>
    requires Parses(m, base, head)
  {
    var hdr := ReadDesc(m, base, head);
    var data := ReadDesc(m, base, hdr.next);
    [DescRange(base, head), DescRange(base, hdr.next), DescRange(base, data.next), Range(hdr.addr, 16)]
  }

  predicate SameIn(m: Ram, m': Ram, ps: seq<Range>)
    requires SameShape(m, m')
  {
    forall p <- ps :: Has(m, p) ==> Peek(m', p.at, p.n) == Peek(m, p.at, p.n)
  }

  // A request reads the same wherever its sources are untouched.
  lemma ParseFrame(m: Ram, m': Ram, base: nat, head: nat)
    requires SameShape(m, m') && Parses(m, base, head) && SameIn(m, m', Sources(m, base, head))
    ensures Parses(m', base, head) && Parse(m', base, head) == Parse(m, base, head)
  {
    hide Nat, At;
    var ps := Sources(m, base, head);
    assert ps[0] in ps && ps[1] in ps && ps[2] in ps && ps[3] in ps;
  }

  // ---------------------------------------------------------------- Serving one request

  datatype Device = Device(ram: Ram, disk: seq<bv8>)

  // How the host's transfers for a request ended: all bytes moved, or an error after some.
  datatype Outcome = Done | Broke(after: nat)

  const ID: seq<bv8> := [0x74, 0x69, 0x6E, 0x79, 0x76, 0x6D, 0x2D, 0x62, 0x6C, 0x6B, 0]

  // The byte offset, in 64 bits.
  function Offset(r: Request): nat {
    r.sector * 512 % TWO_64
  }

  function Min(a: nat, b: nat): nat {
    if a < b then a else b
  }

  // The bytes of the data buffer that a request reads or writes, and those it writes.
  function Buffer(r: Request): nat {
    if r.kind == T_IN || r.kind == T_OUT then r.len else if r.kind == T_GET_ID then Min(|ID|, r.len) else 0
  }

  function Written(r: Request): nat {
    if r.kind == T_OUT then 0 else Buffer(r)
  }

  // Buffers lie in RAM, and reads within the disk.
  predicate Fits(d: Device, r: Request) {
    && Reachable(d.ram, r.data, Buffer(r)) && InRam(d.ram, r.status, 1)
    && (r.kind == T_IN ==> Offset(r) + r.len <= |d.disk|)
  }

  // An error interrupts a transfer only while bytes remain.
  predicate Possible(r: Request, o: Outcome) {
    o.Broke? ==> (r.kind == T_IN || r.kind == T_OUT) && o.after < r.len
  }

  function Moved(r: Request, o: Outcome): nat {
    if o.Done? then Buffer(r) else o.after
  }

  function Status(r: Request, o: Outcome): bv8 {
    if o.Done? && (r.kind == T_IN || r.kind == T_OUT || r.kind == T_GET_ID) then S_OK else S_IOERR
  }

  // The bytes a request puts in its data buffer.
  function Delivered(d: Device, r: Request, o: Outcome): (s: seq<bv8>)
    requires Fits(d, r) && Possible(r, o)
    ensures |s| <= Written(r)
  {
    if r.kind == T_IN then d.disk[Offset(r)..Offset(r) + Moved(r, o)]
    else if r.kind == T_GET_ID then ID[..Min(|ID|, r.len)]
    else []
  }

  // A sequential block device: move the bytes, then write the status.
  function Serve(d: Device, r: Request, o: Outcome): (d': Device)
    requires Fits(d, r) && Possible(r, o)
    ensures SameShape(d.ram, d'.ram) && |d'.disk| >= |d.disk|
  {
    Device(Poke(Put(d.ram, r.data, Delivered(d, r, o)), r.status, [Status(r, o)]),
           if r.kind == T_OUT then DiskPut(d.disk, Offset(r), Get(d.ram, r.data, Moved(r, o))) else d.disk)
  }

  // Serving touches only what the request writes.
  lemma ServeFrame(d: Device, r: Request, o: Outcome, b: nat, n: nat)
    requires Fits(d, r) && Possible(r, o) && InRam(d.ram, b, n)
    requires Off(r.data, Written(r), b, n) && Off(r.status, 1, b, n)
    ensures Peek(Serve(d, r, o).ram, b, n) == Peek(d.ram, b, n)
  {
    hide Offset, Status;
    var s := Delivered(d, r, o);
    var m := Put(d.ram, r.data, s);
    if n > 0 {
      PutFrame(d.ram, r.data, s, b, n);
      PeekPoke(m, r.status, [Status(r, o)], b, n);
    }
  }

  lemma SameOffset(r: Request, r': Request)
    requires r.sector == r'.sector
    ensures Offset(r) == Offset(r')
  {
  }

  /** What was written is read back: a successful OUT, then a successful IN of the same length
      at the same sector, delivers the bytes the OUT took from memory. */
  lemma WriteThenRead(d: Device, w: Request, r: Request)
    requires w.kind == T_OUT && r.kind == T_IN && w.sector == r.sector && w.len == r.len
    requires Fits(d, w) && Fits(Serve(d, w, Done), r) && Off(r.status, 1, r.data, r.len)
    ensures Get(Serve(Serve(d, w, Done), r, Done).ram, r.data, r.len) == Get(d.ram, w.data, w.len)
  {
    hide Offset, Status, DiskPut;
    var d1 := Serve(d, w, Done);
    if r.len > 0 {
      var s, at := Get(d.ram, w.data, w.len), Offset(w);
      DiskPutBack(d.disk, at, s);
      SameOffset(w, r);
      assert Delivered(d1, r, Done) == s;
      var m := Put(d1.ram, r.data, s);
      PeekPoke(d1.ram, r.data, s, r.data, r.len);
      PeekPoke(m, r.status, [Status(r, Done)], r.data, r.len);
    }
  }

  // ---------------------------------------------------------------- Serving many

  predicate AllFit(d: Device, rs: seq<Request>, os: seq<Outcome>) {
    |rs| == |os| && forall i :: 0 <= i < |rs| ==> Fits(d, rs[i]) && Possible(rs[i], os[i])
  }

  lemma FitsLater(d: Device, d': Device, r: Request)
    requires Fits(d, r) && SameShape(d.ram, d'.ram) && |d'.disk| >= |d.disk|
    ensures Fits(d', r)
  {
    hide Offset, Buffer;
  }

  // The device after serving the first n requests in order.
  function ServeAll(d: Device, rs: seq<Request>, os: seq<Outcome>, n: nat): (d': Device)
    requires n <= |rs| && AllFit(d, rs, os)
    ensures SameShape(d.ram, d'.ram) && |d'.disk| >= |d.disk|
  {
    if n == 0 then d
    else
      var p := ServeAll(d, rs, os, n - 1);
      FitsLater(d, p, rs[n - 1]);
      Serve(p, rs[n - 1], os[n - 1])
  }

  // A used entry: the head and a length of zero, four bytes each.
  function UsedEntry(head: nat): (s: seq<bv8>)
    ensures |s| == 8
  {
    Bytes(head, 4) + Bytes(0, 4)
  }

  // Memory after posting the first n heads.
  function PostAll(m: Ram, base: nat, size: nat, heads: seq<nat>, n: nat): (m': Ram)
    requires n <= |heads| && RingInRam(m, Used, base, size)
    ensures SameShape(m, m')
  {
    if n == 0 then m else Push(PostAll(m, base, size, heads, n - 1), Used, base, size, UsedEntry(heads[n - 1]))
  }

  // ---------------------------------------------------------------- Posting commutes

  lemma PushPoke(m: Ram, base: nat, size: nat, entry: seq<bv8>, a: nat, s: seq<bv8>)
    requires RingInRam(m, Used, base, size) && |entry| == 8
    requires InRam(m, a, |s|) && Apart(a, |s|, base, RingBytes(Used, size))
    ensures Push(Poke(m, a, s), Used, base, size, entry) == Poke(Push(m, Used, base, size, entry), a, s)
  {
    hide SlotOf, Peek, Poke;
    var m' := Poke(m, a, s);
    PeekPoke(m, a, s, base + 2, 2);
    assert Idx(m', base) == Idx(m, base);
    var i := Idx(m, base);
    var at, v := Cell(Used, base, size, i), Bytes((i + 1) % WRAP, 2);
    PokeCommute(m, a, s, at, entry);
    PokeCommute(Poke(m, at, entry), a, s, base + 2, v);
  }

  lemma PushPut(m: Ram, base: nat, size: nat, entry: seq<bv8>, a: nat, s: seq<bv8>)
    requires RingInRam(m, Used, base, size) && |entry| == 8
    requires Reachable(m, a, |s|) && Off(a, |s|, base, RingBytes(Used, size))
    ensures Push(Put(m, a, s), Used, base, size, entry) == Put(Push(m, Used, base, size, entry), a, s)
  {
    hide Push;
    if s != [] {
      PushPoke(m, base, size, entry, a, s);
    }
  }

  // The request stays off the used ring.
  predicate ClearOfUsed(r: Request, base: nat, size: nat) {
    Off(r.data, Buffer(r), base, RingBytes(Used, size)) && Off(r.status, 1, base, RingBytes(Used, size))
  }

  lemma ServeAfterPush(d: Device, r: Request, o: Outcome, base: nat, size: nat, entry: seq<bv8>)
    requires Fits(d, r) && Possible(r, o) && RingInRam(d.ram, Used, base, size) && |entry| == 8
    requires ClearOfUsed(r, base, size)
    ensures var d1 := Device(Push(d.ram, Used, base, size, entry), d.disk);
            && Fits(d1, r)
            && Serve(d1, r, o) == Device(Push(Serve(d, r, o).ram, Used, base, size, entry), Serve(d, r, o).disk)
  {
    hide Push, Offset, Status, DiskPut, Put;
    var d1 := Device(Push(d.ram, Used, base, size, entry), d.disk);
    FitsLater(d, d1, r);
    var s := Delivered(d, r, o);
    assert Delivered(d1, r, o) == s;
    SubRange(r.data, |s|, Buffer(r), base, RingBytes(Used, size));
    PushPut(d.ram, base, size, entry, r.data, s);
    PushPoke(Put(d.ram, r.data, s), base, size, entry, r.status, [Status(r, o)]);
    if r.kind == T_OUT && Moved(r, o) > 0 {
      PushFrame(d.ram, Used, base, size, entry, r.data, Moved(r, o));
    }
  }

  lemma SubRange(a: nat, n: nat, big: nat, b: nat, k: nat)
    requires Off(a, big, b, k) && n <= big
    ensures Off(a, n, b, k)
  {
  }

  lemma {:induction false} ServeAfterPosts(d: Device, r: Request, o: Outcome, base: nat, size: nat, heads: seq<nat>,
                                           n: nat)
    requires Fits(d, r) && Possible(r, o) && RingInRam(d.ram, Used, base, size) && n <= |heads|
    requires ClearOfUsed(r, base, size)
    ensures var d1 := Device(PostAll(d.ram, base, size, heads, n), d.disk);
            && Fits(d1, r)
            && Serve(d1, r, o) == Device(PostAll(Serve(d, r, o).ram, base, size, heads, n), Serve(d, r, o).disk)
  {
    hide Push, Serve, Fits, Possible, ClearOfUsed, UsedEntry;
    if n > 0 {
      ServeAfterPosts(d, r, o, base, size, heads, n - 1);
      var posted := PostAll(d.ram, base, size, heads, n - 1);
      ServeAfterPush(Device(posted, d.disk), r, o, base, size, UsedEntry(heads[n - 1]));
    }
  }

  // ---------------------------------------------------------------- Where things lie

  // The rings and the descriptor table.
  datatype Layout = Layout(desc: nat, avail: nat, availSize: nat, used: nat, usedSize: nat)

  function AvailRange(l: Layout): Range {
    Range(l.avail, RingBytes(Avail, l.availSize))
  }

  // What the request writes stays off all these ranges.
  predicate Spares(r: Request, ps: seq<Range>) {
    forall p <- ps :: Off(r.data, Written(r), p.at, p.n) && Off(r.status, 1, p.at, p.n)
  }

  predicate UsedSpares(l: Layout, ps: seq<Range>) {
    forall p <- ps :: Apart(p.at, p.n, l.used, RingBytes(Used, l.usedSize))
  }

  // The request at head i is well formed, and no request of the batch overwrites what it or
  // any other is read from.
  ghost predicate PlacedAt(d: Device, l: Layout, heads: seq<nat>, i: nat)
    requires i < |heads|
  {
    && Parses(d.ram, l.desc, heads[i])
    && var r := Parse(d.ram, l.desc, heads[i]);
       && Fits(d, r)
       && ClearOfUsed(r, l.used, l.usedSize)
       && Spares(r, [AvailRange(l)])
       && UsedSpares(l, Sources(d.ram, l.desc, heads[i]))
       && forall j :: 0 <= j < |heads| ==> SparesSources(d, l, r, heads[j])
  }

  predicate SparesSources(d: Device, l: Layout, r: Request, head: nat) {
    Parses(d.ram, l.desc, head) && Spares(r, Sources(d.ram, l.desc, head))
  }

  ghost predicate WellPlaced(d: Device, l: Layout, heads: seq<nat>) {
    && RingInRam(d.ram, Avail, l.avail, l.availSize) && RingInRam(d.ram, Used, l.used, l.usedSize)
    && UsedSpares(l, [AvailRange(l)])
    && AllParse(d.ram, l.desc, heads)
    && forall i :: 0 <= i < |heads| ==> PlacedAt(d, l, heads, i)
  }

  predicate AllParse(m: Ram, desc: nat, heads: seq<nat>) {
    forall i :: 0 <= i < |heads| ==> Parses(m, desc, heads[i])
  }

  // The requests of the batch, all read from the memory it started with.
  function Requests(m: Ram, desc: nat, heads: seq<nat>): (rs: seq<Request>)
    requires AllParse(m, desc, heads)
    ensures |rs| == |heads|
    ensures forall i :: 0 <= i < |heads| ==> rs[i] == Parse(m, desc, heads[i])
  {
    seq(|heads|, i requires 0 <= i < |heads| => Parse(m, desc, heads[i]))
  }

  // ---------------------------------------------------------------- Frames of a batch

  lemma {:induction false} ServeAllFrame(d: Device, rs: seq<Request>, os: seq<Outcome>, n: nat, p: Range)
    requires n <= |rs| && AllFit(d, rs, os) && Has(d.ram, p) && p.n > 0
    requires forall i :: 0 <= i < n ==> Spares(rs[i], [p])
    ensures Peek(ServeAll(d, rs, os, n).ram, p.at, p.n) == Peek(d.ram, p.at, p.n)
  {
    hide Serve, Fits, Possible, Peek, Off;
    if n > 0 {
      ServeAllFrame(d, rs, os, n - 1, p);
      var q := ServeAll(d, rs, os, n - 1);
      FitsLater(d, q, rs[n - 1]);
      assert Spares(rs[n - 1], [p]) && p in [p];
      ServeFrame(q, rs[n - 1], os[n - 1], p.at, p.n);
    }
  }

  lemma {:induction false} PostAllFrame(m: Ram, base: nat, size: nat, heads: seq<nat>, n: nat, p: Range)
    requires n <= |heads| && RingInRam(m, Used, base, size) && Has(m, p)
    requires Apart(p.at, p.n, base, RingBytes(Used, size))
    ensures Peek(PostAll(m, base, size, heads, n), p.at, p.n) == Peek(m, p.at, p.n)
  {
    hide Push, Peek, UsedEntry;
    if n > 0 {
      PostAllFrame(m, base, size, heads, n - 1, p);
      PushFrame(PostAll(m, base, size, heads, n - 1), Used, base, size, UsedEntry(heads[n - 1]), p.at, p.n);
    }
  }

  // A well-placed batch with a possible outcome for each request.
  ghost predicate Batch(d: Device, l: Layout, heads: seq<nat>, os: seq<Outcome>) {
    WellPlaced(d, l, heads) && AllFit(d, Requests(d.ram, l.desc, heads), os)
  }

  // The memory after n requests were served and posted.
  ghost function After(d: Device, l: Layout, heads: seq<nat>, os: seq<Outcome>, n: nat): (d': Device)
    requires Batch(d, l, heads, os) && n <= |heads|
    ensures SameShape(d.ram, d'.ram) && |d'.disk| >= |d.disk|
  {
    var s := ServeAll(d, Requests(d.ram, l.desc, heads), os, n);
    Device(PostAll(s.ram, l.used, l.usedSize, heads, n), s.disk)
  }

  lemma AfterSpares(d: Device, l: Layout, heads: seq<nat>, os: seq<Outcome>, n: nat, p: Range)
    requires Batch(d, l, heads, os) && n <= |heads|
    requires Has(d.ram, p) && p.n > 0 && UsedSpares(l, [p])
    requires forall i :: 0 <= i < |heads| ==> Spares(Requests(d.ram, l.desc, heads)[i], [p])
    ensures Peek(After(d, l, heads, os, n).ram, p.at, p.n) == Peek(d.ram, p.at, p.n)
  {
    hide Peek, PlacedAt, Fits, Possible, Spares, Parses, Parse;
    var rs := Requests(d.ram, l.desc, heads);
    ServeAllFrame(d, rs, os, n, p);
    assert p in [p];
    PostAllFrame(ServeAll(d, rs, os, n).ram, l.used, l.usedSize, heads, n, p);
  }

  // Part way through the batch, the ring and the next request still read as they did.
  lemma AfterRing(d: Device, l: Layout, heads: seq<nat>, os: seq<Outcome>, n: nat)
    requires Batch(d, l, heads, os) && n <= |heads|
    ensures var size := RingBytes(Avail, l.availSize);
            Peek(After(d, l, heads, os, n).ram, l.avail, size) == Peek(d.ram, l.avail, size)
  {
    hide Peek, Fits, Possible, Spares, Parses, Parse, Sources, After, UsedSpares, SparesSources, ClearOfUsed;
    forall i | 0 <= i < |heads| ensures Spares(Requests(d.ram, l.desc, heads)[i], [AvailRange(l)]) {
      assert PlacedAt(d, l, heads, i);
    }
    AfterSpares(d, l, heads, os, n, AvailRange(l));
  }

  lemma AfterSource(d: Device, l: Layout, heads: seq<nat>, os: seq<Outcome>, n: nat, k: nat)
    requires Batch(d, l, heads, os) && n <= |heads| && k < |heads|
    ensures Parses(After(d, l, heads, os, n).ram, l.desc, heads[k])
    ensures Parse(After(d, l, heads, os, n).ram, l.desc, heads[k]) == Parse(d.ram, l.desc, heads[k])
  {
    hide Peek, Fits, Possible, Parses, Parse, Sources, After, ClearOfUsed, Off, Apart;
    assert PlacedAt(d, l, heads, k);
    var ps := Sources(d.ram, l.desc, heads[k]);
    SourcesInRam(d.ram, l.desc, heads[k]);
    forall p | p in ps ensures Peek(After(d, l, heads, os, n).ram, p.at, p.n) == Peek(d.ram, p.at, p.n) {
      forall i | 0 <= i < |heads| ensures Spares(Requests(d.ram, l.desc, heads)[i], [p]) {
        assert PlacedAt(d, l, heads, i);
        assert SparesSources(d, l, Parse(d.ram, l.desc, heads[i]), heads[k]);
      }
      AfterSpares(d, l, heads, os, n, p);
    }
    ParseFrame(d.ram, After(d, l, heads, os, n).ram, l.desc, heads[k]);
  }

  lemma SourcesInRam(m: Ram, base: nat, head: nat)
    requires Parses(m, base, head)
    ensures forall p <- Sources(m, base, head) :: Has(m, p) && p.n > 0
  {
    hide ReadDesc;
  }

  // One request served and its head posted.
  function Handled(d: Device, l: Layout, r: Request, o: Outcome, head: nat): (d': Device)
    requires Fits(d, r) && Possible(r, o) && RingInRam(d.ram, Used, l.used, l.usedSize)
    ensures SameShape(d.ram, d'.ram)
  {
    var s := Serve(d, r, o);
    Device(Push(s.ram, Used, l.used, l.usedSize, UsedEntry(head)), s.disk)
  }

  // Serving and posting the next request is the next step of the batch.
  lemma AfterNext(d: Device, l: Layout, heads: seq<nat>, os: seq<Outcome>, n: nat)
    requires Batch(d, l, heads, os) && n < |heads|
    ensures var r, p := Parse(d.ram, l.desc, heads[n]), After(d, l, heads, os, n);
            Fits(p, r) && Possible(r, os[n]) && After(d, l, heads, os, n + 1) == Handled(p, l, r, os[n], heads[n])
  {
    hide Serve, Push, Peek, Fits, Possible, Parses, Parse, Sources, UsedEntry, Spares, UsedSpares, SparesSources;
    hide ClearOfUsed;
    assert PlacedAt(d, l, heads, n);
    var rs := Requests(d.ram, l.desc, heads);
    var s := ServeAll(d, rs, os, n);
    FitsLater(d, s, rs[n]);
    ServeAfterPosts(s, rs[n], os[n], l.used, l.usedSize, heads, n);
  }

  // Only the outcomes of the requests served so far matter.
  lemma {:induction false} OutcomesSoFar(d: Device, rs: seq<Request>, os: seq<Outcome>, os': seq<Outcome>, n: nat)
    requires AllFit(d, rs, os) && AllFit(d, rs, os') && n <= |rs| && os[..n] == os'[..n]
    ensures ServeAll(d, rs, os, n) == ServeAll(d, rs, os', n)
  {
    hide Serve, Fits, Possible;
    if n > 0 {
      assert os[..n - 1] == os[..n][..n - 1] && os[n - 1] == os[..n][n - 1];
      OutcomesSoFar(d, rs, os, os', n - 1);
    }
  }

  lemma SetOutcome(d: Device, l: Layout, heads: seq<nat>, os: seq<Outcome>, n: nat, o: Outcome)
    requires Batch(d, l, heads, os) && n < |heads| && Possible(Parse(d.ram, l.desc, heads[n]), o)
    ensures Batch(d, l, heads, os[n := o])
    ensures After(d, l, heads, os[n := o], n) == After(d, l, heads, os, n)
  {
    hide PlacedAt, Parses, Parse, Fits, Possible, ServeAll, PostAll;
    OutcomesSoFar(d, Requests(d.ram, l.desc, heads), os, os[n := o], n);
  }

  // Before anything happened, and with no errors at all, a well-placed batch is a batch.
  lemma NoErrors(d: Device, l: Layout, heads: seq<nat>)
    requires WellPlaced(d, l, heads)
    ensures Batch(d, l, heads, seq(|heads|, _ => Done))
    ensures After(d, l, heads, seq(|heads|, _ => Done), 0) == d
  {
    hide Parses, Parse, Fits, Spares, UsedSpares, SparesSources, ClearOfUsed, Sources;
    forall i | 0 <= i < |heads| ensures Fits(d, Requests(d.ram, l.desc, heads)[i]) {
      assert PlacedAt(d, l, heads, i);
    }
  }

  // ---------------------------------------------------------------- What was posted

  // The used index advances by the number of posts, modulo 2^16.
  lemma {:induction false} PostAllIdx(m: Ram, base: nat, size: nat, heads: seq<nat>, n: nat)
    requires n <= |heads| && RingInRam(m, Used, base, size)
    ensures Idx(PostAll(m, base, size, heads, n), base) == (Idx(m, base) + n) % WRAP
  {
    hide Push, Idx, UsedEntry;
    if n == 0 {
      SmallMod(Idx(m, base), WRAP);
    } else {
      PostAllIdx(m, base, size, heads, n - 1);
      PushCells(PostAll(m, base, size, heads, n - 1), Used, base, size, UsedEntry(heads[n - 1]), 0);
      WrapAdd(Idx(m, base) + n - 1, 1);
    }
  }

  function UsedEntries(heads: seq<nat>, n: nat): (s: seq<seq<bv8>>)
    requires n <= |heads|
    ensures |s| == n
  {
    if n == 0 then [] else UsedEntries(heads, n - 1) + [UsedEntry(heads[n - 1])]
  }

  /** The used ring ends up holding the heads in the order they were served, while no more
      than its size are posted and its size divides 2^16. */
  lemma {:induction false} PostAllHolds(m: Ram, base: nat, size: nat, heads: seq<nat>, n: nat)
    requires n <= |heads| && n <= size && RingInRam(m, Used, base, size) && WRAP % size == 0
    ensures Holds(PostAll(m, base, size, heads, n), Used, base, size, Idx(m, base), UsedEntries(heads, n))
  {
    hide Push, Idx, UsedEntry;
    if n == 0 {
      SmallMod(Idx(m, base), WRAP);
    } else {
      PostAllHolds(m, base, size, heads, n - 1);
      var posted, last := PostAll(m, base, size, heads, n - 1), UsedEntry(heads[n - 1]);
      PushAppends(posted, Used, base, size, Idx(m, base), UsedEntries(heads, n - 1), last);
    }
  }

  // Serving a batch leaves the used ring alone.
  lemma ServingSparesUsed(d: Device, l: Layout, heads: seq<nat>, os: seq<Outcome>)
    requires Batch(d, l, heads, os)
    ensures var m := ServeAll(d, Requests(d.ram, l.desc, heads), os, |heads|).ram;
            RingInRam(m, Used, l.used, l.usedSize) && Idx(m, l.used) == Idx(d.ram, l.used)
  {
    hide Peek, Idx, Fits, Possible, Parses, Parse, Sources, ServeAll, SparesSources, UsedSpares;
    var rs, p := Requests(d.ram, l.desc, heads), Range(l.used, RingBytes(Used, l.usedSize));
    forall i | 0 <= i < |heads| ensures Spares(rs[i], [p]) {
      assert PlacedAt(d, l, heads, i);
      assert ClearOfUsed(rs[i], l.used, l.usedSize);
      SubRange(rs[i].data, Written(rs[i]), Buffer(rs[i]), p.at, p.n);
    }
    ServeAllFrame(d, rs, os, |heads|, p);
    UsedIndex(d.ram, ServeAll(d, rs, os, |heads|).ram, l.used, l.usedSize);
  }

  // n entries fit, and the size divides 2^16.
  predicate Roomy(size: nat, n: nat)
    requires size > 0
  {
    n <= size && WRAP % size == 0
  }

  lemma BatchEnd(d: Device, l: Layout, heads: seq<nat>, os: seq<Outcome>)
    requires Batch(d, l, heads, os)
    ensures AllParse(d.ram, l.desc, heads) && AllFit(d, Requests(d.ram, l.desc, heads), os)
    ensures RingInRam(ServeAll(d, Requests(d.ram, l.desc, heads), os, |heads|).ram, Used, l.used, l.usedSize)
    ensures After(d, l, heads, os, |heads|).ram
         == PostAll(ServeAll(d, Requests(d.ram, l.desc, heads), os, |heads|).ram, l.used, l.usedSize, heads, |heads|)
  {
    hide AllParse, AllFit, PlacedAt, UsedSpares, ServeAll, PostAll;
  }

  /** After a batch the used index has advanced by the number of requests, modulo 2^16, and
      the used ring holds their heads in order. */
  lemma BatchPosts(d: Device, l: Layout, heads: seq<nat>, os: seq<Outcome>)
    requires Batch(d, l, heads, os)
    ensures var m := After(d, l, heads, os, |heads|).ram;
            && RingInRam(m, Used, l.used, l.usedSize)
            && Idx(m, l.used) == (Idx(d.ram, l.used) + |heads|) % WRAP
            && (Roomy(l.usedSize, |heads|) ==>
                  Holds(m, Used, l.used, l.usedSize, Idx(d.ram, l.used), UsedEntries(heads, |heads|)))
  {
    hide Holds, Idx, Peek, AllFit, Parses, Parse, PlacedAt, ServeAll, PostAll, UsedSpares, UsedEntries, After, Batch;
    ServingSparesUsed(d, l, heads, os);
    BatchEnd(d, l, heads, os);
    var m := ServeAll(d, Requests(d.ram, l.desc, heads), os, |heads|).ram;
    PostAllIdx(m, l.used, l.usedSize, heads, |heads|);
    if Roomy(l.usedSize, |heads|) {
      PostAllHolds(m, l.used, l.usedSize, heads, |heads|);
    }
  }

  lemma UsedIndex(m: Ram, m': Ram, base: nat, size: nat)
    requires RingInRam(m, Used, base, size) && SameShape(m, m')
    requires Peek(m', base, RingBytes(Used, size)) == Peek(m, base, RingBytes(Used, size))
    ensures Idx(m', base) == Idx(m, base)
  {
    hide Peek;
    PeekWithin(m, m', base, RingBytes(Used, size), base + 2, 2);
  }

  // ---------------------------------------------------------------- The device in place

  class BlockDevice {
    const slot: S.Slot
    var disk: seq<bv8>

    constructor (slot: S.Slot, disk: seq<bv8>)
      ensures this.slot == slot && this.disk == disk
    {
      this.slot, this.disk := slot, disk;
    }

    ghost predicate Valid()
      reads this, slot, slot.bank, slot.plic, slot.plic.cpu
    {
      && slot.plic.Valid()
      && slot.bank.data as object !in slot.plic.Own() + slot.plic.cpu.Repr() + {this, slot, slot.bank}
      && slot !in slot.plic.Own() + slot.plic.cpu.Repr()
      && this !in slot.plic.Own() + slot.plic.cpu.Repr()
    }

    ghost function View(): Device
      reads this, slot, slot.bank, slot.bank.data
    {
      Device(slot.bank.View(), disk)
    }

    // pwrite: an error, or at least one byte and at most what was asked for; an error at an
    // offset that is negative as the host reads it.
    static method HostWrite(at: nat, chunk: nat) returns (n: int)
      requires chunk > 0
      ensures n == -1 || 1 <= n <= chunk
      ensures at >= NEGATIVE ==> n == -1
    {
      n := *;
      if n < 1 || n > chunk || at >= NEGATIVE {
        n := -1;
      }
    }

    // pread: the same, but no more than the image holds, and no bytes at its end.
    static method HostRead(size: nat, at: nat, chunk: nat) returns (n: int)
      requires chunk > 0
      ensures n == -1 || (0 <= n <= chunk && n <= Rest(size, at) && (n == 0 ==> at >= size))
      ensures at >= NEGATIVE ==> n == -1
    {
      n := HostWrite(at, chunk);
      if n > Rest(size, at) {
        n := Rest(size, at);
      }
    }

    /** blk_do_read: copy from the disk in chunks, each as long as the host cares to give. It
        does not end when it gets to the end of the image: the host then gives no bytes, and
        the loop asks again for ever. */
    method DoRead(offset: nat, dst: nat, len: nat) returns (ended: bool, status: bv8, ghost o: Outcome)
      requires Valid() && Reachable(slot.bank.View(), dst, len)
      modifies slot.bank.data
      ensures Valid() && (o.Broke? ==> o.after < len) && (ended ==> status == if o.Done? then S_OK else S_IOERR)
      ensures !ended ==> offset + len > |disk| && o == Broke(Rest(|disk|, offset))
      ensures offset >= NEGATIVE && len > 0 ==> ended && o == Broke(0)
      ensures var moved := if o.Done? then len else o.after;
              && (moved > 0 ==> offset + moved <= |disk|)
              && slot.bank.View() == Put(old(slot.bank.View()), dst, Slice(disk, offset, moved))
    {
      hide Put, Poke, Slice, Rest;
      ghost var m := slot.bank.View();
      var at, from, left := dst, offset, len;
      ReadNone(m, dst, disk, offset);
      while left > 0
        invariant 0 <= left <= len && at == dst + (len - left) && from == offset + (len - left)
        invariant left < len ==> from <= |disk| && offset < NEGATIVE
        invariant slot.bank.View() == Put(m, dst, Slice(disk, offset, len - left))
      {
        var chunk := Min(left, 512);
        ReachablePart(m, dst, len, len - left, chunk);
        var n := HostRead(|disk|, from, chunk);
        if n <= 0 {
          AtEnd(|disk|, offset, len - left);
          return n < 0, S_IOERR, Broke(len - left);
        }
        RestInside(|disk|, from, n);
        ReadMore(m, dst, disk, offset, len - left, n);
        slot.bank.Write(at, Slice(disk, from, n));
        at, from, left := at + n, from + n, left - n;
      }
      return true, S_OK, Done;
    }

    method WriteChunk(from: nat, at: nat, chunk: nat) returns (n: int)
      requires Valid() && chunk > 0 && InRam(slot.bank.View(), from, chunk)
      modifies this`disk
      ensures Valid() && (n == -1 || 1 <= n <= chunk) && (at >= NEGATIVE ==> n == -1)
      ensures disk == if n < 0 then old(disk) else DiskPut(old(disk), at, Peek(slot.bank.View(), from, chunk)[..n])
    {
      hide DiskPut, Peek;
      var buffer := slot.bank.Read(from, chunk);
      n := HostWrite(at, chunk);
      if n >= 0 {
        disk := DiskPut(disk, at, buffer[..n]);
      }
    }

    // blk_do_write: copy to the disk in chunks, each taken as far as the host cares to.
    method DoWrite(offset: nat, src: nat, len: nat) returns (status: bv8, ghost o: Outcome)
      requires Valid() && Reachable(slot.bank.View(), src, len)
      modifies this`disk
      ensures Valid() && (o.Broke? ==> o.after < len) && status == if o.Done? then S_OK else S_IOERR
      ensures offset >= NEGATIVE && len > 0 ==> o == Broke(0)
      ensures disk == DiskPut(old(disk), offset, Get(slot.bank.View(), src, if o.Done? then len else o.after))
    {
      hide DiskPut, DiskByte, SizeAfter, Get, Peek, At;
      ghost var m, d := slot.bank.View(), disk;
      WriteNone(d, offset, m, src);
      var from, at, left := src, offset, len;
      while left > 0
        invariant 0 <= left <= len && from == src + (len - left) && at == offset + (len - left)
        invariant left < len ==> offset < NEGATIVE
        invariant disk == DiskPut(d, offset, Get(m, src, len - left))
        modifies this`disk
      {
        var chunk := Min(left, 512);
        ReachablePart(m, src, len, len - left, chunk);
        var n := WriteChunk(from, at, chunk);
        if n < 0 {
          return S_IOERR, Broke(len - left);
        }
        WriteMore(d, offset, m, src, len - left, chunk, n);
        from, at, left := from + n, at + n, left - n;
      }
      return S_OK, Done;
    }

    ghost function Placement(): Layout
      reads slot
    {
      Layout(slot.desc, slot.avail.base, slot.avail.size, slot.used.base, slot.used.size)
    }

    method ReadDescriptor(i: nat) returns (d: Desc)
      requires Has(slot.bank.View(), DescRange(slot.desc, i))
      ensures d == ReadDesc(slot.bank.View(), slot.desc, i)
    {
      hide Nat;
      var s := slot.bank.Read(slot.desc + 16 * i, 16);
      d := Desc(Nat(s[..8]), Nat(s[8..12]), Nat(s[12..14]), Nat(s[14..16]));
    }

    // Follow the chain of a head and read its header.
    method ReadRequest(head: nat) returns (r: Request)
      requires Parses(slot.bank.View(), slot.desc, head)
      ensures r == Parse(slot.bank.View(), slot.desc, head)
    {
      hide Nat, ReadDesc, Peek;
      var hdr := ReadDescriptor(head);
      var data := ReadDescriptor(hdr.next);
      var status := ReadDescriptor(data.next);
      var h := slot.bank.Read(hdr.addr, 16);
      r := Request(Nat(h[..4]), Nat(h[8..16]), data.addr, data.len, status.addr);
    }

    method PutId(r: Request)
      requires Valid() && r.kind == T_GET_ID && Reachable(slot.bank.View(), r.data, Buffer(r))
      modifies slot.bank.data
      ensures Valid() && slot.bank.View() == Put(old(slot.bank.View()), r.data, ID[..Min(|ID|, r.len)])
    {
      hide Poke;
      var n := Min(|ID|, r.len);
      if n > 0 {
        slot.bank.Write(r.data, ID[..n]);
      }
    }

    // Move the data of a request and find its status.
    method Transfer(r: Request) returns (status: bv8, ghost o: Outcome)
      requires Valid() && Fits(View(), r)
      modifies this`disk, slot.bank.data
      ensures Valid() && Possible(r, o) && status == Status(r, o)
      ensures var d, written := old(View()), Get(old(View()).ram, r.data, Moved(r, o));
              View() == Device(Put(d.ram, r.data, Delivered(d, r, o)),
                               if r.kind == T_OUT then DiskPut(d.disk, Offset(r), written) else d.disk)
    {
      hide Put, Get, DiskPut, Offset;
      o := Done;
      PutNothing(slot.bank.View(), r.data);
      if r.kind == T_IN {
        var ended;
        ended, status, o := DoRead(Offset(r), r.data, r.len);
      } else if r.kind == T_OUT {
        status, o := DoWrite(Offset(r), r.data, r.len);
      } else if r.kind == T_GET_ID {
        PutId(r);
        status := S_OK;
      } else {
        status := S_IOERR;
      }
    }

    // blk_handle_request.
    method HandleRequest(head: nat) returns (ghost o: Outcome)
      requires Valid() && RingInRam(View().ram, Used, slot.used.base, slot.used.size)
      requires Parses(View().ram, slot.desc, head) && Fits(View(), Parse(View().ram, slot.desc, head))
      modifies this`disk, slot.bank.data
      ensures Valid() && Possible(old(Parse(View().ram, slot.desc, head)), o)
      ensures View() == Handled(old(View()), Placement(), old(Parse(View().ram, slot.desc, head)), o, head)
    {
      hide Parses, Parse, Put, Get, DiskPut, Offset, Status, Delivered, Push, Poke, Possible, Moved, Bytes;
      var r := ReadRequest(head);
      var status;
      status, o := Transfer(r);
      slot.bank.Write(r.status, [status]);
      slot.RingPost(head, 0);
    }

    // Rings in RAM, and the waiting requests well placed: what notification needs.
    ghost predicate Notifiable()
      reads this, slot, slot.bank, slot.bank.data
    {
      var m, r := slot.bank.View(), slot.avail;
      && RingInRam(m, Avail, r.base, r.size) && r.cursor < WRAP
      && WellPlaced(View(), Placement(), Heads(m, r.base, r.size, r.cursor, Waiting(m, r.base, r.cursor)))
    }

    // n requests of the batch have been handled.
    ghost predicate Reached(d: Device, l: Layout, r: S.Ring, heads: seq<nat>, os: seq<Outcome>, n: nat)
      reads this, slot, slot.bank, slot.bank.data, slot.plic, slot.plic.cpu
    {
      && Valid() && n <= |heads| == |os| && Starts(d, l, r, heads)
      && slot.avail == r.(cursor := (r.cursor + n) % WRAP) && Placement() == l
      && Batch(d, l, heads, os) && View() == After(d, l, heads, os, n)
    }

    // One turn of the loop.
    method HandleNext(ghost d: Device, ghost l: Layout, ghost r: S.Ring, ghost heads: seq<nat>,
                      ghost os: seq<Outcome>, ghost n: nat)
      returns (ghost os': seq<Outcome>)
      requires Reached(d, l, r, heads, os, n) && n < |heads|
      modifies this`disk, slot`avail, slot.bank.data
      ensures Reached(d, l, r, heads, os', n + 1)
    {
      hide WellPlaced, Batch, After, Handled, Starts, HeadAt, Parses, Parse, Fits, Possible, Peek;
      Progress(d, l, r, heads, os, n);
      var head := slot.RingNext();
      ghost var o := HandleRequest(head);
      SetOutcome(d, l, heads, os, n, o);
      os' := os[n := o];
      AfterNext(d, l, heads, os', n);
      WrapAdd(r.cursor + n, 1);
    }

    method HasMore(ghost d: Device, ghost l: Layout, ghost r: S.Ring, ghost heads: seq<nat>, ghost os: seq<Outcome>,
                   ghost n: nat)
      returns (more: bool)
      requires Reached(d, l, r, heads, os, n)
      ensures more <==> n < |heads|
    {
      hide WellPlaced, Batch, After, Starts, Parses, Parse, Fits, Peek, HeadAt;
      Progress(d, l, r, heads, os, n);
      more := slot.RingHasNext();
    }

    method Drain(ghost d: Device, ghost l: Layout, ghost r: S.Ring, ghost heads: seq<nat>)
      returns (ghost os: seq<Outcome>)
      requires Reached(d, l, r, heads, seq(|heads|, _ => Done), 0)
      modifies this`disk, slot`avail, slot.bank.data
      ensures Reached(d, l, r, heads, os, |heads|)
    {
      hide Reached;
      os := seq(|heads|, _ => Done);
      ghost var n := 0;
      var more := HasMore(d, l, r, heads, os, n);
      while more
        invariant n <= |heads| && Reached(d, l, r, heads, os, n) && (more <==> n < |heads|)
        decreases |heads| - n
      {
        os := HandleNext(d, l, r, heads, os, n);
        n := n + 1;
        more := HasMore(d, l, r, heads, os, n);
      }
    }

    /** blk_notify: the drain loop over memory it also writes is the sequential device. It
        serves exactly the entries that were waiting, in order, each as read from the memory
        it started with, then has posted their heads in the same order; the cursor has met the
        index. os tells how the host's transfers ended. */
    method Notify() returns (ghost heads: seq<nat>, ghost os: seq<Outcome>)
      requires Valid() && (slot.ready ==> Notifiable())
      modifies this`disk, slot`avail, slot`interrupts, slot.bank.data, slot.plic, slot.plic.cpu.csrs
      ensures Valid()
      ensures !slot.ready ==> View() == old(View()) && slot.View() == old(slot.View())
      ensures !slot.ready ==> slot.plic.View() == old(slot.plic.View())
      ensures slot.ready ==>
                var m, r := old(slot.bank.View()), old(slot.avail);
                && heads == Heads(m, r.base, r.size, r.cursor, Waiting(m, r.base, r.cursor))
                && Batch(old(View()), old(Placement()), heads, os)
                && View() == After(old(View()), old(Placement()), heads, os, |heads|)
                && slot.avail == r.(cursor := Idx(m, r.base))
                && slot.interrupts == S.Pended(old(slot.interrupts))
                && slot.plic.Took(S.Signalled(old(slot.plic.View()), slot.irq))
    {
      hide WellPlaced, Batch, After, Handled, Heads, HeadAt, Waiting, Idx, Parses, Parse, Fits, Possible, Peek;
      hide S.Pended, DiskByte, SizeAfter, At;
      heads, os := [], [];
      if !slot.ready {
        return;
      }
      ghost var d, l, r := View(), Placement(), slot.avail;
      heads := Heads(d.ram, r.base, r.size, r.cursor, Waiting(d.ram, r.base, r.cursor));
      NoErrors(d, l, heads);
      SmallMod(r.cursor, WRAP);
      os := Drain(d, l, r, heads);
      Progress(d, l, r, heads, os, |heads|);
      slot.NotifyGuest();
    }
  }

  // The batch is what waits in the available ring of its starting memory.
  ghost predicate Starts(d: Device, l: Layout, r: S.Ring, heads: seq<nat>) {
    && r.base == l.avail && r.size == l.availSize && r.cursor < WRAP
    && RingInRam(d.ram, Avail, r.base, r.size)
    && heads == Heads(d.ram, r.base, r.size, r.cursor, Waiting(d.ram, r.base, r.cursor))
  }

  // Part way through a batch the device finds the next head and request where they were.
  lemma Progress(d: Device, l: Layout, r: S.Ring, heads: seq<nat>, os: seq<Outcome>, n: nat)
    requires Starts(d, l, r, heads) && Batch(d, l, heads, os) && n <= |heads|
    ensures var p := After(d, l, heads, os, n);
            && RingInRam(p.ram, Avail, r.base, r.size) && RingInRam(p.ram, Used, l.used, l.usedSize)
            && (HasNext(p.ram, r.base, (r.cursor + n) % WRAP) <==> n < |heads|)
            && Idx(d.ram, r.base) == (r.cursor + |heads|) % WRAP
            && (n < |heads| ==>
                  && HeadAt(p.ram, r.base, r.size, (r.cursor + n) % WRAP) == heads[n]
                  && Parses(p.ram, l.desc, heads[n])
                  && Parse(p.ram, l.desc, heads[n]) == Parse(d.ram, l.desc, heads[n])
                  && Fits(p, Parse(d.ram, l.desc, heads[n])))
  {
    hide PlacedAt, Parses, Parse, Fits, Possible, Sources, After, HeadAt, Idx, Peek, Heads;
    hide DiskByte, SizeAfter, At;
    var p := After(d, l, heads, os, n);
    AfterRing(d, l, heads, os, n);
    RingReads(d.ram, p.ram, r.base, r.size, (r.cursor + n) % WRAP);
    WaitingExactly(d.ram, r.base, r.cursor, n);
    WaitingExactly(d.ram, r.base, r.cursor, |heads|);
    if n < |heads| {
      HeadWrapped(d.ram, r.base, r.size, r.cursor + n);
      HeadsAt(d.ram, r.base, r.size, r.cursor, |heads|, n);
      AfterSource(d, l, heads, os, n, n);
      AfterNext(d, l, heads, os, n);
    }
  }

  lemma GetNothing(m: Ram, a: nat)
    ensures Get(m, a, 0) == []
  {
  }

  lemma ReadNone(m: Ram, a: nat, disk: seq<bv8>, at: nat)
    ensures Put(m, a, Slice(disk, at, 0)) == m
  {
    PutNothing(m, a);
  }

  // What one more transfer adds to memory.
  lemma ReadMore(m: Ram, a: nat, disk: seq<bv8>, at: nat, got: nat, n: nat)
    requires at + got + n <= |disk| && n > 0 && Reachable(m, a, got + n)
    ensures Reachable(m, a, got) && InRam(m, a + got, n)
    ensures Poke(Put(m, a, Slice(disk, at, got)), a + got, Slice(disk, at + got, n))
         == Put(m, a, Slice(disk, at, got + n))
  {
    hide Put, Poke, Slice;
    assert Slice(disk, at + got, n) != [];
    PutThenPoke(m, a, Slice(disk, at, got), Slice(disk, at + got, n));
    SliceMore(disk, at, got, n);
  }

  lemma AtEnd(size: nat, at: nat, got: nat)
    ensures at + got >= size && (got > 0 ==> at + got <= size) ==> got == Rest(size, at)
  {
  }

  lemma RestInside(size: nat, at: nat, n: nat)
    requires n <= Rest(size, at) && n > 0
    ensures at + n <= size
  {
  }

  lemma ReachablePart(m: Ram, a: nat, len: nat, got: nat, chunk: nat)
    requires Reachable(m, a, len) && got + chunk <= len && chunk > 0
    ensures InRam(m, a + got, chunk) && Reachable(m, a, got + chunk)
  {
  }

  lemma WriteNone(disk: seq<bv8>, at: nat, m: Ram, a: nat)
    ensures DiskPut(disk, at, Get(m, a, 0)) == disk
  {
    hide DiskPut;
    GetNothing(m, a);
    DiskPutNothing(disk, at);
  }

  // What one more transfer adds to the image.
  lemma WriteMore(disk: seq<bv8>, at: nat, m: Ram, a: nat, got: nat, chunk: nat, n: nat)
    requires Reachable(m, a, got + chunk) && n <= chunk && chunk > 0
    ensures InRam(m, a + got, chunk) && Reachable(m, a, got) && Reachable(m, a, got + n)
    ensures DiskPut(DiskPut(disk, at, Get(m, a, got)), at + got, Peek(m, a + got, chunk)[..n])
         == DiskPut(disk, at, Get(m, a, got + n))
  {
    hide DiskPut, Get, Peek;
    GetMore(m, a, got, chunk, n);
    DiskPutAdjacent(disk, at, Get(m, a, got), Peek(m, a + got, chunk)[..n]);
  }

  lemma GetMore(m: Ram, a: nat, got: nat, chunk: nat, n: nat)
    requires Reachable(m, a, got + chunk) && n <= chunk && chunk > 0
    ensures Reachable(m, a, got) && |Get(m, a, got)| == got
    ensures Get(m, a, got) + Peek(m, a + got, chunk)[..n] == Get(m, a, got + n)
  {
  }

  lemma PutNothing(m: Ram, a: nat)
    ensures Put(m, a, []) == m
  {
  }

  lemma DiskPutNothing(disk: seq<bv8>, at: nat)
    ensures DiskPut(disk, at, []) == disk
  {
    assert forall i :: 0 <= i < |disk| ==> DiskPut(disk, at, [])[i] == disk[i];
  }

  lemma PutThenPoke(m: Ram, a: nat, s: seq<bv8>, t: seq<bv8>)
    requires Reachable(m, a, |s| + |t|) && t != []
    ensures Poke(Put(m, a, s), a + |s|, t) == Put(m, a, s + t)
  {
    hide Poke;
    PutAdjacent(m, a, s, t);
  }
}

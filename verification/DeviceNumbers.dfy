/** Physical accesses by numbers: which addresses reach RAM, the interrupt controller and the
    timer, and what they read and write there. */
module DeviceNumbers {
  import opened Words
  import opened Memory
  import opened Mmu
  import opened Numbers
  import opened Shifts
  import opened Machine
  import opened MemoryNumbers
  import opened AtomicNumbers
  import A = Alu
  import Plic

  predicate Sized(w: nat) { w == 1 || w == 2 || w == 4 || w == 8 }

  lemma TruncateNumber(v: bv64, w: nat)
    requires Sized(w)
    ensures ToNat(Truncate(v, w)) == ToNat(v) % Pow256(w)
  {
    hide ToNat, WordOf, LowBytes, Bytes, Nat;
    StoredBytes(v, w);
    Plain(LowBytes(v, w));
    NatOfBytes(ToNat(v), w);
  }

  // An access of w bytes at pa that misses RAM and the devices outside the model.
  predicate Misses(m: Machine, pa: bv64, w: nat) {
    !InRam(m.ram, ToNat(pa), w) && !InOther(ToNat(pa), w)
  }

  lemma FromU32Number(n: Plic.U32)
    ensures ToNat(FromU32(n)) == n
  {
    hide ToNat, FromNat;
    RegisterRoundTrip(0, n);
    ModUnique(n, TWO_64, 0, n);
  }

  lemma Powers256()
    ensures Pow256(4) == TWO_32 && Pow256(8) == TWO_64 && Pow256(2) == 0x1_0000 && Pow256(1) == 0x100
  {
    Pow256Of8();
    assert Pow256(1) == 256 * Pow256(0);
  }

  /** From 0x0C00_0000 on, 64 MiB of the interrupt controller: a read returns the low bytes of
      its register at that offset, with what reading it does. */
  lemma ControllerReads(m: Machine, pa: bv64, w: nat, r: Reply)
    requires Sized(w) && Misses(m, pa, w) && 0x0C00_0000 <= ToNat(pa) && ToNat(pa) + w <= 0x1000_0000
    ensures var e := Plic.Read(m.plic, ToNat(pa) - 0x0C00_0000);
            && PhysRead(m, pa, w, r).Some? && PhysRead(m, pa, w, r).value.0 == PlicEffect(m, e)
            && ToNat(PhysRead(m, pa, w, r).value.1) == e.value % Pow256(w)
  {
    hide ToNat, Plic.Read, PlicEffect, Truncate, FromU32, Pow256;
    var e := Plic.Read(m.plic, ToNat(pa) - 0x0C00_0000);
    FromU32Number(e.value);
    TruncateNumber(FromU32(e.value), w);
  }

  lemma MaskNumber(v: bv64)
    ensures Plic.MaskNat(MaskOf(v)) == ToNat(v) % TWO_32
  {
    hide ToNat, A.Low32, Number32;
    LowNumber(v);
    MaskIs(v);
  }

  lemma MaskIs(v: bv64)
    ensures MaskOf(v) == A.Low32(v) && Plic.MaskNat(MaskOf(v)) == Number32(MaskOf(v))
  {
    hide ToNat;
  }

  /** A write there hands the register the value, kept to the bytes written and to 32 bits. */
  lemma ControllerWrites(m: Machine, pa: bv64, w: nat, v: bv64, r: Reply)
    requires Sized(w) && Misses(m, pa, w) && 0x0C00_0000 <= ToNat(pa) && ToNat(pa) + w <= 0x1000_0000
    ensures var n, mask := ToNat(v) % Pow256(w) % TWO_32, MaskOf(Truncate(v, w));
            && Plic.MaskNat(mask) == n
            && PhysWrite(m, pa, w, v, r)
               == Some(PlicEffect(m, Plic.Write(m.plic, ToNat(pa) - 0x0C00_0000, n, mask)))
  {
    hide ToNat, Plic.Write, PlicEffect, Truncate, Pow256, MaskOf, Plic.MaskNat;
    TruncateNumber(v, w);
    MaskNumber(Truncate(v, w));
  }

  // From 0x0200_0000 on, 64 KiB of the timer: an access at the given offset.
  predicate AtTimer(m: Machine, pa: bv64, w: nat, offset: nat) {
    Sized(w) && Misses(m, pa, w) && ToNat(pa) == 0x0200_0000 + offset && offset + w <= 0x1_0000
  }

  /** The timer's registers: at 0xBFF8 the step count, read-only; at 0x4000 the comparator,
      which a write sets; zeros elsewhere. */
  lemma TimerReads(m: Machine, pa: bv64, w: nat, r: Reply, offset: nat)
    requires AtTimer(m, pa, w, offset)
    ensures var n := if offset == 0xBFF8 then ToNat(m.cpu.steps) else if offset == 0x4000 then ToNat(m.timecmp) else 0;
            && PhysRead(m, pa, w, r).Some? && PhysRead(m, pa, w, r).value.0 == m
            && ToNat(PhysRead(m, pa, w, r).value.1) == n % Pow256(w)
  {
    hide ToNat, Truncate, Pow256;
    TruncateNumber(m.cpu.steps, w);
    TruncateNumber(m.timecmp, w);
    TruncateNumber(0, w);
    ZeroNat();
  }

  lemma TimerWrites(m: Machine, pa: bv64, w: nat, v: bv64, r: Reply, offset: nat)
    requires AtTimer(m, pa, w, offset)
    ensures PhysWrite(m, pa, w, v, r).Some?
    ensures var m' := PhysWrite(m, pa, w, v, r).value;
            && m' == m.(timecmp := m'.timecmp)
            && if offset == 0x4000 then ToNat(m'.timecmp) == ToNat(v) % Pow256(w) else m'.timecmp == m.timecmp
  {
    hide ToNat, Truncate, Pow256;
    TruncateNumber(v, w);
  }
}

/** One virtio-mmio slot: the queue registers a driver programs, and the ring operations of
    the device side over guest RAM. */
module VirtioSlot {
  import opened Words
  import opened Memory
  import opened Virtqueue
  import D = PlicDevice
  import Plic

  datatype Ring = Ring(base: nat, size: nat, cursor: nat)

  datatype Registers = Registers(desc: nat, avail: Ring, used: Ring, ready: bool, queueSel: nat, status: nat,
                                 interrupts: bv32,
                                  deviceFeaturesSel: nat, driverFeaturesSel: nat)

  const DEVICE_FEATURES_SEL: nat := 0x014
  const DRIVER_FEATURES_SEL: nat := 0x024
  const QUEUE_SEL: nat := 0x030
  const QUEUE_NUM: nat := 0x038
  const QUEUE_READY: nat := 0x044
  const INTERRUPT_ACK: nat := 0x064
  const STATUS: nat := 0x070
  const DESC_LOW: nat := 0x080
  const DESC_HIGH: nat := 0x084
  const DRIVER_LOW: nat := 0x090
  const DRIVER_HIGH: nat := 0x094
  const DEVICE_LOW: nat := 0x0A0
  const DEVICE_HIGH: nat := 0x0A4

  // A 64-bit address register is written half by half.
  function WithLow(addr: nat, v: nat): nat {
    addr / TWO_32 % TWO_32 * TWO_32 + v % TWO_32
  }

  function WithHigh(addr: nat, v: nat): nat {
    addr % TWO_32 + v % TWO_32 * TWO_32
  }

  function Acknowledged(x: bv32, v: nat): bv32 {
    x & !((v % TWO_32) as bv32)
  }

  const IDLE := Ring(0, 0, 0)

  // virtio_write, for the registers of the queue; notification is the device's.
  function Written(s: Registers, offset: nat, v: nat): Registers {
    if offset == DEVICE_FEATURES_SEL then s.(deviceFeaturesSel := v % TWO_32)
    else if offset == DRIVER_FEATURES_SEL then s.(driverFeaturesSel := v % TWO_32)
    else if offset == QUEUE_SEL then s.(queueSel := v % TWO_32)
    else if offset == QUEUE_NUM then
      if s.queueSel == 0 then s.(avail := s.avail.(size := v % WRAP), used := s.used.(size := v % WRAP)) else s
    else if offset == QUEUE_READY then if s.queueSel == 0 then s.(ready := v != 0) else s
    else if offset == INTERRUPT_ACK then s.(interrupts := Acknowledged(s.interrupts, v))
    else if offset == STATUS then
      if v == 0 then s.(desc := 0, avail := IDLE, used := IDLE, ready := false, status := 0, interrupts := 0)
      else s.(status := v % TWO_32)
    else if offset == DESC_LOW then s.(desc := WithLow(s.desc, v))
    else if offset == DESC_HIGH then s.(desc := WithHigh(s.desc, v))
    else if offset == DRIVER_LOW then s.(avail := s.avail.(base := WithLow(s.avail.base, v)))
    else if offset == DRIVER_HIGH then s.(avail := s.avail.(base := WithHigh(s.avail.base, v)))
    else if offset == DEVICE_LOW then s.(used := s.used.(base := WithLow(s.used.base, v)))
    else if offset == DEVICE_HIGH then s.(used := s.used.(base := WithHigh(s.used.base, v)))
    else s
  }

  function WrittenAll(s: Registers, ws: seq<(nat, nat)>): Registers
    decreases |ws|
  {
    if ws == [] then s else WrittenAll(Written(s, ws[0].0, ws[0].1), ws[1..])
  }

  /** Two half writes, in either order, leave exactly the address they spell, whatever the
      register held before. */
  lemma HalvesSpellAddress(addr: nat, low: nat, high: nat)
    requires low < TWO_32 && high < TWO_32
    ensures WithHigh(WithLow(addr, low), high) == low + TWO_32 * high
    ensures WithLow(WithHigh(addr, high), low) == low + TWO_32 * high
  {
    var h := addr / TWO_32 % TWO_32;
    ModUnique(h * TWO_32 + low, TWO_32, h, low);
    ModUnique(addr % TWO_32 + high * TWO_32, TWO_32, high, addr % TWO_32);
  }

  /** Only a status write of zero rewinds the device's place in the available ring: driving
      the other registers, in any order, keeps it. */
  lemma {:induction false} OnlyResetRewinds(s: Registers, ws: seq<(nat, nat)>)
    requires forall w <- ws :: !(w.0 == STATUS && w.1 == 0)
    ensures WrittenAll(s, ws).avail.cursor == s.avail.cursor
    decreases |ws|
  {
    if ws != [] {
      assert ws[0] in ws;
      OnlyResetRewinds(Written(s, ws[0].0, ws[0].1), ws[1..]);
    }
  }

  /** After a reset, whatever else the driver programs, a queue placed in RAM starts empty
      exactly when its index field is zero. */
  lemma ResetStartsEmpty(s: Registers, ws: seq<(nat, nat)>, m: Ram)
    requires forall w <- ws :: !(w.0 == STATUS && w.1 == 0)
    requires var r := WrittenAll(Written(s, STATUS, 0), ws).avail; RingInRam(m, Avail, r.base, r.size)
    ensures var r := WrittenAll(Written(s, STATUS, 0), ws).avail;
            Holds(m, Avail, r.base, r.size, r.cursor, []) <==> Idx(m, r.base) == 0
  {
    hide Idx, WrittenAll;
    OnlyResetRewinds(Written(s, STATUS, 0), ws);
  }

  // What raising a source does to the controller.
  function Signalled(p: Plic.Plic, irq: nat): Plic.Effect {
    Plic.Effect(Plic.Raise(p, irq), 0, 1 <= irq < Plic.SOURCES)
  }

  class Slot {
    const bank: RamBank
    const plic: D.PlicDevice
    const irq: nat
    var desc: nat
    var avail: Ring
    var used: Ring
    var ready: bool
    var queueSel: nat
    var status: nat
    var interrupts: bv32
    var deviceFeaturesSel: nat
    var driverFeaturesSel: nat

    constructor (bank: RamBank, plic: D.PlicDevice, irq: nat)
      ensures this.bank == bank && this.plic == plic && this.irq == irq
      ensures View() == Registers(0, IDLE, IDLE, false, 0, 0, 0, 0, 0)
    {
      this.bank, this.plic, this.irq := bank, plic, irq;
      desc, avail, used, ready, queueSel, status, interrupts := 0, IDLE, IDLE, false, 0, 0, 0;
      deviceFeaturesSel, driverFeaturesSel := 0, 0;
    }

    ghost function View(): Registers
      reads this
    {
      Registers(desc, avail, used, ready, queueSel, status, interrupts, deviceFeaturesSel, driverFeaturesSel)
    }

    method WriteRegister(offset: nat, v: nat)
      modifies this
      ensures View() == Written(old(View()), offset, v)
    {
      hide WithLow, WithHigh, Acknowledged;
      if offset == DEVICE_FEATURES_SEL {
        deviceFeaturesSel := v % TWO_32;
      } else if offset == DRIVER_FEATURES_SEL {
        driverFeaturesSel := v % TWO_32;
      } else if offset == QUEUE_SEL {
        queueSel := v % TWO_32;
      } else if offset == QUEUE_NUM {
        if queueSel == 0 {
          avail := avail.(size := v % WRAP);
          used := used.(size := v % WRAP);
        }
      } else if offset == QUEUE_READY {
        if queueSel == 0 {
          ready := v != 0;
        }
      } else if offset == INTERRUPT_ACK {
        interrupts := Acknowledged(interrupts, v);
      } else if offset == STATUS {
        status := v % TWO_32;
        if v == 0 {
          desc, avail, used, ready := 0, IDLE, IDLE, false;
          interrupts := 0;
        }
      } else if offset == DESC_LOW {
        desc := WithLow(desc, v);
      } else if offset == DESC_HIGH {
        desc := WithHigh(desc, v);
      } else if offset == DRIVER_LOW {
        avail := avail.(base := WithLow(avail.base, v));
      } else if offset == DRIVER_HIGH {
        avail := avail.(base := WithHigh(avail.base, v));
      } else if offset == DEVICE_LOW {
        used := used.(base := WithLow(used.base, v));
      } else if offset == DEVICE_HIGH {
        used := used.(base := WithHigh(used.base, v));
      }
    }

    method ReadNumber(a: nat, w: nat) returns (n: nat)
      requires InRam(bank.View(), a, w)
      ensures n == GetNat(bank.View(), a, w)
    {
      hide Nat;
      var s := bank.Read(a, w);
      n := Nat(s);
    }

    // vq_ring_has_next.
    method RingHasNext() returns (more: bool)
      requires RingInRam(bank.View(), Avail, avail.base, avail.size)
      ensures more == HasNext(bank.View(), avail.base, avail.cursor)
    {
      var idx := ReadNumber(avail.base + 2, 2);
      more := avail.cursor != idx;
    }

    // vq_ring_next.
    method RingNext() returns (head: nat)
      requires RingInRam(bank.View(), Avail, avail.base, avail.size)
      modifies this`avail
      ensures head == HeadAt(bank.View(), old(avail).base, old(avail).size, old(avail).cursor)
      ensures avail == old(avail).(cursor := (old(avail).cursor + 1) % WRAP)
    {
      hide SlotOf;
      var at := Cell(Avail, avail.base, avail.size, avail.cursor);
      avail := avail.(cursor := (avail.cursor + 1) % WRAP);
      head := ReadNumber(at, 2);
    }

    // vq_ring_post, on the used ring: id and length, four bytes each, then the index.
    method RingPost(id: nat, len: nat)
      requires RingInRam(bank.View(), Used, used.base, used.size)
      modifies bank.data
      ensures bank.View() == Push(old(bank.View()), Used, used.base, used.size, Bytes(id, 4) + Bytes(len, 4))
    {
      hide SlotOf, Poke;
      ghost var m := bank.View();
      var idx := ReadNumber(used.base + 2, 2);
      var at := Cell(Used, used.base, used.size, idx);
      bank.Write(at, Bytes(id, 4));
      bank.Write(at + 4, Bytes(len, 4));
      PokeAdjacent(m, at, Bytes(id, 4), Bytes(len, 4));
      bank.Write(used.base + 2, Bytes((idx + 1) % WRAP, 2));
    }

    // virtio_notify_guest.
    method NotifyGuest()
      requires plic.Valid()
      modifies this`interrupts, plic, plic.cpu.csrs
      ensures plic.Valid() && plic.Took(Signalled(old(plic.View()), irq))
      ensures interrupts == Pended(old(interrupts))
    {
      hide Pended;
      interrupts := Pended(interrupts);
      plic.SetPending(irq);
    }
  }

  function Pended(x: bv32): bv32 {
    x | 1
  }
}

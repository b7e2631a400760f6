/** The interrupt controller as the emulator holds it: its registers updated in place, and the
    SEIP line of the hart it drives. */
module PlicDevice {
  import opened Words
  import opened Hart
  import P = Processor
  import Plic

  // Raising or lowering bit 9 is what re-evaluating SEIP comes to.
  lemma LineBits(x: bv64, p: Plic.Plic)
    ensures Plic.DriveSeip(x, p) == if Plic.Fires(p) then Raised(x, 0x200) else Cleared(x, 0x200)
  {
    hide Plic.Fires;
    assert !(0x200 as bv64) == 0xFFFF_FFFF_FFFF_FDFF;
  }

  // The line is up exactly when some source is ready.
  lemma OneFires(p: Plic.Plic, irq: nat)
    requires Plic.Ready(p, Plic.CTX_S, irq)
    ensures Plic.Fires(p)
  {
    hide Plic.Has, Plic.BestBelow;
  }

  lemma NoneFires(p: Plic.Plic)
    requires forall j :: 1 <= j < Plic.SOURCES ==> !Plic.Ready(p, Plic.CTX_S, j)
    ensures !Plic.Fires(p)
  {
    hide Plic.Has, Plic.BestBelow;
  }

  class PlicDevice {
    const cpu: P.Processor
    const priority: array<Plic.U32>
    const enable: array<bv32>
    const threshold: array<Plic.U32>
    var pending: bv32
    var claimed: bv32

    ghost predicate Valid()
      reads this, cpu
    {
      && cpu.Valid()
      && priority.Length == Plic.SOURCES && enable.Length == threshold.Length == 2
      && priority != threshold && enable as object != priority as object && enable as object != threshold as object
      && cpu.Repr() !! Own()
    }

    ghost function Own(): set<object> {
      {this, priority, enable, threshold}
    }

    ghost function View(): Plic.Plic
      requires Valid()
      reads this, cpu, Own()
    {
      Plic.State(priority[..], pending, enable[..], threshold[..], claimed)
    }

    constructor (cpu: P.Processor)
      requires cpu.Valid()
      ensures Valid() && fresh(Own()) && this.cpu == cpu
      ensures View() == Plic.State(seq(32, _ => 0), 0, [0, 0], [0, 0], 0)
    {
      this.cpu := cpu;
      priority := new Plic.U32[Plic.SOURCES](_ => 0);
      enable := new bv32[2](_ => 0);
      threshold := new Plic.U32[2](_ => 0);
      pending, claimed := 0, 0;
    }

    // The source with the highest priority that the context may claim, scanning upward.
    method Scan(ctx: nat) returns (best: nat)
      requires Valid() && ctx < 2
      ensures best == Plic.Best(View(), ctx)
    {
      hide Plic.Has, Plic.And, Plic.Minus;
      ghost var p := View();
      var actionable := Plic.Minus(Plic.And(pending, enable[ctx]), claimed);
      best := 0;
      var bestPriority := 0;
      var irq := 1;
      while irq < Plic.SOURCES
        invariant 1 <= irq <= Plic.SOURCES
        invariant best == Plic.BestBelow(p, ctx, irq)
        invariant bestPriority == if best == 0 then 0 else priority[best]
      {
        Plic.ReadyMask(p, ctx, irq);
        if Plic.Has(actionable, irq) && priority[irq] > threshold[ctx] && priority[irq] > bestPriority {
          bestPriority := priority[irq];
          best := irq;
        }
        irq := irq + 1;
      }
    }

    // Whether any source may be claimed, stopping at the first.
    method AnyReady() returns (fire: bool)
      requires Valid()
      ensures fire == Plic.Fires(View())
    {
      hide Plic.Has, Plic.And, Plic.Minus, Plic.Fires;
      ghost var p := View();
      var actionable := Plic.Minus(Plic.And(pending, enable[Plic.CTX_S]), claimed);
      fire := false;
      var irq := 1;
      while irq < Plic.SOURCES && !fire
        invariant 1 <= irq <= Plic.SOURCES
        invariant fire ==> Plic.Fires(p)
        invariant !fire ==> forall j :: 1 <= j < irq ==> !Plic.Ready(p, Plic.CTX_S, j)
        modifies {}
      {
        Plic.ReadyMask(p, Plic.CTX_S, irq);
        if Plic.Has(actionable, irq) && priority[irq] > threshold[Plic.CTX_S] {
          fire := true;
          OneFires(p, irq);
        }
        irq := irq + 1;
      }
      if !fire {
        NoneFires(p);
      }
    }

    // plic_update_seip: any claimable source raises the line.
    method UpdateSeip()
      requires Valid()
      modifies cpu.csrs
      ensures Valid() && View() == old(View())
      ensures cpu.View() == SetMip(old(cpu.View()), Plic.DriveSeip(old(cpu.View()).csrs[MIP], View()))
    {
      hide Plic.Fires, Plic.DriveSeip, Raised, Cleared;
      LineBits(cpu.csrs[MIP], View());
      var fire := AnyReady();
      if fire {
        cpu.RaiseIrq(0x200);
      } else {
        cpu.LowerIrq(0x200);
      }
    }

    // What every operation leaves: the new state, and the line re-evaluated if it changed.
    twostate predicate Took(e: Plic.Effect)
      requires old(Valid()) && Valid()
      reads this, cpu, cpu.Repr(), Own()
    {
      View() == e.p && cpu.View() == SetMip(old(cpu.View()), Plic.AfterEffect(old(cpu.View()).csrs[MIP], e))
    }

    // plic_set_pending.
    method SetPending(irq: nat)
      requires Valid()
      modifies this, cpu.csrs
      ensures Valid() && Took(Plic.Effect(Plic.Raise(old(View()), irq), 0, 1 <= irq < Plic.SOURCES))
    {
      hide Plic.With, Plic.DriveSeip;
      assert cpu.csrs[..][MIP := cpu.csrs[MIP]] == cpu.csrs[..];
      if irq == 0 || irq >= Plic.SOURCES {
        return;
      }
      pending := Plic.With(pending, irq);
      UpdateSeip();
    }

    // plic_claim.
    method Claim(ctx: nat) returns (irq: nat)
      requires Valid() && ctx < 2
      modifies this, cpu.csrs
      ensures Valid() && irq == Plic.Claim(old(View()), ctx).1
      ensures irq < Plic.SOURCES && Took(Plic.Effect(Plic.Claim(old(View()), ctx).0, irq, irq != 0))
    {
      hide Plic.With, Plic.Without, Plic.DriveSeip, Plic.IsBest, Plic.BestBelow;
      assert cpu.csrs[..][MIP := cpu.csrs[MIP]] == cpu.csrs[..];
      irq := Scan(ctx);
      if irq != 0 {
        claimed := Plic.With(claimed, irq);
        pending := Plic.Without(pending, irq);
        UpdateSeip();
      }
    }

    // plic_complete.
    method Complete(irq: nat)
      requires Valid()
      modifies this, cpu.csrs
      ensures Valid() && Took(Plic.Effect(Plic.Complete(old(View()), irq), 0, 1 <= irq < Plic.SOURCES))
    {
      hide Plic.Without, Plic.DriveSeip;
      assert cpu.csrs[..][MIP := cpu.csrs[MIP]] == cpu.csrs[..];
      if irq == 0 || irq >= Plic.SOURCES {
        return;
      }
      claimed := Plic.Without(claimed, irq);
      UpdateSeip();
    }

    method Read(offset: nat) returns (v: Plic.U32)
      requires Valid()
      modifies this, cpu.csrs
      ensures Valid() && v == Plic.Read(old(View()), offset).value && Took(Plic.Read(old(View()), offset))
    {
      hide Plic.MaskNat, Plic.Claim, Plic.DriveSeip;
      assert cpu.csrs[..][MIP := cpu.csrs[MIP]] == cpu.csrs[..];
      if offset < 0x1000 {
        return if offset / 4 < Plic.SOURCES then priority[offset / 4] else 0;
      }
      if offset == 0x1000 {
        return Plic.MaskNat(pending);
      }
      if 0x2000 <= offset < 0x20_0000 {
        var ctx := (offset - 0x2000) / 0x80;
        return if ctx < 2 && (offset - 0x2000) % 0x80 == 0 then Plic.MaskNat(enable[ctx]) else 0;
      }
      if offset >= 0x20_0000 {
        var ctx, at := (offset - 0x20_0000) / 0x1000, (offset - 0x20_0000) % 0x1000;
        if ctx < 2 && at == 0 {
          return threshold[ctx];
        }
        if ctx < 2 && at == 4 {
          v := Claim(ctx);
          return;
        }
      }
      return 0;
    }

    method Write(offset: nat, v: Plic.U32, mask: bv32)
      requires Valid()
      modifies this, priority, enable, threshold, cpu.csrs
      ensures Valid() && Took(Plic.Write(old(View()), offset, v, mask))
    {
      hide Plic.Complete, Plic.DriveSeip;
      assert cpu.csrs[..][MIP := cpu.csrs[MIP]] == cpu.csrs[..];
      if offset < 0x1000 {
        if offset / 4 < Plic.SOURCES {
          priority[offset / 4] := v;
          UpdateSeip();
        }
      } else if 0x2000 <= offset < 0x20_0000 {
        var ctx := (offset - 0x2000) / 0x80;
        if ctx < 2 && (offset - 0x2000) % 0x80 == 0 {
          enable[ctx] := mask;
          UpdateSeip();
        }
      } else if offset >= 0x20_0000 {
        var ctx, at := (offset - 0x20_0000) / 0x1000, (offset - 0x20_0000) % 0x1000;
        if ctx < 2 && at == 0 {
          threshold[ctx] := v;
          UpdateSeip();
        } else if ctx < 2 && at == 4 {
          Complete(v);
        }
      }
    }
  }
}

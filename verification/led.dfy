/** led/led.c: the plain kernel module that, at load time, reserves and maps
  * the user LED's GPIO data-out and output-enable registers, turns the LED
  * on, and gives everything back through a fall-through release ladder. */
module Led {
  import opened Kernel

  /** What led_init acquires, in order: the data-out (LED_CTRL_REG) and OE
    * reservations, then the OE and data-out mappings. */
  const Acquisitions := [Reserved(LedDataOut), Reserved(LedOe), Mapped(LedOe), Mapped(LedDataOut)]

  /** The event that gives back what e acquired. */
  function Undo(e: Event): (u: Event)
    requires e.Reserved? || e.Mapped?
    ensures u.r == e.r && (e.Reserved? ==> u.Released?) && (e.Mapped? ==> u.Unmapped?)
  {
    if e.Reserved? then Released(e.r) else Unmapped(e.r)
  }

  /** A fall-through ladder that acquired acq: each acquisition, then the
    * undoing of each, newest first, so every pair nests inside the one
    * acquired before it. */
  function Mirror(acq: seq<Event>): (m: seq<Event>)
    requires forall i :: 0 <= i < |acq| ==> acq[i].Reserved? || acq[i].Mapped?
    ensures |m| == 2 * |acq|
    ensures forall i :: 0 <= i < |acq| ==> m[i] == acq[i] && m[|m| - 1 - i] == Undo(acq[i])
  {
    if acq == [] then [] else [acq[0]] + Mirror(acq[1..]) + [Undo(acq[0])]
  }

  /** acq can be acquired from h: only reservations and mappings, no event
    * twice, and no reservation of a range h already holds. */
  ghost predicate Acquirable(h: Holdings, acq: seq<Event>) {
    && (forall i :: 0 <= i < |acq| ==> acq[i].Reserved? || acq[i].Mapped?)
    && (forall i, j :: 0 <= i < j < |acq| ==> acq[i] != acq[j])
    && (forall i :: 0 <= i < |acq| && acq[i].Reserved? ==> acq[i].r !in h.reserved)
  }

  /** Acquiring in order and releasing newest first gives back exactly what
    * was taken. */
  lemma {:induction false} MirrorRestores(h: Holdings, acq: seq<Event>)
    requires Acquirable(h, acq)
    ensures Replay(h, Mirror(acq)) == h
    decreases |acq|
  {
    if acq != [] {
      var a, rest := acq[0], acq[1..];
      var h1 := Apply(h, a);
      assert Acquirable(h1, rest) by {
        forall i | 0 <= i < |rest| && rest[i].Reserved?
          ensures rest[i].r !in h1.reserved
        {
          assert acq[i + 1] == rest[i] && acq[0] != acq[i + 1];
        }
      }
      MirrorRestores(h1, rest);
      ReplayConcat(h, [a] + Mirror(rest), [Undo(a)]);
      ReplayConcat(h, [a], Mirror(rest));
      assert Replay(h, [a]) == h1 by {
        assert [a][1..] == [];
      }
      assert Replay(h1, [Undo(a)]) == Apply(h1, Undo(a)) by {
        assert [Undo(a)][1..] == [];
      }
      if a.Reserved? {
        AddRemove(h.reserved, a.r);
      } else {
        PlusMinus(h.mapped, multiset{a.r});
      }
    }
  }

  /** The ladders led_init runs inside its data-out reservation, one per
    * number of acquisitions that succeed once data-out is reserved. */
  lemma InnerPrefixes()
    ensures Mirror(Acquisitions[1..1]) == []
    ensures Mirror(Acquisitions[1..2]) == [Reserved(LedOe), Released(LedOe)]
    ensures Mirror(Acquisitions[1..3]) ==
      [Reserved(LedOe), Mapped(LedOe), Unmapped(LedOe), Released(LedOe)]
    ensures Mirror(Acquisitions[1..4]) ==
      [Reserved(LedOe), Mapped(LedOe), Mapped(LedDataOut),
       Unmapped(LedDataOut), Unmapped(LedOe), Released(LedOe)]
  {
    assert Acquisitions[1..2] == [Reserved(LedOe)];
    var a3 := [Reserved(LedOe), Mapped(LedOe)];
    assert Acquisitions[1..3] == a3 && a3[1..] == [Mapped(LedOe)];
    assert Mirror([Mapped(LedOe)]) == [Mapped(LedOe), Unmapped(LedOe)];
    var a4 := [Reserved(LedOe), Mapped(LedOe), Mapped(LedDataOut)];
    assert Acquisitions[1..4] == a4 && a4[1..] == [Mapped(LedOe), Mapped(LedDataOut)];
    assert [Mapped(LedOe), Mapped(LedDataOut)][1..] == [Mapped(LedDataOut)];
    assert Mirror([Mapped(LedDataOut)]) == [Mapped(LedDataOut), Unmapped(LedDataOut)];
    assert Mirror([Mapped(LedOe), Mapped(LedDataOut)]) ==
      [Mapped(LedOe), Mapped(LedDataOut), Unmapped(LedDataOut), Unmapped(LedOe)];
  }

  /** How many of the four acquisitions succeed before the first failure. */
  function Reached(held: set<Region>, reserveFaults: set<Region>, mapFaults: set<Region>): (k: nat)
    ensures k <= |Acquisitions|
  {
    if LedDataOut in held || LedDataOut in reserveFaults then 0
    else if LedOe in held || LedOe in reserveFaults then 1
    else if LedOe in mapFaults then 2
    else if LedDataOut in mapFaults then 3
    else 4
  }

  /** Every ladder led_init can run starts from a state where it can run. */
  lemma ReachedAcquirable(h: Holdings, reserveFaults: set<Region>, mapFaults: set<Region>)
    ensures Acquirable(h, Acquisitions[..Reached(h.reserved, reserveFaults, mapFaults)])
  {
  }

  /** led_init: reserve data-out and OE, map OE and data-out, then write 0
    * to OE and all ones (`val | 0xffffffff`) to data-out; whichever step
    * fails, and on success too, fall through the labels that undo the
    * steps already taken, newest first. Returns 0 only when all four
    * succeeded, -EIO otherwise. */
  method Init(auth: Authority) returns (ret: int)
    requires auth.Valid()
    modifies auth`reserved, auth`mapped, auth`log, auth`regs
    ensures auth.Valid()
    ensures var k := Reached(old(auth.reserved), auth.reserveFaults, auth.mapFaults);
      && (ret == 0 <==> k == |Acquisitions|)
      && (ret != 0 ==> ret == -EIO && auth.regs == old(auth.regs))
      && (ret == 0 ==> auth.regs == old(auth.regs)[LedOe := 0][LedDataOut := 0xFFFF_FFFF])
      && auth.reserved == old(auth.reserved)
      && auth.mapped == old(auth.mapped)
      && auth.log == old(auth.log) + Mirror(Acquisitions[..k])
  {
    ghost var r0, l0 := auth.reserved, auth.log;
    ghost var k := Reached(r0, auth.reserveFaults, auth.mapFaults);
    ret := -EIO;
    var ok := auth.RequestMemRegion(LedDataOut);
    if !ok {
      assert Acquisitions[..k] == [];
      return;
    }
    ret := ReserveOeAndRun(auth, r0);
    ghost var mid := Mirror(Acquisitions[1..k]);
    auth.ReleaseMemRegion(LedDataOut);
    AddRemove(r0, LedDataOut);
    assert Acquisitions[..k][1..] == Acquisitions[1..k];
    Wrap(l0, Reserved(LedDataOut), mid, Released(LedDataOut));
  }

  /** led_init between reserving and releasing data-out: reserve OE, run
    * the mapping ladder, release OE. */
  method ReserveOeAndRun(auth: Authority, ghost held: set<Region>) returns (ret: int)
    requires auth.Valid()
    requires LedDataOut !in held && LedDataOut !in auth.reserveFaults
    requires auth.reserved == held + {LedDataOut}
    modifies auth`reserved, auth`mapped, auth`log, auth`regs
    ensures auth.Valid()
    ensures ret == 0 <==> old(auth.Grants(LedOe)) && LedOe !in auth.mapFaults && LedDataOut !in auth.mapFaults
    ensures ret != 0 ==> ret == -EIO && auth.regs == old(auth.regs)
    ensures ret == 0 ==> auth.regs == old(auth.regs)[LedOe := 0][LedDataOut := 0xFFFF_FFFF]
    ensures auth.reserved == old(auth.reserved) && auth.mapped == old(auth.mapped)
    ensures auth.log == old(auth.log) + Mirror(Acquisitions[1..Reached(held, auth.reserveFaults, auth.mapFaults)])
  {
    ghost var r0, l0 := auth.reserved, auth.log;
    InnerPrefixes();
    var ok := auth.RequestMemRegion(LedOe);
    if !ok {
      return -EIO;
    }
    ret := MapAndUse(auth);
    auth.ReleaseMemRegion(LedOe);
    AddRemove(r0, LedOe);
  }

  /** Lines 59-86 of led_init, both ranges reserved: map OE and run the rest
    * with it, then unmap it. */
  method MapAndUse(auth: Authority) returns (ret: int)
    requires auth.Valid()
    modifies auth`mapped, auth`log, auth`regs
    ensures auth.Valid()
    ensures ret == 0 <==> LedOe !in auth.mapFaults && LedDataOut !in auth.mapFaults
    ensures ret != 0 ==> ret == -EIO && auth.regs == old(auth.regs)
    ensures ret == 0 ==> auth.regs == old(auth.regs)[LedOe := 0][LedDataOut := 0xFFFF_FFFF]
    ensures auth.mapped == old(auth.mapped)
    ensures LedOe in auth.mapFaults ==> auth.log == old(auth.log)
    ensures LedOe !in auth.mapFaults && LedDataOut in auth.mapFaults ==>
      auth.log == old(auth.log) + [Mapped(LedOe), Unmapped(LedOe)]
    ensures ret == 0 ==>
      auth.log == old(auth.log) + [Mapped(LedOe), Mapped(LedDataOut), Unmapped(LedDataOut), Unmapped(LedOe)]
  {
    ghost var m0, l0 := auth.mapped, auth.log;
    var oe := auth.Ioremap(LedOe);
    if oe.None? {
      return -EIO;
    }
    ret := UseRegisters(auth);
    auth.Iounmap(LedOe);
    PlusMinus(m0, multiset{LedOe});
  }

  /** Lines 64-84 of led_init, OE mapped: map data-out; if that works, read
    * it, write 0 to OE and the read value or-ed with all ones to data-out,
    * read it back, and unmap it. */
  method UseRegisters(auth: Authority) returns (ret: int)
    requires auth.Valid() && LedOe in auth.mapped
    modifies auth`mapped, auth`log, auth`regs
    ensures auth.Valid()
    ensures ret == 0 <==> LedDataOut !in auth.mapFaults
    ensures ret != 0 ==> ret == -EIO && auth.regs == old(auth.regs) && auth.log == old(auth.log)
    ensures ret == 0 ==>
      && auth.regs == old(auth.regs)[LedOe := 0][LedDataOut := 0xFFFF_FFFF]
      && auth.log == old(auth.log) + [Mapped(LedDataOut), Unmapped(LedDataOut)]
    ensures auth.mapped == old(auth.mapped)
  {
    ghost var m0, l0 := auth.mapped, auth.log;
    var ctrl := auth.Ioremap(LedDataOut);
    if ctrl.None? {
      return -EIO;
    }
    var val := auth.Ioread32(LedDataOut);
    auth.Iowrite32(LedOe, 0);
    auth.Iowrite32(LedDataOut, val | 0xFFFF_FFFF);
    val := auth.Ioread32(LedDataOut);
    ret := 0;
    auth.Iounmap(LedDataOut);
    PlusMinus(m0, multiset{LedDataOut});
    Extend2(l0, Mapped(LedDataOut), Unmapped(LedDataOut));
  }
}

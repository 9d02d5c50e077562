/** pru/pru.c: the plain kernel module that claims and maps the whole
  * PRU-ICSS1 range (0x4B200000..0x4B27FFFF) at load time and gives it back
  * at unload. */
module Pru {
  import opened Kernel

  /** The events a successful allocate_pru logs. */
  const AllocLog := [Reserved(PrussMem), Mapped(PrussMem)]

  /** The events allocate_pru logs when the mapping fails. */
  const AllocUndoneLog := [Reserved(PrussMem), Released(PrussMem)]

  /** The events deallocate_pru logs for a live mapping. */
  const DeallocLog := [Unmapped(PrussMem), Released(PrussMem)]

  /** allocate_pru: reserve the range, then map it. A refused reservation
    * gives null; a failed mapping releases the reservation and gives null. */
  method AllocatePru(auth: Authority) returns (p: Option<Region>)
    requires auth.Valid()
    modifies auth`reserved, auth`mapped, auth`log
    ensures auth.Valid()
    ensures p.Some? <==> old(auth.Grants(PrussMem)) && PrussMem !in auth.mapFaults
    ensures p.Some? ==>
      && p.value == PrussMem
      && auth.reserved == old(auth.reserved) + {PrussMem}
      && auth.mapped == old(auth.mapped) + multiset{PrussMem}
      && auth.log == old(auth.log) + AllocLog
    ensures p.None? ==> auth.reserved == old(auth.reserved) && auth.mapped == old(auth.mapped)
    ensures !old(auth.Grants(PrussMem)) ==> auth.log == old(auth.log)
    ensures old(auth.Grants(PrussMem)) && p.None? ==> auth.log == old(auth.log) + AllocUndoneLog
  {
    ghost var r0, l0 := auth.reserved, auth.log;
    var ok := auth.RequestMemRegion(PrussMem);
    if !ok {
      return None;
    }
    p := auth.Ioremap(PrussMem);
    if p.None? {
      auth.ReleaseMemRegion(PrussMem);
      AddRemove(r0, PrussMem);
      Extend2(l0, Reserved(PrussMem), Released(PrussMem));
    } else {
      Extend2(l0, Reserved(PrussMem), Mapped(PrussMem));
    }
  }

  /** deallocate_pru: nothing for null; otherwise unmap the pointer, then
    * release the whole range. */
  method DeallocatePru(auth: Authority, p: Option<Region>)
    requires auth.Valid()
    modifies auth`reserved, auth`mapped, auth`log
    ensures auth.Valid()
    ensures p.None? ==>
      auth.reserved == old(auth.reserved) && auth.mapped == old(auth.mapped) && auth.log == old(auth.log)
    ensures p.Some? ==>
      && auth.mapped == old(auth.mapped) - multiset{p.value}
      && auth.reserved == old(auth.reserved) - {PrussMem}
      && auth.log == old(auth.log) + [Unmapped(p.value), Released(PrussMem)]
  {
    if p.None? {
      return;
    }
    ghost var l0 := auth.log;
    auth.Iounmap(p.value);
    auth.ReleaseMemRegion(PrussMem);
    Extend2(l0, Unmapped(p.value), Released(PrussMem));
  }

  /** Loading and then unloading the module gives back exactly what loading
    * took, whichever way loading went. */
  lemma LoadUnloadRestores(h: Holdings)
    requires PrussMem !in h.reserved
    ensures Replay(h, AllocLog + DeallocLog) == h
    ensures Replay(h, AllocUndoneLog) == h
  {
    ReplayConcat(h, AllocLog, DeallocLog);
    ReplayTwo(h, Reserved(PrussMem), Mapped(PrussMem));
    var h2 := Replay(h, AllocLog);
    ReplayTwo(h2, Unmapped(PrussMem), Released(PrussMem));
    assert h2.mapped - multiset{PrussMem} == h.mapped;
    ReplayTwo(h, Reserved(PrussMem), Released(PrussMem));
  }

  /** The module state: the static `ppru_iomem` pointer. */
  class PruModule {
    var ppruIomem: Option<Region>

    constructor ()
      ensures ppruIomem.None?
    {
      ppruIomem := None;
    }

    /** init_pru: allocate and keep the pointer; -EIO when it is null. */
    method Init(auth: Authority) returns (ret: int)
      requires auth.Valid()
      modifies this, auth`reserved, auth`mapped, auth`log
      ensures auth.Valid()
      ensures ret == 0 <==> old(auth.Grants(PrussMem)) && PrussMem !in auth.mapFaults
      ensures ret == 0 ==>
        && ppruIomem == Some(PrussMem)
        && auth.reserved == old(auth.reserved) + {PrussMem}
        && auth.mapped == old(auth.mapped) + multiset{PrussMem}
        && auth.log == old(auth.log) + AllocLog
      ensures ret != 0 ==>
        && ret == -EIO && ppruIomem.None?
        && auth.reserved == old(auth.reserved) && auth.mapped == old(auth.mapped)
        && auth.log == old(auth.log) + (if old(auth.Grants(PrussMem)) then AllocUndoneLog else [])
    {
      ppruIomem := AllocatePru(auth);
      if ppruIomem.None? {
        return -EIO;
      }
      return 0;
    }

    /** exit_pru: deallocate whatever the pointer holds and clear it. */
    method Exit(auth: Authority)
      requires auth.Valid()
      modifies this, auth`reserved, auth`mapped, auth`log
      ensures auth.Valid()
      ensures ppruIomem.None?
      ensures old(ppruIomem).None? ==>
        auth.reserved == old(auth.reserved) && auth.mapped == old(auth.mapped) && auth.log == old(auth.log)
      ensures old(ppruIomem).Some? ==>
        && auth.mapped == old(auth.mapped) - multiset{old(ppruIomem).value}
        && auth.reserved == old(auth.reserved) - {PrussMem}
        && auth.log == old(auth.log) + [Unmapped(old(ppruIomem).value), Released(PrussMem)]
    {
      DeallocatePru(auth, ppruIomem);
      ppruIomem := None;
    }
  }
}

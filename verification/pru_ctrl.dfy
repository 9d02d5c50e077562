/** pru/pru_ctrl.c: claiming the PRU-ICSS1 ranges, the device context that
  * owns their mappings, and the clock-control register protocol. */
module PruCtrl {
  import opened Kernel

  datatype DeviceState = Enabled | Disabled

  /** The RAM window the data path reads and writes. */
  datatype RamTarget = Iram | Dram

  // enum pru_icss_index
  const PRU_ICSS1 := 0
  const PRU_ICSS2 := 1

  /** The four PRU-ICSS1 ranges, in the order every chain acquires them. */
  const PruWindows: seq<Region> := [ClkCtrl, PrussCfg, PruIram, PruDram]

  /** The four ranges are distinct, so the set they form has four members. */
  lemma WindowElems()
    ensures Elems(PruWindows) == {ClkCtrl, PrussCfg, PruIram, PruDram}
  {
  }

  /** Clock-control status field, bits 16-17. */
  const StatusMask: bv32 := 0x3_0000

  /** struct pru_context: the four mapped pointers and the selected RAM window. */
  class PruContext {
    var pclk: Option<Region>
    var pcfg: Option<Region>
    var piram: Option<Region>
    var pdram: Option<Region>
    var ramTarget: RamTarget

    /** A context as rtdm_fd_to_private hands it over: every pointer null,
      * the target IRAM. */
    constructor ()
      ensures AllNull() && ramTarget == Iram
    {
      pclk, pcfg, piram, pdram := None, None, None, None;
      ramTarget := Iram;
    }

    predicate AllNull()
      reads this
    {
      pclk.None? && pcfg.None? && piram.None? && pdram.None?
    }

    /** Fully initialised: every pointer maps its own range and is live. */
    ghost predicate Live(auth: Authority)
      reads this, auth
    {
      && pclk == Some(ClkCtrl) && pcfg == Some(PrussCfg) && piram == Some(PruIram) && pdram == Some(PruDram)
      && ClkCtrl in auth.mapped && PrussCfg in auth.mapped && PruIram in auth.mapped && PruDram in auth.mapped
    }

    /** pclk maps the clock register and that mapping is live. */
    ghost predicate ClockMapped(auth: Authority)
      reads this, auth
    {
      pclk == Some(ClkCtrl) && ClkCtrl in auth.mapped
    }

    /** pru_to_ram_ptr: the window ram_target selects. */
    function Window(auth: Authority): array<bv8>
      reads this
    {
      if ramTarget == Iram then auth.iram else auth.dram
    }

    /** The pointer to the selected window is a live mapping. */
    ghost predicate WindowMapped(auth: Authority)
      reads this, auth
    {
      if ramTarget == Iram then piram == Some(PruIram) && PruIram in auth.mapped
      else pdram == Some(PruDram) && PruDram in auth.mapped
    }
  }

  /** How far the claim chain gets: the number of ranges granted before the
    * first refusal, for each way the chain can end. */
  lemma GrantedWindows(held: set<Region>, faults: set<Region>)
    ensures ClkCtrl in held || ClkCtrl in faults ==> Granted(held, faults, PruWindows) == 0
    ensures ClkCtrl !in held && ClkCtrl !in faults && (PrussCfg in held || PrussCfg in faults) ==>
      Granted(held, faults, PruWindows) == 1
    ensures (ClkCtrl !in held && ClkCtrl !in faults && PrussCfg !in held && PrussCfg !in faults &&
             (PruIram in held || PruIram in faults)) ==> Granted(held, faults, PruWindows) == 2
    ensures (ClkCtrl !in held && ClkCtrl !in faults && PrussCfg !in held && PrussCfg !in faults &&
             PruIram !in held && PruIram !in faults) ==>
      Granted(held, faults, PruWindows) == if PruDram in held || PruDram in faults then 3 else 4
  {
    var w1, w2, w3 := [PrussCfg, PruIram, PruDram], [PruIram, PruDram], [PruDram];
    assert PruWindows[1..] == w1 && w1[1..] == w2 && w2[1..] == w3 && w3[1..] == [];
    assert Granted(held, faults, w3) == if PruDram in held || PruDram in faults then 0 else 1;
    assert Granted(held, faults, w2) == if PruIram in held || PruIram in faults then 0 else 1 + Granted(held, faults, w3);
    assert Granted(held, faults, w1) == if PrussCfg in held || PrussCfg in faults then 0 else 1 + Granted(held, faults, w2);
  }

  /** The four ranges' reservation and release events, written out. */
  lemma WindowEvents()
    ensures Reserves(PruWindows) ==
      [Reserved(ClkCtrl), Reserved(PrussCfg), Reserved(PruIram), Reserved(PruDram)]
    ensures Releases(PruWindows) ==
      [Released(ClkCtrl), Released(PrussCfg), Released(PruIram), Released(PruDram)]
  {
  }

  /** Unwinding the whole ladder reserves the four ranges, then releases
    * them newest first. */
  lemma UnwindWindows()
    ensures Unwind(PruWindows) == Reserves(PruWindows) +
      [Released(PruDram), Released(PruIram), Released(PrussCfg), Released(ClkCtrl)]
  {
    assert Reverse(PruWindows) == [PruDram, PruIram, PrussCfg, ClkCtrl];
    assert Releases([PruDram, PruIram, PrussCfg, ClkCtrl]) ==
      [Released(PruDram), Released(PruIram), Released(PrussCfg), Released(ClkCtrl)];
  }


  /** A range already reserved further up the ladder does not change how
    * far the rest of the ladder gets, provided the rest never asks for it. */
  lemma {:induction false} GrantedSkips(held: set<Region>, faults: set<Region>, a: Region, rest: seq<Region>)
    requires a !in rest
    ensures Granted(held + {a}, faults, rest) == Granted(held, faults, rest)
    decreases |rest|
  {
    if rest != [] {
      assert rest[0] != a;
      GrantedSkips(held, faults, a, rest[1..]);
    }
  }

  /** Reversing a list with a head puts the head last. */
  lemma ReverseCons(a: Region, xs: seq<Region>)
    ensures Reverse([a] + xs) == Reverse(xs) + [a]
  {
    var l, r := Reverse([a] + xs), Reverse(xs) + [a];
    assert |l| == |r|;
    forall i | 0 <= i < |l| ensures l[i] == r[i] {
      if i < |xs| {
        assert ([a] + xs)[|xs| - i] == xs[|xs| - 1 - i];
      }
    }
  }

  /** Releasing a list with a last element releases that element last. */
  lemma ReleasesSnoc(xs: seq<Region>, a: Region)
    ensures Releases(xs + [a]) == Releases(xs) + [Released(a)]
  {
    var l, r := Releases(xs + [a]), Releases(xs) + [Released(a)];
    assert |l| == |r|;
    forall i | 0 <= i < |l| ensures l[i] == r[i] {
      if i < |xs| {
        assert (xs + [a])[i] == xs[i];
      }
    }
  }

  /** Unwinding a ladder whose first step is a nests the rest's unwinding
    * between reserving and releasing a. */
  lemma UnwindCons(a: Region, xs: seq<Region>)
    ensures Unwind([a] + xs) == [Reserved(a)] + Unwind(xs) + [Released(a)]
  {
    var rs := [a] + xs;
    assert rs[1..] == xs;
    assert Reserves(rs) == [Reserved(a)] + Reserves(xs);
    ReverseCons(a, xs);
    ReleasesSnoc(Reverse(xs), a);
    var p, q := Reserves(xs), Releases(Reverse(xs));
    assert [Reserved(a)] + p + (q + [Released(a)]) == [Reserved(a)] + (p + q) + [Released(a)];
  }

  /** The first k+1 steps of a ladder unwind as its head around the first k
    * steps of its tail. */
  lemma UnwindStep(rs: seq<Region>, k: nat)
    requires k < |rs|
    ensures Unwind(rs[..k + 1]) == [Reserved(rs[0])] + Unwind(rs[1..][..k]) + [Released(rs[0])]
  {
    assert rs[..k + 1] == [rs[0]] + rs[1..][..k];
    UnwindCons(rs[0], rs[1..][..k]);
  }

  /** The ranges of a non-empty list are its head's and its tail's. */
  lemma ElemsCons(rs: seq<Region>)
    requires rs != []
    ensures Elems(rs) == {rs[0]} + Elems(rs[1..])
  {
    forall r ensures r in Elems(rs) <==> r in {rs[0]} + Elems(rs[1..]) {
      if r in rs && r != rs[0] {
        var i :| 0 <= i < |rs| && rs[i] == r;
        assert rs[1..][i - 1] == r;
      }
    }
  }

  /** No range is requested twice along a ladder. */
  predicate NoRepeats(rs: seq<Region>) {
    rs == [] || (rs[0] !in rs[1..] && NoRepeats(rs[1..]))
  }

  /** The claim ladder of pru_claim_memory_regions over a request list:
    * request the first range and stop if it is refused; otherwise climb the
    * rest of the ladder and, if that fails, release the first range, so
    * ranges come back newest first. */
  method ClaimChain(auth: Authority, rs: seq<Region>) returns (ok: bool)
    requires auth.Valid()
    requires NoRepeats(rs)
    modifies auth`reserved, auth`log
    ensures auth.Valid()
    ensures var k := Granted(old(auth.reserved), auth.reserveFaults, rs);
      && (ok <==> k == |rs|)
      && (ok ==> auth.reserved == old(auth.reserved) + Elems(rs) && auth.log == old(auth.log) + Reserves(rs))
      && (!ok ==> auth.reserved == old(auth.reserved) && auth.log == old(auth.log) + Unwind(rs[..k]))
    decreases |rs|, 1
  {
    if rs == [] {
      assert Elems(rs) == {};
      return true;
    }
    ghost var r0, l0 := auth.reserved, auth.log;
    var a, rest := rs[0], rs[1..];
    ok := auth.RequestMemRegion(a);
    if !ok {
      assert a in r0 || a in auth.reserveFaults;
      assert Granted(r0, auth.reserveFaults, rs) == 0;
      assert Unwind(rs[..0]) == [];
      return;
    }
    GrantedSkips(r0, auth.reserveFaults, a, rest);
    ghost var k := Granted(r0 + {a}, auth.reserveFaults, rest);
    assert Granted(r0, auth.reserveFaults, rs) == k + 1;
    ok := ClaimAbove(auth, a, rest, r0, l0);
    if ok {
      ElemsCons(rs);
      assert Reserves(rs) == [Reserved(a)] + Reserves(rest);
    } else {
      UnwindStep(rs, k);
    }
  }

  /** The ladder above a range a that was just granted: climb the rest and,
    * if that fails, release a last. */
  method ClaimAbove(auth: Authority, a: Region, rest: seq<Region>, ghost r0: set<Region>, ghost l0: seq<Event>)
      returns (ok: bool)
    requires auth.Valid() && NoRepeats(rest) && a !in rest && a !in r0
    requires auth.reserved == r0 + {a} && auth.log == l0 + [Reserved(a)]
    modifies auth`reserved, auth`log
    ensures auth.Valid()
    ensures var k := Granted(r0 + {a}, auth.reserveFaults, rest);
      && (ok <==> k == |rest|)
      && (ok ==> auth.reserved == r0 + {a} + Elems(rest) && auth.log == l0 + ([Reserved(a)] + Reserves(rest)))
      && (!ok ==> auth.reserved == r0 && auth.log == l0 + ([Reserved(a)] + Unwind(rest[..k]) + [Released(a)]))
    decreases |rest| + 1, 0
  {
    ghost var k := Granted(r0 + {a}, auth.reserveFaults, rest);
    ok := ClaimChain(auth, rest);
    if ok {
      Regroup(l0, Reserved(a), Reserves(rest));
      return;
    }
    assert auth.log == l0 + [Reserved(a)] + Unwind(rest[..k]);
    auth.ReleaseMemRegion(a);
    AddRemove(r0, a);
    Wrap(l0, Reserved(a), Unwind(rest[..k]), Released(a));
  }

  /** pru_claim_memory_regions: reserve CLK, CFG, IRAM, DRAM in that order;
    * when request k fails, release requests k-1..1 newest first. */
  method ClaimMemoryRegions(auth: Authority) returns (err: int)
    requires auth.Valid()
    modifies auth`reserved, auth`log
    ensures auth.Valid()
    ensures var k := Granted(old(auth.reserved), auth.reserveFaults, PruWindows);
      && (err == 0 <==> k == |PruWindows|)
      && (err == 0 ==>
            && auth.reserved == old(auth.reserved) + Elems(PruWindows)
            && auth.log == old(auth.log) + Reserves(PruWindows))
      && (err != 0 ==>
            && err == -ENOMEM
            && auth.reserved == old(auth.reserved)
            && auth.log == old(auth.log) + Unwind(PruWindows[..k]))
  {
    WindowElems();
    var ok := ClaimChain(auth, PruWindows);
    err := if ok then 0 else -ENOMEM;
  }

  /** pru_release_memory_regions: release all four, in acquisition order. */
  method ReleaseMemoryRegions(auth: Authority)
    requires auth.Valid()
    modifies auth`reserved, auth`log
    ensures auth.Valid()
    ensures auth.reserved == old(auth.reserved) - Elems(PruWindows)
    ensures auth.log == old(auth.log) + Releases(PruWindows)
  {
    ghost var r0, l0 := auth.reserved, auth.log;
    WindowEvents();
    auth.ReleaseMemRegion(ClkCtrl);
    auth.ReleaseMemRegion(PrussCfg);
    auth.ReleaseMemRegion(PruIram);
    auth.ReleaseMemRegion(PruDram);
    Extend4(l0, Released(ClkCtrl), Released(PrussCfg), Released(PruIram), Released(PruDram));
    MinusFour(r0, ClkCtrl, PrussCfg, PruIram, PruDram);
  }

  /** pru_free_context: unmap exactly the non-null pointers, in field order,
    * and null all four. A null context is left as it is. */
  method FreeContext(ctx: PruContext?, auth: Authority)
    requires auth.Valid()
    modifies ctx, auth`mapped, auth`log
    ensures auth.Valid()
    ensures ctx == null ==> auth.mapped == old(auth.mapped) && auth.log == old(auth.log)
    ensures ctx != null ==>
      && ctx.AllNull() && ctx.ramTarget == old(ctx.ramTarget)
      && auth.mapped == Drop(Drop(Drop(Drop(old(auth.mapped), old(ctx.pclk)), old(ctx.pcfg)), old(ctx.piram)), old(ctx.pdram))
      && auth.log == old(auth.log) + UnmapLog(old(ctx.pclk)) + UnmapLog(old(ctx.pcfg))
                                   + UnmapLog(old(ctx.piram)) + UnmapLog(old(ctx.pdram))
  {
    if ctx == null {
      return;
    }
    auth.IounmapIfSet(ctx.pclk);
    auth.IounmapIfSet(ctx.pcfg);
    auth.IounmapIfSet(ctx.piram);
    auth.IounmapIfSet(ctx.pdram);
    ctx.pclk := None;
    ctx.pcfg := None;
    ctx.piram := None;
    ctx.pdram := None;
  }

  /** Freeing a context that holds nothing changes nothing. */
  lemma FreeNothing(m: multiset<Region>)
    ensures Drop(Drop(Drop(Drop(m, None), None), None), None) == m
    ensures UnmapLog(None) + UnmapLog(None) + UnmapLog(None) + UnmapLog(None) == []
  {
  }

  /** The four ioremap calls of pru_init_context, issued unconditionally in
    * acquisition order. */
  method MapWindows(auth: Authority) returns (clk: Option<Region>, cfg: Option<Region>, iram: Option<Region>, dram: Option<Region>)
    requires auth.Valid()
    modifies auth`mapped, auth`log
    ensures auth.Valid()
    ensures clk == Attempt(ClkCtrl, auth.mapFaults) && cfg == Attempt(PrussCfg, auth.mapFaults)
    ensures iram == Attempt(PruIram, auth.mapFaults) && dram == Attempt(PruDram, auth.mapFaults)
    ensures auth.mapped == Put(Put(Put(Put(old(auth.mapped), clk), cfg), iram), dram)
    ensures auth.log == old(auth.log) + MapLog(clk) + MapLog(cfg) + MapLog(iram) + MapLog(dram)
  {
    clk := auth.Ioremap(ClkCtrl);
    cfg := auth.Ioremap(PrussCfg);
    iram := auth.Ioremap(PruIram);
    dram := auth.Ioremap(PruDram);
  }

  /** pru_init_context: a null context or an index other than PRU_ICSS1 gives
    * -EINVAL with nothing mapped. For PRU_ICSS1 all four ioremaps are issued
    * before any is checked: success iff all four are non-null; otherwise the
    * non-null ones are unmapped in acquisition order, not newest first, every
    * field is nulled and -EIO is returned. Pointers the context held before
    * are overwritten without being unmapped. */
  method InitContext(ctx: PruContext?, pruNum: int, auth: Authority) returns (err: int)
    requires auth.Valid()
    modifies ctx, auth`mapped, auth`log
    ensures auth.Valid()
    ensures ctx == null ==> err == -EINVAL && auth.mapped == old(auth.mapped) && auth.log == old(auth.log)
    ensures ctx != null ==> ctx.ramTarget == Iram
    ensures ctx != null && pruNum != PRU_ICSS1 ==>
      err == -EINVAL && ctx.AllNull() && auth.mapped == old(auth.mapped) && auth.log == old(auth.log)
    ensures ctx != null && pruNum == PRU_ICSS1 ==>
      var a, b, c, d := Attempt(ClkCtrl, auth.mapFaults), Attempt(PrussCfg, auth.mapFaults),
                        Attempt(PruIram, auth.mapFaults), Attempt(PruDram, auth.mapFaults);
      && (err == 0 <==> a.Some? && b.Some? && c.Some? && d.Some?)
      && (err == 0 ==>
            && ctx.Live(auth)
            && auth.mapped == Put(Put(Put(Put(old(auth.mapped), a), b), c), d)
            && auth.log == old(auth.log) + MapLog(a) + MapLog(b) + MapLog(c) + MapLog(d))
      && (err != 0 ==>
            && err == -EIO && ctx.AllNull()
            && auth.mapped == old(auth.mapped)
            && auth.log == old(auth.log) + MapLog(a) + MapLog(b) + MapLog(c) + MapLog(d)
                                         + UnmapLog(a) + UnmapLog(b) + UnmapLog(c) + UnmapLog(d))
  {
    err := -EINVAL;
    if ctx == null {
      return;
    }
    ctx.pclk := None;
    ctx.pcfg := None;
    ctx.piram := None;
    ctx.pdram := None;
    ctx.ramTarget := Iram;
    assert ctx.AllNull() && ctx.ramTarget == Iram;

    ghost var m0 := auth.mapped;
    if pruNum != PRU_ICSS1 {
      // PRU-ICSS2 and unknown indices map nothing; lines 74-82 then run on
      // four null pointers.
      FreeNothing(m0);
      FreeContext(ctx, auth);
      return;
    }
    err := InitIcss1(ctx, auth);
  }

  /** The PRU-ICSS1 branch of pru_init_context: map the four windows into the
    * context; if any mapping is null, unmap the others again (-EIO). */
  method InitIcss1(ctx: PruContext, auth: Authority) returns (err: int)
    requires auth.Valid() && ctx.ramTarget == Iram
    modifies ctx, auth`mapped, auth`log
    ensures auth.Valid() && ctx.ramTarget == Iram
    ensures var a, b, c, d := Attempt(ClkCtrl, auth.mapFaults), Attempt(PrussCfg, auth.mapFaults),
                              Attempt(PruIram, auth.mapFaults), Attempt(PruDram, auth.mapFaults);
      && (err == 0 <==> a.Some? && b.Some? && c.Some? && d.Some?)
      && (err == 0 ==>
            && ctx.Live(auth)
            && auth.mapped == Put(Put(Put(Put(old(auth.mapped), a), b), c), d)
            && auth.log == old(auth.log) + MapLog(a) + MapLog(b) + MapLog(c) + MapLog(d))
      && (err != 0 ==>
            && err == -EIO && ctx.AllNull()
            && auth.mapped == old(auth.mapped)
            && auth.log == old(auth.log) + MapLog(a) + MapLog(b) + MapLog(c) + MapLog(d)
                                         + UnmapLog(a) + UnmapLog(b) + UnmapLog(c) + UnmapLog(d))
  {
    ghost var m0 := auth.mapped;
    var clk, cfg, iram, dram := MapWindows(auth);
    ctx.pclk, ctx.pcfg, ctx.piram, ctx.pdram := clk, cfg, iram, dram;
    assert ctx.pclk == clk && ctx.pcfg == cfg && ctx.piram == iram && ctx.pdram == dram;
    assert ctx.ramTarget == Iram;
    if clk.Some? && cfg.Some? && iram.Some? && dram.Some? {
      return 0;
    }
    err := -EIO;
    PutDropFour(m0, clk, cfg, iram, dram);
    FreeContext(ctx, auth);
  }

  /** The request field update pru_set_device_state_async writes:
    * bits 0-1 cleared, then bit 1 set when enabling. */
  function RequestWord(v: bv32, s: DeviceState): (w: bv32)
    ensures w & !3 == v & !3
    ensures w & 3 == if s == Enabled then 2 else 0
  {
    (v & !3) | (if s == Enabled then 2 else 0)
  }

  /** Clearing bits 0-1, as pru_close does inline, is the DISABLED request. */
  lemma ClearIsDisable(v: bv32)
    ensures v & !3 == RequestWord(v, Disabled)
  {
  }

  /** Only the last request counts: a second request overwrites the field. */
  lemma LastRequestWins(v: bv32, s: DeviceState, t: DeviceState)
    ensures RequestWord(RequestWord(v, s), t) == RequestWord(v, t)
  {
  }

  /** The test pru_wait_for_device_state applies (line 123): enabled only
    * when both status bits are clear. */
  function PolledEnabled(v: bv32): (b: bool)
    ensures b <==> v & 0x1_0000 == 0 && v & 0x2_0000 == 0
  {
    v & StatusMask == 0
  }

  /** The decode pru_get_device_state applies (line 137): disabled only when
    * both status bits are set. */
  function DecodeState(v: bv32): (s: DeviceState)
    ensures s == Disabled <==> v & 0x1_0000 != 0 && v & 0x2_0000 != 0
  {
    if v & StatusMask == StatusMask then Disabled else Enabled
  }

  /** The two decodes disagree exactly when one status bit is set: such a
    * value is not enabled for the wait loop yet reads as ENABLED. */
  lemma DecodesDisagree(v: bv32)
    ensures PolledEnabled(v) != (DecodeState(v) == Enabled) <==> (v & 0x1_0000 == 0) != (v & 0x2_0000 == 0)
    ensures PolledEnabled(v) ==> DecodeState(v) == Enabled
  {
  }

  /** pru_set_device_state_async: read-modify-write of the clock register. */
  method SetDeviceStateAsync(ctx: PruContext, auth: Authority, state: DeviceState)
    requires auth.Valid() && ctx.ClockMapped(auth)
    modifies auth`regs
    ensures auth.Valid()
    ensures auth.regs == old(auth.regs)[ClkCtrl := RequestWord(old(auth.regs[ClkCtrl]), state)]
  {
    var tmp := auth.Ioread32(ClkCtrl);
    tmp := RequestWord(tmp, state);  // tmp &= ~0x3; if enabling, tmp |= 2
    auth.Iowrite32(ClkCtrl, tmp);
  }

  /** pru_get_device_state: one read, decoded. */
  method GetDeviceState(ctx: PruContext, auth: Authority) returns (s: DeviceState)
    requires auth.Valid() && ctx.ClockMapped(auth)
    ensures s == DecodeState(auth.regs[ClkCtrl])
    ensures s == Disabled <==> auth.regs[ClkCtrl] & StatusMask == StatusMask
  {
    var regval := auth.Ioread32(ClkCtrl);
    if regval & StatusMask == StatusMask {
      return Disabled;
    }
    return Enabled;
  }

  /** The hardware and clock seen by one wait: polls[i] is the register value
    * read on poll i, clock[0] the start time and clock[i + 1] the time read
    * after poll i. The last reading lies past the deadline, so the loop ends. */
  predicate Clocked(timeoutNs: int, polls: seq<bv32>, clock: seq<int>) {
    |polls| >= 1 && |clock| == |polls| + 1 && clock[|polls|] - clock[0] > timeoutNs
  }

  predicate Settled(v: bv32, target: DeviceState) {
    if target == Enabled then PolledEnabled(v) else !PolledEnabled(v)
  }

  /** The do-while condition is false after poll j. */
  predicate Stops(target: DeviceState, timeoutNs: int, polls: seq<bv32>, clock: seq<int>, j: nat)
    requires Clocked(timeoutNs, polls, clock) && j < |polls|
  {
    Settled(polls[j], target) || clock[j + 1] - clock[0] > timeoutNs
  }

  /** The first poll at or after `from` after which the loop stops. */
  function FirstStop(target: DeviceState, timeoutNs: int, polls: seq<bv32>, clock: seq<int>, from: nat): (k: nat)
    requires Clocked(timeoutNs, polls, clock) && from < |polls|
    ensures from <= k < |polls|
    ensures Stops(target, timeoutNs, polls, clock, k)
    ensures forall j :: from <= j < k ==> !Stops(target, timeoutNs, polls, clock, j)
    decreases |polls| - from
  {
    if Stops(target, timeoutNs, polls, clock, from) then from
    else FirstStop(target, timeoutNs, polls, clock, from + 1)
  }

  /** What pru_wait_for_device_state returns: the timeout minus the time
    * elapsed at the last poll. */
  function Remaining(target: DeviceState, timeoutNs: int, polls: seq<bv32>, clock: seq<int>): (r: int)
    requires Clocked(timeoutNs, polls, clock)
    ensures var k := FirstStop(target, timeoutNs, polls, clock, 0);
      && (r >= 0 ==> Settled(polls[k], target))
      && (!Settled(polls[k], target) ==> r < 0)
      && (clock[1] - clock[0] > timeoutNs ==> k == 0)
  {
    var k := FirstStop(target, timeoutNs, polls, clock, 0);
    timeoutNs - (clock[k + 1] - clock[0])
  }

  /** pru_wait_for_device_state: poll at least once, stop when the target
    * state is seen or the elapsed time exceeds the timeout, and return the
    * signed time left at the last poll. */
  method WaitForDeviceState(target: DeviceState, timeoutNs: int, polls: seq<bv32>, clock: seq<int>)
    returns (remaining: int)
    requires Clocked(timeoutNs, polls, clock)
    ensures remaining == Remaining(target, timeoutNs, polls, clock)
    ensures var k := FirstStop(target, timeoutNs, polls, clock, 0);
      && remaining == timeoutNs - (clock[k + 1] - clock[0])
      && (remaining >= 0 ==> Settled(polls[k], target))
      && (!Settled(polls[k], target) ==> remaining < 0)
    ensures clock[1] - clock[0] > timeoutNs ==> remaining == timeoutNs - (clock[1] - clock[0])
  {
    var polled := 0;
    var isExpectedState := false;
    var deltaNs := 0;
    while polled == 0 || (!isExpectedState && deltaNs <= timeoutNs)
      invariant 0 <= polled <= |polls|
      invariant polled > 0 ==>
        && isExpectedState == Settled(polls[polled - 1], target)
        && deltaNs == clock[polled] - clock[0]
      invariant forall j :: 0 <= j < polled - 1 ==> !Stops(target, timeoutNs, polls, clock, j)
      decreases |polls| - polled
    {
      var val := polls[polled];
      var isEnabled := PolledEnabled(val);
      if target == Enabled {
        isExpectedState := isEnabled;
      } else {
        isExpectedState := !isEnabled;
      }
      deltaNs := clock[polled + 1] - clock[0];
      polled := polled + 1;
    }
    ghost var k := FirstStop(target, timeoutNs, polls, clock, 0);
    assert Stops(target, timeoutNs, polls, clock, polled - 1);
    assert k == polled - 1;
    remaining := timeoutNs - deltaNs;
  }
}

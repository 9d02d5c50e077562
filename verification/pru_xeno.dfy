/** pru/pru_xeno.c: the RTDM driver for PRU-ICSS1. open/close bracket the
  * device context and the clock gating, read_rt/write_rt move bytes between
  * the caller and the selected RAM window, ioctl_rt selects that window, and
  * init/exit own the four region reservations. */
module PruXeno {
  import opened Kernel
  import opened PruCtrl

  /** DEVICE_STATE_WAIT_TIMEOUT_NS, one second. */
  const DEVICE_STATE_WAIT_TIMEOUT_NS := 1000 * 1000 * 1000

  // The ioctl codes selecting the RAM window; only their distinctness matters.
  const PRU_ACCESS_IRAM: nat := 0
  const PRU_ACCESS_DRAM: nat := 1

  /** The window an ioctl request selects, if it names one. */
  function TargetOf(request: nat): (t: Option<RamTarget>)
    ensures t.Some? <==> request == PRU_ACCESS_IRAM || request == PRU_ACCESS_DRAM
  {
    if request == PRU_ACCESS_IRAM then Some(Iram)
    else if request == PRU_ACCESS_DRAM then Some(Dram)
    else None
  }

  /** The ioctl request that selects a window. */
  function RequestFor(t: RamTarget): nat {
    if t == Iram then PRU_ACCESS_IRAM else PRU_ACCESS_DRAM
  }

  /** Every window has exactly one request selecting it. */
  lemma TargetRoundTrip(t: RamTarget, request: nat)
    ensures TargetOf(RequestFor(t)) == Some(t)
    ensures TargetOf(request) == Some(t) <==> request == RequestFor(t)
  {
  }

  /** pru_open: initialise the context; on failure return its error with the
    * clock register untouched. Otherwise request ENABLED and wait; if the
    * wait runs out, request DISABLED, free the context and return -EIO.
    * The status samples the wait reads and the clock are given. */
  method Open(ctx: PruContext, auth: Authority, polls: seq<bv32>, clock: seq<int>) returns (res: int)
    requires auth.Valid() && Clocked(DEVICE_STATE_WAIT_TIMEOUT_NS, polls, clock)
    modifies ctx, auth`mapped, auth`log, auth`regs
    ensures auth.Valid()
    ensures var a, b, c, d := Attempt(ClkCtrl, auth.mapFaults), Attempt(PrussCfg, auth.mapFaults),
                              Attempt(PruIram, auth.mapFaults), Attempt(PruDram, auth.mapFaults);
      var rem := Remaining(Enabled, DEVICE_STATE_WAIT_TIMEOUT_NS, polls, clock);
      && (!(a.Some? && b.Some? && c.Some? && d.Some?) ==>
            && res == -EIO && ctx.AllNull()
            && auth.regs == old(auth.regs) && auth.mapped == old(auth.mapped)
            && auth.log == old(auth.log) + MapLog(a) + MapLog(b) + MapLog(c) + MapLog(d)
                                         + UnmapLog(a) + UnmapLog(b) + UnmapLog(c) + UnmapLog(d))
      && (a.Some? && b.Some? && c.Some? && d.Some? && rem < 0 ==>
            && res == -EIO && ctx.AllNull()
            && auth.regs == old(auth.regs)[ClkCtrl := RequestWord(old(auth.regs[ClkCtrl]), Disabled)]
            && auth.mapped == old(auth.mapped)
            && auth.log == old(auth.log) + MapLog(a) + MapLog(b) + MapLog(c) + MapLog(d)
                                         + UnmapLog(a) + UnmapLog(b) + UnmapLog(c) + UnmapLog(d))
      && (a.Some? && b.Some? && c.Some? && d.Some? && rem >= 0 ==>
            && res == 0 && ctx.Live(auth) && ctx.ramTarget == Iram
            && auth.regs == old(auth.regs)[ClkCtrl := RequestWord(old(auth.regs[ClkCtrl]), Enabled)]
            && auth.mapped == Put(Put(Put(Put(old(auth.mapped), a), b), c), d)
            && auth.log == old(auth.log) + MapLog(a) + MapLog(b) + MapLog(c) + MapLog(d))
  {
    ghost var m0, l0, r0 := auth.mapped, auth.log, auth.regs;
    ghost var a, b, c, d := Attempt(ClkCtrl, auth.mapFaults), Attempt(PrussCfg, auth.mapFaults),
                            Attempt(PruIram, auth.mapFaults), Attempt(PruDram, auth.mapFaults);
    res := InitContext(ctx, PRU_ICSS1, auth);
    if res != 0 {
      return;
    }
    assert a == Some(ClkCtrl) && b == Some(PrussCfg) && c == Some(PruIram) && d == Some(PruDram);
    ghost var m1, l1 := auth.mapped, auth.log;
    assert m1 == Put(Put(Put(Put(m0, a), b), c), d);
    assert l1 == l0 + MapLog(a) + MapLog(b) + MapLog(c) + MapLog(d);
    SetDeviceStateAsync(ctx, auth, Enabled);
    var timeLeft := WaitForDeviceState(Enabled, DEVICE_STATE_WAIT_TIMEOUT_NS, polls, clock);
    if timeLeft < 0 {
      ghost var r1 := auth.regs;
      assert r1 == r0[ClkCtrl := RequestWord(r0[ClkCtrl], Enabled)];
      Abandon(ctx, auth);
      LastRequestWins(r0[ClkCtrl], Enabled, Disabled);
      UpdateTwice(r0, ClkCtrl, RequestWord(r0[ClkCtrl], Enabled), RequestWord(r0[ClkCtrl], Disabled));
      PutDropFour(m0, a, b, c, d);
      res := -EIO;
    } else {
      res := 0;
    }
  }

  /** The timeout path of pru_open: request DISABLED, then free the live
    * context. */
  method Abandon(ctx: PruContext, auth: Authority)
    requires auth.Valid() && ctx.Live(auth)
    modifies ctx, auth`regs, auth`mapped, auth`log
    ensures auth.Valid() && ctx.AllNull() && ctx.ramTarget == old(ctx.ramTarget)
    ensures auth.regs == old(auth.regs)[ClkCtrl := RequestWord(old(auth.regs[ClkCtrl]), Disabled)]
    ensures auth.mapped == Drop(Drop(Drop(Drop(old(auth.mapped), Some(ClkCtrl)), Some(PrussCfg)), Some(PruIram)), Some(PruDram))
    ensures auth.log == old(auth.log) + UnmapLog(Some(ClkCtrl)) + UnmapLog(Some(PrussCfg))
                                      + UnmapLog(Some(PruIram)) + UnmapLog(Some(PruDram))
  {
    SetDeviceStateAsync(ctx, auth, Disabled);
    assert ctx.pclk == Some(ClkCtrl) && ctx.pcfg == Some(PrussCfg) && ctx.piram == Some(PruIram) && ctx.pdram == Some(PruDram);
    FreeContext(ctx, auth);
  }

  /** pru_close: clear the request field of the clock register, keeping every
    * other bit, then free the context. */
  method Close(ctx: PruContext, auth: Authority)
    requires auth.Valid() && ctx.ClockMapped(auth)
    modifies ctx, auth`regs, auth`mapped, auth`log
    ensures auth.Valid()
    ensures auth.regs == old(auth.regs)[ClkCtrl := RequestWord(old(auth.regs[ClkCtrl]), Disabled)]
    ensures ctx.AllNull() && ctx.ramTarget == old(ctx.ramTarget)
    ensures auth.mapped == Drop(Drop(Drop(Drop(old(auth.mapped), old(ctx.pclk)), old(ctx.pcfg)), old(ctx.piram)), old(ctx.pdram))
    ensures auth.log == old(auth.log) + UnmapLog(old(ctx.pclk)) + UnmapLog(old(ctx.pcfg))
                                      + UnmapLog(old(ctx.piram)) + UnmapLog(old(ctx.pdram))
  {
    var tmp := auth.Ioread32(ClkCtrl);
    ClearIsDisable(tmp);
    tmp := tmp & !3;
    auth.Iowrite32(ClkCtrl, tmp);
    FreeContext(ctx, auth);
  }

  /** pru_read_rt: copy the whole selected window into a fresh buffer, then
    * hand the caller its first min(window, size) bytes. A null context gives
    * -EINVAL, a failed allocation -ENOMEM, and a failed copy to the caller
    * the copy's own error. `allocOk` and `copyResult` are what rtdm_malloc
    * and rtdm_copy_to_user decide; `out` is what reaches the caller. */
  method ReadRt(ctx: PruContext?, auth: Authority, size: nat, allocOk: bool, copyResult: int)
    returns (res: int, out: seq<bv8>)
    requires ctx != null ==> ctx.WindowMapped(auth)
    ensures ctx == null ==> res == -EINVAL && out == []
    ensures ctx != null && !allocOk ==> res == -ENOMEM && out == []
    ensures ctx != null && allocOk && copyResult != 0 ==> res == copyResult && out == []
    ensures ctx != null && allocOk && copyResult == 0 ==>
      && res == Min(ctx.Window(auth).Length, size)
      && out == ctx.Window(auth)[..res]
  {
    if ctx == null {
      return -EINVAL, [];
    }
    var ram := ctx.Window(auth);
    var ramSize := ram.Length;
    if !allocOk {
      return -ENOMEM, [];
    }
    var kbuf := new bv8[ramSize];
    forall i | 0 <= i < ramSize {
      kbuf[i] := ram[i];
    }
    var n := Min(ramSize, size);
    if copyResult != 0 {
      return copyResult, [];
    }
    return n, kbuf[..n];
  }

  /** pru_write_rt: copy min(size, window) bytes from the caller into a fresh
    * buffer, then into the start of the selected window, and return that
    * count; the rest of the window keeps its bytes. A failed allocation or
    * a failed copy from the caller leaves the window untouched. There is no
    * null check. `data` is the caller's buffer. */
  method WriteRt(ctx: PruContext, auth: Authority, data: seq<bv8>, allocOk: bool, copyResult: int)
    returns (res: int)
    requires ctx.WindowMapped(auth)
    modifies ctx.Window(auth)
    ensures !allocOk ==> res == -ENOMEM && unchanged(ctx.Window(auth))
    ensures allocOk && copyResult != 0 ==> res == copyResult && unchanged(ctx.Window(auth))
    ensures allocOk && copyResult == 0 ==>
      var n := Min(|data|, ctx.Window(auth).Length);
      && res == n
      && ctx.Window(auth)[..] == data[..n] + old(ctx.Window(auth)[..])[n..]
  {
    var ram := ctx.Window(auth);
    var ramSize := ram.Length;
    if !allocOk {
      return -ENOMEM;
    }
    var n := Min(|data|, ramSize);
    var kbuf := new bv8[ramSize];
    if copyResult != 0 {
      return copyResult;
    }
    forall i | 0 <= i < n {
      kbuf[i] := data[i];
    }
    forall i | 0 <= i < n {
      ram[i] := kbuf[i];
    }
    assert ram[..] == data[..n] + old(ram[..])[n..];
    return n;
  }

  /** pru_read: the non-real-time read transfers nothing. */
  method Read(size: nat) returns (res: int)
    ensures res == 0
  {
    return 0;
  }

  /** pru_write: the non-real-time write transfers nothing. */
  method Write(data: seq<bv8>) returns (res: int)
    ensures res == 0
  {
    return 0;
  }

  /** pru_ioctl_rt: select the RAM window the data path uses. */
  method IoctlRt(ctx: PruContext, request: nat) returns (res: int)
    modifies ctx`ramTarget
    ensures TargetOf(request).Some? ==> res == 0 && ctx.ramTarget == TargetOf(request).value
    ensures TargetOf(request).None? ==> res == -EINVAL && ctx.ramTarget == old(ctx.ramTarget)
  {
    if request == PRU_ACCESS_IRAM || request == PRU_ACCESS_DRAM {
      ctx.ramTarget := if request == PRU_ACCESS_IRAM then Iram else Dram;
      return 0;
    }
    return -EINVAL;
  }

  /** pru_ioctl: the non-real-time ioctl is refused. */
  method Ioctl(request: nat) returns (res: int)
    ensures res == -EPERM
  {
    return -EPERM;
  }

  /** pru_mmap: mapping the device is refused. */
  method Mmap() returns (res: int)
    ensures res == -EPERM
  {
    return -EPERM;
  }

  /** The registered device: device_data is non-null while the driver owns
    * the four reservations. */
  class PruDevice {
    var deviceData: bool

    constructor ()
      ensures !deviceData
    {
      deviceData := false;
    }
  }

  /** After all four grants, releasing IRAM, CFG and CLK leaves exactly DRAM
    * added to what was reserved before. */
  lemma ReleaseThreeOfFour(r0: set<Region>)
    requires ClkCtrl !in r0 && PrussCfg !in r0 && PruIram !in r0
    ensures r0 + {ClkCtrl} + {PrussCfg} + {PruIram} + {PruDram} - {PruIram} - {PrussCfg} - {ClkCtrl} == r0 + {PruDram}
  {
  }

  /** pru_init as written: the claim ladder of pru_claim_memory_regions, then
    * device_data is set and the device registered. When registration fails
    * (`registerResult`, what rtdm_dev_register returns, is nonzero) control
    * falls into do_free_iram: IRAM, CFG and CLK are released, DRAM stays
    * reserved and device_data stays set. */
  method Init(dev: PruDevice, auth: Authority, registerResult: int) returns (ret: int)
    requires auth.Valid()
    modifies dev, auth`reserved, auth`log
    ensures auth.Valid()
    ensures var k := Granted(old(auth.reserved), auth.reserveFaults, PruWindows);
      && (k < |PruWindows| ==>
            && ret == -ENOMEM && dev.deviceData == old(dev.deviceData)
            && auth.reserved == old(auth.reserved)
            && auth.log == old(auth.log) + Unwind(PruWindows[..k]))
      && (k == |PruWindows| && registerResult == 0 ==>
            && ret == 0 && dev.deviceData
            && auth.reserved == old(auth.reserved) + Elems(PruWindows)
            && auth.log == old(auth.log) + Reserves(PruWindows))
      && (k == |PruWindows| && registerResult != 0 ==>
            && ret == registerResult && dev.deviceData
            && auth.reserved == old(auth.reserved) + {PruDram}
            && auth.log == old(auth.log) + Reserves(PruWindows)
                                         + [Released(PruIram), Released(PrussCfg), Released(ClkCtrl)])
  {
    ghost var r0 := auth.reserved;
    GrantedWindows(r0, auth.reserveFaults);
    ret := -ENOMEM;
    // Lines 162-173 repeat pru_claim_memory_regions, failure ladder included.
    var err := ClaimMemoryRegions(auth);
    if err != 0 {
      return;
    }
    ghost var l4 := auth.log;
    dev.deviceData := true;
    ret := registerResult;
    if ret == 0 {
      return;
    }
    auth.ReleaseMemRegion(PruIram);
    auth.ReleaseMemRegion(PrussCfg);
    auth.ReleaseMemRegion(ClkCtrl);
    ReleaseThreeOfFour(r0);
    Extend2(l4, Released(PruIram), Released(PrussCfg));
  }

  /** The leak pru_init leaves behind: replaying its registration-failure
    * path from holdings that owned none of the four ranges ends with DRAM
    * still reserved. */
  lemma InitLeaksDram(h: Holdings)
    requires Elems(PruWindows) !! h.reserved
    ensures Replay(h, Reserves(PruWindows) + Releases([PruIram, PrussCfg, ClkCtrl])).reserved == h.reserved + {PruDram}
    ensures PruDram in Replay(h, Reserves(PruWindows) + Releases([PruIram, PrussCfg, ClkCtrl])).reserved
  {
    ReplayConcat(h, Reserves(PruWindows), Releases([PruIram, PrussCfg, ClkCtrl]));
    ReplayReserves(h, PruWindows);
    ReplayReleases(h.(reserved := h.reserved + Elems(PruWindows)), [PruIram, PrussCfg, ClkCtrl]);
    WindowElems();
    assert Elems([PruIram, PrussCfg, ClkCtrl]) == {PruIram, PrussCfg, ClkCtrl};
  }

  /** pru_init as evidently intended: a failed registration releases DRAM as
    * well, newest first, and clears device_data, so every failure path gives
    * back exactly what it took. */
  method InitReleasingAll(dev: PruDevice, auth: Authority, registerResult: int) returns (ret: int)
    requires auth.Valid()
    modifies dev, auth`reserved, auth`log
    ensures auth.Valid()
    ensures var k := Granted(old(auth.reserved), auth.reserveFaults, PruWindows);
      && (ret == 0 <==> k == |PruWindows| && registerResult == 0)
      && (ret == 0 ==>
            && dev.deviceData
            && auth.reserved == old(auth.reserved) + Elems(PruWindows)
            && auth.log == old(auth.log) + Reserves(PruWindows))
      && (ret != 0 ==>
            && dev.deviceData == old(dev.deviceData && k < |PruWindows|)
            && auth.reserved == old(auth.reserved)
            && auth.log == old(auth.log) + Unwind(PruWindows[..k]))
  {
    ghost var r0, l0 := auth.reserved, auth.log;
    GrantedWindows(r0, auth.reserveFaults);
    var err := ClaimMemoryRegions(auth);
    if err != 0 {
      return -ENOMEM;
    }
    ghost var l4 := auth.log;
    dev.deviceData := true;
    ret := registerResult;
    if ret == 0 {
      return;
    }
    dev.deviceData := false;
    ReleaseNewestFirst(auth);
    WindowElems();
    assert r0 + Elems(PruWindows) - Elems(PruWindows) == r0 by {
      assert forall x :: x in r0 + Elems(PruWindows) - Elems(PruWindows) <==> x in r0;
    }
    UnwindWindows();
    Append(l0, Reserves(PruWindows),
      [Released(PruDram), Released(PruIram), Released(PrussCfg), Released(ClkCtrl)]);
    assert PruWindows[..4] == PruWindows;
  }

  /** The unwinding InitReleasingAll adds: DRAM, IRAM, CFG, CLK. */
  method ReleaseNewestFirst(auth: Authority)
    requires auth.Valid()
    modifies auth`reserved, auth`log
    ensures auth.Valid()
    ensures auth.reserved == old(auth.reserved) - Elems(PruWindows)
    ensures auth.log == old(auth.log) + [Released(PruDram), Released(PruIram), Released(PrussCfg), Released(ClkCtrl)]
  {
    ghost var l0 := auth.log;
    auth.ReleaseMemRegion(PruDram);
    auth.ReleaseMemRegion(PruIram);
    auth.ReleaseMemRegion(PrussCfg);
    auth.ReleaseMemRegion(ClkCtrl);
    Extend4(l0, Released(PruDram), Released(PruIram), Released(PrussCfg), Released(ClkCtrl));
  }

  /** pru_exit: if device_data is set, release the four ranges in
    * acquisition order and clear it. */
  method Exit(dev: PruDevice, auth: Authority)
    requires auth.Valid()
    modifies dev, auth`reserved, auth`log
    ensures auth.Valid()
    ensures !dev.deviceData
    ensures old(dev.deviceData) ==>
      auth.reserved == old(auth.reserved) - Elems(PruWindows) && auth.log == old(auth.log) + Releases(PruWindows)
    ensures !old(dev.deviceData) ==> auth.reserved == old(auth.reserved) && auth.log == old(auth.log)
  {
    if dev.deviceData {
      // Lines 200-203 repeat pru_release_memory_regions.
      ReleaseMemoryRegions(auth);
      dev.deviceData := false;
    }
  }
}

/** xenomai/led/led.c: the RTDM driver for the user LED. open reserves and
  * maps the GPIO data-out and output-enable registers with a rollback on
  * every failure, close gives back whatever is still held, write stores a
  * word into data-out, read hands out a ramp of bytes, ioctl refuses. */
module XenoLed {
  import opened Kernel

  /** The size of the static `kernel_buf` led_read fills. */
  const KERNEL_BUF_LEN := 100

  /** The per-open context, struct led_context: the two region handles
    * (non-null while the range is reserved) and the two mapped pointers. */
  class LedContext {
    var ctrlRegion: bool
    var oeRegion: bool
    var ctrl: Option<Region>
    var oe: Option<Region>

    constructor ()
      ensures Closed()
    {
      ctrlRegion, oeRegion, ctrl, oe := false, false, None, None;
    }

    /** Every field null: nothing held. */
    predicate Closed()
      reads this
    {
      !ctrlRegion && !oeRegion && ctrl.None? && oe.None?
    }

    /** The state a successful open leaves. */
    ghost predicate Live(auth: Authority)
      reads this, auth
    {
      && ctrlRegion && oeRegion && ctrl == Some(LedDataOut) && oe == Some(LedOe)
      && LedDataOut in auth.mapped && LedOe in auth.mapped
    }
  }

  /** The reservation a region handle stands for. */
  function Held(handle: bool, r: Region): set<Region> {
    if handle then {r} else {}
  }

  /** The events `if (region) release_mem_region(...)` logs. */
  function ReleaseLog(handle: bool, r: Region): seq<Event> {
    if handle then [Released(r)] else []
  }

  /** The events each led_open outcome logs, by how far it got. */
  const RefusedOeLog := [Reserved(LedDataOut), Released(LedDataOut)]
  const UnmappedCtrlLog := [Reserved(LedDataOut), Reserved(LedOe), Released(LedDataOut), Released(LedOe)]
  const UnmappedOeLog := [Reserved(LedDataOut), Reserved(LedOe), Mapped(LedDataOut),
                          Released(LedDataOut), Released(LedOe), Unmapped(LedDataOut)]
  const OpenLog := [Reserved(LedDataOut), Reserved(LedOe), Mapped(LedDataOut), Mapped(LedOe)]
  /** What led_close logs after a successful open. */
  const CloseLog := [Unmapped(LedDataOut), Unmapped(LedOe), Released(LedDataOut), Released(LedOe)]

  /** led_open: reserve data-out, reserve OE, map data-out, map OE, then
    * write 0 to OE (every pin an output). A failure at any step gives back
    * what the earlier steps took, nulls the fields they set and returns
    * -EACCES. Fields a failing step never reached keep their values. */
  method Open(ctx: LedContext, auth: Authority) returns (res: int)
    requires auth.Valid()
    modifies ctx, auth`reserved, auth`mapped, auth`log, auth`regs
    ensures auth.Valid()
    ensures var g1, g2 := old(auth.Grants(LedDataOut)), old(auth.Grants(LedOe));
      var m1, m2 := LedDataOut !in auth.mapFaults, LedOe !in auth.mapFaults;
      && (res == 0 <==> g1 && g2 && m1 && m2)
      && (res != 0 ==>
            && res == -EACCES && auth.regs == old(auth.regs)
            && auth.reserved == old(auth.reserved) && auth.mapped == old(auth.mapped))
      && (!g1 ==>
            && !ctx.ctrlRegion && ctx.oeRegion == old(ctx.oeRegion)
            && ctx.ctrl == old(ctx.ctrl) && ctx.oe == old(ctx.oe) && auth.log == old(auth.log))
      && (g1 && !g2 ==>
            && !ctx.ctrlRegion && !ctx.oeRegion && ctx.ctrl == old(ctx.ctrl) && ctx.oe == old(ctx.oe)
            && auth.log == old(auth.log) + RefusedOeLog)
      && (g1 && g2 && !m1 ==>
            && !ctx.ctrlRegion && !ctx.oeRegion && ctx.ctrl.None? && ctx.oe == old(ctx.oe)
            && auth.log == old(auth.log) + UnmappedCtrlLog)
      && (g1 && g2 && m1 && !m2 ==>
            && ctx.Closed() && auth.log == old(auth.log) + UnmappedOeLog)
      && (res == 0 ==>
            && ctx.Live(auth)
            && auth.reserved == old(auth.reserved) + {LedDataOut, LedOe}
            && auth.mapped == old(auth.mapped) + multiset{LedDataOut, LedOe}
            && auth.regs == old(auth.regs)[LedOe := 0]
            && auth.log == old(auth.log) + OpenLog)
  {
    ghost var r0, l0 := auth.reserved, auth.log;
    var ok := ReserveRegisters(ctx, auth);
    if !ok {
      return -EACCES;
    }
    ghost var r2, l2 := auth.reserved, auth.log;
    res := MapRegisters(ctx, auth);
    if res != 0 {
      assert r2 == r0 + {LedDataOut} + {LedOe};
      assert r0 + {LedDataOut} + {LedOe} - {LedDataOut} - {LedOe} == r0;
      if LedDataOut in auth.mapFaults {
        Extend4(l0, Reserved(LedDataOut), Reserved(LedOe), Released(LedDataOut), Released(LedOe));
        assert l2 + [Released(LedDataOut), Released(LedOe)] == l0 + UnmappedCtrlLog;
      } else {
        Extend6(l0, Reserved(LedDataOut), Reserved(LedOe), Mapped(LedDataOut),
                Released(LedDataOut), Released(LedOe), Unmapped(LedDataOut));
        assert l2 + [Mapped(LedDataOut), Released(LedDataOut), Released(LedOe), Unmapped(LedDataOut)] == l0 + UnmappedOeLog;
      }
    } else {
      Extend4(l0, Reserved(LedDataOut), Reserved(LedOe), Mapped(LedDataOut), Mapped(LedOe));
      assert l2 + [Mapped(LedDataOut), Mapped(LedOe)] == l0 + OpenLog;
    }
  }

  /** Lines 38-48 of led_open: reserve data-out, then OE; if OE is refused,
    * release data-out. Each handle is set from its request's result. */
  method ReserveRegisters(ctx: LedContext, auth: Authority) returns (ok: bool)
    requires auth.Valid()
    modifies ctx`ctrlRegion, ctx`oeRegion, auth`reserved, auth`log
    ensures auth.Valid()
    ensures ok == (old(auth.Grants(LedDataOut)) && old(auth.Grants(LedOe)))
    ensures ok ==>
      && ctx.ctrlRegion && ctx.oeRegion
      && auth.reserved == old(auth.reserved) + {LedDataOut} + {LedOe}
      && auth.log == old(auth.log) + [Reserved(LedDataOut)] + [Reserved(LedOe)]
    ensures !ok ==> !ctx.ctrlRegion && auth.reserved == old(auth.reserved)
    ensures !old(auth.Grants(LedDataOut)) ==> ctx.oeRegion == old(ctx.oeRegion) && auth.log == old(auth.log)
    ensures old(auth.Grants(LedDataOut)) && !old(auth.Grants(LedOe)) ==>
      !ctx.oeRegion && auth.log == old(auth.log) + RefusedOeLog
  {
    ghost var r0, l0 := auth.reserved, auth.log;
    ok := auth.RequestMemRegion(LedDataOut);
    ctx.ctrlRegion := ok;
    if !ok {
      return;
    }
    ok := auth.RequestMemRegion(LedOe);
    ctx.oeRegion := ok;
    if !ok {
      auth.ReleaseMemRegion(LedDataOut);
      ctx.ctrlRegion := false;
      AddRemove(r0, LedDataOut);
      Extend2(l0, Reserved(LedDataOut), Released(LedDataOut));
    }
  }

  /** Lines 50-77 of led_open, with both ranges reserved: map data-out, then
    * OE, each failure releasing both reservations (and unmapping data-out)
    * and nulling what was set; on success write 0 to OE. */
  method MapRegisters(ctx: LedContext, auth: Authority) returns (res: int)
    requires auth.Valid() && ctx.ctrlRegion && ctx.oeRegion
    modifies ctx, auth`reserved, auth`mapped, auth`log, auth`regs
    ensures auth.Valid()
    ensures res == 0 <==> LedDataOut !in auth.mapFaults && LedOe !in auth.mapFaults
    ensures res != 0 ==>
      && res == -EACCES && !ctx.ctrlRegion && !ctx.oeRegion && ctx.ctrl.None?
      && auth.reserved == old(auth.reserved) - {LedDataOut} - {LedOe}
      && auth.mapped == old(auth.mapped) && auth.regs == old(auth.regs)
    ensures LedDataOut in auth.mapFaults ==>
      ctx.oe == old(ctx.oe) && auth.log == old(auth.log) + [Released(LedDataOut), Released(LedOe)]
    ensures LedDataOut !in auth.mapFaults && LedOe in auth.mapFaults ==>
      && ctx.oe.None?
      && auth.log == old(auth.log) + [Mapped(LedDataOut), Released(LedDataOut), Released(LedOe), Unmapped(LedDataOut)]
    ensures res == 0 ==>
      && ctx.ctrlRegion && ctx.oeRegion && ctx.ctrl == Some(LedDataOut) && ctx.oe == Some(LedOe)
      && auth.reserved == old(auth.reserved)
      && auth.mapped == old(auth.mapped) + multiset{LedDataOut} + multiset{LedOe}
      && auth.regs == old(auth.regs)[LedOe := 0]
      && auth.log == old(auth.log) + [Mapped(LedDataOut), Mapped(LedOe)]
  {
    ghost var l0, m0 := auth.log, auth.mapped;
    var ok := MapDataOut(ctx, auth);
    if !ok {
      return -EACCES;
    }
    ghost var l1 := auth.log;
    res := MapOe(ctx, auth);
    if res != 0 {
      PlusMinus(m0, multiset{LedDataOut});
      assert l1 + [Released(LedDataOut), Released(LedOe), Unmapped(LedDataOut)]
          == l0 + [Mapped(LedDataOut), Released(LedDataOut), Released(LedOe), Unmapped(LedDataOut)];
    }
  }

  /** Lines 50-60 of led_open: map data-out; on failure release both
    * reservations and null both handles. */
  method MapDataOut(ctx: LedContext, auth: Authority) returns (ok: bool)
    requires auth.Valid() && ctx.ctrlRegion && ctx.oeRegion
    modifies ctx`ctrl, ctx`ctrlRegion, ctx`oeRegion, auth`reserved, auth`mapped, auth`log
    ensures auth.Valid()
    ensures ok <==> LedDataOut !in auth.mapFaults
    ensures ok ==>
      && ctx.ctrlRegion && ctx.oeRegion && ctx.ctrl == Some(LedDataOut)
      && auth.reserved == old(auth.reserved)
      && auth.mapped == old(auth.mapped) + multiset{LedDataOut}
      && auth.log == old(auth.log) + [Mapped(LedDataOut)]
    ensures !ok ==>
      && !ctx.ctrlRegion && !ctx.oeRegion && ctx.ctrl.None?
      && auth.reserved == old(auth.reserved) - {LedDataOut} - {LedOe}
      && auth.mapped == old(auth.mapped)
      && auth.log == old(auth.log) + [Released(LedDataOut), Released(LedOe)]
  {
    ghost var l0 := auth.log;
    var p := auth.Ioremap(LedDataOut);
    ctx.ctrl := p;
    ok := p.Some?;
    if !ok {
      auth.ReleaseMemRegion(LedDataOut);
      auth.ReleaseMemRegion(LedOe);
      ctx.ctrlRegion, ctx.oeRegion := false, false;
      Extend2(l0, Released(LedDataOut), Released(LedOe));
    }
  }

  /** Lines 62-77 of led_open, with data-out mapped: map OE; on failure
    * release both reservations, unmap data-out and null three fields; on
    * success write 0 to OE. */
  method MapOe(ctx: LedContext, auth: Authority) returns (res: int)
    requires auth.Valid() && ctx.ctrlRegion && ctx.oeRegion && ctx.ctrl == Some(LedDataOut)
    modifies ctx, auth`reserved, auth`mapped, auth`log, auth`regs
    ensures auth.Valid()
    ensures res == 0 <==> LedOe !in auth.mapFaults
    ensures res == 0 ==>
      && ctx.ctrlRegion && ctx.oeRegion && ctx.ctrl == Some(LedDataOut) && ctx.oe == Some(LedOe)
      && auth.reserved == old(auth.reserved)
      && auth.mapped == old(auth.mapped) + multiset{LedOe}
      && auth.regs == old(auth.regs)[LedOe := 0]
      && auth.log == old(auth.log) + [Mapped(LedOe)]
    ensures res != 0 ==>
      && res == -EACCES && !ctx.ctrlRegion && !ctx.oeRegion && ctx.ctrl.None? && ctx.oe.None?
      && auth.reserved == old(auth.reserved) - {LedDataOut} - {LedOe}
      && auth.mapped == old(auth.mapped) - multiset{LedDataOut}
      && auth.regs == old(auth.regs)
      && auth.log == old(auth.log) + [Released(LedDataOut), Released(LedOe), Unmapped(LedDataOut)]
  {
    ghost var l0 := auth.log;
    var q := auth.Ioremap(LedOe);
    ctx.oe := q;
    if q.None? {
      assert auth.log == l0;
      auth.ReleaseMemRegion(LedDataOut);
      auth.ReleaseMemRegion(LedOe);
      auth.Iounmap(LedDataOut);
      ctx.ctrlRegion, ctx.oeRegion, ctx.ctrl := false, false, None;
      Extend3(l0, Released(LedDataOut), Released(LedOe), Unmapped(LedDataOut));
      return -EACCES;
    }
    auth.Iowrite32(LedOe, 0);
    return 0;
  }

  /** led_close: unmap each non-null pointer, release each non-null region
    * handle, and null each one. A context that holds nothing is left as it
    * is, so closing twice does no more than closing once. */
  method Close(ctx: LedContext, auth: Authority)
    requires auth.Valid()
    modifies ctx, auth`reserved, auth`mapped, auth`log
    ensures auth.Valid()
    ensures ctx.Closed()
    ensures auth.mapped == Drop(Drop(old(auth.mapped), old(ctx.ctrl)), old(ctx.oe))
    ensures auth.reserved == old(auth.reserved) - Held(old(ctx.ctrlRegion), LedDataOut) - Held(old(ctx.oeRegion), LedOe)
    ensures auth.log == old(auth.log) + UnmapLog(old(ctx.ctrl)) + UnmapLog(old(ctx.oe))
                                      + ReleaseLog(old(ctx.ctrlRegion), LedDataOut) + ReleaseLog(old(ctx.oeRegion), LedOe)
    ensures old(ctx.Closed()) ==>
      auth.mapped == old(auth.mapped) && auth.reserved == old(auth.reserved) && auth.log == old(auth.log)
  {
    ghost var l0 := auth.log;
    auth.IounmapIfSet(ctx.ctrl);
    ctx.ctrl := None;
    auth.IounmapIfSet(ctx.oe);
    ctx.oe := None;
    ghost var l2 := auth.log;
    assert l2 == l0 + UnmapLog(old(ctx.ctrl)) + UnmapLog(old(ctx.oe));
    ReleaseIfHeld(auth, ctx.ctrlRegion, LedDataOut);
    ctx.ctrlRegion := false;
    ReleaseIfHeld(auth, ctx.oeRegion, LedOe);
    ctx.oeRegion := false;
  }

  /** `if (region) release_mem_region(...)`. */
  method ReleaseIfHeld(auth: Authority, handle: bool, r: Region)
    requires auth.Valid()
    modifies auth`reserved, auth`log
    ensures auth.Valid()
    ensures auth.reserved == old(auth.reserved) - Held(handle, r)
    ensures auth.log == old(auth.log) + ReleaseLog(handle, r)
  {
    if handle {
      auth.ReleaseMemRegion(r);
    } else {
      assert old(auth.reserved) - {} == old(auth.reserved);
      assert old(auth.log) + [] == old(auth.log);
    }
  }

  /** A failed open gives back exactly what it took, however far it got. */
  lemma OpenFailuresRestore(h: Holdings)
    requires LedDataOut !in h.reserved && LedOe !in h.reserved
    ensures Replay(h, RefusedOeLog) == h
    ensures Replay(h, UnmappedCtrlLog) == h
    ensures Replay(h, UnmappedOeLog) == h
  {
    var d, o := LedDataOut, LedOe;
    var hd := h.(reserved := h.reserved + {d});
    var hdo := h.(reserved := h.reserved + {d} + {o});
    AddRemove(h.reserved, d);
    assert Apply(hd, Released(d)) == h;
    ReplayTwo(h, Reserved(d), Released(d));

    assert h.reserved + {d} + {o} - {d} - {o} == h.reserved;
    assert Apply(Apply(hdo, Released(d)), Released(o)) == h;
    ReplayFour(h, Reserved(d), Reserved(o), Released(d), Released(o));

    var hm := hdo.(mapped := h.mapped + multiset{d});
    PlusMinus(h.mapped, multiset{d});
    assert Apply(Apply(Apply(hm, Released(d)), Released(o)), Unmapped(d)) == h;
    assert UnmappedOeLog == [Reserved(d), Reserved(o), Mapped(d), Released(d)] + [Released(o), Unmapped(d)];
    ReplayConcat(h, [Reserved(d), Reserved(o), Mapped(d), Released(d)], [Released(o), Unmapped(d)]);
    ReplayFour(h, Reserved(d), Reserved(o), Mapped(d), Released(d));
    ReplayTwo(Apply(hm, Released(d)), Released(o), Unmapped(d));
  }

  /** Closing after a successful open gives back exactly what open took. */
  lemma OpenCloseRestores(h: Holdings)
    requires LedDataOut !in h.reserved && LedOe !in h.reserved
    ensures Replay(h, OpenLog + CloseLog) == h
  {
    var d, o := LedDataOut, LedOe;
    var h4 := Holdings(h.reserved + {d} + {o}, h.mapped + multiset{d} + multiset{o});
    ReplayConcat(h, OpenLog, CloseLog);
    ReplayFour(h, Reserved(d), Reserved(o), Mapped(d), Mapped(o));
    assert Replay(h, OpenLog) == h4;
    ReplayFour(h4, Unmapped(d), Unmapped(o), Released(d), Released(o));
    assert h.mapped + multiset{d} + multiset{o} - multiset{d} - multiset{o} == h.mapped;
    assert h.reserved + {d} + {o} - {d} - {o} == h.reserved;
  }
  /** The bytes led_read's fill loop stores at indices 0..n-1: each index,
    * truncated to a char. */
  function Ramp(n: nat): (s: seq<bv8>)
    ensures |s| == n
    ensures forall i :: 0 <= i < n ==> s[i] == (i % 256) as bv8
  {
    seq(n, i requires 0 <= i < n => (i % 256) as bv8)
  }

  /** Memory `m` after the fill loop has run for `size` bytes from its
    * start: the first size bytes hold the ramp, every later byte is kept. */
  function Filled(m: seq<bv8>, size: nat): (r: seq<bv8>)
    requires size <= |m|
    ensures |r| == |m|
    ensures forall i :: 0 <= i < size ==> r[i] == (i % 256) as bv8
    ensures forall i :: size <= i < |m| ==> r[i] == m[i]
  {
    Ramp(size) + m[size..]
  }

  /** The fill loop leaves every byte past kernel_buf as it was exactly when
    * size is at most 100. A larger read stores 100 at the first byte past
    * the buffer, so that byte changes whenever it held anything else. */
  lemma ReadStaysInBufferIff(m: seq<bv8>, size: nat)
    requires KERNEL_BUF_LEN <= |m| && size <= |m|
    ensures size <= KERNEL_BUF_LEN ==> Filled(m, size)[KERNEL_BUF_LEN..] == m[KERNEL_BUF_LEN..]
    ensures size > KERNEL_BUF_LEN ==> Filled(m, size)[KERNEL_BUF_LEN] == KERNEL_BUF_LEN as bv8
    ensures size > KERNEL_BUF_LEN && m[KERNEL_BUF_LEN] != KERNEL_BUF_LEN as bv8
      ==> Filled(m, size)[KERNEL_BUF_LEN..] != m[KERNEL_BUF_LEN..]
  {
    var r := Filled(m, size);
    if size <= KERNEL_BUF_LEN {
      assert forall i :: 0 <= i < |m| - KERNEL_BUF_LEN ==> r[KERNEL_BUF_LEN..][i] == m[KERNEL_BUF_LEN..][i];
    } else if m[KERNEL_BUF_LEN] != KERNEL_BUF_LEN as bv8 {
      assert r[KERNEL_BUF_LEN..][0] != m[KERNEL_BUF_LEN..][0];
    }
  }

  /** led_read as written. `mem` is the static kernel_buf, mem[..100],
    * followed by whatever memory lies after it: the loop stores i at mem[i]
    * for every i < size, with no bound check, then copies min(100, size)
    * bytes to the caller and returns size. A failed copy (`copyResult`,
    * what rtdm_copy_to_user returns, nonzero) gives -EIO. `stores` is the
    * ghost trace of the indices the loop stores to. */
  method Read(mem: array<bv8>, size: nat, copyResult: int) returns (res: int, out: seq<bv8>, ghost stores: seq<nat>)
    requires KERNEL_BUF_LEN <= mem.Length && size <= mem.Length
    modifies mem
    ensures mem[..] == Filled(old(mem[..]), size)
    ensures |stores| == size && forall k :: 0 <= k < size ==> stores[k] == k
    ensures (exists k :: 0 <= k < |stores| && stores[k] >= KERNEL_BUF_LEN) <==> size > KERNEL_BUF_LEN
    ensures copyResult != 0 ==> res == -EIO && out == []
    ensures copyResult == 0 ==> res == size && out == Ramp(Min(KERNEL_BUF_LEN, size))
    ensures copyResult == 0 && size > KERNEL_BUF_LEN ==> |out| < res
  {
    var i := 0;
    stores := [];
    while i < size
      invariant 0 <= i <= size
      invariant mem[..i] == Ramp(i)
      invariant forall j :: i <= j < mem.Length ==> mem[j] == old(mem[j])
      invariant |stores| == i && forall k :: 0 <= k < i ==> stores[k] == k
    {
      mem[i] := (i % 256) as bv8;
      stores := stores + [i];
      i := i + 1;
    }
    assert mem[..] == mem[..size] + mem[size..];
    assert mem[..] == Filled(old(mem[..]), size);
    if size > KERNEL_BUF_LEN {
      assert stores[KERNEL_BUF_LEN] >= KERNEL_BUF_LEN;
    }
    var n := Min(KERNEL_BUF_LEN, size);
    if copyResult != 0 {
      return -EIO, [], stores;
    }
    assert mem[..n] == mem[..size][..n];
    return size, mem[..n], stores;
  }

  /** led_read as evidently intended: fill only as far as the buffer and
    * the request both reach, and report the bytes actually handed over. */
  method ReadBounded(kbuf: array<bv8>, size: nat, copyResult: int) returns (res: int, out: seq<bv8>)
    requires kbuf.Length == KERNEL_BUF_LEN
    modifies kbuf
    ensures var n := Min(KERNEL_BUF_LEN, size);
      && kbuf[..] == Filled(old(kbuf[..]), n)
      && (copyResult != 0 ==> res == -EIO && out == [])
      && (copyResult == 0 ==> res == n && out == Ramp(n) && |out| == res)
  {
    var n := Min(KERNEL_BUF_LEN, size);
    var i := 0;
    while i < n
      invariant 0 <= i <= n
      invariant kbuf[..i] == Ramp(i)
      invariant forall j :: i <= j < kbuf.Length ==> kbuf[j] == old(kbuf[j])
    {
      kbuf[i] := (i % 256) as bv8;
      i := i + 1;
    }
    assert kbuf[..] == kbuf[..n] + kbuf[n..];
    assert kbuf[..] == Filled(old(kbuf[..]), n);
    if copyResult != 0 {
      return -EIO, [];
    }
    return n, kbuf[..n];
  }

  /** When led_write as written stores the word: only when the copy from
    * the caller FAILED. */
  predicate StoresWord(size: nat, copyResult: int) {
    size == 4 && copyResult != 0
  }

  /** When led_write as evidently intended stores the word: a 4-byte write
    * whose copy succeeded. */
  predicate StoresWordChecked(size: nat, copyResult: int) {
    size == 4 && copyResult == 0
  }

  /** The inverted test: for a 4-byte write the word is stored exactly
    * when the intended check would refuse it; a good copy (0) stores
    * nothing. */
  lemma InvertedCopyCheck(size: nat, copyResult: int)
    requires size == 4
    ensures StoresWord(size, copyResult) <==> !StoresWordChecked(size, copyResult)
    ensures !StoresWord(4, 0) && StoresWordChecked(4, 0)
  {
  }

  /** led_write as written: any size but 4 gives -EPERM. Otherwise a copy
    * that succeeds returns 0 at once and a copy that fails (`copyResult`,
    * what rtdm_copy_from_user returns, nonzero) goes on to write `word`,
    * what write_value then holds, to the data-out register and returns 4. */
  method Write(ctx: LedContext, auth: Authority, size: nat, copyResult: int, word: bv32) returns (res: int)
    requires auth.Valid()
    requires StoresWord(size, copyResult) ==> ctx.ctrl == Some(LedDataOut) && LedDataOut in auth.mapped
    modifies auth`regs
    ensures auth.Valid()
    ensures size != 4 ==> res == -EPERM
    ensures size == 4 && copyResult == 0 ==> res == 0
    ensures StoresWord(size, copyResult) ==> res == size && auth.regs == old(auth.regs)[LedDataOut := word]
    ensures !StoresWord(size, copyResult) ==> auth.regs == old(auth.regs)
  {
    if size != 4 {
      return -EPERM;
    }
    if copyResult == 0 {
      return copyResult;
    }
    auth.Iowrite32(ctx.ctrl.value, word);
    return size;
  }

  /** led_write as evidently intended: a failed copy is reported and
    * nothing is written; a good copy stores the caller's word and returns 4. */
  method WriteChecked(ctx: LedContext, auth: Authority, size: nat, copyResult: int, word: bv32) returns (res: int)
    requires auth.Valid()
    requires StoresWordChecked(size, copyResult) ==> ctx.ctrl == Some(LedDataOut) && LedDataOut in auth.mapped
    modifies auth`regs
    ensures auth.Valid()
    ensures size != 4 ==> res == -EPERM
    ensures size == 4 && copyResult != 0 ==> res == copyResult
    ensures StoresWordChecked(size, copyResult) ==> res == size && auth.regs == old(auth.regs)[LedDataOut := word]
    ensures !StoresWordChecked(size, copyResult) ==> auth.regs == old(auth.regs)
  {
    if size != 4 {
      return -EPERM;
    }
    if copyResult != 0 {
      return copyResult;
    }
    auth.Iowrite32(ctx.ctrl.value, word);
    return size;
  }

  /** led_ioctl: every request is refused with EPERM, positive. */
  method Ioctl(request: nat) returns (res: int)
    ensures res == EPERM && res > 0
  {
    return EPERM;
  }
}

/** The kernel services the drivers call, reduced to what they decide:
  * the region-reservation authority (request_mem_region / release_mem_region),
  * the I/O mapping authority (ioremap / iounmap), the 32-bit memory-mapped
  * registers (ioread32 / iowrite32) and the two PRU RAM windows.
  * Which reserve and map calls fail is fixed by a fault oracle. */
module Kernel {

  datatype Option<T> = None | Some(value: T)

  // Error numbers; the drivers return them negated, except led_ioctl.
  const EPERM := 1
  const EIO := 5
  const ENOMEM := 12
  const EACCES := 13
  const EINVAL := 22

  /** A second write to the same register hides the first; stated once so
    * that map extensionality is invoked only where a caller needs it. */
  lemma UpdateTwice<K, V>(m: map<K, V>, k: K, a: V, b: V)
    ensures m[k := a][k := b] == m[k := b]
  {
  }

  /** min() on sizes. */
  function Min(a: nat, b: nat): (m: nat)
    ensures m <= a && m <= b
    ensures m == a || m == b
  {
    if a <= b then a else b
  }

  /** The named physical ranges the drivers reserve and map. */
  datatype Region =
    | ClkCtrl     // CM_L4PER2_PRUSS1_CLKCTRL, the 4-byte clock-control register
    | PrussCfg    // PRU-ICSS1 configuration block
    | PruIram     // PRU0 instruction RAM
    | PruDram     // PRU0 data RAM
    | PrussMem    // 0x4B200000..0x4B27FFFF, the whole range pru/pru.c claims
    | LedDataOut  // 0x4805113C, the 4-byte GPIO data-out register of the user LED
    | LedOe       // 0x48051134, the 4-byte GPIO output-enable register

  /** The registers that exist as 32-bit words in the model. */
  const Registers: set<Region> := {ClkCtrl, LedDataOut, LedOe}

  /** One successful call into the reservation or mapping authority. */
  datatype Event = Reserved(r: Region) | Released(r: Region) | Mapped(r: Region) | Unmapped(r: Region)

  /** What is held: the reserved ranges and the live mappings (a range may be mapped twice). */
  datatype Holdings = Holdings(reserved: set<Region>, mapped: multiset<Region>)

  function Apply(h: Holdings, e: Event): Holdings {
    match e
    case Reserved(r) => h.(reserved := h.reserved + {r})
    case Released(r) => h.(reserved := h.reserved - {r})
    case Mapped(r) => h.(mapped := h.mapped + multiset{r})
    case Unmapped(r) => h.(mapped := h.mapped - multiset{r})
  }

  /** The holdings after a log of events, starting from h. */
  function Replay(h: Holdings, log: seq<Event>): Holdings
    decreases |log|
  {
    if log == [] then h else Replay(Apply(h, log[0]), log[1..])
  }

  function Reserves(rs: seq<Region>): (es: seq<Event>)
    ensures |es| == |rs| && forall i :: 0 <= i < |rs| ==> es[i] == Reserved(rs[i])
  {
    if rs == [] then [] else [Reserved(rs[0])] + Reserves(rs[1..])
  }

  function Releases(rs: seq<Region>): (es: seq<Event>)
    ensures |es| == |rs| && forall i :: 0 <= i < |rs| ==> es[i] == Released(rs[i])
  {
    if rs == [] then [] else [Released(rs[0])] + Releases(rs[1..])
  }

  function Reverse(rs: seq<Region>): (r: seq<Region>)
    ensures |r| == |rs| && forall i :: 0 <= i < |rs| ==> r[i] == rs[|rs| - 1 - i]
  {
    seq(|rs|, i requires 0 <= i < |rs| => rs[|rs| - 1 - i])
  }

  /** The ranges a request list names. */
  function Elems(rs: seq<Region>): set<Region> {
    set r | r in rs
  }

  /** A goto ladder that gave up after acquiring rs: reserve each, then release newest first. */
  function Unwind(rs: seq<Region>): seq<Event> {
    Reserves(rs) + Releases(Reverse(rs))
  }

  /** What ioremap returns under the map fault oracle: null for a faulty range. */
  function Attempt(r: Region, faults: set<Region>): (p: Option<Region>)
    ensures p.Some? <==> r !in faults
    ensures p.Some? ==> p.value == r
  {
    if r in faults then None else Some(r)
  }

  /** The live mappings after a successful ioremap returned p (none for null). */
  function Put(m: multiset<Region>, p: Option<Region>): multiset<Region> {
    if p.Some? then m + multiset{p.value} else m
  }

  /** The live mappings after `if (p) iounmap(p);`. */
  function Drop(m: multiset<Region>, p: Option<Region>): multiset<Region> {
    if p.Some? then m - multiset{p.value} else m
  }

  /** The mapping a pointer holds, as a multiset: empty for null. */
  function Slot(p: Option<Region>): multiset<Region> {
    if p.Some? then multiset{p.value} else multiset{}
  }

  /** The events an ioremap that returned p logs. */
  function MapLog(p: Option<Region>): seq<Event> {
    if p.Some? then [Mapped(p.value)] else []
  }

  /** The events `if (p) iounmap(p);` logs. */
  function UnmapLog(p: Option<Region>): seq<Event> {
    if p.Some? then [Unmapped(p.value)] else []
  }

  /** How many of the requests rs, issued in order, the authority grants before
    * the first refusal, when `held` is reserved and `faults` always fail. */
  function Granted(held: set<Region>, faults: set<Region>, rs: seq<Region>): (k: nat)
    ensures k <= |rs|
    ensures forall i :: 0 <= i < k ==> rs[i] !in held && rs[i] !in faults
    ensures k < |rs| ==> rs[k] in held || rs[k] in faults
  {
    if rs == [] || rs[0] in held || rs[0] in faults then 0
    else 1 + Granted(held, faults, rs[1..])
  }

  lemma {:induction false} ReplayConcat(h: Holdings, a: seq<Event>, b: seq<Event>)
    ensures Replay(h, a + b) == Replay(Replay(h, a), b)
    decreases |a|
  {
    if a == [] {
      assert a + b == b;
    } else {
      assert (a + b)[0] == a[0];
      assert (a + b)[1..] == a[1..] + b;
      ReplayConcat(Apply(h, a[0]), a[1..], b);
    }
  }

  lemma {:induction false} ReplayReserves(h: Holdings, rs: seq<Region>)
    ensures Replay(h, Reserves(rs)) == h.(reserved := h.reserved + Elems(rs))
    decreases |rs|
  {
    if rs != [] {
      assert Reserves(rs) == [Reserved(rs[0])] + Reserves(rs[1..]);
      ReplayConcat(h, [Reserved(rs[0])], Reserves(rs[1..]));
      ReplayReserves(Apply(h, Reserved(rs[0])), rs[1..]);
      assert Elems(rs) == {rs[0]} + Elems(rs[1..]);
    }
  }

  lemma {:induction false} ReplayReleases(h: Holdings, rs: seq<Region>)
    ensures Replay(h, Releases(rs)) == h.(reserved := h.reserved - Elems(rs))
    decreases |rs|
  {
    if rs != [] {
      assert Releases(rs) == [Released(rs[0])] + Releases(rs[1..]);
      ReplayConcat(h, [Released(rs[0])], Releases(rs[1..]));
      ReplayReleases(Apply(h, Released(rs[0])), rs[1..]);
      assert Elems(rs) == {rs[0]} + Elems(rs[1..]);
    }
  }

  /** Two events replayed are the two applied in order. */
  lemma ReplayTwo(h: Holdings, a: Event, b: Event)
    ensures Replay(h, [a, b]) == Apply(Apply(h, a), b)
  {
    assert [a, b][1..] == [b];
    assert [b][1..] == [];
    assert Replay(h, [a, b]) == Replay(Apply(h, a), [b]);
    assert Replay(Apply(h, a), [b]) == Replay(Apply(Apply(h, a), b), []);
  }

  /** Four events replayed are the four applied in order. */
  lemma ReplayFour(h: Holdings, a: Event, b: Event, c: Event, d: Event)
    ensures Replay(h, [a, b, c, d]) == Apply(Apply(Apply(Apply(h, a), b), c), d)
  {
    assert [a, b, c, d] == [a, b] + [c, d];
    ReplayConcat(h, [a, b], [c, d]);
    ReplayTwo(h, a, b);
    ReplayTwo(Apply(Apply(h, a), b), c, d);
  }

  lemma DropIsMinus(m: multiset<Region>, p: Option<Region>)
    ensures Drop(m, p) == m - Slot(p)
  {
    if p.None? {
      assert m - multiset{} == m;
    }
  }

  lemma PutIsPlus(m: multiset<Region>, p: Option<Region>)
    ensures Put(m, p) == m + Slot(p)
  {
    if p.None? {
      assert m + multiset{} == m;
    }
  }

  lemma MinusMinus(m: multiset<Region>, a: multiset<Region>, b: multiset<Region>)
    ensures m - a - b == m - (a + b)
  {
    assert forall x :: (m - a - b)[x] == (m - (a + b))[x];
  }

  /** Unmapping four pointers one by one takes away exactly the mappings they hold. */
  lemma DropFour(m: multiset<Region>, a: Option<Region>, b: Option<Region>, c: Option<Region>, d: Option<Region>)
    ensures Drop(Drop(Drop(Drop(m, a), b), c), d) == m - (Slot(a) + Slot(b) + Slot(c) + Slot(d))
  {
    DropIsMinus(m, a);
    DropIsMinus(m - Slot(a), b);
    MinusMinus(m, Slot(a), Slot(b));
    DropIsMinus(m - (Slot(a) + Slot(b)), c);
    MinusMinus(m, Slot(a) + Slot(b), Slot(c));
    DropIsMinus(m - (Slot(a) + Slot(b) + Slot(c)), d);
    MinusMinus(m, Slot(a) + Slot(b) + Slot(c), Slot(d));
  }

  /** Mapping four pointers one by one adds exactly the mappings they hold. */
  lemma PutFour(m: multiset<Region>, a: Option<Region>, b: Option<Region>, c: Option<Region>, d: Option<Region>)
    ensures Put(Put(Put(Put(m, a), b), c), d) == m + (Slot(a) + Slot(b) + Slot(c) + Slot(d))
  {
    PutIsPlus(m, a);
    PutIsPlus(m + Slot(a), b);
    PutIsPlus(m + Slot(a) + Slot(b), c);
    PutIsPlus(m + Slot(a) + Slot(b) + Slot(c), d);
    assert m + Slot(a) + Slot(b) + Slot(c) + Slot(d) == m + (Slot(a) + Slot(b) + Slot(c) + Slot(d));
  }

  lemma PlusMinus(m: multiset<Region>, h: multiset<Region>)
    ensures m + h - h == m
  {
    assert forall x :: (m + h - h)[x] == m[x];
  }

  /** Mapping four pointers and then unmapping the same four, in the same
    * order, leaves the live mappings as they were. */
  lemma PutDropFour(m: multiset<Region>, a: Option<Region>, b: Option<Region>, c: Option<Region>, d: Option<Region>)
    ensures Drop(Drop(Drop(Drop(Put(Put(Put(Put(m, a), b), c), d), a), b), c), d) == m
  {
    var held := Slot(a) + Slot(b) + Slot(c) + Slot(d);
    PutFour(m, a, b, c, d);
    DropFour(m + held, a, b, c, d);
    PlusMinus(m, held);
  }

  /** Reserving a free range and releasing it again leaves the reservations
    * as they were; a named step, because set extensionality is not tried
    * unless asked for. */
  lemma AddRemove(s: set<Region>, r: Region)
    requires r !in s
    ensures s + {r} - {r} == s
  {
  }

  /** A log extended event by event is the log extended by the events in
    * order; the solver does not join two singleton appends unaided. */
  lemma Extend2(l: seq<Event>, a: Event, b: Event)
    ensures l + [a] + [b] == l + [a, b]
  {
  }

  /** Releasing four ranges one by one releases the four together. */
  lemma MinusFour(s: set<Region>, a: Region, b: Region, c: Region, d: Region)
    ensures s - {a} - {b} - {c} - {d} == s - {a, b, c, d}
  {
    assert forall x :: x in s - {a} - {b} - {c} - {d} <==> x in s - {a, b, c, d};
  }

  /** A log extended by a bracketed run of events. Sequence concatenation
    * is associative, but the solver does not regroup long concatenations
    * by itself; the lemmas from here to Extend6 hand it each regrouping a
    * caller's log equation needs, so that the caller's proof stays cheap. */
  lemma Append(l: seq<Event>, m: seq<Event>, n: seq<Event>)
    ensures l + m + n == l + (m + n)
  {
  }

  /** One event followed by a run, taken as a single block. */
  lemma Regroup(l: seq<Event>, a: Event, m: seq<Event>)
    ensures l + [a] + m == l + ([a] + m)
  {
  }

  /** A run bracketed by an acquisition and its undo, taken as a single block. */
  lemma Wrap(l: seq<Event>, a: Event, m: seq<Event>, b: Event)
    ensures l + [a] + m + [b] == l + ([a] + m + [b])
  {
  }

  /** Three events appended one by one are the three appended together. */
  lemma Extend3(l: seq<Event>, a: Event, b: Event, c: Event)
    ensures l + [a] + [b] + [c] == l + [a, b, c]
  {
    Extend2(l, a, b);
    assert l + [a, b] + [c] == l + [a, b, c];
  }

  /** Four events appended one by one are the four appended together. */
  lemma Extend4(l: seq<Event>, a: Event, b: Event, c: Event, d: Event)
    ensures l + [a] + [b] + [c] + [d] == l + [a, b, c, d]
  {
    Extend2(l, a, b);
    assert l + [a, b] + [c] == l + [a, b, c];
    assert l + [a, b, c] + [d] == l + [a, b, c, d];
  }

  /** Six events appended one by one are the six appended together. */
  lemma Extend6(l: seq<Event>, a: Event, b: Event, c: Event, d: Event, e: Event, f: Event)
    ensures l + [a] + [b] + [c] + [d] + [e] + [f] == l + [a, b, c, d, e, f]
  {
    Extend4(l, a, b, c, d);
    assert l + [a, b, c, d] + [e] == l + [a, b, c, d, e];
    assert l + [a, b, c, d, e] + [f] == l + [a, b, c, d, e, f];
  }

  /** A failed claim chain gives back exactly what it took: reserving free
    * ranges and releasing them newest first restores the holdings. */
  lemma UnwindRestores(h: Holdings, rs: seq<Region>)
    requires forall r :: r in rs ==> r !in h.reserved
    ensures Replay(h, Unwind(rs)) == h
  {
    ReplayConcat(h, Reserves(rs), Releases(Reverse(rs)));
    ReplayReserves(h, rs);
    ReplayReleases(h.(reserved := h.reserved + Elems(rs)), Reverse(rs));
    ReverseElems(rs);
  }

  /** Reversing a request list names the same ranges. */
  lemma ReverseElems(rs: seq<Region>)
    ensures Elems(Reverse(rs)) == Elems(rs)
  {
    forall r | r in rs ensures r in Reverse(rs) {
      var i :| 0 <= i < |rs| && rs[i] == r;
      assert Reverse(rs)[|rs| - 1 - i] == r;
    }
  }

  /** Releasing in acquisition order restores the reservations just as well. */
  lemma ReleaseInOrderRestores(h: Holdings, rs: seq<Region>)
    requires forall r :: r in rs ==> r !in h.reserved
    ensures Replay(h, Reserves(rs) + Releases(rs)) == h
  {
    ReplayConcat(h, Reserves(rs), Releases(rs));
    ReplayReserves(h, rs);
    ReplayReleases(h.(reserved := h.reserved + Elems(rs)), rs);
  }

  /** The authority and the memory-mapped hardware. */
  class Authority {
    var reserved: set<Region>
    var mapped: multiset<Region>
    var regs: map<Region, bv32>
    ghost var log: seq<Event>
    const iram: array<bv8>
    const dram: array<bv8>
    const reserveFaults: set<Region>
    const mapFaults: set<Region>

    ghost predicate Valid()
      reads this
    {
      && iram != dram
      && ClkCtrl in regs && LedDataOut in regs && LedOe in regs
    }

    /** request_mem_region(r) would succeed now. */
    predicate Grants(r: Region)
      reads this
    {
      r !in reserved && r !in reserveFaults
    }

    constructor (iramSize: nat, dramSize: nat, reserveFaults: set<Region>, mapFaults: set<Region>)
      ensures Valid()
      ensures reserved == {} && mapped == multiset{} && log == []
      ensures iram.Length == iramSize && dram.Length == dramSize
    ensures fresh(iram) && fresh(dram)
      ensures this.reserveFaults == reserveFaults && this.mapFaults == mapFaults
    {
      reserved := {};
      mapped := multiset{};
      regs := map[ClkCtrl := 0, LedDataOut := 0, LedOe := 0];
      log := [];
      iram := new bv8[iramSize];
      dram := new bv8[dramSize];
      this.reserveFaults := reserveFaults;
      this.mapFaults := mapFaults;
    }

    method RequestMemRegion(r: Region) returns (ok: bool)
      requires Valid()
      modifies this`reserved, this`log
      ensures Valid()
      ensures ok == old(Grants(r))
      ensures ok ==> reserved == old(reserved) + {r} && log == old(log) + [Reserved(r)]
      ensures !ok ==> reserved == old(reserved) && log == old(log)
    {
      ok := Grants(r);
      if ok {
        reserved := reserved + {r};
        log := log + [Reserved(r)];
      }
    }

    method ReleaseMemRegion(r: Region)
      requires Valid()
      modifies this`reserved, this`log
      ensures Valid()
      ensures reserved == old(reserved) - {r}
      ensures log == old(log) + [Released(r)]
    {
      reserved := reserved - {r};
      log := log + [Released(r)];
    }

    method Ioremap(r: Region) returns (p: Option<Region>)
      requires Valid()
      modifies this`mapped, this`log
      ensures Valid()
      ensures p == Attempt(r, mapFaults)
      ensures mapped == Put(old(mapped), p)
      ensures log == old(log) + MapLog(p)
    {
      if r in mapFaults {
        p := None;
      } else {
        p := Some(r);
        mapped := mapped + multiset{r};
        log := log + [Mapped(r)];
      }
    }

    method Iounmap(r: Region)
      requires Valid()
      modifies this`mapped, this`log
      ensures Valid()
      ensures mapped == old(mapped) - multiset{r}
      ensures log == old(log) + [Unmapped(r)]
    {
      mapped := mapped - multiset{r};
      log := log + [Unmapped(r)];
    }

    /** The `if (p) iounmap(p);` idiom. */
    method IounmapIfSet(p: Option<Region>)
      requires Valid()
      modifies this`mapped, this`log
      ensures Valid()
      ensures mapped == Drop(old(mapped), p)
      ensures log == old(log) + UnmapLog(p)
    {
      if p.Some? {
        Iounmap(p.value);
      }
    }

    method Ioread32(r: Region) returns (v: bv32)
      requires Valid() && r in Registers && r in mapped
      ensures v == regs[r]
    {
      v := regs[r];
    }

    method Iowrite32(r: Region, v: bv32)
      requires Valid() && r in Registers && r in mapped
      modifies this`regs
      ensures Valid()
      ensures regs == old(regs)[r := v]
    {
      regs := regs[r := v];
    }
  }
}

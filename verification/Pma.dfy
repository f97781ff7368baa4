/** kernel/drivers/pma.c: the physical frame allocator. An abstract state says what each call does
    to the set of free frames and the counters; PmaDriver runs the C loops over the bitmap. */
module PmaSpec {
  import opened Bits
  import opened Bytes
  import opened BootLayout
  import opened Frames

  datatype State = State(total: nat, free: set<nat>, freeCount: u64, usedCount: u64, hint: nat)

  /** Every free frame is below total, and so is the search hint. */
  ghost predicate Sane(s: State) {
    && 0 < s.total <= MAX_FRAMES && s.hint < s.total
    && forall f :: f in s.free ==> f < s.total
  }

  // ---------------------------------------------------------------- single frames

  /** The i-th frame from start on, going round. */
  function Cyclic(start: nat, i: nat, total: nat): (r: nat)
    requires start < total && i < total
    ensures r < total && (r == start + i || r + total == start + i)
  {
    if start + i >= total then start + i - total else start + i
  }

  /** First i in i0..total such that the i-th frame after start, cyclically, is free. */
  function Scan(free: set<nat>, start: nat, total: nat, i: nat): Option<nat>
    requires start < total && i <= total
    decreases total - i
  {
    if i == total then None
    else if Cyclic(start, i, total) in free then Some(i)
    else Scan(free, start, total, i + 1)
  }

  function AllocFrame(s: State): Option<nat>
    requires s.hint < s.total
  {
    match Scan(s.free, s.hint, s.total, 0)
    case None => None
    case Some(i) => if i < s.total then Some(Cyclic(s.hint, i, s.total)) else None
  }

  function AfterAlloc(s: State): State
    requires s.hint < s.total
  {
    match AllocFrame(s)
    case None => s
    case Some(f) =>
      State(s.total, s.free - {f}, if s.freeCount > 0 then Wrap64(s.freeCount - 1) else 0,
            Wrap64(s.usedCount + 1), if f + 1 >= s.total then 0 else f + 1)
  }

  lemma {:induction false} ScanIsFirst(free: set<nat>, start: nat, total: nat, i: nat)
    requires start < total && i <= total
    ensures var r := Scan(free, start, total, i);
      && (r.Some? ==> i <= r.value < total && Cyclic(start, r.value, total) in free)
      && (forall j: nat :: i <= j < (if r.Some? then r.value else total) ==> Cyclic(start, j, total) !in free)
    decreases total - i
  {
    if i < total && Cyclic(start, i, total) !in free { ScanIsFirst(free, start, total, i + 1); }
  }

  /** The frame handed out is free and is the first free one in cyclic order from the hint; the call
      fails only when no frame is free. */
  lemma {:induction false} AllocIsFirstFit(s: State)
    requires Sane(s)
    ensures var r := AllocFrame(s);
      && (r.None? <==> s.free == {})
      && (r.Some? ==> r.value in s.free && exists i: nat ::
            (i < s.total && r.value == Cyclic(s.hint, i, s.total)
             && forall j: nat :: j < i ==> Cyclic(s.hint, j, s.total) !in s.free))
  {
    ScanIsFirst(s.free, s.hint, s.total, 0);
    var r := Scan(s.free, s.hint, s.total, 0);
    if r.None? {
      forall f: nat | f < s.total
        ensures f !in s.free
      {
        var j := if f >= s.hint then f - s.hint else f + s.total - s.hint;
        assert Cyclic(s.hint, j, s.total) == f;
      }
    }
  }

  // ---------------------------------------------------------------- runs of pages

  ghost predicate IsRun(s: State, first: nat, pages: nat) {
    first + pages <= s.total && Run(first, pages) <= s.free
  }

  /** Lowest start at or above `from` of a run of `pages` free frames. */
  ghost function LowestRun(s: State, pages: nat, from: nat): Option<nat>
    requires pages >= 1
    decreases s.total - from
  {
    if from + pages > s.total then None
    else if IsRun(s, from, pages) then Some(from)
    else LowestRun(s, pages, from + 1)
  }

  lemma {:induction false} LowestRunIsLowest(s: State, pages: nat, from: nat)
    requires pages >= 1
    ensures var r := LowestRun(s, pages, from);
      && (r.Some? ==> from <= r.value && IsRun(s, r.value, pages))
      && forall g: nat :: from <= g && IsRun(s, g, pages) ==> r.Some? && r.value <= g
    decreases s.total - from
  {
    if from + pages <= s.total && !IsRun(s, from, pages) { LowestRunIsLowest(s, pages, from + 1); }
  }

  /** A request for no page is a request for one. */
  function Pages(n: nat): (r: nat)
    ensures 1 <= r <= n + 1 && (n >= 1 ==> r == n)
  {
    if n == 0 then 1 else n
  }

  ghost function AfterPageAlloc(s: State, pages: nat): State {
    match LowestRun(s, Pages(pages), 0)
    case None => s
    case Some(first) =>
      s.(free := s.free - Run(first, Pages(pages)),
         freeCount := Wrap64(s.freeCount - Pages(pages)), usedCount := Wrap64(s.usedCount + Pages(pages)))
  }

  // ---------------------------------------------------------------- giving back

  /** `qizo_pma_free` proceeds only for a frame that is already free: the bitmap never changes. */
  function AfterFree(s: State, addr: u64): State {
    if addr < HHDM || (addr - HHDM) / PAGE !in s.free then s
    else s.(freeCount := if s.freeCount < s.total then Wrap64(s.freeCount + 1) else s.freeCount,
            usedCount := if s.usedCount > 0 then Wrap64(s.usedCount - 1) else 0)
  }

  /** `qizo_page_free`: frame numbers wrap at 64 bits, frames past the end are ignored, and the counters
      move by `pages` regardless. */
  function AfterPageFree(s: State, addr: u64, pages: nat): State {
    if addr == 0 then s
    else
      var f := Wrap64(addr - HHDM) / PAGE;
      s.(free := s.free + Touched(f, pages, s.total),
         freeCount := Wrap64(s.freeCount + pages), usedCount := Wrap64(s.usedCount - pages))
  }

  /** Giving back: the null pointer and addresses below the direct map do nothing; a free frame given to
      `qizo_pma_free` moves one count from used to free, neither past its end. */
  lemma {:induction false} GivingBack(s: State, addr: u64, pages: nat)
    ensures AfterPageFree(s, 0, pages) == s && AfterFree(s, addr).free == s.free
    ensures addr < HHDM || (addr - HHDM) / PAGE !in s.free ==> AfterFree(s, addr) == s
    ensures addr >= HHDM && (addr - HHDM) / PAGE in s.free && s.freeCount < s.total <= MAX_FRAMES ==>
              && AfterFree(s, addr).freeCount == s.freeCount + 1
              && (s.usedCount > 0 ==> AfterFree(s, addr).usedCount == s.usedCount - 1)
              && (s.usedCount == 0 ==> AfterFree(s, addr).usedCount == 0)
  {
  }

  function AddressOf(frame: nat): nat { frame * PAGE + HHDM }

  // ---------------------------------------------------------------- the hint

  /** After an allocation the search starts behind the frame handed out, cyclically; a failed one leaves
      the hint alone. */
  lemma {:induction false} HintMoves(s: State)
    requires Sane(s)
    ensures AfterAlloc(s).hint == (match AllocFrame(s) case None => s.hint case Some(f) => (f + 1) % s.total)
  {
    AllocIsFirstFit(s);
    var f := AllocFrame(s);
    if f.Some? { WrapIndex(f.value, s.total); }
  }

  lemma {:induction false} WrapIndex(f: nat, total: nat)
    requires f < total
    ensures (f + 1) % total == if f + 1 >= total then 0 else f + 1
  {
  }

  /** The other calls leave the hint alone. */
  lemma {:induction false} HintStays(s: State, addr: u64, pages: nat)
    ensures AfterPageAlloc(s, pages).hint == s.hint && AfterPageAlloc(s, pages).total == s.total
    ensures AfterFree(s, addr).hint == s.hint && AfterFree(s, addr).total == s.total
    ensures AfterPageFree(s, addr, pages).hint == s.hint && AfterPageFree(s, addr, pages).total == s.total
  {
  }

  /** From behind f, every other frame comes before f in cyclic order. */
  lemma {:induction false} LastInCycle(f: nat, start: nat, g: nat, total: nat) returns (j: nat)
    requires f < total && start == (if f + 1 >= total then 0 else f + 1) && g < total && g != f
    ensures j < total - 1 && Cyclic(start, j, total) == g
    ensures forall i: nat :: i < total - 1 ==> Cyclic(start, i, total) != f
  {
    j := if g > f then g - f - 1 else g + total - f - 1;
  }

  /** Frames are handed out in turn: allocate f, give it back, allocate again, and f comes again if and
      only if no other frame is free. */
  lemma {:induction false} NextFit(s: State)
    requires Sane(s) && AllocFrame(s).Some?
    ensures var f := AllocFrame(s).value;
      && AddressOf(f) < MODULUS
      && var s' := AfterPageFree(AfterAlloc(s), AddressOf(f), 1);
      && s'.free == s.free && s'.hint < s'.total && (AllocFrame(s') == Some(f) <==> s.free == {f})
  {
    var f := AllocFrame(s).value;
    AllocIsFirstFit(s);
    HintMoves(s);
    WrapIndex(f, s.total);
    TouchedRun(f, 1, s.total);
    var s' := AfterPageFree(AfterAlloc(s), AddressOf(f), 1);
    assert Run(f, 1) == {f};
    assert s'.free == s.free;
    AllocIsFirstFit(s');
    if g :| g in s.free && g != f {
      var j := LastInCycle(f, s'.hint, g, s.total);
    } else {
      assert s.free == {f};
    }
  }

  // ---------------------------------------------------------------- whole runs

  /** A live allocation: `count` frames from `first`. */
  datatype Extent = Extent(first: nat, count: nat)

  function FramesOf(e: Extent): set<nat> { Run(e.first, e.count) }

  /** Calls a client may make; page frees give back a live allocation, whole. */
  datatype Call = Alloc | PageAlloc(pages: nat) | Free(addr: u64) | PageFree(live: Extent)

  /** Allocator together with what its clients hold. */
  datatype World = World(s: State, live: set<Extent>)

  ghost predicate Allowed(w: World, c: Call) {
    match c
    case Alloc => true
    case PageAlloc(n) => n < MODULUS
    case Free(a) => true
    case PageFree(e) => e in w.live
  }

  ghost function Step(w: World, c: Call): World
    requires Sane(w.s) && Allowed(w, c)
  {
    match c
    case Alloc =>
      World(AfterAlloc(w.s), match AllocFrame(w.s) case None => w.live case Some(f) => w.live + {Extent(f, 1)})
    case PageAlloc(n) =>
      World(AfterPageAlloc(w.s, n),
            match LowestRun(w.s, Pages(n), 0) case None => w.live case Some(f) => w.live + {Extent(f, Pages(n))})
    case Free(a) => World(AfterFree(w.s, a), w.live)
    case PageFree(e) => World(AfterPageFree(w.s, Wrap64(AddressOf(e.first)), e.count), w.live - {e})
  }

  /** Every live allocation: real, inside memory, inside `pool`, not free, and apart from the others. */
  ghost predicate Safe(w: World, pool: set<nat>) {
    && Sane(w.s) && w.s.free <= pool
    && (forall e :: e in w.live ==>
          e.count >= 1 && e.first + e.count <= w.s.total && FramesOf(e) <= pool && FramesOf(e) !! w.s.free)
    && (forall d, e :: d in w.live && e in w.live && d != e ==> FramesOf(d) !! FramesOf(e))
  }

  lemma {:induction false} AllocSafe(w: World, pool: set<nat>)
    requires Safe(w, pool)
    ensures Safe(Step(w, Alloc), pool)
  {
    ScanIsFirst(w.s.free, w.s.hint, w.s.total, 0);
    match AllocFrame(w.s) {
      case None =>
      case Some(f) =>
        assert FramesOf(Extent(f, 1)) == {f};
    }
  }

  lemma {:induction false} PageAllocSafe(w: World, pool: set<nat>, n: nat)
    requires Safe(w, pool) && n < MODULUS
    ensures Safe(Step(w, PageAlloc(n)), pool)
  {
    LowestRunIsLowest(w.s, Pages(n), 0);
  }

  lemma {:induction false} PageFreeSafe(w: World, pool: set<nat>, e: Extent)
    requires Safe(w, pool) && e in w.live
    ensures Safe(Step(w, PageFree(e)), pool)
    ensures Step(w, PageFree(e)).s.free == w.s.free + FramesOf(e)
  {
    TouchedRun(e.first, e.count, w.s.total);
    var s' := AfterPageFree(w.s, Wrap64(AddressOf(e.first)), e.count);
    assert s'.free == w.s.free + FramesOf(e);
  }

  lemma {:induction false} FreeSafe(w: World, pool: set<nat>, a: u64)
    requires Safe(w, pool)
    ensures Safe(Step(w, Free(a)), pool)
  {
  }

  lemma {:induction false} StepSafe(w: World, pool: set<nat>, c: Call)
    requires Safe(w, pool) && Allowed(w, c)
    ensures Safe(Step(w, c), pool)
  {
    match c {
      case Alloc => AllocSafe(w, pool);
      case PageAlloc(n) => PageAllocSafe(w, pool, n);
      case Free(a) => FreeSafe(w, pool, a);
      case PageFree(e) => PageFreeSafe(w, pool, e);
    }
  }

  /** A sequence of allowed calls, and where it leads. */
  ghost predicate Runs(w: World, pool: set<nat>, calls: seq<Call>)
    requires Safe(w, pool)
    decreases |calls|
  {
    |calls| == 0 ||
    (Allowed(w, calls[0]) && (StepSafe(w, pool, calls[0]); Runs(Step(w, calls[0]), pool, calls[1..])))
  }

  ghost function End(w: World, pool: set<nat>, calls: seq<Call>): World
    requires Safe(w, pool) && Runs(w, pool, calls)
    decreases |calls|
  {
    if |calls| == 0 then w
    else
      StepSafe(w, pool, calls[0]);
      End(Step(w, calls[0]), pool, calls[1..])
  }

  /** Over any run: live allocations stay pairwise apart and inside the pool of frames that were
      free at the start, so they never touch anything reserved. */
  lemma {:induction false} RunSafe(w: World, pool: set<nat>, calls: seq<Call>)
    requires Safe(w, pool) && Runs(w, pool, calls)
    ensures Safe(End(w, pool, calls), pool) && End(w, pool, calls).s.total == w.s.total
    decreases |calls|
  {
    if |calls| > 0 {
      StepSafe(w, pool, calls[0]);
      RunSafe(Step(w, calls[0]), pool, calls[1..]);
    }
  }

  // ---------------------------------------------------------------- counters

  /** Counters agree with the sets: free counts the set bits, used the frames handed out, and
      together they stay at the number of frames that were free at the start. */
  ghost predicate Counted(w: World, initial: nat) {
    && initial <= w.s.total && w.s.freeCount == |w.s.free| && w.s.usedCount == Held(w.live)
    && w.s.freeCount + w.s.usedCount == initial
  }

  /** Total size of the live allocations. */
  ghost function Held(live: set<Extent>): nat {
    if live == {} then 0 else var e :| e in live; e.count + Held(live - {e})
  }

  /** The choice of element does not matter. */
  lemma {:induction false} HeldRemove(live: set<Extent>, e: Extent)
    requires e in live
    ensures Held(live) == e.count + Held(live - {e})
    decreases live
  {
    var d :| d in live && Held(live) == d.count + Held(live - {d});
    if d != e {
      HeldRemove(live - {d}, e);
      HeldRemove(live - {e}, d);
      assert live - {d} - {e} == live - {e} - {d};
    }
  }

  lemma {:induction false} HeldAdd(live: set<Extent>, e: Extent)
    requires e !in live
    ensures Held(live + {e}) == Held(live) + e.count
  {
    HeldRemove(live + {e}, e);
    assert live + {e} - {e} == live;
  }

  lemma {:induction false} SubsetSize(a: set<nat>, b: set<nat>)
    requires a <= b
    ensures |b - a| == |b| - |a|
  {
    assert b == a + (b - a);
  }

  lemma {:induction false} AllocCounted(w: World, pool: set<nat>, initial: nat)
    requires Safe(w, pool) && Counted(w, initial)
    ensures Counted(Step(w, Alloc), initial)
  {
    ScanIsFirst(w.s.free, w.s.hint, w.s.total, 0);
    match AllocFrame(w.s) {
      case None =>
      case Some(f) =>
        var e := Extent(f, 1);
        assert f in FramesOf(e);
        SubsetSize({f}, w.s.free);
        HeldAdd(w.live, e);
    }
  }

  lemma {:induction false} PageAllocCounted(w: World, pool: set<nat>, initial: nat, n: nat)
    requires Safe(w, pool) && Counted(w, initial) && n < MODULUS
    ensures Counted(Step(w, PageAlloc(n)), initial)
  {
    LowestRunIsLowest(w.s, Pages(n), 0);
    match LowestRun(w.s, Pages(n), 0) {
      case None =>
      case Some(f) =>
        var e := Extent(f, Pages(n));
        assert f in FramesOf(e);
        RunSize(f, Pages(n));
        SubsetSize(FramesOf(e), w.s.free);
        HeldAdd(w.live, e);
    }
  }

  lemma {:induction false} PageFreeCounted(w: World, pool: set<nat>, initial: nat, e: Extent)
    requires Safe(w, pool) && Counted(w, initial) && e in w.live
    ensures Counted(Step(w, PageFree(e)), initial)
  {
    PageFreeSafe(w, pool, e);
    RunSize(e.first, e.count);
    HeldRemove(w.live, e);
  }

  /** A call of `qizo_pma_free` that leaves the counters alone. */
  ghost predicate Harmless(w: World, a: u64) {
    a < HHDM || (a - HHDM) / PAGE !in w.s.free || w.s.freeCount == w.s.total
  }

  /** `qizo_pma_free` keeps the counters right if and only if it does nothing. */
  lemma {:induction false} FreeCounted(w: World, pool: set<nat>, initial: nat, a: u64)
    requires Safe(w, pool) && Counted(w, initial)
    ensures Counted(Step(w, Free(a)), initial) <==> Harmless(w, a)
  {
  }

  /** No call of the run makes `qizo_pma_free` count a frame twice. */
  ghost predicate Honest(w: World, pool: set<nat>, calls: seq<Call>)
    requires Safe(w, pool) && Runs(w, pool, calls)
    decreases |calls|
  {
    |calls| == 0 ||
    ((calls[0].Free? ==> Harmless(w, calls[0].addr))
     && (StepSafe(w, pool, calls[0]); Honest(Step(w, calls[0]), pool, calls[1..])))
  }

  /** The free counter is ahead of the set bits, though not by more than all frames. */
  ghost predicate Drifted(s: State) { |s.free| < s.freeCount <= |s.free| + s.total }

  lemma {:induction false} FreeSize(s: State)
    requires Sane(s)
    ensures |s.free| <= s.total
  {
    RunSize(0, s.total);
    assert s.free <= Run(0, s.total);
    SubsetSize(s.free, Run(0, s.total));
  }

  /** No later call makes up for a drift. */
  lemma {:induction false} DriftStays(w: World, pool: set<nat>, c: Call)
    requires Safe(w, pool) && Allowed(w, c) && Drifted(w.s)
    ensures Drifted(Step(w, c).s)
  {
    FreeSize(w.s);
    match c {
      case Alloc =>
        ScanIsFirst(w.s.free, w.s.hint, w.s.total, 0);
        var f := AllocFrame(w.s);
        if f.Some? { SubsetSize({f.value}, w.s.free); }
      case PageAlloc(n) =>
        LowestRunIsLowest(w.s, Pages(n), 0);
        var f := LowestRun(w.s, Pages(n), 0);
        if f.Some? {
          RunSize(f.value, Pages(n));
          SubsetSize(Run(f.value, Pages(n)), w.s.free);
        }
      case Free(a) =>
      case PageFree(e) =>
        PageFreeSafe(w, pool, e);
        RunSize(e.first, e.count);
    }
  }

  lemma {:induction false} RunDrifts(w: World, pool: set<nat>, calls: seq<Call>)
    requires Safe(w, pool) && Drifted(w.s) && Runs(w, pool, calls)
    ensures Drifted(End(w, pool, calls).s)
    decreases |calls|
  {
    if |calls| > 0 {
      StepSafe(w, pool, calls[0]);
      DriftStays(w, pool, calls[0]);
      RunDrifts(Step(w, calls[0]), pool, calls[1..]);
    }
  }

  /** Any call but a harmful `qizo_pma_free` keeps the counters right, and that one makes them drift. */
  lemma {:induction false} StepCounted(w: World, pool: set<nat>, initial: nat, c: Call)
    requires Safe(w, pool) && Counted(w, initial) && Allowed(w, c)
    ensures (c.Free? ==> Harmless(w, c.addr)) ==> Counted(Step(w, c), initial)
    ensures c.Free? && !Harmless(w, c.addr) ==> Drifted(Step(w, c).s)
  {
    match c {
      case Alloc => AllocCounted(w, pool, initial);
      case PageAlloc(n) => PageAllocCounted(w, pool, initial, n);
      case Free(a) => FreeCounted(w, pool, initial, a);
      case PageFree(e) => PageFreeCounted(w, pool, initial, e);
    }
  }

  /** At the end of a run the counters are right if and only if no call of `qizo_pma_free` on the way
      counted a frame twice. */
  lemma {:induction false} RunCounted(w: World, pool: set<nat>, initial: nat, calls: seq<Call>)
    requires Safe(w, pool) && Counted(w, initial) && Runs(w, pool, calls)
    ensures Counted(End(w, pool, calls), initial) <==> Honest(w, pool, calls)
    decreases |calls|
  {
    if |calls| > 0 {
      var c := calls[0];
      StepCounted(w, pool, initial, c);
      StepSafe(w, pool, c);
      if c.Free? && !Harmless(w, c.addr) {
        RunDrifts(Step(w, c), pool, calls[1..]);
      } else {
        RunCounted(Step(w, c), pool, initial, calls[1..]);
      }
    }
  }
}

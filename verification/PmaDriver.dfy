/** The allocator as kernel/drivers/pma.c runs it: a static bitmap, counters and a search hint. */
module PmaDriver {
  import opened Bits
  import opened Bytes
  import opened BootLayout
  import opened Frames
  import opened PmaSpec

  const MIN_USABLE: nat := 24 * 1024 * 1024
  const E820_MAX: nat := 32

  // ---------------------------------------------------------------- boot information

  type u32 = x: int | 0 <= x < 0x1_0000_0000

  datatype E820 = E820(base: u64, size: u64, kind: u32)

  datatype BootInfo = BootInfo(map_: seq<E820>, mapCount: u32, totalRam: u64, ktext: u32, kernelTotal: u32,
                               blobPhys: u32, blobSize: u32, scratch: u32)

  /** Linker symbols. */
  datatype Symbols = Symbols(physBase: u64, imageEnd: u64, bssEnd: u64)

  /** The entries looked at: as many as reported, at most 32. */
  function Entries(info: Option<BootInfo>): (r: seq<E820>)
    ensures info.None? ==> r == []
    ensures info.Some? ==> r <= info.value.map_ && |r| <= 32 && |r| <= info.value.mapCount
    ensures info.Some? ==> |r| == info.value.mapCount || |r| == 32 || r == info.value.map_
  {
    match info
    case None => []
    case Some(b) =>
      var count := if b.mapCount > E820_MAX then E820_MAX else b.mapCount;
      b.map_[..if count > |b.map_| then |b.map_| else count]
  }

  function RawTop(es: seq<E820>, k: nat): u64
    requires k <= |es|
  {
    if k == 0 then 0
    else
      var t, e := RawTop(es, k - 1), es[k - 1];
      if e.kind == 1 && e.base < MAX_FRAMES * PAGE && Wrap64(e.base + e.size) > t then Wrap64(e.base + e.size) else t
  }

  /** First address past what the allocator manages. */
  function Top(info: Option<BootInfo>): (r: u64)
    ensures MIN_USABLE <= r <= MAX_FRAMES * PAGE
  {
    var raw := RawTop(Entries(info), |Entries(info)|);
    var t := if raw == 0 && info.Some? && info.value.totalRam != 0 then info.value.totalRam else raw;
    if t < MIN_USABLE then MIN_USABLE else if t > MAX_FRAMES * PAGE then MAX_FRAMES * PAGE else t
  }

  /** An entry that decides where memory ends: usable, and starting below 1 GiB. */
  predicate Decides(e: E820) { e.kind == 1 && e.base < 0x4000_0000 }

  lemma {:induction false} RawTopIsHighest(es: seq<E820>, k: nat)
    requires k <= |es|
    ensures forall i :: 0 <= i < k && Decides(es[i]) ==> Wrap64(es[i].base + es[i].size) <= RawTop(es, k)
    ensures RawTop(es, k) > 0 ==>
              exists i :: 0 <= i < k && Decides(es[i]) && Wrap64(es[i].base + es[i].size) == RawTop(es, k)
  {
    if k > 0 { RawTopIsHighest(es, k - 1); }
  }

  /** The managed top is the highest end t of a usable entry that starts below 1 GiB, or, when there is
      none above zero, the total reported by the boot loader, kept between 24 MiB and 1 GiB. */
  lemma {:induction false} TopIsHighest(info: Option<BootInfo>) returns (t: u64)
    ensures Top(info) == if t < 0x180_0000 then 0x180_0000 else if t > 0x4000_0000 then 0x4000_0000 else t
    ensures var es := Entries(info);
      && (forall i :: 0 <= i < |es| && Decides(es[i]) ==> Wrap64(es[i].base + es[i].size) <= t)
      && (|| (exists i :: 0 <= i < |es| && Decides(es[i]) && Wrap64(es[i].base + es[i].size) == t > 0)
          || ((forall i :: 0 <= i < |es| && Decides(es[i]) ==> Wrap64(es[i].base + es[i].size) == 0)
              && t == if info.Some? then info.value.totalRam else 0))
  {
    var es := Entries(info);
    RawTopIsHighest(es, |es|);
    t := RawTop(es, |es|);
    if t == 0 && info.Some? { t := info.value.totalRam; }
  }

  /** The frames one memory-map entry frees. */
  function EntryFrames(e: E820, top: u64, total: nat): set<nat> {
    var end := Wrap64(e.base + e.size);
    var base, len := e.base - e.base % PAGE, end - end % PAGE;
    if e.kind != 1 || len <= base || base >= top then {}
    else RangeFrames(base, (if len > top then top else len) - base, total)
  }

  function UsableFrames(es: seq<E820>, k: nat, top: u64, total: nat): set<nat>
    requires k <= |es|
  {
    if k == 0 then {} else UsableFrames(es, k - 1, top, total) + EntryFrames(es[k - 1], top, total)
  }

  function ReservedFrames(rs: seq<(u64, u64)>, k: nat, total: nat): set<nat>
    requires k <= |rs|
  {
    if k == 0 then {} else ReservedFrames(rs, k - 1, total) + RangeFrames(rs[k - 1].0, rs[k - 1].1, total)
  }

  function RoundUp(x: u64): u64 {
    var s := Wrap64(x + PAGE - 1);
    s - s % PAGE
  }

  /** End of the kernel with its bss, page-rounded. */
  function KernelEnd(b: BootInfo, syms: Symbols): u64 {
    RoundUp(if b.kernelTotal != 0 then Wrap32(b.ktext + b.kernelTotal) else syms.bssEnd)
  }

  /** It is the first page boundary at or after the end of the bss. */
  lemma {:induction false} KernelEndRounds(b: BootInfo, syms: Symbols)
    ensures var end := if b.kernelTotal != 0 then Wrap32(b.ktext + b.kernelTotal) else syms.bssEnd;
      end + PAGE <= MODULUS ==>
        KernelEnd(b, syms) % PAGE == 0 && end <= KernelEnd(b, syms) < end + PAGE
  {
  }

  /** The byte ranges taken out again, as base and length. */
  function Reserved(info: Option<BootInfo>, syms: Symbols): seq<(u64, u64)> {
    [(0, 1024 * 1024)] +
    match info
    case None => [(syms.physBase, Wrap64(syms.imageEnd - syms.physBase))]
    case Some(b) =>
      [(b.ktext, Wrap64(KernelEnd(b, syms) - b.ktext)), (b.blobPhys, b.blobSize)]
      + if Wrap32(b.scratch + 0x80000) <= Top(info) then [(b.scratch, 0x80000)] else []
  }

  /** The frames free after initialisation. */
  function InitFree(info: Option<BootInfo>, syms: Symbols): set<nat> {
    var es, top, rs := Entries(info), Top(info), Reserved(info, syms);
    UsableFrames(es, |es|, top, top / PAGE) - ReservedFrames(rs, |rs|, top / PAGE)
  }

  // ---------------------------------------------------------------- the driver

  class Allocator {
    const bitmap: array<u64>
    var total: nat
    var free: u64
    var used: u64
    var maxPhys: u64
    var hint: nat

    ghost predicate Valid()
      reads this
    {
      bitmap.Length == WORDS && total <= MAX_FRAMES
    }

    ghost function Free(): set<nat>
      requires Valid()
      reads this, bitmap
    {
      FreeSet(bitmap[..], total)
    }

    /** The abstract state. */
    ghost function View(): State
      requires Valid()
      reads this, bitmap
    {
      State(total, Free(), free, used, hint)
    }

    constructor ()
      ensures Valid() && fresh(bitmap)
    {
      bitmap := new u64[WORDS](_ => 0);
      total, free, used, maxPhys, hint := 0, 0, 0, 0, 0;
    }

    /** `frame_ok`. */
    predicate FrameOk(frame: nat)
      requires Valid()
      reads this, bitmap
      ensures FrameOk(frame) <==> frame in Free()
    {
      TestBit(if frame < total then bitmap[frame / 64] else 0, frame % 64);
      if frame >= total then false else And(bitmap[frame / 64], Pow2(frame % 64)) != 0
    }

    /** `mark`. */
    method Mark(frame: nat, good: bool)
      requires Valid()
      modifies bitmap
      ensures Free() == if frame >= total then old(Free()) else if good then old(Free()) + {frame} else old(Free()) - {frame}
    {
      if frame >= total {
        return;
      }
      MarkWordBits(bitmap[frame / 64], frame % 64, good, 0);
      FreeMarked(bitmap[..], frame, good, total);
      bitmap[frame / 64] := MarkWord(bitmap[frame / 64], frame % 64, good);
      assert bitmap[..] == Marked(old(bitmap[..]), frame, good);
    }

    /** Marking `n` frames from `first`, one after the other. */
    method MarkRun(first: u64, n: nat, good: bool)
      requires Valid() && n < MODULUS
      modifies bitmap
      ensures Free() == if good then old(Free()) + Touched(first, n, total) else old(Free()) - Touched(first, n, total)
    {
      var j: nat := 0;
      while j < n
        invariant j <= n
        invariant Free() == if good then old(Free()) + Touched(first, j, total) else old(Free()) - Touched(first, j, total)
      {
        TouchedStep(first, j, total);
        Mark(Wrap64(first + j), good);
        j := j + 1;
      }
    }

    /** The search loop of `qizo_pma_alloc`: cyclic from the hint. */
    method FindFrame() returns (r: Option<nat>)
      requires Valid() && Sane(View())
      ensures r == AllocFrame(View())
    {
      var start := hint;
      var i: nat := 0;
      while i < total
        invariant i <= total
        invariant Scan(Free(), start, total, 0) == Scan(Free(), start, total, i)
      {
        var frame := start + i;
        if frame >= total {
          frame := frame - total;
        }
        if FrameOk(frame) {
          return Some(frame);
        }
        i := i + 1;
      }
      return None;
    }

    /** `qizo_pma_alloc`. */
    method Alloc() returns (addr: nat)
      requires Valid() && Sane(View())
      modifies this`free, this`used, this`hint, bitmap
      ensures Valid() && View() == AfterAlloc(old(View()))
      ensures addr == match AllocFrame(old(View())) case None => 0 case Some(f) => AddressOf(f)
    {
      var found := FindFrame();
      if found.None? {
        return 0;
      }
      var frame := found.value;
      ScanIsFirst(Free(), hint, total, 0);
      Mark(frame, false);
      if free > 0 {
        free := free - 1;
      }
      used := Wrap64(used + 1);
      hint := frame + 1;
      if hint >= total {
        hint := 0;
      }
      return frame * PAGE + HHDM;
    }

    /** `qizo_pma_free`. */
    method FreeFrame(addr: u64)
      requires Valid()
      modifies this`free, this`used, bitmap
      ensures Valid() && View() == AfterFree(old(View()), addr)
    {
      if addr < HHDM {
        return;
      }
      var frame := (addr - HHDM) / PAGE;
      if !FrameOk(frame) {
        return;
      }
      Mark(frame, true);
      if free < total {
        free := Wrap64(free + 1);
      }
      if used > 0 {
        used := used - 1;
      }
    }

    /** The search loop of `qizo_page_alloc`: the first run long enough, or none. */
    method FindRun(pages: nat) returns (r: Option<nat>)
      requires Valid() && pages >= 1
      ensures r == LowestRun(View(), pages, 0)
    {
      var first: nat, run: nat, i: nat := 0, 0, 0;
      ghost var s, from: nat := View(), 0;
      while i < total
        invariant from + run == i <= total && run < pages && (run > 0 ==> first == from)
        invariant Run(from, run) <= s.free
        invariant LowestRun(s, pages, 0) == LowestRun(s, pages, from)
      {
        if FrameOk(i) {
          if run == 0 {
            first := i;
          }
          RunGrows(from, run, i);
          run := run + 1;
          if run == pages {
            return Some(first);
          }
        } else {
          SkipTo(s, pages, from, i);
          run := 0;
          from := i + 1;
        }
        i := i + 1;
      }
      TooFar(s, pages, from);
      return None;
    }

    /** `qizo_page_alloc`. */
    method PageAlloc(n: nat) returns (addr: nat)
      requires Valid() && n < MODULUS
      modifies this`free, this`used, bitmap
      ensures Valid() && View() == AfterPageAlloc(old(View()), n)
      ensures addr == match LowestRun(old(View()), Pages(n), 0) case None => 0 case Some(f) => AddressOf(f)
    {
      var pages := if n == 0 then 1 else n;
      var found := FindRun(pages);
      if found.None? {
        return 0;
      }
      LowestRunIsLowest(View(), pages, 0);
      TouchedRun(found.value, pages, total);
      MarkRun(found.value, pages, false);
      free := Wrap64(free - pages);
      used := Wrap64(used + pages);
      return found.value * PAGE + HHDM;
    }

    /** `qizo_page_free`. */
    method PageFree(addr: u64, pages: nat)
      requires Valid() && pages < MODULUS
      modifies this`free, this`used, bitmap
      ensures Valid() && View() == AfterPageFree(old(View()), addr, pages)
    {
      if addr == 0 {
        return;
      }
      var frame := Wrap64(addr - HHDM) / PAGE;
      MarkRun(frame, pages, true);
      free := Wrap64(free + pages);
      used := Wrap64(used - pages);
    }

    // -------------------------------------------------------------- initialisation

    /** `mark_range`: every frame the byte range touches. */
    method MarkRange(base: u64, len: u64, good: bool)
      requires Valid()
      modifies bitmap
      ensures Free() == if good then old(Free()) + RangeFrames(base, len, total) else old(Free()) - RangeFrames(base, len, total)
    {
      var first := base - base % PAGE;
      var sum := Wrap64(base + len + PAGE - 1);
      var last := sum - sum % PAGE;
      var frame := first / PAGE;
      ghost var lo := frame;
      RangeStart(base, len, total);
      while frame * PAGE < last
        invariant lo <= frame
        invariant Free() == if good then old(Free()) + Part(lo, frame, base, len, total)
                                    else old(Free()) - Part(lo, frame, base, len, total)
        decreases last - frame * PAGE
      {
        PartStep(lo, frame, base, len, total);
        Mark(frame, good);
        frame := frame + 1;
      }
      PartEnd(lo, frame, base, len, total);
    }

    /** The scan for the highest usable address. */
    method FindTop(es: seq<E820>) returns (top: u64)
      ensures top == RawTop(es, |es|)
    {
      top := 0;
      var i: nat := 0;
      while i < |es|
        invariant i <= |es| && top == RawTop(es, i)
      {
        var end := Wrap64(es[i].base + es[i].size);
        if es[i].kind == 1 && es[i].base < MAX_FRAMES * PAGE && end > top {
          top := end;
        }
        i := i + 1;
      }
    }

    /** Freeing one usable entry: base rounded down, end rounded down and clamped. */
    method MarkEntry(e: E820, top: u64)
      requires Valid()
      modifies bitmap
      ensures Free() == old(Free()) + EntryFrames(e, top, total)
    {
      if e.kind != 1 {
        return;
      }
      var end := Wrap64(e.base + e.size);
      var base, len := e.base - e.base % PAGE, end - end % PAGE;
      if len <= base {
        return;
      }
      if len > top {
        len := top;
      }
      if base >= top {
        return;
      }
      MarkRange(base, len - base, true);
    }

    method MarkUsable(es: seq<E820>, top: u64)
      requires Valid()
      modifies bitmap
      ensures Free() == old(Free()) + UsableFrames(es, |es|, top, total)
    {
      var i: nat := 0;
      while i < |es|
        invariant i <= |es| && Free() == old(Free()) + UsableFrames(es, i, top, total)
      {
        MarkEntry(es[i], top);
        i := i + 1;
      }
    }

    method MarkReserved(rs: seq<(u64, u64)>)
      requires Valid()
      modifies bitmap
      ensures Free() == old(Free()) - ReservedFrames(rs, |rs|, total)
    {
      var i: nat := 0;
      while i < |rs|
        invariant i <= |rs| && Free() == old(Free()) - ReservedFrames(rs, i, total)
      {
        MarkRange(rs[i].0, rs[i].1, false);
        i := i + 1;
      }
    }

    method CountFree() returns (n: u64)
      requires Valid()
      ensures n == |Free()|
    {
      n := 0;
      var i: nat := 0;
      assert FreeSet(bitmap[..], 0) == {};
      while i < total
        invariant i <= total && n == |FreeSet(bitmap[..], i)| && n <= i
      {
        CountStep(bitmap[..], i);
        FrameBelow(bitmap[..], i, total);
        if FrameOk(i) {
          n := n + 1;
        }
        i := i + 1;
      }
    }

    /** The managed top of memory: at least 24 MiB, at most 1 GiB. */
    method ChooseTop(info: Option<BootInfo>) returns (top: u64)
      ensures top == Top(info)
    {
      top := FindTop(Entries(info));
      if top == 0 && info.Some? && info.value.totalRam != 0 {
        top := info.value.totalRam;
      }
      if top < MIN_USABLE {
        top := MIN_USABLE;
      }
      if top > MAX_FRAMES * PAGE {
        top := MAX_FRAMES * PAGE;
      }
    }

    /** `qizo_pma_init`. */
    method Init(info: Option<BootInfo>, syms: Symbols)
      requires Valid()
      modifies this, bitmap
      ensures Valid() && Sane(View()) && total == Top(info) / PAGE && maxPhys == Top(info)
      ensures Free() == InitFree(info, syms) && free == |InitFree(info, syms)| && used == 0 && hint == 0
    {
      var top := ChooseTop(info);
      maxPhys := top;
      total := top / PAGE;
      FillBitmap(info, syms);
      free := CountFree();
      used := 0;
      hint := 0;
    }

    /** Clear, mark what is usable, then take the reserved ranges out again. */
    method FillBitmap(info: Option<BootInfo>, syms: Symbols)
      requires Valid() && total == Top(info) / PAGE
      modifies bitmap
      ensures Free() == InitFree(info, syms)
    {
      ClearBitmap();
      MarkUsable(Entries(info), Top(info));
      MarkReserved(Reserved(info, syms));
    }

    /** The bitmap becomes all zero. */
    method ClearBitmap()
      requires Valid()
      modifies bitmap
      ensures Free() == {}
    {
      var i: nat := 0;
      while i < bitmap.Length
        invariant i <= bitmap.Length && forall j :: 0 <= j < i ==> bitmap[j] == 0
      {
        bitmap[i] := 0;
        i := i + 1;
      }
      NoneSet(bitmap[..], total);
    }
  }

  lemma {:induction false} FrameBelow(words: seq<u64>, f: nat, total: nat)
    requires f < total <= 64 * |words|
    ensures f in FreeSet(words, total) <==> IsSet(words, f)
  {
  }
  lemma {:induction false} RunGrows(first: nat, n: nat, f: nat)
    requires f == first + n
    ensures Run(first, n + 1) == Run(first, n) + {f}
  {
  }

  /** A frame that is not free rules out every run across it. */
  lemma {:induction false} SkipTo(s: State, pages: nat, from: nat, i: nat)
    requires pages >= 1 && from <= i < from + pages && i !in s.free
    ensures LowestRun(s, pages, from) == LowestRun(s, pages, i + 1)
    decreases i - from
  {
    assert i in Run(from, pages);
    if from < i {
      SkipTo(s, pages, from + 1, i);
    }
    if from + pages > s.total { TooFar(s, pages, i + 1); }
  }

  lemma {:induction false} TooFar(s: State, pages: nat, from: nat)
    requires pages >= 1 && from + pages > s.total
    ensures LowestRun(s, pages, from) == None
  {
  }

  // ---------------------------------------------------------------- range marking, frame by frame

  /** The frames of a range that lie in [lo, hi). */
  function Part(lo: nat, hi: nat, base: u64, len: u64, total: nat): set<nat> {
    set f: nat | f in RangeFrames(base, len, total) && Between(lo, f, hi)
  }

  lemma {:induction false} RangeStart(base: u64, len: u64, total: nat)
    ensures (base - base % PAGE) / PAGE == base / PAGE
    ensures Part(base / PAGE, base / PAGE, base, len, total) == {}
  {
  }

  lemma {:induction false} PartStep(lo: nat, frame: nat, base: u64, len: u64, total: nat)
    requires lo == base / PAGE <= frame
    requires var sum := Wrap64(base + len + PAGE - 1); frame * PAGE < sum - sum % PAGE
    ensures Part(lo, frame + 1, base, len, total) ==
            Part(lo, frame, base, len, total) + (if frame < total then {frame} else {})
  {
    var sum := Wrap64(base + len + PAGE - 1);
    assert frame < sum / PAGE;
  }

  lemma {:induction false} PartEnd(lo: nat, frame: nat, base: u64, len: u64, total: nat)
    requires lo == base / PAGE <= frame
    requires var sum := Wrap64(base + len + PAGE - 1); frame * PAGE >= sum - sum % PAGE
    ensures Part(lo, frame, base, len, total) == RangeFrames(base, len, total)
  {
    var sum := Wrap64(base + len + PAGE - 1);
    assert frame >= sum / PAGE;
  }

  // ---------------------------------------------------------------- what is free after initialisation

  /** No memory-map entry runs past the end of the address space. */
  ghost predicate NoWrap(es: seq<E820>) {
    forall i :: 0 <= i < |es| ==> es[i].base + es[i].size < MODULUS
  }

  /** Frame f lies between the page-rounded base and the page-rounded end of a usable entry. */
  ghost predicate Usable(e: E820, f: nat) {
    e.kind == 1 && e.base / PAGE <= f < (e.base + e.size) / PAGE
  }

  lemma {:induction false} EntryIsUsable(e: E820, top: u64, f: nat)
    requires e.base + e.size < MODULUS && f < top / PAGE && top <= MAX_FRAMES * PAGE
    ensures f in EntryFrames(e, top, top / PAGE) <==> Usable(e, f)
  {
    var end := e.base + e.size;
    var base, len := e.base - e.base % PAGE, end - end % PAGE;
    if e.kind == 1 && len > base && base < top {
      var l := if len > top then top else len;
      assert base + (l - base) + PAGE - 1 < MODULUS;
      assert f in EntryFrames(e, top, top / PAGE) <==> base / PAGE <= f < (l + PAGE - 1) / PAGE;
      RoundedEnd(l, len, end, top, f);
    }
  }

  lemma {:induction false} RoundedEnd(l: nat, len: nat, end: nat, top: nat, f: nat)
    requires len == end - end % PAGE && l == (if len > top then top else len) && f < top / PAGE
    ensures f < (l + PAGE - 1) / PAGE <==> f < end / PAGE
  {
  }

  lemma {:induction false} UsableUnion(es: seq<E820>, k: nat, top: u64, f: nat)
    requires k <= |es| && NoWrap(es) && f < top / PAGE && top <= MAX_FRAMES * PAGE
    ensures f in UsableFrames(es, k, top, top / PAGE) <==> exists i :: 0 <= i < k && Usable(es[i], f)
  {
    if k > 0 {
      UsableUnion(es, k - 1, top, f);
      EntryIsUsable(es[k - 1], top, f);
    }
  }

  lemma {:induction false} UsableBelow(es: seq<E820>, k: nat, top: u64, total: nat, f: nat)
    requires k <= |es| && f in UsableFrames(es, k, top, total)
    ensures f < total
  {
    if f !in EntryFrames(es[k - 1], top, total) { UsableBelow(es, k - 1, top, total, f); }
  }

  lemma {:induction false} ReservedUnion(rs: seq<(u64, u64)>, k: nat, total: nat, f: nat)
    requires k <= |rs|
    ensures f in ReservedFrames(rs, k, total) <==> exists i :: 0 <= i < k && f in RangeFrames(rs[i].0, rs[i].1, total)
  {
    if k > 0 { ReservedUnion(rs, k - 1, total, f); }
  }

  /** For a memory map without address wrap: a frame is free after initialisation exactly when it is
      managed, lies in some usable entry and in no reserved range. */
  lemma {:induction false} InitCharacterised(info: Option<BootInfo>, syms: Symbols, f: nat)
    requires NoWrap(Entries(info))
    ensures var es, rs, total := Entries(info), Reserved(info, syms), Top(info) / PAGE;
      f in InitFree(info, syms) <==>
        && f < total && (exists i :: 0 <= i < |es| && Usable(es[i], f))
        && (forall i :: 0 <= i < |rs| ==> f !in RangeFrames(rs[i].0, rs[i].1, total))
  {
    var es, rs, top := Entries(info), Reserved(info, syms), Top(info);
    ReservedUnion(rs, |rs|, top / PAGE, f);
    if f < top / PAGE {
      UsableUnion(es, |es|, top, f);
    } else if f in UsableFrames(es, |es|, top, top / PAGE) {
      UsableBelow(es, |es|, top, top / PAGE, f);
    }
  }

  /** A byte range [lo, hi) keeps clear of every frame of a set. */
  ghost predicate Clear(frames: set<nat>, lo: nat, hi: nat) {
    lo < hi ==> forall f :: f in frames ==> (f + 1) * PAGE <= lo || hi <= f * PAGE
  }

  lemma {:induction false} RangeClears(frames: set<nat>, base: u64, len: u64, total: nat)
    requires base + len + PAGE < MODULUS && frames !! RangeFrames(base, len, total)
    requires forall f :: f in frames ==> f < total
    ensures Clear(frames, base, base + len)
  {
    if len > 0 {
      forall f | f in frames
        ensures (f + 1) * PAGE <= base || base + len <= f * PAGE
      {
        assert f !in RangeFrames(base, len, total);
      }
    }
  }

  lemma {:induction false} ReservedApart(info: Option<BootInfo>, syms: Symbols, i: nat)
    requires i < |Reserved(info, syms)|
    ensures var r := Reserved(info, syms)[i];
      InitFree(info, syms) !! RangeFrames(r.0, r.1, Top(info) / PAGE)
      && forall f :: f in InitFree(info, syms) ==> f < Top(info) / PAGE
  {
    var es, rs, top := Entries(info), Reserved(info, syms), Top(info);
    forall f | f in InitFree(info, syms)
      ensures f < top / PAGE && f !in RangeFrames(rs[i].0, rs[i].1, top / PAGE)
    {
      ReservedUnion(rs, |rs|, top / PAGE, f);
      UsableBelow(es, |es|, top, top / PAGE, f);
    }
  }

  lemma {:induction false} RangeIsClear(info: Option<BootInfo>, syms: Symbols, i: nat)
    requires i < |Reserved(info, syms)|
    requires var r := Reserved(info, syms)[i]; r.0 + r.1 + PAGE < MODULUS
    ensures var r := Reserved(info, syms)[i]; Clear(InitFree(info, syms), r.0, r.0 + r.1)
  {
    var r := Reserved(info, syms)[i];
    ReservedApart(info, syms, i);
    RangeClears(InitFree(info, syms), r.0, r.1, Top(info) / PAGE);
  }

  /** The frames marked for the kernel run from its first to its rounded end; none when that wraps. */
  lemma {:induction false} KernelFrames(b: BootInfo, syms: Symbols, total: nat, f: nat)
    ensures f in RangeFrames(b.ktext, Wrap64(KernelEnd(b, syms) - b.ktext), total) <==>
            f < total && b.ktext / PAGE <= f && f * PAGE < KernelEnd(b, syms)
  {
    var end: nat := KernelEnd(b, syms);
    var len := Wrap64(end - b.ktext);
    assert Wrap64(b.ktext + len + PAGE - 1) == end + PAGE - 1;
    assert end % PAGE == 0;
  }

  lemma {:induction false} KernelIsClear(b: BootInfo, syms: Symbols)
    ensures Clear(InitFree(Some(b), syms), b.ktext, KernelEnd(b, syms))
    ensures KernelFits(b) ==> Clear(InitFree(Some(b), syms), b.ktext, b.ktext + b.kernelTotal)
  {
    var pool, total := InitFree(Some(b), syms), Top(Some(b)) / PAGE;
    ReservedApart(Some(b), syms, 1);
    forall f | f in pool
      ensures b.ktext < KernelEnd(b, syms) ==> (f + 1) * PAGE <= b.ktext || KernelEnd(b, syms) <= f * PAGE
    {
      KernelFrames(b, syms, total, f);
    }
  }

  /** The boot loader reported a kernel size, and its end is a 32-bit address. */
  predicate KernelFits(b: BootInfo) { b.kernelTotal != 0 && b.ktext + b.kernelTotal < 0x1_0000_0000 }

  /** The test before the scratch area is reserved, in 32-bit arithmetic. */
  predicate ScratchGuard(b: BootInfo) { Wrap32(b.scratch + 0x80000) <= Top(Some(b)) }

  /** A set of frames keeps clear of the low megabyte, the blob, the kernel up to its rounded end and,
      under the conditions the code has for them, the kernel with its bss and the scratch area. */
  ghost predicate Avoids(frames: set<nat>, info: Option<BootInfo>, syms: Symbols) {
    && Clear(frames, 0, 0x100000)
    && match info
       case None => frames == {}
       case Some(b) =>
         && Clear(frames, b.blobPhys, b.blobPhys + b.blobSize)
         && Clear(frames, b.ktext, KernelEnd(b, syms))
         && (KernelFits(b) ==> Clear(frames, b.ktext, b.ktext + b.kernelTotal))
         && (ScratchGuard(b) ==> Clear(frames, b.scratch, b.scratch + 0x80000))
  }

  /** What the kernel starts with keeps clear of everything reserved; without boot information it
      starts with nothing. */
  lemma {:induction false} PoolAvoidsReserved(info: Option<BootInfo>, syms: Symbols)
    ensures Avoids(InitFree(info, syms), info, syms)
  {
    RangeIsClear(info, syms, 0);
    if info.Some? {
      RangeIsClear(info, syms, 2);
      KernelIsClear(info.value, syms);
      if ScratchGuard(info.value) { RangeIsClear(info, syms, 3); }
    }
  }

  // ---------------------------------------------------------------- when a range is not reserved

  ghost predicate Touches(f: nat, lo: nat, hi: nat) { f * PAGE < hi && lo < (f + 1) * PAGE }

  /** Managed, and inside some usable entry of the memory map. */
  ghost predicate Backed(b: BootInfo, f: nat) {
    f < Top(Some(b)) / PAGE && exists i :: 0 <= i < |Entries(Some(b))| && Usable(Entries(Some(b))[i], f)
  }

  lemma {:induction false} InitByRange(b: BootInfo, syms: Symbols, f: nat)
    requires NoWrap(Entries(Some(b)))
    ensures var total := Top(Some(b)) / PAGE;
      f in InitFree(Some(b), syms) <==>
        && Backed(b, f) && f !in RangeFrames(0, 0x100000, total)
        && f !in RangeFrames(b.ktext, Wrap64(KernelEnd(b, syms) - b.ktext), total)
        && f !in RangeFrames(b.blobPhys, b.blobSize, total)
        && (ScratchGuard(b) ==> f !in RangeFrames(b.scratch, 0x80000, total))
  {
    InitCharacterised(Some(b), syms, f);
    var rs, total := Reserved(Some(b), syms), Top(Some(b)) / PAGE;
    assert rs[0] == (0, 0x100000) && rs[1] == (b.ktext, Wrap64(KernelEnd(b, syms) - b.ktext));
    assert rs[2] == (b.blobPhys, b.blobSize) && (ScratchGuard(b) ==> rs[3] == (b.scratch, 0x80000));
  }

  lemma {:induction false} RangeTouches(f: nat, base: u64, len: u64, total: nat)
    requires base + len + PAGE < MODULUS && len > 0
    ensures f in RangeFrames(base, len, total) <==> f < total && Touches(f, base, base + len)
  {
  }

  /** Exactly which frames of the scratch area are handed out: those the memory map backs and no other
      range covers, when the test fails, and none when it holds. */
  lemma {:induction false} ScratchExposed(b: BootInfo, syms: Symbols, f: nat)
    requires NoWrap(Entries(Some(b))) && Touches(f, b.scratch, b.scratch + 0x80000)
    ensures var total := Top(Some(b)) / PAGE;
      f in InitFree(Some(b), syms) <==>
        && !ScratchGuard(b) && Backed(b, f) && f >= 0x100
        && !(b.ktext / PAGE <= f && f * PAGE < KernelEnd(b, syms))
        && f !in RangeFrames(b.blobPhys, b.blobSize, total)
  {
    var total := Top(Some(b)) / PAGE;
    InitByRange(b, syms, f);
    KernelFrames(b, syms, total, f);
    RangeTouches(f, 0, 0x100000, total);
    RangeTouches(f, b.scratch, 0x80000, total);
  }

  /** Exactly which frames of the kernel with its bss are handed out: with a 32-bit end none, otherwise
      those past the wrapped end that the memory map backs and no other range covers. */
  lemma {:induction false} KernelExposed(b: BootInfo, syms: Symbols, f: nat)
    requires NoWrap(Entries(Some(b))) && b.kernelTotal != 0 && Touches(f, b.ktext, b.ktext + b.kernelTotal)
    ensures var total := Top(Some(b)) / PAGE;
      f in InitFree(Some(b), syms) <==>
        && !KernelFits(b) && KernelEnd(b, syms) <= f * PAGE && Backed(b, f) && f >= 0x100
        && f !in RangeFrames(b.blobPhys, b.blobSize, total)
        && (ScratchGuard(b) ==> f !in RangeFrames(b.scratch, 0x80000, total))
  {
    var total := Top(Some(b)) / PAGE;
    InitByRange(b, syms, f);
    KernelFrames(b, syms, total, f);
    RangeTouches(f, 0, 0x100000, total);
  }

  /** 32 MiB of memory and a scratch area across its end: a page of it is handed out. */
  lemma {:induction false} ScratchHandedOut(syms: Symbols)
    ensures var b := BootInfo([E820(0, 0x2000000, 1)], 1, 0, 0x100000, 0x80000, 0x21000, 0x1F000, 0x1FFF000);
      0x1FFF in InitFree(Some(b), syms) && Touches(0x1FFF, b.scratch, b.scratch + 0x80000)
  {
    var b := BootInfo([E820(0, 0x2000000, 1)], 1, 0, 0x100000, 0x80000, 0x21000, 0x1F000, 0x1FFF000);
    TopOf(b, 0x2000000);
    assert Usable(Entries(Some(b))[0], 0x1FFF);
    ScratchExposed(b, syms, 0x1FFF);
  }

  /** 32 MiB of memory and a kernel size whose end wraps: a page of the kernel is handed out. */
  lemma {:induction false} KernelHandedOut(syms: Symbols)
    ensures var b := BootInfo([E820(0, 0x2000000, 1)], 1, 0, 0x100000, 0xFFF0_0001, 0x21000, 0x1F000, 0x180000);
      0x200 in InitFree(Some(b), syms) && Touches(0x200, b.ktext, b.ktext + b.kernelTotal)
  {
    var b := BootInfo([E820(0, 0x2000000, 1)], 1, 0, 0x100000, 0xFFF0_0001, 0x21000, 0x1F000, 0x180000);
    TopOf(b, 0x2000000);
    assert Usable(Entries(Some(b))[0], 0x200);
    KernelExposed(b, syms, 0x200);
  }

  lemma {:induction false} TopOf(b: BootInfo, size: u64)
    requires b.map_ == [E820(0, size, 1)] && b.mapCount == 1 && MIN_USABLE <= size <= MAX_FRAMES * PAGE
    ensures Entries(Some(b)) == b.map_ && Top(Some(b)) == size
  {
    assert RawTop(b.map_, 1) == size;
  }

  // ---------------------------------------------------------------- runs from initialisation

  /** No more frames are free than there are. */
  lemma {:induction false} PoolFits(info: Option<BootInfo>, syms: Symbols)
    ensures |InitFree(info, syms)| < Top(info) / PAGE && InitFree(info, syms) <= Run(0, Top(info) / PAGE)
  {
    var pool, total := InitFree(info, syms), Top(info) / PAGE;
    PoolAvoidsReserved(info, syms);
    forall f | f in pool
      ensures f in Run(1, total - 1)
    {
      UsableBelow(Entries(info), |Entries(info)|, Top(info), total, f);
    }
    assert pool <= Run(1, total - 1);
    RunSize(1, total - 1);
    SubsetSize(pool, Run(1, total - 1));
  }

  /** The allocator as `Init` leaves it, with nothing handed out. */
  ghost function InitWorld(info: Option<BootInfo>, syms: Symbols): World {
    PoolFits(info, syms);
    World(State(Top(info) / PAGE, InitFree(info, syms), |InitFree(info, syms)|, 0, 0), {})
  }

  /** Initialisation starts every run in a safe and counted world. */
  lemma {:induction false} InitIsSafe(info: Option<BootInfo>, syms: Symbols)
    ensures var pool := InitFree(info, syms);
      Safe(InitWorld(info, syms), pool) && Counted(InitWorld(info, syms), |pool|)
  {
    PoolFits(info, syms);
  }

  /** A sequence of allowed calls after initialisation, and where it leads. */
  ghost predicate RunsFromInit(info: Option<BootInfo>, syms: Symbols, calls: seq<Call>) {
    InitIsSafe(info, syms);
    Runs(InitWorld(info, syms), InitFree(info, syms), calls)
  }

  ghost function EndFromInit(info: Option<BootInfo>, syms: Symbols, calls: seq<Call>): World
    requires RunsFromInit(info, syms, calls)
  {
    InitIsSafe(info, syms);
    End(InitWorld(info, syms), InitFree(info, syms), calls)
  }

  /** Right after initialisation, giving "back" any free frame once makes the free counter wrong. */
  lemma {:induction false} FreeDrifts(info: Option<BootInfo>, syms: Symbols, f: nat)
    requires f in InitFree(info, syms)
    ensures AddressOf(f) < MODULUS
    ensures var w := InitWorld(info, syms);
      Sane(w.s) && !Counted(Step(w, Free(AddressOf(f))), |InitFree(info, syms)|)
  {
    PoolFits(info, syms);
    InitIsSafe(info, syms);
    var w := InitWorld(info, syms);
    assert f < w.s.total;
    FreeCounted(w, InitFree(info, syms), |InitFree(info, syms)|, AddressOf(f));
  }

  lemma {:induction false} FewerAvoid(frames: set<nat>, pool: set<nat>, info: Option<BootInfo>, syms: Symbols)
    requires frames <= pool && Avoids(pool, info, syms)
    ensures Avoids(frames, info, syms)
  {
  }

  /** Over whole runs from initialisation, for every memory map and boot information: what is handed out
      keeps clear of everything reserved and of anything else handed out. */
  lemma {:induction false} ReachableAvoidsReserved(info: Option<BootInfo>, syms: Symbols, calls: seq<Call>, e: Extent)
    requires RunsFromInit(info, syms, calls) && e in EndFromInit(info, syms, calls).live
    ensures Avoids(FramesOf(e), info, syms)
    ensures forall d :: d in EndFromInit(info, syms, calls).live && d != e ==> FramesOf(d) !! FramesOf(e)
  {
    var w, pool := InitWorld(info, syms), InitFree(info, syms);
    InitIsSafe(info, syms);
    RunSafe(w, pool, calls);
    assert FramesOf(e) <= pool;
    PoolAvoidsReserved(info, syms);
    FewerAvoid(FramesOf(e), pool, info, syms);
  }

  /** From initialisation on, the counters are right exactly as long as no call of `qizo_pma_free` has
      counted a frame twice. */
  lemma {:induction false} CountersFromInit(info: Option<BootInfo>, syms: Symbols, calls: seq<Call>)
    requires RunsFromInit(info, syms, calls)
    ensures Safe(InitWorld(info, syms), InitFree(info, syms))
    ensures Counted(EndFromInit(info, syms, calls), |InitFree(info, syms)|) <==>
            Honest(InitWorld(info, syms), InitFree(info, syms), calls)
  {
    InitIsSafe(info, syms);
    RunCounted(InitWorld(info, syms), InitFree(info, syms), |InitFree(info, syms)|, calls);
  }
}

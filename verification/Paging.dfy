/** The two page-table builders (kernel/boot64.S and boot/stage2.S) and the 4-level walk that gives
    their tables meaning (section 4.5 of the Intel SDM, volume 3A). */
module Paging {
  import opened Bits
  import opened BootLayout

  const GIB: nat := 0x4000_0000
  const ENTRIES: nat := 0x6000 / 8

  // ---------------------------------------------------------------- the walk

  datatype Outcome = Phys(addr: nat) | Fault | Outside

  /** Both halves of the 48-bit linear address space. */
  predicate Canonical(la: u64) {
    la < 0x8000_0000_0000 || la >= 0xFFFF_8000_0000_0000
  }

  predicate Present(e: u64) { e % 2 == 1 }
  predicate Large(e: u64) { e / 0x80 % 2 == 1 }
  function Frame(e: u64): nat { e / 0x1000 % 0x100_0000_0000 * 0x1000 }

  /** The idx-th entry of the table at physical address `at`, if it lies in the block at `base`. */
  predicate Inside(tables: seq<u64>, base: nat, at: nat) {
    base <= at && (at - base) % 0x1000 == 0 && (at - base) / 8 + 512 <= |tables|
  }

  function Fetch(tables: seq<u64>, base: nat, at: nat, idx: nat): u64
    requires Inside(tables, base, at) && idx < 512
  {
    tables[(at - base) / 8 + idx]
  }

  /** Translation through PML4, PDPT and PD with 2 MiB or 1 GiB pages or a final page table. */
  function Walk(tables: seq<u64>, base: nat, la: u64): Outcome {
    if !Inside(tables, base, base) then Outside
    else
      var e4 := Fetch(tables, base, base, la / 0x80_0000_0000 % 512);
      if !Present(e4) then Fault
      else if !Inside(tables, base, Frame(e4)) then Outside
      else
        var e3 := Fetch(tables, base, Frame(e4), la / 0x4000_0000 % 512);
        if !Present(e3) then Fault
        else if Large(e3) then Phys(Frame(e3) / GIB * GIB + la % GIB)
        else if !Inside(tables, base, Frame(e3)) then Outside
        else WalkDirectory(tables, base, Frame(e3), la)
  }

  function WalkDirectory(tables: seq<u64>, base: nat, pd: nat, la: u64): Outcome
    requires Inside(tables, base, pd)
  {
    var e2 := Fetch(tables, base, pd, la / 0x20_0000 % 512);
    if !Present(e2) then Fault
    else if Large(e2) then Phys(Frame(e2) / 0x20_0000 * 0x20_0000 + la % 0x20_0000)
    else if !Inside(tables, base, Frame(e2)) then Outside
    else
      var e1 := Fetch(tables, base, Frame(e2), la / 0x1000 % 512);
      if !Present(e1) then Fault else Phys(Frame(e1) + la % 0x1000)
  }

  // ---------------------------------------------------------------- kernel tables

  /** Entry i of the finished block at `base`. */
  function KernelEntry(base: nat, i: nat): nat {
    if i == 0 then base + 0x1003
    else if i == 273 then base + 0x3003
    else if i == 512 then base + 0x2003
    else if i == 1536 then base + 0x4003
    else if 1024 <= i < 1536 then (i - 1024) * 0x20_0000 + 0x83
    else if 2048 <= i < 2560 then (i - 2048) * 0x20_0000 + 0x83
    else 0
  }

  /** Where the block may lie: page aligned, inside the physical address space. */
  predicate Placed(base: nat) { base % 0x1000 == 0 && base + 0x6000 <= 0x10_0000_0000_0000 }

  ghost predicate KernelTables(tables: seq<u64>, base: nat) {
    Placed(base) && |tables| == ENTRIES && forall i :: 0 <= i < ENTRIES ==> tables[i] == KernelEntry(base, i)
  }

  lemma {:induction false} DirectoryEntry(base: nat, k: nat)
    requires Placed(base) && k <= 5
    ensures Or(base + k * 0x1000, 3) == base + k * 0x1000 + 3
  {
    Powers();
    var q := (base + k * 0x1000) / 0x1000;
    assert q * Pow2(12) == base + k * 0x1000;
    OrShifted(q, 12, 3);
  }

  lemma {:induction false} PageEntry(n: nat)
    ensures Or(n * 0x20_0000, 0x83) == n * 0x20_0000 + 0x83
  {
    Powers();
    OrShifted(n, 21, 0x83);
  }

  /** `shr` by 39 or 30 of the direct-map base, then a 9-bit mask. */
  method HhdmIndex(unit: nat) returns (rdx: nat)
    requires unit > 0
    ensures rdx == HHDM / unit % 512
  {
    Powers();
    PowerSum(8, 1);
    AndMask(HHDM / unit, 9);
    rdx := And(HHDM / unit, 511);
  }

  /** One of the two fill loops: 512 entries of 2 MiB pages from index `at`. */
  method FillDirectory(tables: array<u64>, at: nat)
    requires tables.Length == ENTRIES && at + 512 <= ENTRIES
    modifies tables
    ensures forall i :: 0 <= i < ENTRIES ==>
              tables[i] == if at <= i < at + 512 then (i - at) * 0x20_0000 + 0x83 else old(tables[i])
  {
    var rdx: nat := 0;
    while rdx < 512
      invariant rdx <= 512
      invariant forall i :: 0 <= i < ENTRIES ==>
                  tables[i] == if at <= i < at + rdx then (i - at) * 0x20_0000 + 0x83 else old(tables[i])
    {
      PageEntry(rdx);
      tables[at + rdx] := Or(rdx * 0x20_0000, 0x83);
      rdx := rdx + 1;
    }
  }

  method ClearTables(tables: array<u64>)
    requires tables.Length == ENTRIES
    modifies tables
    ensures forall i :: 0 <= i < ENTRIES ==> tables[i] == 0
  {
    var i: nat := 0;
    while i < ENTRIES
      invariant i <= ENTRIES && forall j :: 0 <= j < i ==> tables[j] == 0
    {
      tables[i] := 0;
      i := i + 1;
    }
  }

  /** A directory entry as the code forms it: present and writable. */
  method DirEntry(base: nat, k: nat) returns (e: u64)
    requires Placed(base) && k <= 5
    ensures e == base + k * 0x1000 + 3
  {
    DirectoryEntry(base, k);
    e := Or(base + k * 0x1000, 3);
  }

  function LinkEntry(base: nat, i: nat): nat {
    if i == 0 then base + 0x1003 else if i == 273 then base + 0x3003
    else if i == 512 then base + 0x2003 else if i == 1536 then base + 0x4003 else 0
  }

  /** The four entries that link the levels. */
  method LinkTables(tables: array<u64>, base: nat)
    requires tables.Length == ENTRIES && Placed(base) && forall i :: 0 <= i < ENTRIES ==> tables[i] == 0
    modifies tables
    ensures forall i :: 0 <= i < ENTRIES ==> tables[i] == LinkEntry(base, i)
  {
    var rax := DirEntry(base, 1);
    tables[0] := rax;
    rax := DirEntry(base, 3);
    var rdx := HhdmIndex(0x80_0000_0000);
    tables[rdx] := rax;
    rax := DirEntry(base, 2);
    tables[0x1000 / 8] := rax;
    rax := DirEntry(base, 4);
    rdx := HhdmIndex(0x4000_0000);
    tables[0x3000 / 8 + rdx] := rax;
  }

  /** `qizo_paging_setup` up to loading CR3. */
  method PagingSetup(tables: array<u64>, base: nat)
    requires tables.Length == ENTRIES && Placed(base)
    modifies tables
    ensures KernelTables(tables[..], base)
  {
    ClearTables(tables);
    LinkTables(tables, base);
    FillDirectory(tables, 0x2000 / 8);
    FillDirectory(tables, 0x4000 / 8);
  }

  // ---------------------------------------------------------------- what the kernel tables map

  /** Identity below 1 GiB, direct map above the base, nothing else. */
  function KernelMap(la: u64): Outcome {
    if la < GIB then Phys(la)
    else if HHDM <= la < HHDM + GIB then Phys(la - HHDM)
    else Fault
  }

  lemma {:induction false} TableEntry(base: nat, k: nat)
    requires Placed(base) && k <= 5
    ensures var e := base + k * 0x1000 + 3;
      e < 0x1_0000_0000_0000_0000 && Present(e) && !Large(e) && Frame(e) == base + k * 0x1000
  {
  }

  /** The low 32 bits of an address are its page number and the offset in the page. */
  lemma {:induction false} LowPart(la: nat)
    ensures la / 0x20_0000 % 2048 * 0x20_0000 + la % 0x20_0000 == la % 0x1_0000_0000
  {
    var q := la / 0x20_0000;
    assert la == 0x1_0000_0000 * (q / 2048) + (q % 2048 * 0x20_0000 + la % 0x20_0000);
  }

  lemma {:induction false} PageFrame(n: nat)
    requires n < 2048
    ensures var e := n * 0x20_0000 + 0x83; Present(e) && Large(e) && Frame(e) == n * 0x20_0000
  {
    var e := n * 0x20_0000 + 0x83;
    assert e / 0x80 == n * 0x4000 + 1;
    assert e / 0x1000 == n * 0x200;
  }

  lemma {:induction false} PageMaps(n: nat, la: u64)
    requires n < 2048 && n == la / 0x20_0000 % 2048
    ensures var e := n * 0x20_0000 + 0x83;
      && Present(e) && Large(e)
      && Frame(e) / 0x20_0000 * 0x20_0000 + la % 0x20_0000 == la % 0x1_0000_0000
  {
    PageFrame(n);
    LowPart(la);
  }

  /** Which top-level slots are in use: the first, and the one of the direct map. */
  lemma {:induction false} Slot4(la: u64)
    requires Canonical(la)
    ensures la / 0x80_0000_0000 % 512 == 0 <==> la < 0x80_0000_0000
    ensures la / 0x80_0000_0000 % 512 == 273 <==> HHDM <= la < HHDM + 0x80_0000_0000
  {
    var q := la / 0x80_0000_0000;
    if q < 256 {
      assert q % 512 == q;
    } else {
      assert q % 512 == q - 512 * 65535;
    }
  }

  lemma {:induction false} Slot3(la: u64)
    ensures la < 0x80_0000_0000 ==> (la / 0x4000_0000 % 512 == 0 <==> la < GIB)
    ensures HHDM <= la < HHDM + 0x80_0000_0000 ==>
              (la / 0x4000_0000 % 512 == 0 <==> la < HHDM + GIB) && la / 0x4000_0000 % 512 == (la - HHDM) / 0x4000_0000
  {
  }

  lemma {:induction false} Slot2(la: u64, off: nat)
    requires off < GIB && (la == off || la == HHDM + off)
    ensures la / 0x20_0000 % 512 == off / 0x20_0000 && off / 0x20_0000 % 2048 == off / 0x20_0000
    ensures la % 0x20_0000 == off % 0x20_0000
  {
  }

  lemma {:induction false} LargePage(tables: seq<u64>, base: nat, pd: nat, la: u64, e: u64)
    requires Inside(tables, base, pd) && Fetch(tables, base, pd, la / 0x20_0000 % 512) == e && Present(e) && Large(e)
    ensures WalkDirectory(tables, base, pd, la) == Phys(Frame(e) / 0x20_0000 * 0x20_0000 + la % 0x20_0000)
  {
  }

  lemma {:induction false} DirectoryMaps(tables: seq<u64>, base: nat, pd: nat, la: u64, off: nat)
    requires KernelTables(tables, base) && (pd == base + 0x2000 || pd == base + 0x4000)
    requires off < GIB && (la == off || la == HHDM + off)
    ensures Inside(tables, base, pd) && WalkDirectory(tables, base, pd, la) == Phys(off)
  {
    Slot2(la, off);
    var n := off / 0x20_0000;
    PageMaps(n, off);
    DirectorySlot(tables, base, pd, n);
    LargePage(tables, base, pd, la, n * 0x20_0000 + 0x83);
  }

  lemma {:induction false} DirectorySlot(tables: seq<u64>, base: nat, pd: nat, n: nat)
    requires KernelTables(tables, base) && (pd == base + 0x2000 || pd == base + 0x4000) && n < 512
    ensures Inside(tables, base, pd) && Fetch(tables, base, pd, n) == n * 0x20_0000 + 0x83
  {
    var i := (pd - base) / 8 + n;
    assert tables[i] == KernelEntry(base, i);
  }

  lemma {:induction false} Level3(tables: seq<u64>, base: nat, pdpt: nat, la: u64)
    requires KernelTables(tables, base) && (pdpt == base + 0x1000 || pdpt == base + 0x3000)
    ensures Inside(tables, base, pdpt)
    ensures var e3 := Fetch(tables, base, pdpt, la / 0x4000_0000 % 512);
      if la / 0x4000_0000 % 512 == 0 then e3 == pdpt + 0x1003 else e3 == 0
  {
    var i := (pdpt - base) / 8 + la / 0x4000_0000 % 512;
    assert tables[i] == KernelEntry(base, i);
  }

  lemma {:induction false} WalkThrough(tables: seq<u64>, base: nat, k: nat, la: u64)
    requires KernelTables(tables, base) && (k == 1 || k == 3)
    requires tables[la / 0x80_0000_0000 % 512] == base + k * 0x1000 + 3
    ensures Inside(tables, base, base + (k + 1) * 0x1000)
    ensures Walk(tables, base, la) ==
            if la / 0x4000_0000 % 512 == 0 then WalkDirectory(tables, base, base + (k + 1) * 0x1000, la) else Fault
  {
    TableEntry(base, k);
    TableEntry(base, k + 1);
    Level3(tables, base, base + k * 0x1000, la);
  }

  /** The walk through the kernel's tables is the identity on the low GiB, subtracts the direct-map
      base on the high GiB and faults on every other canonical address. */
  lemma {:induction false} KernelWalk(tables: seq<u64>, base: nat, la: u64)
    requires KernelTables(tables, base) && Canonical(la)
    ensures Walk(tables, base, la) == KernelMap(la)
  {
    Slot4(la);
    Slot3(la);
    var i := la / 0x80_0000_0000 % 512;
    assert tables[i] == KernelEntry(base, i);
    if i == 0 {
      WalkThrough(tables, base, 1, la);
      if la < GIB { DirectoryMaps(tables, base, base + 0x2000, la, la); }
    } else if i == 273 {
      WalkThrough(tables, base, 3, la);
      if la < HHDM + GIB { DirectoryMaps(tables, base, base + 0x4000, la, la - HHDM); }
    }
  }

  // ---------------------------------------------------------------- the boot loader's tables

  function BootEntry(i: nat): nat {
    if i == 0 then BOOT_PAGES + 0x1003
    else if 512 <= i < 516 then BOOT_PAGES + 0x2003 + (i - 512) * 0x1000
    else if 1024 <= i < 3072 then (i - 1024) * 0x20_0000 + 0x83
    else 0
  }

  ghost predicate BootTables(tables: seq<u64>) {
    |tables| == ENTRIES && forall i :: 0 <= i < ENTRIES ==> tables[i] == BootEntry(i)
  }

  lemma {:induction false} OrAgain(q: nat)
    ensures Or(q * 0x1000 + 3, 3) == q * 0x1000 + 3 && Or(q * 0x1000, 3) == q * 0x1000 + 3
  {
    Powers();
    OrShifted(q, 12, 3);
    OrTwice(q * 0x1000, 3);
  }

  lemma {:induction false} OrTwice(x: nat, y: nat)
    ensures Or(Or(x, y), y) == Or(x, y)
  {
    OrSelf(y);
    if x != 0 && y != 0 { OrTwice(x / 2, y / 2); }
  }

  lemma {:induction false} OrSelf(y: nat)
    ensures Or(y, y) == y
  {
    if y != 0 { OrSelf(y / 2); }
  }

  /** `pdpt_fill`: four directories, the flags or-ed in again on every pass. */
  method FillPdpt(tables: array<u64>)
    requires tables.Length == ENTRIES
    modifies tables
    ensures forall i :: 0 <= i < ENTRIES ==>
              tables[i] == if 512 <= i < 516 then BootEntry(i) else old(tables[i])
  {
    var eax: nat, k: nat := BOOT_PAGES + 0x2000, 0;
    while k < 4
      invariant k <= 4 && eax == BOOT_PAGES + 0x2000 + k * 0x1000 + (if k == 0 then 0 else 3)
      invariant forall i :: 0 <= i < ENTRIES ==>
                  tables[i] == if 512 <= i < 512 + k then BootEntry(i) else old(tables[i])
    {
      OrAgain(0x302 + k);
      eax := Or(eax, 3);
      tables[512 + k] := eax;
      eax := Wrap32(eax + 0x1000);
      k := k + 1;
    }
  }

  /** `pdt_fill`: 2048 pages of 2 MiB; the address register wraps to zero after the last. */
  method FillPdt(tables: array<u64>)
    requires tables.Length == ENTRIES
    modifies tables
    ensures forall i :: 0 <= i < ENTRIES ==>
              tables[i] == if 1024 <= i < 3072 then (i - 1024) * 0x20_0000 + 0x83 else old(tables[i])
  {
    var eax: nat, k: nat := 0, 0;
    while k < 2048
      invariant k <= 2048 && eax == Wrap32(k * 0x20_0000)
      invariant forall i :: 0 <= i < ENTRIES ==>
                  tables[i] == if 1024 <= i < 1024 + k then (i - 1024) * 0x20_0000 + 0x83 else old(tables[i])
    {
      PageEntry(k);
      tables[1024 + k] := Or(eax, 0x83);
      eax := Wrap32(eax + 0x20_0000);
      k := k + 1;
    }
  }

  /** `qizo_build_pages`. */
  method BuildPages(tables: array<u64>)
    requires tables.Length == ENTRIES
    modifies tables
    ensures BootTables(tables[..])
  {
    ClearTables(tables);
    OrAgain(0x301);
    tables[0] := Or(BOOT_PAGES + 0x1000, 3);
    FillPdpt(tables);
    FillPdt(tables);
  }

  lemma {:induction false} BootSlot(tables: seq<u64>, la: u64)
    requires BootTables(tables) && la < 0x1_0000_0000
    ensures var pd := BOOT_PAGES + 0x2000 + la / 0x4000_0000 * 0x1000;
      && Inside(tables, BOOT_PAGES, pd)
      && Fetch(tables, BOOT_PAGES, pd, la / 0x20_0000 % 512) == la / 0x20_0000 * 0x20_0000 + 0x83
  {
    var pd := BOOT_PAGES + 0x2000 + la / 0x4000_0000 * 0x1000;
    var i := (pd - BOOT_PAGES) / 8 + la / 0x20_0000 % 512;
    assert i == 1024 + la / 0x20_0000;
    assert tables[i] == BootEntry(i);
  }

  lemma {:induction false} BootDirectory(tables: seq<u64>, la: u64)
    requires BootTables(tables) && la < 0x1_0000_0000
    ensures var pd := BOOT_PAGES + (2 + la / 0x4000_0000) * 0x1000;
      Inside(tables, BOOT_PAGES, pd) && WalkDirectory(tables, BOOT_PAGES, pd, la) == Phys(la)
  {
    BootSlot(tables, la);
    PageMaps(la / 0x20_0000, la);
  }

  lemma {:induction false} BootLevel3(tables: seq<u64>, la: u64)
    requires BootTables(tables) && la < 0x80_0000_0000
    ensures Inside(tables, BOOT_PAGES, BOOT_PAGES + 0x1000)
    ensures var e3 := Fetch(tables, BOOT_PAGES, BOOT_PAGES + 0x1000, la / 0x4000_0000 % 512);
      if la < 0x1_0000_0000 then e3 == BOOT_PAGES + (2 + la / 0x4000_0000) * 0x1000 + 3 else e3 == 0
  {
    var i := 512 + la / 0x4000_0000 % 512;
    assert tables[i] == BootEntry(i);
  }

  /** The boot loader's tables map exactly the low 4 GiB, each address to itself. */
  lemma {:induction false} BootWalk(tables: seq<u64>, la: u64)
    requires BootTables(tables) && Canonical(la)
    ensures Walk(tables, BOOT_PAGES, la) == if la < 0x1_0000_0000 then Phys(la) else Fault
  {
    Slot4(la);
    var i := la / 0x80_0000_0000 % 512;
    assert tables[i] == BootEntry(i);
    if i == 0 {
      TableEntry(BOOT_PAGES, 1);
      BootLevel3(tables, la);
      if la < 0x1_0000_0000 {
        TableEntry(BOOT_PAGES, 2 + la / 0x4000_0000);
        BootDirectory(tables, la);
      }
    }
  }

  /** Every entry in use is present and writable, and not open to user mode. */
  lemma {:induction false} EntriesWritable(tables: seq<u64>, base: nat)
    requires KernelTables(tables, base) || BootTables(tables)
    ensures forall i :: 0 <= i < |tables| ==> tables[i] == 0 || tables[i] % 8 == 3
  {
    forall i | 0 <= i < |tables|
      ensures tables[i] == 0 || tables[i] % 8 == 3
    {
      if KernelTables(tables, base) {
        assert tables[i] == KernelEntry(base, i);
      } else {
        assert tables[i] == BootEntry(i);
      }
    }
  }
}

/** Allocator and page tables together. */
module PmaPaging {
  import opened Bits
  import opened Bytes
  import opened Frames
  import opened PmaSpec
  import opened PmaDriver
  import Paging

  /** In every state a run can reach, every byte of every page handed out is mapped by the kernel's
      tables, to the frame the bitmap accounts for, and that frame is not free. */
  lemma {:induction false} HandedOutPagesAreMapped(w: World, pool: set<nat>, calls: seq<Call>, tables: seq<u64>, base: nat,
                                                   e: Extent, k: nat, off: nat)
    requires Safe(w, pool) && Runs(w, pool, calls) && Paging.KernelTables(tables, base)
    requires e in End(w, pool, calls).live && k < e.count && off < PAGE
    ensures var la := AddressOf(e.first + k) + off;
      && la < MODULUS && e.first + k in FramesOf(e) && e.first + k !in End(w, pool, calls).s.free
      && Paging.Walk(tables, base, la) == Paging.Phys((e.first + k) * PAGE + off)
  {
    RunSafe(w, pool, calls);
    var la := AddressOf(e.first + k) + off;
    assert e.first + k in FramesOf(e);
    Paging.KernelWalk(tables, base, la);
  }

  /** From initialisation on: such a page is mapped to its own frame, and while the block of tables lies
      in the kernel image it overlaps no page handed out, so no client can change the walk. */
  lemma {:induction false} ClientsCannotReachTables(b: BootInfo, syms: Symbols, calls: seq<Call>, tables: seq<u64>,
                                                    base: nat, e: Extent, k: nat, off: nat)
    requires RunsFromInit(Some(b), syms, calls) && e in EndFromInit(Some(b), syms, calls).live
    requires Paging.KernelTables(tables, base) && k < e.count && off < PAGE
    ensures var la := AddressOf(e.first + k) + off;
      && la < MODULUS && Paging.Walk(tables, base, la) == Paging.Phys((e.first + k) * PAGE + off)
      && (b.ktext <= base && base + 0x6000 <= KernelEnd(b, syms) ==>
            (e.first + k) * PAGE + off < base || base + 0x6000 <= (e.first + k) * PAGE + off)
  {
    InitIsSafe(Some(b), syms);
    HandedOutPagesAreMapped(InitWorld(Some(b), syms), InitFree(Some(b), syms), calls, tables, base, e, k, off);
    ReachableAvoidsReserved(Some(b), syms, calls, e);
    assert e.first + k in FramesOf(e);
  }
}

/** The boot chain as tools/qizocheck/qizobootmodel.py replays it: chunked disk reads, boot
    information block, checksum, decompression, header checks, copy and bss clearing. */
module BootReplay {
  import opened Bits
  import opened Bytes
  import opened BootLayout
  import opened Memory
  import Adler
  import LzssFormat
  import LzssTool

  const MEM_SIZE: nat := 0x4000000

  datatype BootError = DapUnaligned | DapSize | DapReserved | SectorCount | DiskUnderrun | StructError
                     | BlobOverrun | NothingToDecompress | AdlerMismatch | BadStream
                     | ModuleMagic | HeaderRange | SizeMismatch | KernelDiffers

  lemma {:induction false} StoreNeverShrinks(s: bytes, off: nat, d: bytes)
    ensures |Store(s, off, d)| >= |s|
  {
  }

  // ---------------------------------------------------------------- disk reads

  /** What the service demands of the packet at `dap`. */
  ghost predicate GoodPacket(mem: bytes, disk: bytes, dap: nat)
    requires dap + 16 <= |mem|
  {
    && dap % 16 == 0 && mem[dap] == 0x10 && U16(mem, dap + 4) == 0
    && 1 <= U16(mem, dap + 2) <= 127 && (U32(mem, dap + 8) + U16(mem, dap + 2)) * SECTOR <= |disk|
  }

  /** What is wrong with the packet when the service refuses it. */
  ghost predicate PacketFault(mem: bytes, disk: bytes, dap: nat, e: BootError)
    requires dap + 16 <= |mem|
  {
    match e
    case DapUnaligned => dap % 16 != 0
    case DapSize => mem[dap] != 0x10
    case DapReserved => U16(mem, dap + 4) != 0
    case SectorCount => U16(mem, dap + 2) == 0 || U16(mem, dap + 2) > 127
    case DiskUnderrun => (U32(mem, dap + 8) + U16(mem, dap + 2)) * SECTOR > |disk|
    case _ => false
  }

  lemma {:induction false} SectorSlice(disk: bytes, lba: nat, count: nat)
    requires count >= 1
    ensures var src := Slice(disk, lba * SECTOR, lba * SECTOR + count * SECTOR);
      && (|src| == count * SECTOR <==> (lba + count) * SECTOR <= |disk|)
      && (|src| == count * SECTOR ==> src == disk[lba * SECTOR..(lba + count) * SECTOR])
  {
  }

  /** `int13_read`: the extended read BIOS service, driven by the packet at `dap`. */
  method Int13Read(m: Mem, disk: bytes, dap: nat) returns (r: Result<(nat, nat), BootError>)
    requires dap + 16 <= |m.buf|
    modifies m
    ensures r.Ok? ==>
      && var count, dest, lba := U16(old(m.buf), dap + 2), U16(old(m.buf), dap + 6) * 16, U32(old(m.buf), dap + 8);
      && r.value == (count, dest) && 1 <= count <= 127 && (lba + count) * SECTOR <= |disk|
      && m.buf == Store(old(m.buf), dest, disk[lba * SECTOR..(lba + count) * SECTOR])
    ensures r.Err? ==> m.buf == old(m.buf)
    ensures r.Ok? <==> GoodPacket(old(m.buf), disk, dap)
    ensures r.Err? ==> PacketFault(old(m.buf), disk, dap, r.error)
  {
    if dap % 16 != 0 {
      return Err(DapUnaligned);
    }
    if m.buf[dap] != 0x10 {
      return Err(DapSize);
    }
    if U16(m.buf, dap + 4) != 0 {
      return Err(DapReserved);
    }
    var count, off, seg, lba := U16(m.buf, dap + 2), U16(m.buf, dap + 4), U16(m.buf, dap + 6), U32(m.buf, dap + 8);
    var dest := seg * 16 + off;
    if count == 0 || count > 127 {
      return Err(SectorCount);
    }
    SectorSlice(disk, lba, count);
    var src := Slice(disk, lba * SECTOR, lba * SECTOR + count * SECTOR);
    if |src| != count * SECTOR {
      return Err(DiskUnderrun);
    }
    m.Write(dest, src);
    return Ok((count, dest));
  }

  /** The five stores that fill the disk address packet. */
  method SetDap(m: Mem, count: nat, lin: nat, lba: nat)
    requires |m.buf| >= MEM_SIZE && count < 0x1_0000 && lin / 16 < 0x1_0000 && lba < 0x1_0000_0000
    modifies m
    ensures ChangedOnly(m.buf, old(m.buf), DAP, DAP + 16)
    ensures m.buf[DAP] == 0x10 && U16(m.buf, DAP + 2) == count && U16(m.buf, DAP + 4) == lin % 16
    ensures U16(m.buf, DAP + 6) == lin / 16 && U32(m.buf, DAP + 8) == lba
  {
    ghost var was := m.buf;
    m.PutU8(DAP, 0x10);
    DapStore(was, was, DAP, [0x10]);
    ghost var s1 := m.buf;
    m.PutU16(DAP + 2, count);
    DapStore(s1, was, DAP + 2, Le16(count));
    StoreApart(s1, DAP + 2, Le16(count), DAP, [0x10]);
    ghost var s2 := m.buf;
    m.PutU16(DAP + 4, lin % 16);
    DapStore(s2, was, DAP + 4, Le16(lin % 16));
    ghost var s3 := m.buf;
    m.PutU16(DAP + 6, lin / 16);
    DapStore(s3, was, DAP + 6, Le16(lin / 16));
    ghost var s4 := m.buf;
    m.PutU32(DAP + 8, lba);
    DapStore(s4, was, DAP + 8, Le32(lba));
    ghost var s5 := m.buf;
    m.PutU32(DAP + 12, 0);
    DapStore(s5, was, DAP + 12, Le32(0));
    LaterStores(s1, s2, s3, s4, s5, m.buf, count, lin, lba);
  }

  lemma {:induction false} DapStore(s: bytes, was: bytes, at: nat, d: bytes)
    requires ChangedOnly(s, was, DAP, DAP + 16) && DAP <= at && at + |d| <= DAP + 16
    ensures ChangedOnly(Store(s, at, d), was, DAP, DAP + 16) && Has(Store(s, at, d), at, d)
  {
    ChangedByStore(s, was, DAP, DAP + 16, at, d);
    StoreInside(s, at, d);
  }

  lemma {:induction false} LaterStores(s1: bytes, s2: bytes, s3: bytes, s4: bytes, s5: bytes, s6: bytes, count: nat,
                                       lin: nat, lba: nat)
    requires |s1| >= MEM_SIZE && count < 0x1_0000 && lin / 16 < 0x1_0000 && lba < 0x1_0000_0000
    requires s2 == Store(s1, DAP + 2, Le16(count)) && s3 == Store(s2, DAP + 4, Le16(lin % 16))
    requires s4 == Store(s3, DAP + 6, Le16(lin / 16)) && s5 == Store(s4, DAP + 8, Le32(lba))
    requires s6 == Store(s5, DAP + 12, Le32(0)) && Has(s1, DAP, [0x10])
    ensures s6[DAP] == 0x10 && U16(s6, DAP + 2) == count && U16(s6, DAP + 4) == lin % 16
    ensures U16(s6, DAP + 6) == lin / 16 && U32(s6, DAP + 8) == lba
  {
    var a, b, c, d, e: bytes := Le16(count), Le16(lin % 16), Le16(lin / 16), Le32(lba), Le32(0);
    StoreInside(s1, DAP + 2, a);
    StoreApart(s1, DAP + 2, a, DAP, [0x10]);
    StoreInside(s2, DAP + 4, b);
    StoreApart(s2, DAP + 4, b, DAP, [0x10]);
    StoreApart(s2, DAP + 4, b, DAP + 2, a);
    StoreInside(s3, DAP + 6, c);
    StoreApart(s3, DAP + 6, c, DAP, [0x10]);
    StoreApart(s3, DAP + 6, c, DAP + 2, a);
    StoreApart(s3, DAP + 6, c, DAP + 4, b);
    LastStores(s4, s5, s6, a, b, c, d, e);
    HasAt(s6, DAP, [0x10], 0);
    HasLe16(s6, DAP + 2, count);
    HasLe16(s6, DAP + 4, lin % 16);
    HasLe16(s6, DAP + 6, lin / 16);
    HasLe32(s6, DAP + 8, lba);
  }

  lemma {:induction false} LastStores(s4: bytes, s5: bytes, s6: bytes, a: bytes, b: bytes, c: bytes, d: bytes, e: bytes)
    requires |s4| >= MEM_SIZE && |a| == |b| == |c| == 2 && |d| == |e| == 4
    requires Has(s4, DAP, [0x10]) && Has(s4, DAP + 2, a) && Has(s4, DAP + 4, b) && Has(s4, DAP + 6, c)
    requires s5 == Store(s4, DAP + 8, d) && s6 == Store(s5, DAP + 12, e)
    ensures Has(s6, DAP, [0x10]) && Has(s6, DAP + 2, a) && Has(s6, DAP + 4, b) && Has(s6, DAP + 6, c) && Has(s6, DAP + 8, d)
  {
    StoreInside(s4, DAP + 8, d);
    StoreApart(s4, DAP + 8, d, DAP, [0x10]);
    StoreApart(s4, DAP + 8, d, DAP + 2, a);
    StoreApart(s4, DAP + 8, d, DAP + 4, b);
    StoreApart(s4, DAP + 8, d, DAP + 6, c);
    StoreApart(s5, DAP + 12, e, DAP, [0x10]);
    StoreApart(s5, DAP + 12, e, DAP + 2, a);
    StoreApart(s5, DAP + 12, e, DAP + 4, b);
    StoreApart(s5, DAP + 12, e, DAP + 6, c);
    StoreApart(s5, DAP + 12, e, DAP + 8, d);
  }

  /** The boot arguments as stage1 sees them: those of the first sector, or what memory held before
      where the disk is shorter than that. */
  function Args(mem: bytes, disk: bytes): (r: bytes)
    requires |mem| == MEM_SIZE
    ensures |r| == 12
  {
    StartLoaded(mem, disk);
    Store(mem, LOAD, Slice(disk, 0, 512))[ARG + 4..ARG + 16]
  }

  function ArgLba(args: bytes): nat
    requires |args| == 12
  {
    U32(args, 0)
  }

  function ArgTotal(args: bytes): nat
    requires |args| == 12
  {
    U16(args, 4)
  }

  /** What stage1 has established once `done` sectors are in: the arguments in place and the sectors
      they name, from the first on, at the load address. */
  ghost predicate Loaded(mem: bytes, disk: bytes, args: bytes, done: nat)
    requires |args| == 12
  {
    var lba := ArgLba(args);
    && |mem| == MEM_SIZE && done <= 256 && (done > 0 ==> (lba + done) * SECTOR <= |disk|)
    && Has(mem, ARG + 4, args)
    && Has(mem, STAGE2, Slice(disk, lba * SECTOR, (lba + done) * SECTOR))
  }

  lemma {:induction false} ArgsRead(mem: bytes, at: nat, args: bytes)
    requires |args| == 12 && Has(mem, at, args)
    ensures U32(mem, at) == ArgLba(args) && U16(mem, at + 4) == ArgTotal(args) && U32(mem, at + 8) == U32(args, 8)
  {
    HasU32(mem, at, args, 0);
    HasU16(mem, at, args, 4);
    HasU32(mem, at, args, 8);
  }

  /** On a disk of at least one sector they are bytes 468 to 479 of it. */
  lemma {:induction false} ArgsOnDisk(mem: bytes, disk: bytes)
    requires |mem| == MEM_SIZE && |disk| >= 512
    ensures Args(mem, disk) == disk[468..480]
    ensures ArgLba(disk[468..480]) == U32(disk, 468) && ArgTotal(disk[468..480]) == U16(disk, 472)
    ensures U32(disk[468..480], 8) == U32(disk, 476)
  {
    var s0 := Slice(disk, 0, 512);
    StoreInside(mem, LOAD, s0);
    HasPart(Store(mem, LOAD, s0), LOAD, s0, 468, 480);
    assert s0[468..480] == disk[468..480];
    ArgsRead(disk, 468, disk[468..480]);
  }

  /** A chunk appended to what is already loaded. */
  lemma {:induction false} ChunkLoaded(mem: bytes, dapped: bytes, next: bytes, disk: bytes, args: bytes, bx: nat, count: nat)
    requires |args| == 12 && Loaded(mem, disk, args, bx) && ChangedOnly(dapped, mem, DAP, DAP + 16)
    requires 1 <= count && bx + count <= 256 && (ArgLba(args) + bx + count) * SECTOR <= |disk|
    requires var lba := ArgLba(args);
      next == Store(dapped, STAGE2 + bx * SECTOR, disk[(lba + bx) * SECTOR..(lba + bx + count) * SECTOR])
    ensures Loaded(next, disk, args, bx + count)
  {
    var lba := ArgLba(args);
    var a, b, c := lba * SECTOR, (lba + bx) * SECTOR, (lba + bx + count) * SECTOR;
    AppendChunk(mem, dapped, next, args, Slice(disk, a, b), disk[b..c]);
    SlicesJoin(disk, a, b, c);
  }

  lemma {:induction false} SlicesJoin(disk: bytes, a: nat, b: nat, c: nat)
    requires a <= b <= c <= |disk|
    ensures Slice(disk, a, b) + disk[b..c] == Slice(disk, a, c) && |Slice(disk, a, b)| == b - a
  {
  }

  lemma {:induction false} AppendChunk(mem: bytes, dapped: bytes, next: bytes, args: bytes, loaded: bytes, chunk: bytes)
    requires |mem| == MEM_SIZE && |args| == 12 && Has(mem, ARG + 4, args) && Has(mem, STAGE2, loaded)
    requires ChangedOnly(dapped, mem, DAP, DAP + 16) && STAGE2 + |loaded| + |chunk| <= MEM_SIZE
    requires next == Store(dapped, STAGE2 + |loaded|, chunk)
    ensures |next| == MEM_SIZE && Has(next, ARG + 4, args) && Has(next, STAGE2, loaded + chunk)
  {
    StillHas(dapped, mem, DAP, DAP + 16, ARG + 4, args);
    StillHas(dapped, mem, DAP, DAP + 16, STAGE2, loaded);
    StoreInside(dapped, STAGE2 + |loaded|, chunk);
    StoreApart(dapped, STAGE2 + |loaded|, chunk, ARG + 4, args);
    StoreApart(dapped, STAGE2 + |loaded|, chunk, STAGE2, loaded);
    HasJoin(next, STAGE2, loaded, chunk);
  }

  lemma {:induction false} HasJoin(s: bytes, at: nat, a: bytes, b: bytes)
    requires Has(s, at, a) && Has(s, at + |a|, b)
    ensures Has(s, at, a + b)
  {
    assert s[at..at + |a| + |b|] == s[at..at + |a|] + s[at + |a|..at + |a| + |b|];
  }

  lemma {:induction false} LinearAddress(bx: nat)
    requires bx <= 256
    ensures var lin := STAGE2 + bx * SECTOR; lin % 16 == 0 && lin / 16 * 16 == lin && lin / 16 < 0x1_0000
  {
  }

  lemma {:induction false} PacketGood(mem: bytes, disk: bytes, lba: nat, count: nat)
    requires |mem| >= MEM_SIZE && mem[DAP] == 0x10 && U16(mem, DAP + 2) == count && U16(mem, DAP + 4) == 0
    requires U32(mem, DAP + 8) == lba && 1 <= count <= 64
    ensures GoodPacket(mem, disk, DAP) <==> (lba + count) * SECTOR <= |disk|
  {
  }

  /** Fill the packet and call the service. */
  method Transfer(m: Mem, disk: bytes, count: nat, lin: nat, lba: nat)
    returns (r: Result<(nat, nat), BootError>, ghost dapped: bytes)
    requires |m.buf| >= MEM_SIZE && 1 <= count <= 64 && lba < 0x1_0000_0000
    requires lin % 16 == 0 && lin / 16 * 16 == lin && lin / 16 < 0x1_0000
    modifies m
    ensures r.Ok? <==> (lba + count) * SECTOR <= |disk|
    ensures r.Err? ==> r == Err(DiskUnderrun)
    ensures r.Ok? ==> r.value == (count, lin) && ChangedOnly(dapped, old(m.buf), DAP, DAP + 16)
                      && m.buf == Store(dapped, lin, disk[lba * SECTOR..(lba + count) * SECTOR])
  {
    SetDap(m, count, lin, lba);
    dapped := m.buf;
    PacketGood(dapped, disk, lba, count);
    r := Int13Read(m, disk, DAP);
  }

  function Chunk(bx: nat, total: nat): nat
    requires bx < total
  {
    if total - bx < 64 then total - bx else 64
  }

  /** The chunk at bx lies on the disk, below the blob limit and at a 32-bit sector number. */
  predicate ChunkReadable(disk: bytes, lba: nat, bx: nat, total: nat)
    requires bx < total
  {
    && lba + bx < 0x1_0000_0000 && bx + Chunk(bx, total) <= 256
    && (lba + bx + Chunk(bx, total)) * SECTOR <= |disk|
  }

  lemma {:induction false} ChunkLimits(disk: bytes, lba: nat, bx: nat, total: nat)
    requires bx < total
    ensures var count := Chunk(bx, total);
      ChunkReadable(disk, lba, bx, total) <==>
        && lba + bx < 0x1_0000_0000 && (lba + bx + count) * SECTOR <= |disk|
        && STAGE2 + bx * SECTOR + count * SECTOR <= BLOB_PHYS + BLOB_MAX
  {
  }

  /** One pass of the read loop: at most 64 sectors, placed after what is already there. */
  method ReadChunk(m: Mem, disk: bytes, bx: nat, total: nat, ghost args: bytes) returns (r: Result<nat, BootError>)
    requires |args| == 12 && bx < total < 0x1_0000 && Loaded(m.buf, disk, args, bx)
    modifies m
    ensures r.Ok? ==> r.value == Chunk(bx, total) && Loaded(m.buf, disk, args, bx + r.value)
    ensures r.Ok? <==> ChunkReadable(disk, ArgLba(args), bx, total)
    ensures r.Err? ==>
      r.error == if ArgLba(args) + bx >= 0x1_0000_0000 then StructError
                 else if (ArgLba(args) + bx + Chunk(bx, total)) * SECTOR > |disk| then DiskUnderrun
                 else BlobOverrun
  {
    ghost var was := m.buf;
    ArgsRead(m.buf, ARG + 4, args);
    ChunkLimits(disk, ArgLba(args), bx, total);
    var count := Chunk(bx, total);
    var lin := STAGE2 + bx * SECTOR;
    var lba := U32(m.buf, ARG + 4) + bx;
    if lba >= 0x1_0000_0000 {
      return Err(StructError);
    }
    LinearAddress(bx);
    var read, dapped := Transfer(m, disk, count, lin, lba);
    if read.Err? {
      return Err(read.error);
    }
    var (n, dest) := read.value;
    if dest + n * SECTOR > BLOB_PHYS + BLOB_MAX {
      return Err(BlobOverrun);
    }
    ChunkLoaded(was, dapped, m.buf, disk, args, bx, n);
    return Ok(n);
  }

  /** Every sector the boot arguments ask for can be read and fits below the blob limit. */
  predicate Reachable(disk: bytes, args: bytes)
    requires |args| == 12
  {
    var lba, total := ArgLba(args), ArgTotal(args);
    && 0 < total <= 256 && (lba + total) * SECTOR <= |disk|
    && lba + (total - 1) / 64 * 64 < 0x1_0000_0000
  }

  lemma {:induction false} ReachableChunks(disk: bytes, args: bytes, bx: nat)
    requires |args| == 12 && bx < ArgTotal(args) && bx % 64 == 0 && Reachable(disk, args)
    ensures ChunkReadable(disk, ArgLba(args), bx, ArgTotal(args))
  {
  }

  /** `stage1`: read the first sector, then everything it asks for in chunks of at most 64 sectors. */
  method Stage1(m: Mem, disk: bytes, drive: nat) returns (r: Result<nat, BootError>)
    requires |m.buf| == MEM_SIZE
    modifies m
    ensures var args := Args(old(m.buf), disk);
      && (r.Ok? ==> r.value == ArgTotal(args) * SECTOR && Loaded(m.buf, disk, args, ArgTotal(args)))
      && (r.Ok? <==> ArgTotal(args) == 0 || Reachable(disk, args))
    ensures r.Err? ==> r.error in {StructError, DiskUnderrun, BlobOverrun}
  {
    ghost var args := Args(m.buf, disk);
    StartLoaded(m.buf, disk);
    m.Write(LOAD, Slice(disk, 0, 512));
    ghost var s := m.buf;
    m.PutU8(ARG, drive);
    StoreInside(s, ARG, [drive % 256]);
    StoreApart(s, ARG, [drive % 256], ARG + 4, args);
    ArgsRead(m.buf, ARG + 4, args);
    var total := U16(m.buf, ARG + 8);
    NothingLoaded(m.buf, disk, args);
    r := ReadSectors(m, disk, total, args);
  }

  lemma {:induction false} NothingLoaded(mem: bytes, disk: bytes, args: bytes)
    requires |mem| == MEM_SIZE && |args| == 12 && Has(mem, ARG + 4, args)
    ensures Loaded(mem, disk, args, 0)
  {
    assert Slice(disk, ArgLba(args) * SECTOR, ArgLba(args) * SECTOR) == [];
  }

  lemma {:induction false} ChunkStep(bx: nat, total: nat)
    requires bx < total && bx % 64 == 0
    ensures var next := bx + Chunk(bx, total); (next % 64 == 0 || next == total) && (next - 1) / 64 * 64 == bx
  {
  }

  /** The read loop. */
  method ReadSectors(m: Mem, disk: bytes, total: nat, ghost args: bytes) returns (r: Result<nat, BootError>)
    requires |args| == 12 && total == ArgTotal(args) && Loaded(m.buf, disk, args, 0)
    modifies m
    ensures r.Ok? ==> r.value == total * SECTOR && Loaded(m.buf, disk, args, total)
    ensures r.Ok? <==> total == 0 || Reachable(disk, args)
    ensures r.Err? ==> r.error in {StructError, DiskUnderrun, BlobOverrun}
  {
    var bx: nat := 0;
    while bx < total
      invariant bx <= total && Loaded(m.buf, disk, args, bx) && (bx % 64 == 0 || bx == total)
      invariant bx > 0 ==> ArgLba(args) + (bx - 1) / 64 * 64 < 0x1_0000_0000
    {
      if Reachable(disk, args) {
        ReachableChunks(disk, args, bx);
      }
      ChunkStep(bx, total);
      var n := ReadChunk(m, disk, bx, total, args);
      if n.Err? {
        return Err(n.error);
      }
      bx := bx + n.value;
    }
    return Ok(bx * SECTOR);
  }

  lemma {:induction false} StartLoaded(mem: bytes, disk: bytes)
    requires |mem| == MEM_SIZE
    ensures |Store(mem, LOAD, Slice(disk, 0, 512))| == MEM_SIZE
  {
    StoreInside(mem, LOAD, Slice(disk, 0, 512));
  }

  // ---------------------------------------------------------------- boot information block

  /** A store into the block: everything recorded apart from it stays recorded. */
  method PutInfo(m: Mem, off: nat, d: bytes)
    requires |m.buf| >= MEM_SIZE && off + |d| <= 0x700
    modifies m
    ensures ChangedOnly(m.buf, old(m.buf), BOOTINFO, BOOTINFO + 0x700)
    ensures Has(m.buf, BOOTINFO + off, d)
    ensures forall at: nat, e: bytes ::
              (Has(old(m.buf), at, e) && (at + |e| <= BOOTINFO + off || BOOTINFO + off + |d| <= at)) ==> Has(m.buf, at, e)
  {
    ghost var was := m.buf;
    m.Write(BOOTINFO + off, d);
    StoreInside(was, BOOTINFO + off, d);
    ChangedByStore(was, was, BOOTINFO, BOOTINFO + 0x700, BOOTINFO + off, d);
    forall at: nat, e: bytes | Has(was, at, e) && (at + |e| <= BOOTINFO + off || BOOTINFO + off + |d| <= at)
      ensures Has(m.buf, at, e)
    {
      StoreApart(was, BOOTINFO + off, d, at, e);
    }
  }

  /** The fields stage2 relies on. */
  ghost predicate InfoSet(mem: bytes, size: nat, crc: nat) {
    && |mem| >= MEM_SIZE && size < 0x1_0000_0000 && crc < 0x1_0000_0000
    && Has(mem, BOOTINFO + 24, Le32(size)) && Has(mem, BOOTINFO + 16, Le32(crc))
    && Has(mem, BOOTINFO + 20, Le32(BLOB_PHYS)) && Has(mem, BOOTINFO + 28, Le32(SCRATCH))
    && Has(mem, BOOTINFO + 0x30, Le32(KTEXT))
  }

  /** Version, drive, mode and where the boot came from. */
  ghost predicate SourceSet(mem: bytes, drive: byte, lba: nat, total: nat) {
    && lba < 0x1_0000_0000 && total < 0x1_0000
    && Has(mem, BOOTINFO, Le32(0x00010001)) && Has(mem, BOOTINFO + 4, [drive]) && Has(mem, BOOTINFO + 5, [1])
    && Has(mem, BOOTINFO + 8, Le32(lba)) && Has(mem, BOOTINFO + 12, Le16(total))
  }

  /** Boot version, A20 and long mode. */
  ghost predicate FlagsSet(mem: bytes) {
    Has(mem, BOOTINFO + 0x44, Le32(0x0100)) && Has(mem, BOOTINFO + 0x58, [1]) && Has(mem, BOOTINFO + 0x59, [1])
  }

  /** `stage2_real`. */
  method Stage2Real(m: Mem)
    requires |m.buf| >= MEM_SIZE && U16(m.buf, ARG + 8) * SECTOR >= STAGE2_BYTES
    modifies m
    ensures |m.buf| == |old(m.buf)|
    ensures InfoSet(m.buf, U16(old(m.buf), ARG + 8) * SECTOR - STAGE2_BYTES, U32(old(m.buf), ARG + 12))
    ensures SourceSet(m.buf, old(m.buf)[ARG], U32(old(m.buf), ARG + 4), U16(old(m.buf), ARG + 8)) && FlagsSet(m.buf)
    ensures forall at: nat, e: bytes ::
              (Has(old(m.buf), at, e) && (at + |e| <= BOOTINFO || BOOTINFO + 0x700 <= at)) ==> Has(m.buf, at, e)
  {
    var drive, lba, total, crc := m.buf[ARG], U32(m.buf, ARG + 4), U16(m.buf, ARG + 8), U32(m.buf, ARG + 12);
    PutSource(m, drive, lba, total);
    PutAddresses(m, total * SECTOR - STAGE2_BYTES, crc);
    PutFlags(m);
  }

  method PutSource(m: Mem, drive: byte, lba: nat, total: nat)
    requires |m.buf| >= MEM_SIZE && lba < 0x1_0000_0000 && total < 0x1_0000
    modifies m
    ensures |m.buf| == |old(m.buf)| && SourceSet(m.buf, drive, lba, total)
    ensures forall at: nat, e: bytes ::
              (Has(old(m.buf), at, e) && (at + |e| <= BOOTINFO || BOOTINFO + 14 <= at)) ==> Has(m.buf, at, e)
  {
    PutInfo(m, 0, Le32(0x00010001));
    PutInfo(m, 4, [drive]);
    PutInfo(m, 5, [1]);
    PutInfo(m, 8, Le32(lba));
    PutInfo(m, 12, Le16(total));
  }

  /** Where the blob is, what it should sum to, and where it goes. */
  method PutAddresses(m: Mem, size: nat, crc: nat)
    requires |m.buf| >= MEM_SIZE && size < 0x1_0000_0000 && crc < 0x1_0000_0000
    modifies m
    ensures |m.buf| == |old(m.buf)| && InfoSet(m.buf, size, crc)
    ensures forall at: nat, e: bytes ::
              (Has(old(m.buf), at, e) && (at + |e| <= BOOTINFO + 16 || BOOTINFO + 0x34 <= at)) ==> Has(m.buf, at, e)
  {
    PutInfo(m, 24, Le32(size));
    PutInfo(m, 20, Le32(BLOB_PHYS));
    PutInfo(m, 16, Le32(crc));
    PutInfo(m, 28, Le32(SCRATCH));
    PutInfo(m, 0x30, Le32(KTEXT));
  }

  method PutFlags(m: Mem)
    requires |m.buf| >= MEM_SIZE
    modifies m
    ensures |m.buf| == |old(m.buf)| && FlagsSet(m.buf)
    ensures forall at: nat, e: bytes ::
              (Has(old(m.buf), at, e) && (at + |e| <= BOOTINFO + 0x44 || BOOTINFO + 0x5A <= at)) ==> Has(m.buf, at, e)
  {
    PutInfo(m, 0x44, Le32(0x0100));
    PutInfo(m, 0x59, [1]);
    PutInfo(m, 0x58, [1]);
  }

  // ---------------------------------------------------------------- checksum, module, handoff

  /** A well-made module: what a decompressed payload has to look like. */
  ghost predicate GoodModule(out: bytes) {
    && |out| >= 64 && U32(out, 0) == QIZOK_MAGIC && U32(out, 4) + QIZOK_HDR == |out|
    && U32(out, 4) <= KERNEL_MAX && U32(out, 12) <= KERNEL_MAX
  }

  /** The entry point lies inside the kernel image. */
  ghost predicate EntryInside(out: bytes)
    requires |out| >= 64
  {
    U32(out, 8) < U32(out, 4)
  }

  /** As many zeros as the total size exceeds the kernel, which may be none. */
  function Bss(klen: nat, total: nat): bytes { if total < klen then [] else Zeros(total - klen) }

  /** The kernel at its place, followed by its cleared bss. */
  ghost predicate Delivered(mem: bytes, out: bytes)
    requires GoodModule(out)
  {
    Has(mem, KTEXT, out[64..] + Bss(U32(out, 4), U32(out, 12)))
  }

  function Entry(out: bytes): (nat, nat, nat)
    requires |out| >= 16
  {
    (U32(out, 4), U32(out, 8), U32(out, 12))
  }

  /** A good module is delivered exactly when its entry point is inside it. */
  ghost predicate Installed(r: Result<(nat, nat, nat), BootError>, mem: bytes, out: bytes)
    requires GoodModule(out)
  {
    if EntryInside(out) then r == Ok(Entry(out)) && Delivered(mem, out) else r == Err(HeaderRange)
  }

  /** The blob matches its checksum and holds a good module. */
  ghost predicate Carries(blob: bytes, crc: nat) {
    && Adler.Adler32(blob) == crc
    && LzssFormat.Decompressed(blob).Ok? && GoodModule(LzssFormat.Decompressed(blob).value)
  }

  /** `stage2_pm32`: checksum and decompression, then the module. */
  method Stage2Pm32(m: Mem, ghost blob: bytes) returns (r: Result<(nat, nat, nat), BootError>)
    requires |m.buf| >= MEM_SIZE && |blob| == U32(m.buf, BOOTINFO + 24) && Has(m.buf, BLOB_PHYS, blob)
    modifies m
    ensures Carries(blob, U32(old(m.buf), BOOTINFO + 16)) ==> Installed(r, m.buf, LzssFormat.Decompressed(blob).value)
    ensures r.Ok? ==> Carries(blob, U32(old(m.buf), BOOTINFO + 16))
    ensures r.Err? ==> r.error in {AdlerMismatch, BadStream, ModuleMagic, HeaderRange, SizeMismatch}
    ensures r == Err(AdlerMismatch) <==> Adler.Adler32(blob) != U32(old(m.buf), BOOTINFO + 16)
    ensures r == Err(BadStream) <==>
      Adler.Adler32(blob) == U32(old(m.buf), BOOTINFO + 16) && LzssFormat.Decompressed(blob).Err?
  {
    var size := U32(m.buf, BOOTINFO + 24);
    SliceHas(m.buf, BLOB_PHYS, blob);
    var bytes' := Slice(m.buf, BLOB_PHYS, BLOB_PHYS + size);
    var adler := Adler.HandAdler(bytes');
    if adler != U32(m.buf, BOOTINFO + 16) {
      return Err(AdlerMismatch);
    }
    var dec := LzssTool.Decompress(bytes');
    if dec.Err? {
      return Err(BadStream);
    }
    r := InstallModule(m, dec.value);
  }

  /** The rest of `stage2_pm32`: header checks, copy and clear. */
  method InstallModule(m: Mem, out: bytes) returns (r: Result<(nat, nat, nat), BootError>)
    requires |m.buf| >= MEM_SIZE
    modifies m
    ensures GoodModule(out) ==> Installed(r, m.buf, out)
    ensures r.Ok? ==> GoodModule(out)
    ensures r.Err? ==> r.error in {ModuleMagic, HeaderRange, SizeMismatch}
    ensures |out| >= 16 ==>
      && (r == Err(ModuleMagic) <==> U32(out, 0) != QIZOK_MAGIC)
      && (r == Err(HeaderRange) <==>
            && U32(out, 0) == QIZOK_MAGIC
            && (U32(out, 4) > KERNEL_MAX || U32(out, 12) > KERNEL_MAX || U32(out, 8) >= U32(out, 4)))
  {
    m.Write(SCRATCH, out);
    StoreNeverShrinks(old(m.buf), SCRATCH, out);
    var magic, klen := U32(m.buf, SCRATCH), U32(m.buf, SCRATCH + 4);
    var entry, total := U32(m.buf, SCRATCH + 8), U32(m.buf, SCRATCH + 12);
    if GoodModule(out) {
      ScratchHolds(old(m.buf), out);
    }
    if |out| >= 16 {
      HeaderHolds(old(m.buf), out);
    }
    if magic != QIZOK_MAGIC {
      return Err(ModuleMagic);
    }
    if klen > KERNEL_MAX || total > KERNEL_MAX || entry >= klen {
      return Err(HeaderRange);
    }
    if klen + QIZOK_HDR != |out| {
      return Err(SizeMismatch);
    }
    ScratchHolds(old(m.buf), out);
    CopyAndClear(m, klen, total, out);
    return Ok((klen, entry, total));
  }

  /** The last two writes: kernel image, then zeros for its bss. */
  method CopyAndClear(m: Mem, klen: nat, total: nat, ghost out: bytes)
    requires |m.buf| >= MEM_SIZE && GoodModule(out) && klen == U32(out, 4) && total == U32(out, 12)
    requires Slice(m.buf, SCRATCH + 64, SCRATCH + |out|) == out[64..]
    modifies m
    ensures Delivered(m.buf, out)
  {
    Handoff(m.buf, out[64..], total);
    var image := Slice(m.buf, SCRATCH + QIZOK_HDR, SCRATCH + QIZOK_HDR + klen);
    m.Write(KTEXT, image);
    m.Write(KTEXT + klen, Bss(klen, total));
  }

  /** A store reads back at its place even when it makes the memory longer. */
  lemma {:induction false} HeaderHolds(mem: bytes, out: bytes)
    requires |mem| >= MEM_SIZE && |out| >= 16
    ensures var s := Store(mem, SCRATCH, out);
      && |s| >= SCRATCH + 16
      && U32(s, SCRATCH) == U32(out, 0) && U32(s, SCRATCH + 4) == U32(out, 4)
      && U32(s, SCRATCH + 8) == U32(out, 8) && U32(s, SCRATCH + 12) == U32(out, 12)
  {
    var s := Store(mem, SCRATCH, out);
    assert Has(s, SCRATCH, out);
    HasU32(s, SCRATCH, out, 0);
    HasU32(s, SCRATCH, out, 4);
    HasU32(s, SCRATCH, out, 8);
    HasU32(s, SCRATCH, out, 12);
  }

  lemma {:induction false} ScratchHolds(mem: bytes, out: bytes)
    requires |mem| >= MEM_SIZE && 64 <= |out| <= KERNEL_MAX + QIZOK_HDR
    ensures var s := Store(mem, SCRATCH, out);
      && U32(s, SCRATCH) == U32(out, 0) && U32(s, SCRATCH + 4) == U32(out, 4)
      && U32(s, SCRATCH + 8) == U32(out, 8) && U32(s, SCRATCH + 12) == U32(out, 12)
      && Slice(s, SCRATCH + 64, SCRATCH + |out|) == out[64..]
  {
    var s := Store(mem, SCRATCH, out);
    StoreInside(mem, SCRATCH, out);
    HasU32(s, SCRATCH, out, 0);
    HasU32(s, SCRATCH, out, 4);
    HasU32(s, SCRATCH, out, 8);
    HasU32(s, SCRATCH, out, 12);
    HasPart(s, SCRATCH, out, 64, |out|);
  }

  /** Copy and clear leave exactly the kernel followed by zeros. */
  lemma {:induction false} Handoff(s: bytes, k: bytes, total: nat)
    requires |s| >= MEM_SIZE && |k| <= KERNEL_MAX && total <= KERNEL_MAX
    ensures var b := Store(Store(s, KTEXT, k), KTEXT + |k|, Bss(|k|, total));
      |b| == |s| && Has(b, KTEXT, k + Bss(|k|, total))
  {
    var z, a := Bss(|k|, total), Store(s, KTEXT, k);
    StoreInside(s, KTEXT, k);
    StoreInside(a, KTEXT + |k|, z);
    StoreApart(a, KTEXT + |k|, z, KTEXT, k);
    HasJoin(Store(a, KTEXT + |k|, z), KTEXT, k, z);
  }

  // ---------------------------------------------------------------- the whole replay

  /** The memory regions of the boot, lowest first. */
  function Regions(klen: nat, total: nat): seq<(nat, nat)> {
    [(BOOTINFO, BOOTINFO + 0x700),
     (STAGE2, BLOB_PHYS + BLOB_MAX),
     (0x41000, 0x41000 + 32 * 24 + 8),
     (0x44000 - 0x1000, 0x44000),
     (KTEXT, KTEXT + if klen < total then total else klen),
     (SCRATCH, SCRATCH + KERNEL_MAX + QIZOK_HDR),
     (0x300000, 0x302000 + 4 * 0x1000),
     (0x307000, 0x307000 + 32 * 16)]
  }

  /** No two regions share an address. */
  ghost predicate Apart(rs: seq<(nat, nat)>) {
    forall i, j :: 0 <= i < j < |rs| ==> rs[i].1 <= rs[j].0
  }

  lemma {:induction false} RegionsApart(klen: nat, total: nat)
    requires klen <= KERNEL_MAX && total <= KERNEL_MAX
    ensures Apart(Regions(klen, total))
  {
  }

  ghost predicate Covered(rs: seq<(nat, nat)>, lo: nat, hi: nat) {
    exists i :: 0 <= i < |rs| && rs[i].0 <= lo && hi <= rs[i].1
  }

  /** Everything the boot writes after stage1 lies in one of them: sectors read, boot information, kernel
      with its bss, unpacked module, page tables. */
  lemma {:induction false} RegionsCover(klen: nat, total: nat)
    ensures var rs := Regions(klen, total);
      && Covered(rs, STAGE2, BLOB_PHYS + BLOB_MAX) && Covered(rs, BOOTINFO, BOOTINFO + 0x700)
      && Covered(rs, KTEXT, KTEXT + klen) && Covered(rs, KTEXT, KTEXT + total)
      && Covered(rs, SCRATCH, SCRATCH + KERNEL_MAX + QIZOK_HDR) && Covered(rs, BOOT_PAGES, BOOT_PAGES + 0x6000)
  {
    var rs := Regions(klen, total);
    assert rs[0].0 <= BOOTINFO && rs[1].0 <= STAGE2 && rs[4].0 <= KTEXT && rs[5].0 <= SCRATCH && rs[6].0 <= BOOT_PAGES;
  }

  /** The disk asks stage1 for a stage2 and a blob that it can deliver. */
  predicate Readable(disk: bytes) {
    |disk| >= 512 && Reachable(disk, disk[468..480]) && ArgTotal(disk[468..480]) > 8
  }

  function BlobOn(disk: bytes): bytes
    requires Readable(disk)
  {
    var args := disk[468..480];
    disk[(ArgLba(args) + 8) * SECTOR..(ArgLba(args) + ArgTotal(args)) * SECTOR]
  }

  /** The blob on the disk matches its checksum and holds a good module. */
  ghost predicate Bootable(disk: bytes) {
    Readable(disk) && Carries(BlobOn(disk), U32(disk, 476))
  }

  ghost function ModuleOn(disk: bytes): bytes
    requires Bootable(disk)
  {
    LzssFormat.Decompressed(BlobOn(disk)).value
  }

  /** What stage1 sees decides; on a disk too short for a boot sector it asks for nothing or in vain. */
  lemma {:induction false} ArgsDecide(mem: bytes, disk: bytes)
    requires |mem| == MEM_SIZE
    ensures var args := Args(mem, disk);
      && (Readable(disk) <==> ArgTotal(args) > 8 && Reachable(disk, args))
      && (Readable(disk) ==> args == disk[468..480] && U32(args, 8) == U32(disk, 476))
  {
    if |disk| >= 512 { ArgsOnDisk(mem, disk); }
  }

  /** Disk reads and boot information: the blob ends up where stage2 looks for it. */
  method LoadBoot(m: Mem, disk: bytes) returns (r: Result<(), BootError>)
    requires |m.buf| == MEM_SIZE
    modifies m
    ensures r.Ok? <==> Readable(disk)
    ensures r == Err(NothingToDecompress) <==>
      var args := Args(old(m.buf), disk);
      ArgTotal(args) == 0 || (ArgTotal(args) <= 8 && Reachable(disk, args))
    ensures r.Err? ==> r.error in {StructError, DiskUnderrun, BlobOverrun, NothingToDecompress}
    ensures r.Ok? ==> |m.buf| == MEM_SIZE
    ensures Readable(disk) ==> Has(m.buf, BLOB_PHYS, BlobOn(disk)) && InfoSet(m.buf, |BlobOn(disk)|, U32(disk, 476))
  {
    ghost var args := Args(m.buf, disk);
    ArgsDecide(m.buf, disk);
    var loaded := Stage1(m, disk, 0x80);
    if loaded.Err? {
      return Err(loaded.error);
    }
    if loaded.value <= STAGE2_BYTES {
      return Err(NothingToDecompress);
    }
    ArgsRead(m.buf, ARG + 4, args);
    BlobLoaded(m.buf, disk, args);
    Stage2Real(m);
    return Ok(());
  }

  /** `main` of the boot model: replay, then compare the kernel in memory with the expected one. */
  method Replay(m: Mem, disk: bytes, kernel: bytes) returns (r: Result<(nat, nat, nat), BootError>)
    requires |m.buf| == MEM_SIZE
    modifies m
    ensures r.Ok? <==> Bootable(disk) && EntryInside(ModuleOn(disk)) && ModuleOn(disk)[64..] == kernel
    ensures Bootable(disk) && ModuleOn(disk)[64..] == kernel ==> Installed(r, m.buf, ModuleOn(disk))
    ensures r.Ok? ==> Apart(Regions(r.value.0, r.value.2))
    ensures r == Err(KernelDiffers) <==>
      Bootable(disk) && EntryInside(ModuleOn(disk)) && ModuleOn(disk)[64..] != kernel
  {
    var loaded := LoadBoot(m, disk);
    if loaded.Err? {
      return Err(loaded.error);
    }
    ghost var blob := BlobOn(disk);
    HasLe32(m.buf, BOOTINFO + 24, |blob|);
    HasLe32(m.buf, BOOTINFO + 16, U32(disk, 476));
    r := Stage2Pm32(m, blob);
    if r.Err? {
      return;
    }
    var klen := r.value.0;
    KernelRead(m.buf, ModuleOn(disk));
    RegionsApart(r.value.0, r.value.2);
    var got := Slice(m.buf, KTEXT, KTEXT + klen);
    if got != kernel {
      return Err(KernelDiffers);
    }
  }

  lemma {:induction false} KernelRead(mem: bytes, out: bytes)
    requires GoodModule(out) && Delivered(mem, out)
    ensures Slice(mem, KTEXT, KTEXT + U32(out, 4)) == out[64..]
  {
    var k, z := out[64..], Bss(U32(out, 4), U32(out, 12));
    HasPart(mem, KTEXT, k + z, 0, |k|);
    assert (k + z)[0..|k|] == k;
    SliceHas(mem, KTEXT, k);
  }

  lemma {:induction false} BlobLoaded(mem: bytes, disk: bytes, args: bytes)
    requires |args| == 12 && Loaded(mem, disk, args, ArgTotal(args)) && ArgTotal(args) > 8
    ensures var lba, total := ArgLba(args), ArgTotal(args);
      (lba + total) * SECTOR <= |disk| && Has(mem, BLOB_PHYS, disk[(lba + 8) * SECTOR..(lba + total) * SECTOR])
  {
    var lba, total := ArgLba(args), ArgTotal(args);
    var all := disk[lba * SECTOR..(lba + total) * SECTOR];
    HasPart(mem, STAGE2, all, 8 * SECTOR, total * SECTOR);
    assert all[8 * SECTOR..total * SECTOR] == disk[(lba + 8) * SECTOR..(lba + total) * SECTOR];
  }
}

/** From kernel file to running kernel: what the image tool builds, the boot replay delivers, and so
    does the protected-mode code of boot/stage2.S except when its checksum loop overflows. */
module BootChain {
  import opened Bits
  import opened Bytes
  import opened BootLayout
  import opened Memory
  import opened BootReplay
  import Adler
  import LzssFormat
  import LzssTool
  import Stage2Decoder
  import BI = BootImage

  // ---------------------------------------------------------------- the module inside the blob

  lemma {:induction false} PayloadFields(x: BI.Input)
    requires BI.GoodKernel(x)
    ensures var p := BI.Payload(x);
      && |p| == 64 + |x.kernel| && p[64..] == x.kernel
      && U32(p, 0) == QIZOK_MAGIC && U32(p, 4) == |x.kernel| && U32(p, 8) == x.entry - x.base
      && U32(p, 12) == BI.ImgTotal(x) && U32(p, 16) == x.base && U32(p, 20) == 512
  {
    var p := BI.Payload(x);
    assert Has(p, 0, BI.ModuleHeader(x));
    var h := BI.ModuleHeader(x);
    assert h[0..4] == Le32(QIZOK_MAGIC) && h[4..8] == Le32(|x.kernel|) && h[8..12] == Le32(x.entry - x.base);
    assert h[12..16] == Le32(BI.ImgTotal(x)) && h[16..20] == Le32(x.base) && h[20..24] == Le32(SECTOR);
    ReadLe32(h, 0, QIZOK_MAGIC);
    ReadLe32(h, 4, |x.kernel|);
    ReadLe32(h, 8, x.entry - x.base);
    ReadLe32(h, 12, BI.ImgTotal(x));
    ReadLe32(h, 16, x.base);
    ReadLe32(h, 20, SECTOR);
    HasU32(p, 0, h, 0);
    HasU32(p, 0, h, 4);
    HasU32(p, 0, h, 8);
    HasU32(p, 0, h, 12);
    HasU32(p, 0, h, 16);
    HasU32(p, 0, h, 20);
  }

  /** The blob decompresses to the module, padding or not. */
  lemma {:induction false} BlobDecodes(x: BI.Input)
    requires BI.GoodKernel(x)
    ensures LzssFormat.Decompressed(BI.Blob(x)) == Ok(BI.Payload(x)) && LzssFormat.WellFormed(BI.Blob(x))
    ensures |BI.Blob(x)| >= 512 && U32(BI.Blob(x), 4) == |BI.Payload(x)|
  {
    var c := LzssTool.Compressed(BI.Payload(x));
    var pad := Zeros(BI.BlobSectors(x) * SECTOR - |c|);
    LzssTool.RoundTrip(BI.Payload(x), pad);
    LzssFormat.HeaderReads(|BI.Payload(x)|, LzssFormat.Stream(LzssTool.Parse(BI.Payload(x), 0)) + pad);
    assert BI.Blob(x) == LzssFormat.Header(|BI.Payload(x)|)
                         + (LzssFormat.Stream(LzssTool.Parse(BI.Payload(x), 0)) + pad);
  }

  lemma {:induction false} ReadableDisk(img: bytes, blob: bytes, n: nat)
    requires |img| >= 512 && U32(img, 468) == 16 && U16(img, 472) == 8 + n && 1 <= n <= 248
    requires |blob| == n * SECTOR && Has(img, 24 * SECTOR, blob)
    ensures Readable(img) && BlobOn(img) == blob
  {
  }

  lemma {:induction false} BlobNotEmpty(x: BI.Input)
    ensures BI.BlobSectors(x) >= 1
  {
  }

  lemma {:induction false} BlobOnDisk(x: BI.Input, img: bytes)
    requires BI.OnDisk(x, img)
    ensures Readable(img) && BlobOn(img) == BI.Blob(x) && U32(img, 476) == Adler.Adler32(BI.Blob(x))
  {
    BlobNotEmpty(x);
    ReadableDisk(img, BI.Blob(x), BI.BlobSectors(x));
  }

  lemma {:induction false} DiskBoots(x: BI.Input, img: bytes)
    requires BI.OnDisk(x, img)
    ensures Bootable(img) && ModuleOn(img) == BI.Payload(x)
  {
    BlobOnDisk(x, img);
    BlobDecodes(x);
    PayloadFields(x);
  }

  // ---------------------------------------------------------------- end to end

  /** The outcome of booting the kernel of x: delivered when its entry point is inside it. */
  ghost predicate BootedAs(x: BI.Input, r: Result<(nat, nat, nat), BootError>, mem: bytes)
    requires BI.GoodKernel(x)
  {
    if x.entry - x.base < |x.kernel| then
      && r == Ok((|x.kernel|, x.entry - x.base, BI.ImgTotal(x)))
      && Has(mem, KTEXT, x.kernel + Zeros(BI.ImgTotal(x) - |x.kernel|))
      && Apart(Regions(|x.kernel|, BI.ImgTotal(x)))
    else r == Err(HeaderRange)
  }

  lemma {:induction false} InstalledIsBooted(x: BI.Input, r: Result<(nat, nat, nat), BootError>, mem: bytes)
    requires BI.GoodKernel(x) && GoodModule(BI.Payload(x)) && Installed(r, mem, BI.Payload(x))
    ensures BootedAs(x, r, mem)
  {
    PayloadFields(x);
    RegionsApart(|x.kernel|, BI.ImgTotal(x));
  }

  /** The sectors the boot takes for the blob, wherever the blob itself ended up. */
  lemma {:induction false} BuiltIsReadable(x: BI.Input, b: BI.Built)
    requires BI.Usable(x) && BI.Outcome(x, b)
    ensures Readable(b.img) && U32(b.img, 476) == Adler.Adler32(BI.Blob(x))
    ensures |BlobOn(b.img)| == BI.BlobSectors(x) * SECTOR && Has(b.img, BLOB_LBA * SECTOR, BlobOn(b.img))
    ensures 512 <= |BlobOn(b.img)| <= BLOB_MAX
  {
    BlobNotEmpty(x);
    BI.BootArguments(x, b);
    BI.RoomForBlob(x, b);
    BlobWindow(b.img, BI.BlobSectors(x));
  }

  lemma {:induction false} BlobWindow(img: bytes, n: nat)
    requires 1 <= n <= 248 && (BLOB_LBA + n) * SECTOR <= |img|
    requires U32(img, 468) == PART_LBA && U16(img, 472) == STAGE2_SECTORS + n
    ensures Readable(img) && |BlobOn(img)| == n * SECTOR && Has(img, BLOB_LBA * SECTOR, BlobOn(img))
  {
    ReadableDisk(img, img[BLOB_LBA * SECTOR..(BLOB_LBA + n) * SECTOR], n);
  }

  /** A stage1 that is longer than one sector, by no more than the padding of stage2, pushes a zero
      byte of that padding to where the boot expects the blob. */
  lemma {:induction false} ShiftedBlob(x: BI.Input, b: BI.Built)
    requires BI.Usable(x) && BI.Outcome(x, b) && Shifted(x)
    ensures Readable(b.img) && |BlobOn(b.img)| >= 512 && BlobOn(b.img)[0] == 0
    ensures U32(BlobOn(b.img), 0) % 256 == 0
  {
    BuiltIsReadable(x, b);
    BI.LoadedParts(x, b);
    BI.Stage2Padding(x, STAGE2_BYTES - BI.Excess(x));
    ShiftedByte(b.img, BI.Stage2Image(x), BI.Excess(x), BlobOn(b.img));
  }

  lemma {:induction false} ShiftedByte(img: bytes, s2: bytes, n: nat, blob: bytes)
    requires |s2| == STAGE2_BYTES && 0 < n <= STAGE2_BYTES && s2[STAGE2_BYTES - n] == 0
    requires Has(img, PART_LBA * SECTOR + n, s2) && Has(img, BLOB_LBA * SECTOR, blob) && |blob| >= 8
    ensures blob[0] == 0 && U32(blob, 0) % 256 == 0
  {
    HasAt(img, PART_LBA * SECTOR + n, s2, STAGE2_BYTES - n);
    HasAt(img, BLOB_LBA * SECTOR, blob, 0);
  }

  predicate Shifted(x: BI.Input) { |x.stage1| > 512 && |x.stage1| + |x.stage2| <= 512 + STAGE2_BYTES }

  /** So such a disk never boots. */
  lemma {:induction false} ShiftedNeverBoots(x: BI.Input, b: BI.Built)
    requires BI.Usable(x) && BI.Outcome(x, b) && Shifted(x)
    ensures !Bootable(b.img)
  {
    ShiftedBlob(x, b);
    NoMagic(BlobOn(b.img));
  }

  lemma {:induction false} NoMagic(blob: bytes)
    requires |blob| >= 8 && U32(blob, 0) % 256 == 0
    ensures U32(blob, 0) != LzssFormat.MAGIC && U32(blob, 0) != QIZOK_MAGIC && LzssFormat.Decompressed(blob).Err?
  {
  }

  /** What a replay on disk img ends with, by how long stage1 is. */
  ghost predicate ReplayedAs(x: BI.Input, img: bytes, r: Result<(nat, nat, nat), BootError>, mem: bytes)
    requires BI.GoodKernel(x)
  {
    && (r.Ok? <==> Bootable(img) && EntryInside(ModuleOn(img)) && ModuleOn(img)[64..] == x.kernel)
    && (|x.stage1| == 512 ==> BootedAs(x, r, mem))
    && (|x.stage1| + |x.stage2| <= 512 + STAGE2_BYTES ==>
          (r.Ok? <==> |x.stage1| == 512 && x.entry - x.base < |x.kernel|))
  }

  /** The replay on a disk the tool has built. */
  method ReplayBuilt(x: BI.Input, b: BI.Built, m: Mem) returns (r: Result<(nat, nat, nat), BootError>)
    requires BI.Usable(x) && BI.Outcome(x, b) && |m.buf| == MEM_SIZE
    modifies m
    ensures ReplayedAs(x, b.img, r, m.buf)
  {
    if |x.stage1| == 512 {
      BI.OutcomeOnDisk(x, b);
      DiskBoots(x, b.img);
      PayloadFields(x);
    } else if Shifted(x) {
      ShiftedNeverBoots(x, b);
    }
    r := Replay(m, b.img, x.kernel);
    if |x.stage1| == 512 {
      InstalledIsBooted(x, r, m.buf);
    }
  }

  /** Build the disk and replay the boot on it. In general it boots exactly when the disk is bootable
      and holds the expected kernel. With a stage1 of one sector that is exactly when the entry point is
      inside the kernel, and the kernel is then unchanged at its load address, with zeros up to its total
      size after it and all boot regions apart. With a stage1 that is longer by no more than the padding
      of stage2 it never is. */
  method MakeAndBoot(x: BI.Input)
    returns (made: bool, img: bytes, r: Result<(nat, nat, nat), BootError>, m: Mem)
    requires BI.Usable(x)
    ensures made <==> BI.Accepts(x)
    ensures made ==> ReplayedAs(x, img, r, m.buf)
  {
    m := new Mem(MEM_SIZE);
    img, r := [], Err(StructError);
    var built := BI.MakeImage(x);
    made := built.Ok?;
    if made {
      img := built.value.img;
      r := ReplayBuilt(x, built.value, m);
    }
  }

  // ---------------------------------------------------------------- the assembly stage2

  /** Error byte of the protected-mode code, or zero. */
  datatype Stage2Result = Jump(entry: nat) | Fail(code: nat)

  const DECOMPRESS_FAILED: Stage2Result := Fail(0x18)

  /** The header checks in order, with their error bytes. */
  function Verdict(out: bytes): Stage2Result
    requires |out| >= 20
  {
    if U32(out, 0) != QIZOK_MAGIC then Fail(0x19)
    else if U32(out, 4) > KERNEL_MAX then Fail(0x1a)
    else if U32(out, 12) > KERNEL_MAX then Fail(0x1b)
    else if U32(out, 12) < U32(out, 4) then Fail(0x1c)
    else if U32(out, 16) != KTEXT then Fail(0x1d)
    else if U32(out, 8) >= U32(out, 4) then Fail(0x16)
    else Jump(KTEXT + U32(out, 8))
  }

  /** It jumps exactly when every field is in range; otherwise the first field out of range decides. */
  lemma {:induction false} VerdictMeans(out: bytes)
    requires |out| >= 20
    ensures var magic, size, entry, total, base := U32(out, 0), U32(out, 4), U32(out, 8), U32(out, 12), U32(out, 16);
      && (Verdict(out).Jump? <==>
            magic == QIZOK_MAGIC && entry < size <= total <= KERNEL_MAX && base == KTEXT)
      && (Verdict(out).Jump? ==> Verdict(out).entry == base + entry)
      && (Verdict(out) == Fail(0x19) <==> magic != QIZOK_MAGIC)
      && (Verdict(out) == Fail(0x1a) <==> magic == QIZOK_MAGIC && size > KERNEL_MAX)
      && (Verdict(out) == Fail(0x16) <==>
            magic == QIZOK_MAGIC && size <= entry && size <= total <= KERNEL_MAX && base == KTEXT)
  {
  }

  /** Size, entry, total and bss size of the kernel, as the boot information block tells the kernel. */
  ghost predicate KernelRecorded(mem: bytes, size: nat, entry: nat, total: nat) {
    && size <= total < 0x1_0000_0000 && entry < 0x1_0000_0000
    && Has(mem, BOOTINFO + 0x34, Le32(size)) && Has(mem, BOOTINFO + 0x38, Le32(entry))
    && Has(mem, BOOTINFO + 0x3C, Le32(total)) && Has(mem, BOOTINFO + 0x40, Le32(total - size))
  }

  /** What stage2 finds in memory when it enters protected mode. */
  ghost predicate Stage2Ready(mem: bytes, blob: bytes, crc: nat) {
    && MEM_SIZE <= |mem| <= 0x1_0000_0000 && |blob| <= BLOB_MAX
    && InfoSet(mem, |blob|, crc) && Has(mem, BLOB_PHYS, blob)
  }

  /** The blob unpacks to something that has a header and fits the scratch area. */
  ghost predicate GoodBlob(blob: bytes, out: bytes) {
    && |blob| >= 8 && (U32(blob, 0) == LzssFormat.MAGIC ==> LzssFormat.WellFormed(blob))
    && out == Stage2Decoder.Unpacked(blob) && Stage2Decoder.Room(blob) <= KERNEL_MAX + QIZOK_HDR
    && 20 <= |out| <= KERNEL_MAX + QIZOK_HDR
  }

  /** What ends up at the load address: as many bytes after the header as it says, then zeros. */
  function HandedOver(mem: bytes, out: bytes): bytes
    requires |mem| >= MEM_SIZE && |out| >= 20 && U32(out, 4) <= KERNEL_MAX
  {
    mem[SCRATCH + 64..SCRATCH + 64 + U32(out, 4)] + Bss(U32(out, 4), U32(out, 12))
  }

  /** `qizo_pm32` from the checksum to the jump, on a well-formed blob or one without the magic. */
  method QizoPm32(m: Mem, ghost blob: bytes, ghost crc: nat, ghost out: bytes) returns (r: Stage2Result)
    requires Stage2Ready(m.buf, blob, crc) && GoodBlob(blob, out)
    modifies m
    ensures r == if Adler.Packed(blob) != crc then Fail(0x17) else Verdict(out)
    ensures r.Jump? ==> |Store(old(m.buf), SCRATCH, out)| >= MEM_SIZE
                        && Has(m.buf, KTEXT, HandedOver(Store(old(m.buf), SCRATCH, out), out))
    ensures r.Jump? && GoodModule(out) ==> Delivered(m.buf, out)
    ensures r.Jump? ==> KernelRecorded(m.buf, U32(out, 4), U32(out, 8), U32(out, 12)) && InfoSet(m.buf, |blob|, crc)
  {
    InfoReads(m.buf, |blob|, crc);
    var esi, ecx := U32(m.buf, BOOTINFO + 20), U32(m.buf, BOOTINFO + 24);
    var eax := Adler.QizoAdler(m.buf, esi, ecx);
    if eax != U32(m.buf, BOOTINFO + 16) {
      return Fail(0x17);
    }
    var edi := U32(m.buf, BOOTINFO + 28);
    ghost var was := m.buf;
    eax := Stage2Decoder.QizoDecompress(m, esi, ecx, edi, blob);
    if eax == 0 {
      return DECOMPRESS_FAILED;
    }
    Scratched(m.buf, was, out, |blob|, crc);
    ChangedIsStore(m.buf, was, SCRATCH, out);
    if GoodModule(out) { ImageInScratch(m.buf, out); }
    r := CheckAndCopy(m, out, |blob|, crc);
  }

  lemma {:induction false} InfoReads(mem: bytes, size: nat, crc: nat)
    requires InfoSet(mem, size, crc)
    ensures U32(mem, BOOTINFO + 24) == size && U32(mem, BOOTINFO + 16) == crc
    ensures U32(mem, BOOTINFO + 20) == BLOB_PHYS && U32(mem, BOOTINFO + 28) == SCRATCH
    ensures U32(mem, BOOTINFO + 0x30) == KTEXT
  {
    HasLe32(mem, BOOTINFO + 24, size);
    HasLe32(mem, BOOTINFO + 16, crc);
    HasLe32(mem, BOOTINFO + 20, BLOB_PHYS);
    HasLe32(mem, BOOTINFO + 28, SCRATCH);
    HasLe32(mem, BOOTINFO + 0x30, KTEXT);
  }

  /** After decompression the module is in scratch and the boot information block is intact. */
  ghost predicate InScratch(mem: bytes, out: bytes, size: nat, crc: nat) {
    MEM_SIZE <= |mem| <= 0x1_0000_0000 && Has(mem, SCRATCH, out) && InfoSet(mem, size, crc)
  }

  lemma {:induction false} Scratched(mem: bytes, was: bytes, out: bytes, size: nat, crc: nat)
    requires MEM_SIZE <= |was| <= 0x1_0000_0000 && InfoSet(was, size, crc)
    requires ChangedOnly(mem, was, SCRATCH, SCRATCH + |out|) && mem[SCRATCH..SCRATCH + |out|] == out
    ensures InScratch(mem, out, size, crc)
  {
    InfoKept(mem, was, SCRATCH, SCRATCH + |out|, size, crc);
  }

  lemma {:induction false} InfoKept(mem: bytes, was: bytes, lo: nat, hi: nat, size: nat, crc: nat)
    requires InfoSet(was, size, crc) && ChangedOnly(mem, was, lo, hi) && BOOTINFO + 0x34 <= lo
    ensures InfoSet(mem, size, crc)
  {
    StillHas(mem, was, lo, hi, BOOTINFO + 16, Le32(crc));
    StillHas(mem, was, lo, hi, BOOTINFO + 20, Le32(BLOB_PHYS));
    StillHas(mem, was, lo, hi, BOOTINFO + 24, Le32(size));
    StillHas(mem, was, lo, hi, BOOTINFO + 28, Le32(SCRATCH));
    StillHas(mem, was, lo, hi, BOOTINFO + 0x30, Le32(KTEXT));
  }

  lemma {:induction false} RecordKept(mem: bytes, was: bytes, lo: nat, hi: nat, size: nat, entry: nat, total: nat)
    requires KernelRecorded(was, size, entry, total) && ChangedOnly(mem, was, lo, hi) && BOOTINFO + 0x44 <= lo
    ensures KernelRecorded(mem, size, entry, total)
  {
    StillHas(mem, was, lo, hi, BOOTINFO + 0x34, Le32(size));
    StillHas(mem, was, lo, hi, BOOTINFO + 0x38, Le32(entry));
    StillHas(mem, was, lo, hi, BOOTINFO + 0x3C, Le32(total));
    StillHas(mem, was, lo, hi, BOOTINFO + 0x40, Le32(total - size));
  }

  lemma {:induction false} HeaderInScratch(mem: bytes, out: bytes, size: nat, crc: nat)
    requires InScratch(mem, out, size, crc) && |out| >= 20
    ensures U32(mem, BOOTINFO + 28) == SCRATCH && U32(mem, BOOTINFO + 0x30) == KTEXT
    ensures U32(mem, SCRATCH) == U32(out, 0) && U32(mem, SCRATCH + 4) == U32(out, 4)
    ensures U32(mem, SCRATCH + 8) == U32(out, 8) && U32(mem, SCRATCH + 12) == U32(out, 12)
    ensures U32(mem, SCRATCH + 16) == U32(out, 16)
  {
    HasLe32(mem, BOOTINFO + 28, SCRATCH);
    HasLe32(mem, BOOTINFO + 0x30, KTEXT);
    HasU32(mem, SCRATCH, out, 0);
    HasU32(mem, SCRATCH, out, 4);
    HasU32(mem, SCRATCH, out, 8);
    HasU32(mem, SCRATCH, out, 12);
    HasU32(mem, SCRATCH, out, 16);
  }

  /** The header checks `fail_c3` to `fail32`, then record, copy, clear and jump. */
  method CheckAndCopy(m: Mem, ghost out: bytes, ghost size: nat, ghost crc: nat) returns (r: Stage2Result)
    requires InScratch(m.buf, out, size, crc) && |out| >= 20
    modifies m
    ensures r == Verdict(out)
    ensures r.Fail? ==> m.buf == old(m.buf)
    ensures r.Jump? ==> Has(m.buf, KTEXT, HandedOver(old(m.buf), out))
    ensures r.Jump? ==> KernelRecorded(m.buf, U32(out, 4), U32(out, 8), U32(out, 12)) && InfoSet(m.buf, size, crc)
  {
    HeaderInScratch(m.buf, out, size, crc);
    var edi := U32(m.buf, BOOTINFO + 28);
    if U32(m.buf, edi) != QIZOK_MAGIC {
      return Fail(0x19);
    }
    var ecx := U32(m.buf, edi + 4);
    if ecx > KERNEL_MAX {
      return Fail(0x1a);
    }
    var eax := U32(m.buf, edi + 12);
    if eax > KERNEL_MAX {
      return Fail(0x1b);
    }
    if eax < ecx {
      return Fail(0x1c);
    }
    if U32(m.buf, edi + 16) != KTEXT {
      return Fail(0x1d);
    }
    var edx := U32(m.buf, edi + 8);
    if edx >= ecx {
      return Fail(0x16);
    }
    RecordAndCopy(m, ecx, edx, eax, out, size, crc);
    return Jump(KTEXT + edx);
  }

  /** What follows the checks. */
  method RecordAndCopy(m: Mem, ecx: nat, edx: nat, eax: nat, ghost out: bytes, ghost size: nat, ghost crc: nat)
    requires InScratch(m.buf, out, size, crc) && |out| >= 20 && edx < 0x1_0000_0000
    requires ecx == U32(out, 4) <= eax == U32(out, 12) <= KERNEL_MAX
    modifies m
    ensures Has(m.buf, KTEXT, HandedOver(old(m.buf), out))
    ensures KernelRecorded(m.buf, ecx, edx, eax) && InfoSet(m.buf, size, crc)
  {
    RecordKernel(m, ecx, edx, eax, out, size, crc);
    ImageKept(m.buf, old(m.buf), ecx);
    ghost var recorded := m.buf;
    CopyKernel(m, ecx, eax, out, size, crc);
    InfoKept(m.buf, recorded, KTEXT, KTEXT + KERNEL_MAX, size, crc);
    RecordKept(m.buf, recorded, KTEXT, KTEXT + KERNEL_MAX, ecx, edx, eax);
  }

  /** Kernel size, entry, total and bss size go into the boot information block. */
  method RecordKernel(m: Mem, size: nat, entry: nat, total: nat, ghost out: bytes, ghost blobSize: nat, ghost crc: nat)
    requires InScratch(m.buf, out, blobSize, crc) && size <= total < 0x1_0000_0000 && entry < 0x1_0000_0000
    modifies m
    ensures InScratch(m.buf, out, blobSize, crc) && ChangedOnly(m.buf, old(m.buf), BOOTINFO, BOOTINFO + 0x700)
    ensures KernelRecorded(m.buf, size, entry, total)
  {
    ghost var was := m.buf;
    PutInfo(m, 0x34, Le32(size));
    ghost var s1 := m.buf;
    PutInfo(m, 0x38, Le32(entry));
    ChangedThen(m.buf, s1, was, BOOTINFO, BOOTINFO + 0x700);
    ghost var s2 := m.buf;
    PutInfo(m, 0x3C, Le32(total));
    ChangedThen(m.buf, s2, was, BOOTINFO, BOOTINFO + 0x700);
    ghost var s3 := m.buf;
    PutInfo(m, 0x40, Le32(total - size));
    ChangedThen(m.buf, s3, was, BOOTINFO, BOOTINFO + 0x700);
  }

  lemma {:induction false} ImageKept(mem: bytes, was: bytes, size: nat)
    requires ChangedOnly(mem, was, BOOTINFO, BOOTINFO + 0x700) && |was| >= MEM_SIZE && size <= KERNEL_MAX
    ensures mem[SCRATCH + 64..SCRATCH + 64 + size] == was[SCRATCH + 64..SCRATCH + 64 + size]
  {
    StillHas(mem, was, BOOTINFO, BOOTINFO + 0x700, SCRATCH + 64, was[SCRATCH + 64..SCRATCH + 64 + size]);
  }

  /** `qizo_copy` and `qizo_zero`. */
  method CopyKernel(m: Mem, size: nat, total: nat, ghost out: bytes, ghost blobSize: nat, ghost crc: nat)
    requires InScratch(m.buf, out, blobSize, crc) && |out| >= 20
    requires size == U32(out, 4) <= total == U32(out, 12) <= KERNEL_MAX
    modifies m
    ensures Has(m.buf, KTEXT, HandedOver(old(m.buf), out))
    ensures ChangedOnly(m.buf, old(m.buf), KTEXT, KTEXT + KERNEL_MAX)
  {
    HeaderInScratch(m.buf, out, blobSize, crc);
    var esi, edi := U32(m.buf, BOOTINFO + 28) + QIZOK_HDR, U32(m.buf, BOOTINFO + 0x30);
    var image := m.buf[esi..esi + size];
    ghost var was := m.buf;
    Handoff(was, image, total);
    ChangedByStore(was, was, KTEXT, KTEXT + KERNEL_MAX, KTEXT, image);
    m.Write(edi, image);
    ChangedByStore(m.buf, was, KTEXT, KTEXT + KERNEL_MAX, KTEXT + size, Bss(size, total));
    m.Write(edi + size, Bss(size, total));
  }

  /** For a good module that is its kernel and nothing else. */
  lemma {:induction false} ImageInScratch(mem: bytes, out: bytes)
    requires |mem| >= MEM_SIZE && Has(mem, SCRATCH, out) && GoodModule(out)
    ensures HandedOver(mem, out) == out[64..] + Bss(U32(out, 4), U32(out, 12))
  {
    HasPart(mem, SCRATCH, out, 64, |out|);
  }

  /** The protected-mode code on what the tool built: it jumps into the kernel if and only if the
      kernel is linked at its load address, the entry point is inside it, and the last byte of the
      blob does not overflow the checksum loop. */
  method Stage2OnBuilt(x: BI.Input, m: Mem) returns (r: Stage2Result)
    requires BI.GoodKernel(x) && |BI.Blob(x)| <= BLOB_MAX
    requires Stage2Ready(m.buf, BI.Blob(x), Adler.Adler32(BI.Blob(x)))
    modifies m
    ensures r.Jump? <==> x.base == KTEXT && x.entry - x.base < |x.kernel| && !Adler.LastByteOverflows(BI.Blob(x))
    ensures r.Jump? ==> r.entry == x.entry && Has(m.buf, KTEXT, x.kernel + Zeros(BI.ImgTotal(x) - |x.kernel|))
    ensures r.Jump? ==> KernelRecorded(m.buf, |x.kernel|, x.entry - x.base, BI.ImgTotal(x))
                        && InfoSet(m.buf, |BI.Blob(x)|, Adler.Adler32(BI.Blob(x)))
    ensures Adler.LastByteOverflows(BI.Blob(x)) ==> r == Fail(0x17)
  {
    BlobDecodes(x);
    PayloadFields(x);
    Adler.PackedIsAdler32(BI.Blob(x));
    r := QizoPm32(m, BI.Blob(x), Adler.Adler32(BI.Blob(x)), BI.Payload(x));
  }

  /** The protected-mode code on a disk that a longer stage1 has shifted: a wrong checksum, or no module. */
  method Stage2OnShifted(m: Mem, ghost blob: bytes, ghost crc: nat) returns (r: Stage2Result)
    requires Stage2Ready(m.buf, blob, crc) && |blob| >= 512 && U32(blob, 0) % 256 == 0
    modifies m
    ensures r == Fail(0x17) || r == Fail(0x19)
  {
    NoMagic(blob);
    r := QizoPm32(m, blob, crc, blob);
  }

  /** Tool, disk reads and protected-mode code in one run, for a stage1 that exceeds one sector by no
      more than the padding of stage2: it jumps into the kernel if and only if stage1 is one sector long
      and the conditions of `Stage2OnBuilt` hold. */
  method MakeAndJump(x: BI.Input) returns (made: bool, r: Stage2Result, m: Mem)
    requires BI.Usable(x) && (|x.stage1| <= 512 || Shifted(x))
    ensures made <==> BI.Accepts(x)
    ensures made ==>
      (r.Jump? <==> |x.stage1| == 512 && x.base == KTEXT && x.entry - x.base < |x.kernel|
                    && !Adler.LastByteOverflows(BI.Blob(x)))
    ensures made && r.Jump? ==>
      && r.entry == x.entry && Has(m.buf, KTEXT, x.kernel + Zeros(BI.ImgTotal(x) - |x.kernel|))
      && KernelRecorded(m.buf, |x.kernel|, x.entry - x.base, BI.ImgTotal(x))
      && InfoSet(m.buf, |BI.Blob(x)|, Adler.Adler32(BI.Blob(x)))
  {
    m := new Mem(MEM_SIZE);
    var built := BI.MakeImage(x);
    made, r := built.Ok?, Fail(0);
    if made {
      BuiltIsReadable(x, built.value);
      var loaded := LoadBoot(m, built.value.img);
      if |x.stage1| == 512 {
        BI.OutcomeOnDisk(x, built.value);
        BlobOnDisk(x, built.value.img);
        r := Stage2OnBuilt(x, m);
      } else {
        ShiftedBlob(x, built.value);
        r := Stage2OnShifted(m, BlobOn(built.value.img), U32(built.value.img, 476));
      }
    }
  }

  /** A raw blob, as the tool writes it with its raw option, boots on neither path: the replay finds no
      stream and the assembly, which keeps the eight bytes in front, finds no module. */
  lemma {:induction false} RawNeverBoots(payload: bytes, pad: bytes)
    requires |payload| < 0x1_0000_0000 && |payload| >= 12
    ensures var blob := Le32(0) + Le32(|payload|) + payload + pad;
      && LzssFormat.Decompressed(blob) == Err(LzssFormat.BadMagic)
      && Stage2Decoder.Unpacked(blob) == blob && Verdict(blob) == Fail(0x19)
  {
    var blob := Le32(0) + Le32(|payload|) + payload + pad;
    assert blob[0] == 0 && blob[1] == 0 && blob[2] == 0 && blob[3] == 0;
  }

  lemma {:induction false} EndsInPadding(x: BI.Input)
    requires |LzssTool.Compressed(BI.Payload(x))| % SECTOR != 0
    ensures var blob := BI.Blob(x); |blob| > 0 && blob[|blob| - 1] == 0
  {
    var n := |LzssTool.Compressed(BI.Payload(x))|;
    assert n < BI.BlobSectors(x) * SECTOR;
  }

  /** A compressed module that does not end exactly on a sector boundary never overflows it. */
  lemma {:induction false} PaddedBlobIsSafe(x: BI.Input)
    requires BI.GoodKernel(x) && |LzssTool.Compressed(BI.Payload(x))| % SECTOR != 0
    ensures !Adler.LastByteOverflows(BI.Blob(x))
  {
    EndsInPadding(x);
    Adler.ZeroEndIsSafe(BI.Blob(x));
  }
}

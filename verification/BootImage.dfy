/** `main` of tools/mkqizoimg/mkqizoimg.py in compressed mode: checks, module header, blob,
    boot arguments, file system and partition entry. */
module BootImage {
  import opened Bits
  import opened Bytes
  import opened BootLayout
  import opened ImagePlan
  import FatTable
  import Directory
  import ImageTool
  import FatReader
  import Adler
  import LzssFormat
  import LzssTool

  const ARGS: nat := 0x1D0
  const PARTITION: nat := 0x1BE

  /** Command line, symbols and files. The README.TXT text is taken as given. */
  datatype Input = Input(stage1: bytes, stage2: bytes, kernel: bytes, base: int, entry: int,
                         imageEnd: int, bssEnd: int, imageSectors: nat, title: string, readme: bytes)

  datatype ToolError = ArgsNotClear | NoSignature | Stage2TooBig | SpanMismatch | KernelTooBig
                     | StructError | BlobTooBig | NoLayout

  datatype Built = Built(img: bytes, total: nat, layout: Layout)

  function ImgTotal(x: Input): int { Max(x.bssEnd, x.imageEnd) - x.base }

  /** What the tool takes from its caller: a label and a readme it can store. */
  predicate Usable(x: Input) {
    Directory.Ascii(x.title) && (forall i :: 0 <= i < |x.title| ==> x.title[i] as int != 0) && |x.readme| <= 4096
  }

  predicate GoodStage1(x: Input) {
    |x.stage1| >= 512 && x.stage1[ARGS..ARGS + 20] == Zeros(20) && x.stage1[510] == 0x55 && x.stage1[511] == 0xAA
  }

  predicate GoodKernel(x: Input) {
    && x.imageEnd - x.base == |x.kernel|
    && |x.kernel| + QIZOK_HDR <= KERNEL_MAX && ImgTotal(x) <= KERNEL_MAX
    && 0 <= x.entry - x.base < 0x1_0000_0000 && 0 <= x.base < 0x1_0000_0000
  }

  function ModuleHeader(x: Input): (r: bytes)
    requires GoodKernel(x)
    ensures |r| == 64
  {
    Le32(QIZOK_MAGIC) + Le32(|x.kernel|) + Le32(x.entry - x.base) + Le32(ImgTotal(x)) + Le32(x.base)
    + Le32(SECTOR) + Zeros(40)
  }

  /** Module header and kernel (empty when the kernel is refused). */
  function Payload(x: Input): (r: bytes)
    ensures |r| <= KERNEL_MAX && (GoodKernel(x) ==> |r| == 64 + |x.kernel|)
  {
    if GoodKernel(x) then ModuleHeader(x) + x.kernel else []
  }

  function BlobSectors(x: Input): nat {
    (|LzssTool.Compressed(Payload(x))| + SECTOR - 1) / SECTOR
  }

  function Blob(x: Input): (r: bytes)
    ensures |r| == BlobSectors(x) * SECTOR
  {
    var c := LzssTool.Compressed(Payload(x));
    c + Zeros(BlobSectors(x) * SECTOR - |c|)
  }

  function PartLba(x: Input): nat { BLOB_LBA + BlobSectors(x) }

  /** Stage2 padded to its eight sectors. */
  function Stage2Image(x: Input): (r: bytes)
    ensures |x.stage2| <= STAGE2_BYTES ==> |r| == STAGE2_BYTES
  {
    x.stage2 + Zeros(Max(0, STAGE2_SECTORS * SECTOR - |x.stage2|))
  }

  lemma {:induction false} Stage2Padding(x: Input, i: nat)
    requires |x.stage2| <= i < STAGE2_BYTES
    ensures Stage2Image(x)[i] == 0
  {
  }

  function Files(x: Input): seq<FatTable.File> {
    [FatTable.File("README.TXT", x.readme), FatTable.File("KERNEL.BIN", x.kernel)]
  }

  /** A 16-bit volume can be planned and described in the requested size, or in the picked one. */
  predicate Plannable(x: Input) {
    x.imageSectors == 0 ||
    (DataSectors(x.imageSectors, PartLba(x), RESERVED, PlannedFatSize(x.imageSectors, PartLba(x), RESERVED)) >= MIN_CLUSTERS
     && x.imageSectors - PART_LBA < 0x1_0000)
  }

  /** Exactly what the tool accepts. */
  predicate Accepts(x: Input) {
    && GoodStage1(x) && |x.stage2| <= STAGE2_BYTES && GoodKernel(x)
    && |LzssTool.Compressed(Payload(x))| <= BLOB_MAX && Plannable(x)
  }

  /** The boot sector with the argument block filled in. */
  function ArmedStage1(x: Input): bytes
    requires BlobSectors(x) <= 248
  {
    var a := Store(x.stage1, ARGS + 4, Le32(PART_LBA));
    var b := Store(a, ARGS + 8, Le16(STAGE2_SECTORS + BlobSectors(x)));
    Store(b, ARGS + 12, Le32(Adler.Adler32(Blob(x))))
  }

  /** Boot sector in place, then the partition entry over it. */
  function WithMbr(img: bytes, stage1: bytes, part: nat, total: nat): bytes
    requires part <= total < 0x1_0000_0000
  {
    var a := SetSlice(img, 0, SECTOR, stage1);
    var b := Store(a, PARTITION, ENTRY_HEAD);
    var c := Store(b, PARTITION + 8, Le32(part));
    Store(c, PARTITION + 12, Le32(total - part))
  }

  lemma {:induction false} NamesAreGood()
    ensures Directory.Name83("README.TXT") && Directory.Name83("KERNEL.BIN")
  {
    DotAt("README.TXT", 6);
    DotAt("KERNEL.BIN", 6);
  }

  lemma {:induction false} DotAt(s: string, d: nat)
    requires d < |s| && s[d] == '.' && forall i :: d < i < |s| ==> s[i] != '.'
    ensures Directory.LastDot(s) == d
  {
  }

  lemma {:induction false} FilesUsable(x: Input)
    requires Usable(x)
    ensures |x.kernel| < 0x1_0000_0000 ==> ImageTool.Storable(Files(x))
    ensures ImageTool.Distinct(Files(x))
    ensures forall k :: 0 <= k < 2 ==> Directory.Name83(Files(x)[k].name)
    ensures FatTable.First(Files(x), 2) == 2 + FatTable.Clusters(x.readme) + FatTable.Clusters(x.kernel)
  {
    NamesAreGood();
    Directory.NameAscii("README.TXT");
    Directory.NameAscii("KERNEL.BIN");
    var f := Files(x);
    assert FatTable.First(f, 1) == 2 + FatTable.Clusters(f[0].payload);
    assert "README.TXT"[0] != "KERNEL.BIN"[0];
  }

  lemma {:induction false} FilesFit(x: Input, total: nat, l: Layout)
    requires Usable(x) && GoodKernel(x) && |x.stage2| <= STAGE2_BYTES && BlobSectors(x) <= 248
    requires GoodPlan(total, PartLba(x), RESERVED, l) && total - PART_LBA < 0x1_0000
    ensures ImageTool.Fits(total, l, Files(x), x.title, Blob(x), BLOB_LBA * SECTOR, Stage2Image(x))
  {
    FilesUsable(x);
    assert l.partLba == PartLba(x) && l.reserved == RESERVED;
  }

  lemma {:induction false} ToolBuilds(x: Input, total: nat, l: Layout)
    requires Usable(x) && GoodKernel(x) && |x.stage2| <= STAGE2_BYTES && BlobSectors(x) <= 248
    requires GoodPlan(total, PartLba(x), RESERVED, l) && total - PART_LBA < 0x1_0000
    ensures ImageTool.Storable(Files(x))
    ensures ImageTool.BuiltImage(total, l, Files(x), x.title, Blob(x), BLOB_LBA * SECTOR, Stage2Image(x)).Ok?
  {
    FilesFit(x, total, l);
    ImageTool.ImageHolds(total, l, Files(x), x.title, Blob(x), BLOB_LBA * SECTOR, Stage2Image(x));
  }

  /** The requested size of the disk in sectors, or the picked one. */
  function WantedTotal(x: Input): nat { if x.imageSectors != 0 then x.imageSectors else PickedTotal(PartLba(x)) }

  /** What a refusal says about the input. */
  predicate Explains(x: Input, e: ToolError) {
    match e
    case ArgsNotClear => !(|x.stage1| >= ARGS + 20 && x.stage1[ARGS..ARGS + 20] == Zeros(20))
    case NoSignature => |x.stage1| < 512 || x.stage1[510] != 0x55 || x.stage1[511] != 0xAA
    case Stage2TooBig => |x.stage2| > STAGE2_BYTES
    case SpanMismatch => x.imageEnd - x.base != |x.kernel|
    case KernelTooBig => |x.kernel| + QIZOK_HDR > KERNEL_MAX || ImgTotal(x) > KERNEL_MAX
    case StructError =>
      || x.entry < x.base || x.entry - x.base >= 0x1_0000_0000 || !(0 <= x.base < 0x1_0000_0000)
      || x.imageSectors - PART_LBA >= 0x1_0000
    case BlobTooBig => |LzssTool.Compressed(Payload(x))| > BLOB_MAX
    case NoLayout => x.imageSectors != 0 && !Plannable(x)
  }

  /** What a successful run returns. */
  ghost predicate Outcome(x: Input, b: Built)
    requires Usable(x)
  {
    && GoodStage1(x) && |x.stage2| <= STAGE2_BYTES && GoodKernel(x) && BlobSectors(x) <= 248
    && GoodPlan(b.total, PartLba(x), RESERVED, b.layout) && b.total - PART_LBA < 0x1_0000
    && ImageTool.Storable(Files(x))
    && var d := ImageTool.BuiltImage(b.total, b.layout, Files(x), x.title, Blob(x),
                                     BLOB_LBA * SECTOR, Stage2Image(x));
       d.Ok? && b.img == WithMbr(d.value, ArmedStage1(x), PartLba(x), b.total)
  }

  lemma {:induction false} OutcomeHolds(x: Input, b: Built, disk: bytes)
    requires Usable(x) && GoodStage1(x) && |x.stage2| <= STAGE2_BYTES && GoodKernel(x) && BlobSectors(x) <= 248
    requires GoodPlan(b.total, PartLba(x), RESERVED, b.layout) && b.total - PART_LBA < 0x1_0000
    requires ImageTool.Storable(Files(x))
    requires ImageTool.BuiltImage(b.total, b.layout, Files(x), x.title, Blob(x), BLOB_LBA * SECTOR, Stage2Image(x)) == Ok(disk)
    requires b.img == WithMbr(disk, ArmedStage1(x), PartLba(x), b.total)
    ensures Outcome(x, b)
  {
  }

  /** The tool: refuse, or build the disk. */
  method MakeImage(x: Input) returns (r: Result<Built, ToolError>)
    requires Usable(x)
    ensures r.Ok? <==> Accepts(x)
    ensures r.Ok? ==> Outcome(x, r.value) && r.value.total == WantedTotal(x)
    ensures r.Err? ==> Explains(x, r.error)
  {
    if |x.stage1| < ARGS + 20 || x.stage1[ARGS..ARGS + 20] != Zeros(20) {
      return Err(ArgsNotClear);
    }
    var stage1 := x.stage1;
    if |stage1| < 512 {
      stage1 := stage1 + Zeros(512 - |stage1|);
    }
    if stage1[510] != 0x55 || stage1[511] != 0xAA {
      return Err(NoSignature);
    }
    if |x.stage2| > STAGE2_BYTES {
      return Err(Stage2TooBig);
    }
    var entryOff, klen, imgTotal := x.entry - x.base, x.imageEnd - x.base, ImgTotal(x);
    if klen != |x.kernel| {
      return Err(SpanMismatch);
    }
    if klen + QIZOK_HDR > KERNEL_MAX || imgTotal > KERNEL_MAX {
      return Err(KernelTooBig);
    }
    if !(0 <= entryOff < 0x1_0000_0000 && 0 <= x.base < 0x1_0000_0000) {
      return Err(StructError);
    }
    var compressed := LzssTool.Compress(Payload(x));
    if |compressed.value| > BLOB_MAX {
      return Err(BlobTooBig);
    }
    var blobSectors := (|compressed.value| + SECTOR - 1) / SECTOR;
    var blob := compressed.value + Zeros(blobSectors * SECTOR - |compressed.value|);
    r := FinishImage(x, blob, blobSectors);
  }

  /** The second half of the tool: arguments, volume, partition entry. */
  method FinishImage(x: Input, blob: bytes, blobSectors: nat) returns (r: Result<Built, ToolError>)
    requires Usable(x) && GoodStage1(x) && |x.stage2| <= STAGE2_BYTES && GoodKernel(x)
    requires blobSectors == BlobSectors(x) <= 248 && blob == Blob(x)
    ensures r.Ok? <==> Plannable(x)
    ensures r.Ok? ==> Outcome(x, r.value) && r.value.total == WantedTotal(x)
    ensures r.Err? ==> Explains(x, r.error)
  {
    var part := BLOB_LBA + blobSectors;
    var plan := ChooseLayout(x, blobSectors);
    if plan.Err? {
      return Err(plan.error);
    }
    var (total, layout) := plan.value;
    var stage1 := ArmStage1(x, blob, blobSectors);
    var img := WriteDisk(x, total, layout, blob, stage1, part);
    return Ok(Built(img, total, layout));
  }

  /** Volume first, then the boot sector and the partition entry over its first sector. */
  method WriteDisk(x: Input, total: nat, layout: Layout, blob: bytes, stage1: bytes, part: nat) returns (img: bytes)
    requires Usable(x) && GoodStage1(x) && |x.stage2| <= STAGE2_BYTES && GoodKernel(x) && BlobSectors(x) <= 248
    requires GoodPlan(total, PartLba(x), RESERVED, layout) && total - PART_LBA < 0x1_0000
    requires blob == Blob(x) && stage1 == ArmedStage1(x) && part == PartLba(x)
    ensures Outcome(x, Built(img, total, layout))
  {
    ToolBuilds(x, total, layout);
    var built, used := ImageTool.BuildImage(total, layout, Files(x), x.title, blob, BLOB_LBA * SECTOR, Stage2Image(x));
    img := WithMbr(built.value, stage1, part, total);
    OutcomeHolds(x, Built(img, total, layout), built.value);
  }

  /** Filling in the boot arguments. */
  method ArmStage1(x: Input, blob: bytes, blobSectors: nat) returns (stage1: bytes)
    requires GoodStage1(x) && GoodKernel(x) && blobSectors == BlobSectors(x) <= 248 && blob == Blob(x)
    ensures stage1 == ArmedStage1(x)
  {
    var crc := Adler.HandAdler(blob);
    stage1 := Store(x.stage1, ARGS + 4, Le32(PART_LBA));
    stage1 := Store(stage1, ARGS + 8, Le16(STAGE2_SECTORS + blobSectors));
    stage1 := Store(stage1, ARGS + 12, Le32(crc));
  }

  /** The requested image size, or the picked one. */
  method ChooseLayout(x: Input, blobSectors: nat) returns (r: Result<(nat, Layout), ToolError>)
    requires GoodKernel(x) && blobSectors == BlobSectors(x) <= 248
    ensures r.Ok? <==> Plannable(x)
    ensures r.Ok? ==> GoodPlan(r.value.0, PartLba(x), RESERVED, r.value.1) && r.value.0 - PART_LBA < 0x1_0000
    ensures r.Ok? ==> r.value.0 == WantedTotal(x)
    ensures r.Err? ==> Explains(x, r.error)
  {
    var part := BLOB_LBA + blobSectors;
    if x.imageSectors != 0 {
      var layout, passes, broke := PlanLayout(x.imageSectors, part, RESERVED);
      if layout.None? {
        return Err(NoLayout);
      }
      if x.imageSectors - PART_LBA >= 0x1_0000 {
        return Err(StructError);
      }
      return Ok((x.imageSectors, layout.value));
    }
    var total, layout := PickLayout(blobSectors);
    return Ok((total, layout.value));
  }

  // ---------------------------------------------------------------- what is on the disk

  lemma {:induction false} ArmedFields(x: Input)
    requires GoodStage1(x) && GoodKernel(x) && BlobSectors(x) <= 248
    ensures var s := ArmedStage1(x);
      && |s| == |x.stage1| && Has(s, ARGS + 4, Le32(PART_LBA))
      && Has(s, ARGS + 8, Le16(STAGE2_SECTORS + BlobSectors(x)))
      && Has(s, ARGS + 12, Le32(Adler.Adler32(Blob(x))))
  {
    var p, q, r := Le32(PART_LBA), Le16(STAGE2_SECTORS + BlobSectors(x)), Le32(Adler.Adler32(Blob(x)));
    var a := Store(x.stage1, ARGS + 4, p);
    StoreInside(x.stage1, ARGS + 4, p);
    var b := Store(a, ARGS + 8, q);
    StoreInside(a, ARGS + 8, q);
    StoreApart(a, ARGS + 8, q, ARGS + 4, p);
    StoreInside(b, ARGS + 12, r);
    StoreApart(b, ARGS + 12, r, ARGS + 4, p);
    StoreApart(b, ARGS + 12, r, ARGS + 8, q);
  }

  lemma {:induction false} ArmedLength(x: Input)
    requires GoodStage1(x) && GoodKernel(x) && BlobSectors(x) <= 248
    ensures |ArmedStage1(x)| == |x.stage1|
  {
    ArmedFields(x);
  }

  lemma {:induction false} PlanBounds(total: nat, part: nat, l: Layout)
    requires GoodPlan(total, part, RESERVED, l) && total - PART_LBA < 0x1_0000
    ensures part <= total < 0x1_0000_0000
  {
  }

  /** The slice assignment replaces 512 bytes by the whole of stage1: anything longer moves the rest. */
  lemma {:induction false} MbrShift(disk: bytes, stage1: bytes, part: nat, total: nat, at: nat, e: bytes)
    requires |stage1| >= 512 && part <= total < 0x1_0000_0000 && Has(disk, at, e) && at >= 512
    ensures |WithMbr(disk, stage1, part, total)| == |disk| + |stage1| - 512
    ensures Has(WithMbr(disk, stage1, part, total), at + |stage1| - 512, e)
  {
    var a := SetSlice(disk, 0, SECTOR, stage1);
    assert a == stage1 + disk[512..];
    var to := at + |stage1| - 512;
    assert a[to..to + |e|] == disk[at..at + |e|];
    EntryStores(a, part, total, to, e);
  }

  /** The entry's first half: active, type FAT16, and its fixed CHS fields. */
  const ENTRY_HEAD: bytes := [0x80, 0, 2, 1, 0x06, 0xFE, 0xFF, 0xFF]

  /** The partition entry changes bytes 446 to 461 only, and records kind, start and length. */
  lemma {:induction false} EntryStores(a: bytes, part: nat, total: nat, at: nat, e: bytes)
    requires |a| >= 512 && part <= total < 0x1_0000_0000 && Has(a, at, e)
    requires at + |e| <= PARTITION || PARTITION + 16 <= at
    ensures var b := Store(a, PARTITION, ENTRY_HEAD);
            var c := Store(b, PARTITION + 8, Le32(part));
            var d := Store(c, PARTITION + 12, Le32(total - part));
      && |d| == |a| && Has(d, at, e) && Has(d, PARTITION, ENTRY_HEAD)
      && Has(d, PARTITION + 8, Le32(part)) && Has(d, PARTITION + 12, Le32(total - part))
  {
    var head := ENTRY_HEAD;
    var b := Store(a, PARTITION, head);
    StoreInside(a, PARTITION, head);
    StoreApart(a, PARTITION, head, at, e);
    var c := Store(b, PARTITION + 8, Le32(part));
    StoreInside(b, PARTITION + 8, Le32(part));
    StoreApart(b, PARTITION + 8, Le32(part), at, e);
    StoreApart(b, PARTITION + 8, Le32(part), PARTITION, head);
    StoreInside(c, PARTITION + 12, Le32(total - part));
    StoreApart(c, PARTITION + 12, Le32(total - part), at, e);
    StoreApart(c, PARTITION + 12, Le32(total - part), PARTITION, head);
    StoreApart(c, PARTITION + 12, Le32(total - part), PARTITION + 8, Le32(part));
  }

  lemma {:induction false} MbrKeepsStage1(disk: bytes, stage1: bytes, part: nat, total: nat, at: nat, e: bytes)
    requires |stage1| >= 512 && part <= total < 0x1_0000_0000 && Has(stage1, at, e)
    requires at + |e| <= PARTITION || PARTITION + 16 <= at
    ensures var img := WithMbr(disk, stage1, part, total);
      && Has(img, at, e) && Has(img, PARTITION, ENTRY_HEAD)
      && Has(img, PARTITION + 8, Le32(part)) && Has(img, PARTITION + 12, Le32(total - part))
  {
    var a := SetSlice(disk, 0, SECTOR, stage1);
    assert a[..|stage1|] == stage1;
    assert a[at..at + |e|] == stage1[at..at + |e|];
    EntryStores(a, part, total, at, e);
  }

  /** How far a boot sector of the given length pushes the rest of the disk. */
  function Excess(x: Input): nat { Max(0, |x.stage1| - 512) }

  lemma {:induction false} RawParts(x: Input, b: Built, disk: bytes)
    requires Usable(x) && Outcome(x, b)
    requires ImageTool.BuiltImage(b.total, b.layout, Files(x), x.title, Blob(x), BLOB_LBA * SECTOR, Stage2Image(x)) == Ok(disk)
    ensures |disk| == b.total * SECTOR && Has(disk, PART_LBA * SECTOR, Stage2Image(x)) && Has(disk, BLOB_LBA * SECTOR, Blob(x))
  {
    FilesFit(x, b.total, b.layout);
    ImageTool.ImageHolds(b.total, b.layout, Files(x), x.title, Blob(x), BLOB_LBA * SECTOR, Stage2Image(x));
  }

  lemma {:induction false} ShiftedParts(img: bytes, disk: bytes, s: bytes, part: nat, total: nat, n: nat,
                                        stage2: bytes, blob: bytes)
    requires |s| == 512 + n && part <= total < 0x1_0000_0000 && |disk| == total * SECTOR
    requires Has(disk, PART_LBA * SECTOR, stage2) && Has(disk, BLOB_LBA * SECTOR, blob)
    requires img == WithMbr(disk, s, part, total)
    ensures |img| == total * SECTOR + n && Has(img, PART_LBA * SECTOR + n, stage2) && Has(img, BLOB_LBA * SECTOR + n, blob)
  {
    MbrShift(disk, s, part, total, PART_LBA * SECTOR, stage2);
    MbrShift(disk, s, part, total, BLOB_LBA * SECTOR, blob);
  }

  /** The disk before the boot sector goes on, and what is on it. */
  lemma {:induction false} ArmedDisk(x: Input, b: Built) returns (disk: bytes)
    requires Usable(x) && Outcome(x, b)
    ensures |ArmedStage1(x)| == 512 + Excess(x) && PartLba(x) <= b.total < 0x1_0000_0000
    ensures |disk| == b.total * SECTOR && Has(disk, PART_LBA * SECTOR, Stage2Image(x)) && Has(disk, BLOB_LBA * SECTOR, Blob(x))
    ensures b.img == WithMbr(disk, ArmedStage1(x), PartLba(x), b.total)
  {
    disk := ImageTool.BuiltImage(b.total, b.layout, Files(x), x.title, Blob(x), BLOB_LBA * SECTOR, Stage2Image(x)).value;
    RawParts(x, b, disk);
    ArmedLength(x);
    PlanBounds(b.total, PartLba(x), b.layout);
  }

  /** Stage2 and the blob are on the disk, behind their sectors by as much as stage1 exceeds one sector. */
  lemma {:induction false} LoadedParts(x: Input, b: Built)
    requires Usable(x) && Outcome(x, b)
    ensures |b.img| == b.total * SECTOR + Excess(x)
    ensures Has(b.img, PART_LBA * SECTOR + Excess(x), Stage2Image(x))
    ensures Has(b.img, BLOB_LBA * SECTOR + Excess(x), Blob(x))
  {
    var disk := ArmedDisk(x, b);
    ShiftedParts(b.img, disk, ArmedStage1(x), PartLba(x), b.total, Excess(x), Stage2Image(x), Blob(x));
  }

  /** The disk is long enough for every sector the boot arguments name. */
  lemma {:induction false} RoomForBlob(x: Input, b: Built)
    requires Usable(x) && Outcome(x, b)
    ensures 1 <= BlobSectors(x) <= 248 && PartLba(x) * SECTOR <= |b.img|
  {
    LoadedParts(x, b);
    PlanBounds(b.total, PartLba(x), b.layout);
  }

  lemma {:induction false} ArgumentsFrom(x: Input, img: bytes, disk: bytes, total: nat)
    requires GoodStage1(x) && GoodKernel(x) && BlobSectors(x) <= 248 && PartLba(x) <= total < 0x1_0000_0000
    requires img == WithMbr(disk, ArmedStage1(x), PartLba(x), total)
    ensures |img| >= 512 && U32(img, ARGS + 4) == PART_LBA
    ensures U16(img, ARGS + 8) == STAGE2_SECTORS + BlobSectors(x)
    ensures U32(img, ARGS + 12) == Adler.Adler32(Blob(x)) && U32(img, PARTITION + 8) == PartLba(x)
    ensures img[PARTITION] == 0x80 && img[PARTITION + 4] == 0x06 && U32(img, PARTITION + 12) == total - PartLba(x)
  {
    ArmedFields(x);
    var s := ArmedStage1(x);
    MbrKeepsStage1(disk, s, PartLba(x), total, ARGS + 4, Le32(PART_LBA));
    MbrKeepsStage1(disk, s, PartLba(x), total, ARGS + 8, Le16(STAGE2_SECTORS + BlobSectors(x)));
    MbrKeepsStage1(disk, s, PartLba(x), total, ARGS + 12, Le32(Adler.Adler32(Blob(x))));
    ReadLe32(img, ARGS + 4, PART_LBA);
    ReadLe16(img, ARGS + 8, STAGE2_SECTORS + BlobSectors(x));
    ReadLe32(img, ARGS + 12, Adler.Adler32(Blob(x)));
    PartitionFrom(disk, s, PartLba(x), total);
  }

  lemma {:induction false} PartitionFrom(disk: bytes, s: bytes, part: nat, total: nat)
    requires |s| >= 512 && part <= total < 0x1_0000_0000
    ensures var img := WithMbr(disk, s, part, total);
      && |img| >= 512 && img[PARTITION] == 0x80 && img[PARTITION + 4] == 0x06
      && U32(img, PARTITION + 8) == part && U32(img, PARTITION + 12) == total - part
  {
    var img := WithMbr(disk, s, part, total);
    MbrKeepsStage1(disk, s, part, total, 510, s[510..512]);
    ReadLe32(img, PARTITION + 8, part);
    ReadLe32(img, PARTITION + 12, total - part);
    HasAt(img, PARTITION, ENTRY_HEAD, 0);
    HasAt(img, PARTITION, ENTRY_HEAD, 4);
  }

  /** The argument block the boot sector will read, and the partition the file check will read. */
  lemma {:induction false} BootArguments(x: Input, b: Built)
    requires Usable(x) && Outcome(x, b)
    ensures |b.img| >= 512 && U32(b.img, ARGS + 4) == PART_LBA
    ensures U16(b.img, ARGS + 8) == STAGE2_SECTORS + BlobSectors(x)
    ensures U32(b.img, ARGS + 12) == Adler.Adler32(Blob(x)) && U32(b.img, PARTITION + 8) == PartLba(x)
    ensures b.img[PARTITION] == 0x80 && b.img[PARTITION + 4] == 0x06
    ensures U32(b.img, PARTITION + 12) == b.total - PartLba(x)
  {
    var disk := ArmedDisk(x, b);
    ArgumentsFrom(x, b.img, disk, b.total);
  }

  /** The boot code in front of the partition table and the signature are those of stage1. */
  lemma {:induction false} Stage1Kept(x: Input, b: Built)
    requires Usable(x) && Outcome(x, b)
    ensures Has(b.img, 0, x.stage1[..PARTITION]) && Has(b.img, 510, [0x55, 0xAA])
  {
    var disk := ArmedDisk(x, b);
    Stage1KeptFrom(x, b.img, disk, b.total);
  }

  lemma {:induction false} Stage1KeptFrom(x: Input, img: bytes, disk: bytes, total: nat)
    requires GoodStage1(x) && GoodKernel(x) && BlobSectors(x) <= 248 && PartLba(x) <= total < 0x1_0000_0000
    requires img == WithMbr(disk, ArmedStage1(x), PartLba(x), total)
    ensures Has(img, 0, x.stage1[..PARTITION]) && Has(img, 510, [0x55, 0xAA])
  {
    var s, code, sig := ArmedStage1(x), x.stage1[..PARTITION], [0x55, 0xAA];
    ArmedLength(x);
    ArmedKeeps(x, 0, code);
    assert Has(x.stage1, 510, sig);
    ArmedKeeps(x, 510, sig);
    MbrKeepsStage1(disk, s, PartLba(x), total, 0, code);
    MbrKeepsStage1(disk, s, PartLba(x), total, 510, sig);
  }

  lemma {:induction false} ArmedKeeps(x: Input, at: nat, e: bytes)
    requires GoodStage1(x) && GoodKernel(x) && BlobSectors(x) <= 248 && Has(x.stage1, at, e)
    requires at + |e| <= ARGS + 4 || ARGS + 16 <= at
    ensures Has(ArmedStage1(x), at, e)
  {
    var p, q, r := Le32(PART_LBA), Le16(STAGE2_SECTORS + BlobSectors(x)), Le32(Adler.Adler32(Blob(x)));
    var a := Store(x.stage1, ARGS + 4, p);
    var b := Store(a, ARGS + 8, q);
    StoreInside(x.stage1, ARGS + 4, p);
    StoreInside(a, ARGS + 8, q);
    StoreApart(x.stage1, ARGS + 4, p, at, e);
    StoreApart(a, ARGS + 8, q, at, e);
    StoreApart(b, ARGS + 12, r, at, e);
  }

  /** What the boot chain needs of the disk. */
  ghost predicate OnDisk(x: Input, img: bytes) {
    && GoodKernel(x) && BlobSectors(x) <= 248 && |img| >= 512
    && U32(img, ARGS + 4) == PART_LBA && U16(img, ARGS + 8) == STAGE2_SECTORS + BlobSectors(x)
    && U32(img, ARGS + 12) == Adler.Adler32(Blob(x)) && Has(img, BLOB_LBA * SECTOR, Blob(x))
  }

  lemma {:induction false} ReadyDisk(x: Input, img: bytes, disk: bytes, total: nat)
    requires GoodStage1(x) && |x.stage1| == 512 && GoodKernel(x) && BlobSectors(x) <= 248
    requires PartLba(x) <= total < 0x1_0000_0000 && |disk| == total * SECTOR && Has(disk, BLOB_LBA * SECTOR, Blob(x))
    requires img == WithMbr(disk, ArmedStage1(x), PartLba(x), total)
    ensures OnDisk(x, img)
  {
    ArgumentsFrom(x, img, disk, total);
    ArmedLength(x);
    MbrShift(disk, ArmedStage1(x), PartLba(x), total, BLOB_LBA * SECTOR, Blob(x));
  }

  lemma {:induction false} OutcomeOnDisk(x: Input, b: Built)
    requires Usable(x) && Outcome(x, b) && |x.stage1| == 512
    ensures OnDisk(x, b.img)
  {
    var disk := ImageTool.BuiltImage(b.total, b.layout, Files(x), x.title, Blob(x), BLOB_LBA * SECTOR, Stage2Image(x)).value;
    RawParts(x, b, disk);
    PlanBounds(b.total, PartLba(x), b.layout);
    ReadyDisk(x, b.img, disk, b.total);
  }

  /** On a disk made with a one-sector stage1 the file system check finds both files intact. */
  lemma {:induction false} FilesOnDisk(x: Input, b: Built)
    requires Usable(x) && Outcome(x, b) && |x.stage1| == 512
    ensures FatReader.Contents(b.img) == Ok(map["README.TXT" := x.readme, "KERNEL.BIN" := x.kernel])
  {
    FilesFit(x, b.total, b.layout);
    ArmedLength(x);
    EveryVolumeReads(b.total, b.layout, Files(x), x.title, Blob(x), Stage2Image(x), ArmedStage1(x));
    BothFiles(x);
  }

  lemma {:induction false} BothFiles(x: Input)
    ensures FatReader.FileMap(Files(x), 2) == map["README.TXT" := x.readme, "KERNEL.BIN" := x.kernel]
  {
    var f := Files(x);
    assert FatReader.FileMap(f, 1) == map["README.TXT" := x.readme];
  }

  /** Whatever list of files fits: on the disk `build_image` returns, with a boot sector and a partition
      entry put over its first sector, the file system check finds each file under its name, intact. */
  lemma {:induction false} EveryVolumeReads(total: nat, l: Layout, files: seq<FatTable.File>, title: string,
                                            blob: bytes, stage2: bytes, s: bytes)
    requires ImageTool.Fits(total, l, files, title, blob, BLOB_LBA * SECTOR, stage2) && |s| == 512
    ensures ImageTool.Storable(files) && total < 0x1_0000_0000 && l.partLba <= total
    ensures var built := ImageTool.BuiltImage(total, l, files, title, blob, BLOB_LBA * SECTOR, stage2);
      && built.Ok?
      && var img := WithMbr(built.value, s, l.partLba, total);
      && FatReader.Contents(img) == Ok(FatReader.FileMap(files, |files|))
      && FatReader.AllThere(files) && FatReader.SameCopies(img, l)
  {
    ImageTool.ImageHolds(total, l, files, title, blob, BLOB_LBA * SECTOR, stage2);
    var disk := ImageTool.BuiltImage(total, l, files, title, blob, BLOB_LBA * SECTOR, stage2).value;
    ShiftVolume(disk, s, l, total, files, title, FatTable.Table(l.fatSize * SECTOR, files).value);
    assert Has(s, 512, []);
    MbrKeepsStage1(disk, s, l.partLba, total, 512, []);
    ReadLe32(WithMbr(disk, s, l.partLba, total), PARTITION + 8, l.partLba);
    FatReader.VolumeRoundTrip(WithMbr(disk, s, l.partLba, total), total, l, files, title, blob, stage2);
  }

  lemma {:induction false} ShiftVolume(disk: bytes, s: bytes, l: Layout, total: nat, f: seq<FatTable.File>,
                                       title: string, fat: bytes)
    requires Directory.Ascii(title) && ImageTool.Storable(f) && ImageTool.Packable(total, l)
    requires |s| == 512 && l.partLba >= BLOB_LBA && total < 0x1_0000_0000
    requires ImageTool.HasVolume(disk, total, l, f, title, fat)
    ensures ImageTool.HasVolume(WithMbr(disk, s, l.partLba, total), total, l, f, title, fat)
  {
    MbrShift(disk, s, l.partLba, total, l.partLba * SECTOR, ImageTool.BootSector(total, l, title));
    MbrShift(disk, s, l.partLba, total, ImageTool.FatLba(l) * SECTOR, fat);
    MbrShift(disk, s, l.partLba, total, (ImageTool.FatLba(l) + l.fatSize) * SECTOR, fat);
    MbrShift(disk, s, l.partLba, total, ImageTool.RootLba(l) * SECTOR, ImageTool.Root(title, f, |f|));
    var img := WithMbr(disk, s, l.partLba, total);
    forall k | 0 <= k < |f|
      ensures ImageTool.Stored(img, l, f, k)
    {
      assert ImageTool.Stored(disk, l, f, k);
      MbrShift(disk, s, l.partLba, total, ImageTool.ClusterAt(l, FatTable.First(f, k)), f[k].payload);
    }
  }
}

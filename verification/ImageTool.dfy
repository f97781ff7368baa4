/** `build_image` of tools/mkqizoimg/mkqizoimg.py: boot sector, two FAT copies, root directory,
    file data, stage2 and blob, stored one after the other into a zeroed disk. */
module ImageTool {
  import opened Bits
  import opened Bytes
  import opened BootLayout
  import opened FatTable
  import opened Directory
  import opened ImagePlan

  const ROOT_BYTES: nat := 7168

  // ---------------------------------------------------------------- boot sector

  function LabelField(title: string): (r: bytes)
    requires Ascii(title)
    ensures |r| == 11
  {
    seq(11, i requires 0 <= i < 11 => if i < |title| then title[i] as int else 32)
  }

  /** The values `struct.pack_into` accepts for the boot sector. */
  predicate Packable(total: nat, l: Layout) {
    && l.fatSize < 0x1_0000 && l.reserved < 0x1_0000 && l.partLba < 0x1_0000_0000
    && l.partLba <= total && total - l.partLba < 0x1_0000_0000
    && PART_LBA <= total && total - PART_LBA < 0x1_0000
  }

  /** The first 24 bytes, which the readers use. */
  function Geometry(l: Layout): (r: bytes)
    requires l.fatSize < 0x1_0000 && l.reserved < 0x1_0000
    ensures |r| == 24
  {
    [0xEB, 0x3E, 0x90, 0x51, 0x49, 0x5A, 0x4F, 0x49, 0x4D, 0x47, 0]
    + Le16(SECTOR) + [1] + Le16(l.reserved) + [2] + Le16(224) + Le16(0) + [0xF8] + Le16(l.fatSize)
  }

  /** Bytes 24 to 46: fixed geometry, partition start, sizes, drive and serial number. Two bytes of the
      32-bit size at 32 are overwritten. */
  function Extended(total: nat, l: Layout): (r: bytes)
    requires Packable(total, l)
    ensures |r| == 23
  {
    Le16(63) + Le16(255) + Le32(l.partLba) + Le32(total - l.partLba)[..2] + [0x80, 0x01]
    + Le16(0) + Le16(total - PART_LBA) + [0, 0, 0x29] + Le32(0x51495A4F)
  }

  function BootSector(total: nat, l: Layout, title: string): (r: bytes)
    requires Packable(total, l) && Ascii(title)
    ensures |r| == 512
  {
    Geometry(l) + Extended(total, l) + LabelField(title)
    + [0x46, 0x41, 0x54, 0x31, 0x36, 0x20, 0x20, 0x20] + [0x29, 0] + Zeros(442) + [0x55, 0xAA]
  }

  /** The fields that come back from the boot sector, for the file check and for the kernel; the 32-bit
      size at 32 comes back damaged. */
  lemma {:induction false} BootSectorReads(total: nat, l: Layout, title: string)
    requires Packable(total, l) && Ascii(title)
    ensures var bs := BootSector(total, l, title);
      && U16(bs, 11) == 512 && bs[13] == 1 && U16(bs, 14) == l.reserved && bs[16] == 2
      && U16(bs, 17) == 224 && U16(bs, 19) == 0 && bs[21] == 0xF8 && U16(bs, 22) == l.fatSize
      && bs[510] == 0x55 && bs[511] == 0xAA
  {
    var bs, g := BootSector(total, l, title), Geometry(l);
    assert Has(bs, 0, g);
    GeometryReads(l);
    HasU16(bs, 0, g, 11);
    HasAt(bs, 0, g, 13);
    HasU16(bs, 0, g, 14);
    HasAt(bs, 0, g, 16);
    HasU16(bs, 0, g, 17);
    HasU16(bs, 0, g, 19);
    HasAt(bs, 0, g, 21);
    HasU16(bs, 0, g, 22);
  }

  lemma {:induction false} BootSectorExtended(total: nat, l: Layout, title: string)
    requires Packable(total, l) && Ascii(title)
    ensures var bs := BootSector(total, l, title);
      && U16(bs, 24) == 63 && U16(bs, 26) == 255 && U32(bs, 28) == l.partLba
      && U32(bs, 32) == (total - l.partLba) % 0x1_0000 + 0x180_0000 && U16(bs, 38) == total - PART_LBA
      && bs[42] == 0x29 && U32(bs, 43) == 0x51495A4F
      && (forall i :: 0 <= i < 11 ==> bs[47 + i] == if i < |title| then title[i] as int else 32)
      && Has(bs, 58, [0x46, 0x41, 0x54, 0x31, 0x36, 0x20, 0x20, 0x20])
  {
    var bs, x := BootSector(total, l, title), Extended(total, l);
    assert Has(bs, 24, x);
    ExtendedReads(total, l);
    HasU16(bs, 24, x, 0);
    HasU16(bs, 24, x, 2);
    HasU32(bs, 24, x, 4);
    HasU32(bs, 24, x, 8);
    HasU16(bs, 24, x, 14);
    HasAt(bs, 24, x, 18);
    HasU32(bs, 24, x, 19);
    assert Has(bs, 47, LabelField(title));
    forall i | 0 <= i < 11
      ensures bs[47 + i] == if i < |title| then title[i] as int else 32
    {
      HasAt(bs, 47, LabelField(title), i);
    }
  }

  lemma {:induction false} ExtendedReads(total: nat, l: Layout)
    requires Packable(total, l)
    ensures var x := Extended(total, l);
      && U16(x, 0) == 63 && U16(x, 2) == 255 && U32(x, 4) == l.partLba
      && U32(x, 8) == (total - l.partLba) % 0x1_0000 + 0x180_0000 && U16(x, 14) == total - PART_LBA
      && x[18] == 0x29 && U32(x, 19) == 0x51495A4F
  {
    var x, size := Extended(total, l), total - l.partLba;
    assert x[4..8] == Le32(l.partLba) && x[8..10] == Le16(size % 0x1_0000) && x[10] == 0x80 && x[11] == 1;
    assert x[14..16] == Le16(total - PART_LBA) && x[19..23] == Le32(0x51495A4F);
    ReadLe32(x, 4, l.partLba);
    ReadLe16(x, 8, size % 0x1_0000);
    ReadLe16(x, 14, total - PART_LBA);
    ReadLe32(x, 19, 0x51495A4F);
  }

  lemma {:induction false} GeometryReads(l: Layout)
    requires l.fatSize < 0x1_0000 && l.reserved < 0x1_0000
    ensures var g := Geometry(l);
      && U16(g, 11) == 512 && g[13] == 1 && U16(g, 14) == l.reserved && g[16] == 2
      && U16(g, 17) == 224 && U16(g, 19) == 0 && g[21] == 0xF8 && U16(g, 22) == l.fatSize
  {
  }

  // ---------------------------------------------------------------- root directory

  /** `cluster_of` after the first k files; empty files own no cluster. */
  function ClusterOf(files: seq<File>, k: nat): map<string, nat>
    requires k <= |files|
  {
    if k == 0 then map[]
    else
      var m, f := ClusterOf(files, k - 1), files[k - 1];
      if Clusters(f.payload) > 0 then m[f.name := First(files, k - 1)] else m
  }

  function StartOf(files: seq<File>, name: string): nat {
    var m := ClusterOf(files, |files|);
    if name in m then m[name] else 0
  }

  ghost predicate Distinct(files: seq<File>) {
    forall i, j :: 0 <= i < j < |files| ==> files[i].name != files[j].name
  }

  lemma {:induction false} ClusterOfFile(files: seq<File>, k: nat, j: nat)
    requires Distinct(files) && j < |files| && k <= |files|
    ensures files[j].name in ClusterOf(files, k) <==> j < k && Clusters(files[j].payload) > 0
    ensures files[j].name in ClusterOf(files, k) ==> ClusterOf(files, k)[files[j].name] == First(files, j)
  {
    if k > 0 { ClusterOfFile(files, k - 1, j); }
  }

  ghost predicate GoodLabel(title: string) {
    Ascii(title) && forall i :: 0 <= i < |title| ==> title[i] as int != 0
  }

  predicate Storable(files: seq<File>) {
    forall k :: 0 <= k < |files| ==> Ascii(files[k].name) && |files[k].payload| < 0x1_0000_0000
  }

  function EntryFor(files: seq<File>, k: nat): (r: bytes)
    requires k < |files| && Storable(files)
    ensures |r| == 32
  {
    DirEntry(files[k].name, |files[k].payload|, StartOf(files, files[k].name), 0x20)
  }

  /** The root directory after the volume label and the first k files. */
  function Root(title: string, files: seq<File>, k: nat): bytes
    requires Ascii(title) && Storable(files) && k <= |files|
  {
    if k == 0 then Store(Zeros(ROOT_BYTES), 0, DirEntry(title, 0, 0, 0x08))
    else Store(Root(title, files, k - 1), 32 * k, EntryFor(files, k - 1))
  }

  /** Directory slot j + 1 holds file j. */
  ghost predicate Listed(root: bytes, files: seq<File>, j: int)
    requires 0 <= j < |files| && Storable(files)
  {
    Has(root, 32 * (j + 1), EntryFor(files, j))
  }

  /** A directory of the label and k files: full up to there and zero after. */
  ghost predicate GoodRoot(root: bytes, title: string, files: seq<File>, k: nat)
    requires Ascii(title) && Storable(files) && k <= |files|
  {
    && |root| == ROOT_BYTES && Has(root, 0, DirEntry(title, 0, 0, 0x08))
    && (forall j :: 0 <= j < k ==> Listed(root, files, j))
    && (forall i :: 32 * (k + 1) <= i < ROOT_BYTES ==> root[i] == 0)
  }

  lemma {:induction false} ListedStep(root: bytes, files: seq<File>, k: nat, j: nat)
    requires Storable(files) && j <= k < |files| <= 223 && |root| == ROOT_BYTES && (j < k ==> Listed(root, files, j))
    ensures Listed(Store(root, 32 * (k + 1), EntryFor(files, k)), files, j)
  {
    var e, at := EntryFor(files, k), 32 * (k + 1);
    StoreInside(root, at, e);
    if j < k { StoreApart(root, at, e, 32 * (j + 1), EntryFor(files, j)); }
  }

  lemma {:induction false} ZeroTail(root: bytes, at: nat, e: bytes)
    requires |root| == ROOT_BYTES && |e| == 32 && at + 32 <= ROOT_BYTES
    requires forall i :: at <= i < ROOT_BYTES ==> root[i] == 0
    ensures |Store(root, at, e)| == ROOT_BYTES
    ensures forall i :: at + 32 <= i < ROOT_BYTES ==> Store(root, at, e)[i] == 0
  {
    StoreInside(root, at, e);
  }

  lemma {:induction false} RootStep(root: bytes, title: string, files: seq<File>, k: nat)
    requires Ascii(title) && Storable(files) && k < |files| <= 223 && GoodRoot(root, title, files, k)
    ensures GoodRoot(Store(root, 32 * (k + 1), EntryFor(files, k)), title, files, k + 1)
  {
    var e, at := EntryFor(files, k), 32 * (k + 1);
    ZeroTail(root, at, e);
    StoreApart(root, at, e, 0, DirEntry(title, 0, 0, 0x08));
    forall j | 0 <= j < k + 1
      ensures Listed(Store(root, at, e), files, j)
    {
      ListedStep(root, files, k, j);
    }
  }

  lemma {:induction false} LabelOnly(e: bytes)
    requires |e| == 32
    ensures var root := Store(Zeros(ROOT_BYTES), 0, e);
      && |root| == ROOT_BYTES && Has(root, 0, e) && forall i :: 32 <= i < ROOT_BYTES ==> root[i] == 0
  {
    StoreInside(Zeros(ROOT_BYTES), 0, e);
  }

  lemma {:induction false} RootEntries(title: string, files: seq<File>, k: nat)
    requires Ascii(title) && Storable(files) && k <= |files| <= 223
    ensures GoodRoot(Root(title, files, k), title, files, k)
  {
    if k == 0 {
      LabelOnly(DirEntry(title, 0, 0, 0x08));
    } else {
      RootEntries(title, files, k - 1);
      RootStep(Root(title, files, k - 1), title, files, k - 1);
    }
  }

  // ---------------------------------------------------------------- the disk

  function FatLba(l: Layout): nat { l.partLba + l.reserved }
  function RootLba(l: Layout): nat { FatLba(l) + 2 * l.fatSize }
  function DataLba(l: Layout): nat { RootLba(l) + ROOT_SECTORS }

  /** Byte offset of a data cluster. */
  function ClusterAt(l: Layout, c: nat): nat
    requires c >= 2
  {
    (DataLba(l) + (c - 2)) * SECTOR
  }

  function Payloads(img: bytes, l: Layout, files: seq<File>, k: nat): bytes
    requires k <= |files|
  {
    if k == 0 then img
    else
      var f, before := files[k - 1], Payloads(img, l, files, k - 1);
      var c := StartOf(files, f.name);
      if c < 2 then before else Store(before, ClusterAt(l, c), f.payload)
  }

  function BuiltImage(total: nat, l: Layout, files: seq<File>, title: string,
                      blob: bytes, blobOffset: nat, stage2: bytes): Result<bytes, FatError>
    requires Ascii(title) && Storable(files)
  {
    if !Packable(total, l) then Err(StructError)
    else
      match Table(l.fatSize * SECTOR, files)
      case Err(e) => Err(e)
      case Ok(fat) => Ok(Disk(total, l, files, title, blob, blobOffset, stage2, fat))
  }

  function System(total: nat, l: Layout, files: seq<File>, title: string, stage2: bytes, fat: bytes): bytes
    requires Ascii(title) && Storable(files) && Packable(total, l)
  {
    var a := Store(Zeros(total * SECTOR), l.partLba * SECTOR, BootSector(total, l, title));
    var b := Store(a, PART_LBA * SECTOR, stage2);
    var c := Store(b, FatLba(l) * SECTOR, fat);
    var d := Store(c, (FatLba(l) + l.fatSize) * SECTOR, fat);
    Store(d, RootLba(l) * SECTOR, Root(title, files, |files|))
  }

  function Disk(total: nat, l: Layout, files: seq<File>, title: string,
                blob: bytes, blobOffset: nat, stage2: bytes, fat: bytes): bytes
    requires Ascii(title) && Storable(files) && Packable(total, l)
  {
    Store(Payloads(System(total, l, files, title, stage2, fat), l, files, |files|), blobOffset, blob)
  }

  /** `build_image`, with its loops over the files. */
  method BuildImage(total: nat, l: Layout, files: seq<File>, title: string,
                    blob: bytes, blobOffset: nat, stage2: bytes)
    returns (r: Result<bytes, FatError>, used: nat)
    requires Ascii(title) && Storable(files)
    ensures r == BuiltImage(total, l, files, title, blob, blobOffset, stage2)
    ensures r.Ok? ==> used == First(files, |files|) - 2
  {
    used := 0;
    if !Packable(total, l) {
      return Err(StructError), 0;
    }
    var img := Store(Zeros(total * SECTOR), l.partLba * SECTOR, BootSector(total, l, title));
    img := Store(img, PART_LBA * SECTOR, stage2);
    var table, nxt := FillTable(l.fatSize * SECTOR, files);
    if table.Err? {
      return Err(table.error), 0;
    }
    var clusterOf := NumberFiles(files);
    var root := FillRoot(title, files, clusterOf);
    img := Store(img, FatLba(l) * SECTOR, table.value);
    img := Store(img, (FatLba(l) + l.fatSize) * SECTOR, table.value);
    img := Store(img, RootLba(l) * SECTOR, root);
    img := StorePayloads(img, l, files, clusterOf);
    return Ok(Store(img, blobOffset, blob)), nxt - 2;
  }

  /** The root directory: the label, then one entry per file. */
  method FillRoot(title: string, files: seq<File>, clusterOf: map<string, nat>) returns (root: bytes)
    requires Ascii(title) && Storable(files) && clusterOf == ClusterOf(files, |files|)
    ensures root == Root(title, files, |files|)
  {
    root := Store(Zeros(ROOT_BYTES), 0, DirEntry(title, 0, 0, 0x08));
    var k: nat := 0;
    while k < |files|
      invariant k <= |files| && root == Root(title, files, k)
    {
      var first := if files[k].name in clusterOf then clusterOf[files[k].name] else 0;
      k := k + 1;
      root := Store(root, 32 * k, DirEntry(files[k - 1].name, |files[k - 1].payload|, first, 0x20));
    }
  }

  /** The dictionary `cluster_of`. */
  method NumberFiles(files: seq<File>) returns (m: map<string, nat>)
    ensures m == ClusterOf(files, |files|)
  {
    m := map[];
    var nxt: nat, k: nat := 2, 0;
    while k < |files|
      invariant k <= |files| && nxt == First(files, k) && m == ClusterOf(files, k)
    {
      var count := Clusters(files[k].payload);
      if count > 0 {
        m := m[files[k].name := nxt];
      }
      nxt, k := nxt + count, k + 1;
    }
  }

  lemma {:induction false} ClusterOfAtLeast2(files: seq<File>, k: nat, name: string)
    requires k <= |files| && name in ClusterOf(files, k)
    ensures ClusterOf(files, k)[name] >= 2
  {
    if name in ClusterOf(files, k - 1) { ClusterOfAtLeast2(files, k - 1, name); }
  }

  /** The loop of `build_image` that writes file contents. */
  method StorePayloads(img0: bytes, l: Layout, files: seq<File>, clusterOf: map<string, nat>) returns (img: bytes)
    requires clusterOf == ClusterOf(files, |files|)
    ensures img == Payloads(img0, l, files, |files|)
  {
    img := img0;
    var k: nat := 0;
    while k < |files|
      invariant k <= |files| && img == Payloads(img0, l, files, k)
    {
      if files[k].name in clusterOf {
        ClusterOfAtLeast2(files, |files|, files[k].name);
        var first := clusterOf[files[k].name];
        img := Store(img, (DataLba(l) + (first - 2)) * SECTOR, files[k].payload);
      }
      k := k + 1;
    }
  }

  // ---------------------------------------------------------------- what the disk then holds

  /** The list fits the root directory and the planned clusters, and the blob lies between
      stage2 and the partition. */
  ghost predicate Fits(total: nat, l: Layout, files: seq<File>, title: string,
                       blob: bytes, blobOffset: nat, stage2: bytes)
  {
    && GoodPlan(total, l.partLba, l.reserved, l) && Packable(total, l) && GoodLabel(title)
    && |files| <= 223 && Distinct(files) && l.reserved >= 1
    && (forall k :: 0 <= k < |files| ==> Name83(files[k].name))
    && First(files, |files|) <= l.clusters + 2
    && |stage2| == STAGE2_SECTORS * SECTOR && blobOffset == BLOB_LBA * SECTOR
    && blobOffset + |blob| <= l.partLba * SECTOR
  }

  /** File k's bytes lie in its clusters. */
  ghost predicate Stored(img: bytes, l: Layout, files: seq<File>, k: int)
    requires 0 <= k < |files|
  {
    Has(img, ClusterAt(l, First(files, k)), files[k].payload)
  }

  /** The volume is on the disk: boot sector, both FAT copies, directory and file data. */
  ghost predicate HasVolume(img: bytes, total: nat, l: Layout, files: seq<File>, title: string, fat: bytes)
    requires Ascii(title) && Storable(files) && Packable(total, l)
  {
    && |img| == total * SECTOR
    && Has(img, l.partLba * SECTOR, BootSector(total, l, title))
    && Has(img, FatLba(l) * SECTOR, fat)
    && Has(img, (FatLba(l) + l.fatSize) * SECTOR, fat)
    && Has(img, RootLba(l) * SECTOR, Root(title, files, |files|))
    && forall k :: 0 <= k < |files| ==> Stored(img, l, files, k)
  }

  lemma {:induction false} PayloadsFitBelow(files: seq<File>, k: nat, j: nat)
    requires j < k <= |files|
    ensures First(files, j) * SECTOR + |files[j].payload| <= First(files, k) * SECTOR
  {
    FirstMonotone(files, j + 1, k);
  }

  lemma {:induction false} FitsStorable(total: nat, l: Layout, files: seq<File>, title: string,
                                        blob: bytes, blobOffset: nat, stage2: bytes)
    requires Fits(total, l, files, title, blob, blobOffset, stage2)
    ensures Storable(files) && First(files, |files|) < 0x1_0000
  {
    forall k | 0 <= k < |files|
      ensures Ascii(files[k].name) && |files[k].payload| < 0x1_0000_0000
    {
      NameAscii(files[k].name);
      PayloadsFitBelow(files, |files|, k);
    }
  }

  /** Writing file k - 1 at its clusters puts it there and leaves the earlier files as they are. */
  lemma {:induction false} OneMoreStored(img: bytes, l: Layout, files: seq<File>, k: nat)
    requires 1 <= k <= |files| && ClusterAt(l, First(files, k)) <= |img|
    requires forall j :: 0 <= j < k - 1 ==> Stored(img, l, files, j)
    ensures var img' := Store(img, ClusterAt(l, First(files, k - 1)), files[k - 1].payload);
      |img'| == |img| && forall j :: 0 <= j < k ==> Stored(img', l, files, j)
  {
    var at, p := ClusterAt(l, First(files, k - 1)), files[k - 1].payload;
    PayloadsFitBelow(files, k, k - 1);
    StoreInside(img, at, p);
    forall j | 0 <= j < k - 1
      ensures Stored(Store(img, at, p), l, files, j)
    {
      PayloadsFitBelow(files, k - 1, j);
      assert Stored(img, l, files, j);
      StoreApart(img, at, p, ClusterAt(l, First(files, j)), files[j].payload);
    }
  }

  /** What writing file k - 1 does: an empty file writes nothing. */
  lemma {:induction false} PayloadStep(img: bytes, l: Layout, files: seq<File>, k: nat)
    requires 1 <= k <= |files| && Distinct(files)
    ensures Payloads(img, l, files, k) ==
            if files[k - 1].payload == [] then Payloads(img, l, files, k - 1)
            else Store(Payloads(img, l, files, k - 1), ClusterAt(l, First(files, k - 1)), files[k - 1].payload)
  {
    ClusterOfFile(files, |files|, k - 1);
  }

  /** Writing the files keeps what lies before the data area and puts every payload in its clusters. */
  lemma {:induction false} PayloadsStored(img: bytes, l: Layout, files: seq<File>, k: nat)
    requires k <= |files| && Distinct(files)
    requires ClusterAt(l, First(files, |files|)) <= |img|
    ensures |Payloads(img, l, files, k)| == |img|
    ensures forall j :: 0 <= j < k ==> Stored(Payloads(img, l, files, k), l, files, j)
  {
    if k > 0 {
      FirstMonotone(files, k, |files|);
      PayloadsStored(img, l, files, k - 1);
      PayloadStep(img, l, files, k);
      if files[k - 1].payload != [] { OneMoreStored(Payloads(img, l, files, k - 1), l, files, k); }
    }
  }

  lemma {:induction false} PayloadsKeep(img: bytes, l: Layout, files: seq<File>, k: nat, at: nat, e: bytes)
    requires k <= |files| && Distinct(files) && Has(img, at, e) && at + |e| <= DataLba(l) * SECTOR
    requires ClusterAt(l, First(files, |files|)) <= |img|
    ensures Has(Payloads(img, l, files, k), at, e)
  {
    if k > 0 {
      PayloadsKeep(img, l, files, k - 1, at, e);
      PayloadsStored(img, l, files, k - 1);
      PayloadStep(img, l, files, k);
      FirstMonotone(files, k, |files|);
      PayloadsFitBelow(files, k, k - 1);
      if files[k - 1].payload != [] {
        StoreApart(Payloads(img, l, files, k - 1), ClusterAt(l, First(files, k - 1)), files[k - 1].payload, at, e);
      }
    }
  }

  lemma {:induction false} SystemStored(total: nat, l: Layout, files: seq<File>, title: string, stage2: bytes, fat: bytes)
    requires GoodPlan(total, l.partLba, l.reserved, l) && Packable(total, l) && Ascii(title) && Storable(files)
    requires l.reserved >= 1 && l.partLba >= BLOB_LBA && |files| <= 223
    requires |stage2| == STAGE2_SECTORS * SECTOR && |fat| == l.fatSize * SECTOR
    ensures var img := System(total, l, files, title, stage2, fat);
      && |img| == total * SECTOR
      && Has(img, l.partLba * SECTOR, BootSector(total, l, title))
      && Has(img, PART_LBA * SECTOR, stage2)
      && Has(img, FatLba(l) * SECTOR, fat)
      && Has(img, (FatLba(l) + l.fatSize) * SECTOR, fat)
      && Has(img, RootLba(l) * SECTOR, Root(title, files, |files|))
  {
    RootEntries(title, files, |files|);
    var bs, root, z := BootSector(total, l, title), Root(title, files, |files|), Zeros(total * SECTOR);
    var pb, ps, pf, pg, pr := l.partLba * SECTOR, PART_LBA * SECTOR, FatLba(l) * SECTOR,
                              (FatLba(l) + l.fatSize) * SECTOR, RootLba(l) * SECTOR;
    FiveStores(z, pb, bs, ps, stage2, pf, fat, pg, fat, pr, root);
  }

  /** Five stores into pairwise apart ranges: each is there at the end. */
  lemma {:induction false} FiveStores(z: bytes, p1: nat, d1: bytes, p2: nat, d2: bytes, p3: nat, d3: bytes,
                                      p4: nat, d4: bytes, p5: nat, d5: bytes)
    requires p2 + |d2| <= p1 && p1 + |d1| <= p3 && p3 + |d3| <= p4 && p4 + |d4| <= p5 && p5 + |d5| <= |z|
    ensures var img := Store(Store(Store(Store(Store(z, p1, d1), p2, d2), p3, d3), p4, d4), p5, d5);
      |img| == |z| && Has(img, p1, d1) && Has(img, p2, d2) && Has(img, p3, d3) && Has(img, p4, d4) && Has(img, p5, d5)
  {
    var a := Store(z, p1, d1);
    StoreInside(z, p1, d1);
    var b := Store(a, p2, d2);
    StoreInside(a, p2, d2);
    StoreApart(a, p2, d2, p1, d1);
    TwoMore(b, p1, d1, p2, d2, p3, d3, p4, d4);
    var d := Store(Store(b, p3, d3), p4, d4);
    StoreInside(d, p5, d5);
    StoreApart(d, p5, d5, p1, d1);
    StoreApart(d, p5, d5, p2, d2);
    StoreApart(d, p5, d5, p3, d3);
    StoreApart(d, p5, d5, p4, d4);
  }

  lemma {:induction false} TwoMore(b: bytes, p1: nat, d1: bytes, p2: nat, d2: bytes, p3: nat, d3: bytes, p4: nat, d4: bytes)
    requires Has(b, p1, d1) && Has(b, p2, d2) && p3 + |d3| <= p4 && p4 + |d4| <= |b|
    requires p1 + |d1| <= p3 && p2 + |d2| <= p3
    ensures var d := Store(Store(b, p3, d3), p4, d4);
      |d| == |b| && Has(d, p1, d1) && Has(d, p2, d2) && Has(d, p3, d3) && Has(d, p4, d4)
  {
    var c := Store(b, p3, d3);
    StoreInside(b, p3, d3);
    StoreApart(b, p3, d3, p1, d1);
    StoreApart(b, p3, d3, p2, d2);
    StoreInside(c, p4, d4);
    StoreApart(c, p4, d4, p1, d1);
    StoreApart(c, p4, d4, p2, d2);
    StoreApart(c, p4, d4, p3, d3);
  }

  /** Everything `build_image` was given is on the disk it returns, and nothing overwrites anything. */
  lemma {:induction false} ImageHolds(total: nat, l: Layout, files: seq<File>, title: string,
                                      blob: bytes, blobOffset: nat, stage2: bytes)
    requires Fits(total, l, files, title, blob, blobOffset, stage2)
    ensures Storable(files) && Table(l.fatSize * SECTOR, files).Ok?
    ensures var fat := Table(l.fatSize * SECTOR, files).value;
            var r := BuiltImage(total, l, files, title, blob, blobOffset, stage2);
      && r.Ok? && |fat| == l.fatSize * SECTOR
      && HasVolume(r.value, total, l, files, title, fat)
      && Has(r.value, PART_LBA * SECTOR, stage2) && Has(r.value, blobOffset, blob)
  {
    FitsStorable(total, l, files, title, blob, blobOffset, stage2);
    TableEntries(l.fatSize * SECTOR, files);
    var fat := Table(l.fatSize * SECTOR, files).value;
    SystemStored(total, l, files, title, stage2, fat);
    DiskHolds(total, l, files, title, blob, blobOffset, stage2, fat,
              System(total, l, files, title, stage2, fat));
  }

  lemma {:induction false} DiskHolds(total: nat, l: Layout, files: seq<File>, title: string, blob: bytes, blobOffset: nat,
                                     stage2: bytes, fat: bytes, sys: bytes)
    requires Fits(total, l, files, title, blob, blobOffset, stage2) && Storable(files)
    requires |sys| == total * SECTOR && |fat| == l.fatSize * SECTOR
    requires Has(sys, l.partLba * SECTOR, BootSector(total, l, title))
    requires Has(sys, PART_LBA * SECTOR, stage2)
    requires Has(sys, FatLba(l) * SECTOR, fat) && Has(sys, (FatLba(l) + l.fatSize) * SECTOR, fat)
    requires Has(sys, RootLba(l) * SECTOR, Root(title, files, |files|))
    ensures var img := Store(Payloads(sys, l, files, |files|), blobOffset, blob);
      && HasVolume(img, total, l, files, title, fat)
      && Has(img, PART_LBA * SECTOR, stage2) && Has(img, blobOffset, blob)
  {
    var n := |files|;
    RootEntries(title, files, n);
    var bs, root := BootSector(total, l, title), Root(title, files, n);
    PayloadsStored(sys, l, files, n);
    var p := Payloads(sys, l, files, n);
    Keep(sys, l, files, blobOffset, blob, l.partLba * SECTOR, bs);
    Keep(sys, l, files, blobOffset, blob, PART_LBA * SECTOR, stage2);
    Keep(sys, l, files, blobOffset, blob, FatLba(l) * SECTOR, fat);
    Keep(sys, l, files, blobOffset, blob, (FatLba(l) + l.fatSize) * SECTOR, fat);
    Keep(sys, l, files, blobOffset, blob, RootLba(l) * SECTOR, root);
    StoreInside(p, blobOffset, blob);
    forall k | 0 <= k < n
      ensures Stored(Store(p, blobOffset, blob), l, files, k)
    {
      assert Stored(p, l, files, k);
      StoreApart(p, blobOffset, blob, ClusterAt(l, First(files, k)), files[k].payload);
    }
  }

  lemma {:induction false} Keep(sys: bytes, l: Layout, files: seq<File>, blobOffset: nat, blob: bytes, at: nat, e: bytes)
    requires Distinct(files) && Has(sys, at, e) && at + |e| <= DataLba(l) * SECTOR
    requires ClusterAt(l, First(files, |files|)) <= |sys| && blobOffset + |blob| <= |sys|
    requires at + |e| <= blobOffset || blobOffset + |blob| <= at
    ensures Has(Store(Payloads(sys, l, files, |files|), blobOffset, blob), at, e)
  {
    PayloadsStored(sys, l, files, |files|);
    PayloadsKeep(sys, l, files, |files|, at, e);
    StoreApart(Payloads(sys, l, files, |files|), blobOffset, blob, at, e);
  }
}

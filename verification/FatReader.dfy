/** `check_fs` and `fat16` of tools/qizocheck/qizocheck.py: an independent reader that walks the
    directory and the FAT chains, proved to return every file the image tool was given. */
module FatReader {
  import opened Bits
  import opened Bytes
  import opened BootLayout
  import opened FatTable
  import opened Directory
  import opened ImagePlan
  import opened ImageTool

  datatype CheckError = StructError | IndexError | BadSignature | BadSectorSize | BadMedia
  datatype Rec = Rec(name: string, size: nat, cluster: nat)

  // ---------------------------------------------------------------- directory

  predicate Skipped(e: bytes)
    requires |e| >= 12
  {
    e[11] == 0x0F || e[11] == 0x08
  }

  function ReadDir(img: bytes, rootOff: nat, i: nat, count: nat): Result<seq<Rec>, CheckError>
    decreases count - i
  {
    if i >= count then Ok([])
    else
      var e := Slice(img, rootOff + 32 * i, rootOff + 32 * (i + 1));
      if |e| == 0 || e[0] == 0 then Ok([])
      else if |e| < 12 then Err(IndexError)
      else if Skipped(e) then ReadDir(img, rootOff, i + 1, count)
      else if |e| < 32 then Err(CheckError.StructError)
      else Prepend([Rec(NameOf(e), U32(e, 28), U16(e, 26))], ReadDir(img, rootOff, i + 1, count))
  }

  function Prepend(acc: seq<Rec>, r: Result<seq<Rec>, CheckError>): Result<seq<Rec>, CheckError> {
    match r
    case Err(x) => Err(x)
    case Ok(rest) => Ok(acc + rest)
  }

  /** The directory loop of `check_fs`. */
  method ReadDirLoop(img: bytes, rootOff: nat, count: nat) returns (r: Result<seq<Rec>, CheckError>)
    ensures r == ReadDir(img, rootOff, 0, count)
  {
    var entries: seq<Rec> := [];
    var i: nat := 0;
    PrependNone(ReadDir(img, rootOff, 0, count));
    while i < count
      invariant i <= count
      invariant ReadDir(img, rootOff, 0, count) == Prepend(entries, ReadDir(img, rootOff, i, count))
    {
      var e := Slice(img, rootOff + 32 * i, rootOff + 32 * (i + 1));
      if |e| == 0 || e[0] == 0 {
        assert entries + [] == entries;
        return Ok(entries);
      }
      if |e| < 12 {
        return Err(IndexError);
      }
      if !Skipped(e) {
        if |e| < 32 {
          return Err(CheckError.StructError);
        }
        PrependOne(entries, Rec(NameOf(e), U32(e, 28), U16(e, 26)), ReadDir(img, rootOff, i + 1, count));
        entries := entries + [Rec(NameOf(e), U32(e, 28), U16(e, 26))];
      }
      i := i + 1;
    }
    assert entries + [] == entries;
    return Ok(entries);
  }

  lemma {:induction false} PrependNone(r: Result<seq<Rec>, CheckError>)
    ensures Prepend([], r) == r
  {
    if r.Ok? { assert [] + r.value == r.value; }
  }

  lemma {:induction false} PrependOne(acc: seq<Rec>, x: Rec, r: Result<seq<Rec>, CheckError>)
    ensures Prepend(acc, Prepend([x], r)) == Prepend(acc + [x], r)
  {
    if r.Ok? { assert acc + ([x] + r.value) == (acc + [x]) + r.value; }
  }

  // ---------------------------------------------------------------- chains

  /** `fat16`. */
  function Fat16(img: bytes, fatOff: nat, c: nat): Result<nat, CheckError> {
    if fatOff + 2 * c + 2 > |img| then Err(CheckError.StructError) else Ok(U16(img, fatOff + 2 * c))
  }

  function ClusterBytes(img: bytes, dataLba: nat, spc: nat, cur: nat): bytes
    requires cur >= 2
  {
    var lba := dataLba + (cur - 2) * spc;
    Slice(img, lba * SECTOR, (lba + spc) * SECTOR)
  }

  function ReadChain(img: bytes, fatOff: nat, dataLba: nat, spc: nat, cur: nat, spins: nat): Result<bytes, CheckError>
    decreases 100000 - spins
  {
    if 2 <= cur < 0xFFF8 && spins < 100000 then
      match Fat16(img, fatOff, cur)
      case Err(x) => Err(x)
      case Ok(next) =>
        match ReadChain(img, fatOff, dataLba, spc, next, spins + 1)
        case Err(x) => Err(x)
        case Ok(rest) => Ok(ClusterBytes(img, dataLba, spc, cur) + rest)
    else Ok([])
  }

  function PrependBytes(acc: bytes, r: Result<bytes, CheckError>): Result<bytes, CheckError> {
    match r
    case Err(x) => Err(x)
    case Ok(rest) => Ok(acc + rest)
  }

  lemma {:induction false} PrependEmpty(r: Result<bytes, CheckError>)
    ensures PrependBytes([], r) == r
  {
    if r.Ok? { assert [] + r.value == r.value; }
  }

  lemma {:induction false} PrependSector(acc: bytes, x: bytes, r: Result<bytes, CheckError>)
    ensures PrependBytes(acc, PrependBytes(x, r)) == PrependBytes(acc + x, r)
  {
    if r.Ok? { assert acc + (x + r.value) == (acc + x) + r.value; }
  }

  /** The chain walk of `check_fs`. */
  method WalkChain(img: bytes, fatOff: nat, dataLba: nat, spc: nat, cluster: nat) returns (r: Result<bytes, CheckError>)
    ensures r == ReadChain(img, fatOff, dataLba, spc, cluster, 0)
  {
    var data: bytes := [];
    var cur: nat, spins: nat := cluster, 0;
    ghost var all := ReadChain(img, fatOff, dataLba, spc, cluster, 0);
    PrependEmpty(all);
    while 2 <= cur < 0xFFF8 && spins < 100000
      invariant spins <= 100000
      invariant all == PrependBytes(data, ReadChain(img, fatOff, dataLba, spc, cur, spins))
      decreases 100000 - spins
    {
      var sector := ClusterBytes(img, dataLba, spc, cur);
      var next := Fat16(img, fatOff, cur);
      if next.Err? {
        return Err(next.error);
      }
      PrependSector(data, sector, ReadChain(img, fatOff, dataLba, spc, next.value, spins + 1));
      data, cur, spins := data + sector, next.value, spins + 1;
    }
    assert data + [] == data;
    return Ok(data);
  }

  // ---------------------------------------------------------------- the whole check

  function ReadFiles(img: bytes, fatOff: nat, dataLba: nat, spc: nat, recs: seq<Rec>, k: nat)
    : Result<map<string, bytes>, CheckError>
    requires k <= |recs|
  {
    if k == 0 then Ok(map[])
    else
      match ReadFiles(img, fatOff, dataLba, spc, recs, k - 1)
      case Err(x) => Err(x)
      case Ok(found) =>
        var rec := recs[k - 1];
        match ReadChain(img, fatOff, dataLba, spc, rec.cluster, 0)
        case Err(x) => Err(x)
        case Ok(data) => Ok(found[rec.name := data[..Min(rec.size, |data|)]])
  }

  /** The boot sector fields the reader uses. */
  datatype Geo = Geo(part: nat, spc: nat, reserved: nat, nfats: nat, count: nat, fatSize: nat) {
    function FatOff(): nat { (part + reserved) * SECTOR }
    function RootLba(): nat { part + reserved + nfats * fatSize }
    function DataLba(): nat { RootLba() + (count * 32 + SECTOR - 1) / SECTOR }
  }

  function ReadGeo(img: bytes): Result<Geo, CheckError> {
    if |img| < 0x1CA then Err(CheckError.StructError)
    else
      var part := U32(img, 0x1C6);
      var bs := Slice(img, part * SECTOR, part * SECTOR + SECTOR);
      if |bs| < 512 || bs[510] != 0x55 || bs[511] != 0xAA then Err(BadSignature)
      else if U16(bs, 11) != SECTOR then Err(BadSectorSize)
      else if bs[21] != 0xF8 && bs[21] != 0xF9 then Err(BadMedia)
      else Ok(Geo(part, bs[13], U16(bs, 14), bs[16], U16(bs, 17), U16(bs, 22)))
  }

  /** What the reader demands of a disk before it looks for files. */
  ghost predicate LooksLikeVolume(img: bytes) {
    && |img| >= 0x1CA
    && var at := U32(img, 0x1C6) * SECTOR;
    && at + 512 <= |img| && img[at + 510] == 0x55 && img[at + 511] == 0xAA
    && U16(img, at + 11) == 512 && (img[at + 21] == 0xF8 || img[at + 21] == 0xF9)
  }

  lemma {:induction false} RefusesOthers(img: bytes)
    ensures ReadGeo(img).Ok? <==> LooksLikeVolume(img)
    ensures !LooksLikeVolume(img) ==> Contents(img).Err?
  {
    if |img| >= 0x1CA {
      var at := U32(img, 0x1C6) * SECTOR;
      var bs := Slice(img, at, at + SECTOR);
      if |bs| == 512 {
        assert Has(img, at, bs);
        HasU16(img, at, bs, 11);
        HasAt(img, at, bs, 21);
        HasAt(img, at, bs, 510);
        HasAt(img, at, bs, 511);
      }
    }
  }

  /** Everything `check_fs` finds on a disk image. */
  function Contents(img: bytes): Result<map<string, bytes>, CheckError> {
    match ReadGeo(img)
    case Err(x) => Err(x)
    case Ok(g) =>
      match ReadDir(img, g.RootLba() * SECTOR, 0, g.count)
      case Err(x) => Err(x)
      case Ok(recs) => ReadFiles(img, g.FatOff(), g.DataLba(), g.spc, recs, |recs|)
  }

  /** `check_fs` up to the comparison of what it found. */
  method CheckFs(img: bytes) returns (r: Result<map<string, bytes>, CheckError>)
    ensures r == Contents(img)
  {
    var geo := ReadGeo(img);
    if geo.Err? {
      return Err(geo.error);
    }
    var g := geo.value;
    var entries := ReadDirLoop(img, g.RootLba() * SECTOR, g.count);
    if entries.Err? {
      return Err(entries.error);
    }
    r := ReadFilesLoop(img, g.FatOff(), g.DataLba(), g.spc, entries.value);
  }

  method ReadFilesLoop(img: bytes, fatOff: nat, dataLba: nat, spc: nat, recs: seq<Rec>)
    returns (r: Result<map<string, bytes>, CheckError>)
    ensures r == ReadFiles(img, fatOff, dataLba, spc, recs, |recs|)
  {
    var found: map<string, bytes> := map[];
    var k: nat := 0;
    while k < |recs|
      invariant k <= |recs| && ReadFiles(img, fatOff, dataLba, spc, recs, k) == Ok(found)
    {
      var data := WalkChain(img, fatOff, dataLba, spc, recs[k].cluster);
      if data.Err? {
        ReadFilesStuck(img, fatOff, dataLba, spc, recs, k + 1, |recs|);
        return Err(data.error);
      }
      found := found[recs[k].name := data.value[..Min(recs[k].size, |data.value|)]];
      k := k + 1;
    }
    return Ok(found);
  }

  lemma {:induction false} ReadFilesStuck(img: bytes, fatOff: nat, dataLba: nat, spc: nat, recs: seq<Rec>, m: nat, n: nat)
    requires m <= n <= |recs| && ReadFiles(img, fatOff, dataLba, spc, recs, m).Err?
    ensures ReadFiles(img, fatOff, dataLba, spc, recs, n) == ReadFiles(img, fatOff, dataLba, spc, recs, m)
  {
    if m < n { ReadFilesStuck(img, fatOff, dataLba, spc, recs, m, n - 1); }
  }

  // ---------------------------------------------------------------- reading what was written

  /** File k as the directory lists it. */
  function RecOf(files: seq<File>, k: nat): Rec
    requires k < |files|
  {
    Rec(files[k].name, |files[k].payload|, StartOf(files, files[k].name))
  }

  function Recs(files: seq<File>): seq<Rec> {
    seq(|files|, k requires 0 <= k < |files| => RecOf(files, k))
  }

  /** A disk as the tool leaves it: volume in place, partition start in the first sector. */
  ghost predicate Written(img: bytes, total: nat, l: Layout, files: seq<File>, title: string,
                          blob: bytes, stage2: bytes)
  {
    && Fits(total, l, files, title, blob, BLOB_LBA * SECTOR, stage2) && Storable(files)
    && Table(l.fatSize * SECTOR, files).Ok?
    && HasVolume(img, total, l, files, title, Table(l.fatSize * SECTOR, files).value)
    && |img| >= 512 && U32(img, 0x1C6) == l.partLba
  }

  lemma {:induction false} GeoFrom(img: bytes, part: nat, bs: bytes)
    requires |img| >= 512 && U32(img, 0x1C6) == part && |bs| == 512 && Has(img, part * SECTOR, bs)
    requires bs[510] == 0x55 && bs[511] == 0xAA && U16(bs, 11) == 512 && bs[21] == 0xF8
    ensures ReadGeo(img) == Ok(Geo(part, bs[13], U16(bs, 14), bs[16], U16(bs, 17), U16(bs, 22)))
  {
    SliceHas(img, part * SECTOR, bs);
  }

  lemma {:induction false} GeoOfWritten(img: bytes, total: nat, l: Layout, files: seq<File>, title: string,
                                        blob: bytes, stage2: bytes)
    requires Written(img, total, l, files, title, blob, stage2)
    ensures ReadGeo(img) == Ok(Geo(l.partLba, 1, l.reserved, 2, 224, l.fatSize))
  {
    BootSectorReads(total, l, title);
    GeoFrom(img, l.partLba, BootSector(total, l, title));
  }

  lemma {:induction false} RootSlice(img: bytes, rootOff: nat, root: bytes, i: nat)
    requires Has(img, rootOff, root) && 32 * (i + 1) <= |root|
    ensures Slice(img, rootOff + 32 * i, rootOff + 32 * (i + 1)) == root[32 * i..32 * (i + 1)]
  {
    HasPart(img, rootOff, root, 32 * i, 32 * (i + 1));
    SliceHas(img, rootOff + 32 * i, root[32 * i..32 * (i + 1)]);
  }

  /** One directory entry that is neither the end nor skipped. */
  lemma {:induction false} DirStep(img: bytes, rootOff: nat, i: nat, count: nat, e: bytes, rest: seq<Rec>)
    requires i < count && |e| == 32 && Slice(img, rootOff + 32 * i, rootOff + 32 * (i + 1)) == e
    requires e[0] != 0 && !Skipped(e) && ReadDir(img, rootOff, i + 1, count) == Ok(rest)
    ensures ReadDir(img, rootOff, i, count) == Ok([Rec(NameOf(e), U32(e, 28), U16(e, 26))] + rest)
  {
  }

  lemma {:induction false} DirEnd(img: bytes, rootOff: nat, i: nat, count: nat, root: bytes)
    requires Has(img, rootOff, root) && |root| == 32 * count && i <= count
    requires i < count ==> root[32 * i] == 0
    ensures ReadDir(img, rootOff, i, count) == Ok([])
  {
    if i < count {
      RootSlice(img, rootOff, root, i);
      assert root[32 * i..32 * (i + 1)][0] == root[32 * i];
    }
  }

  /** Entry e is a file's and reads back as the record r. */
  ghost predicate Describes(e: bytes, r: Rec) {
    |e| == 32 && e[0] != 0 && !Skipped(e) && NameOf(e) == r.name && U32(e, 28) == r.size && U16(e, 26) == r.cluster
  }

  /** Slot k + 1 of the directory, after the volume label, describes r. */
  ghost predicate SlotReads(root: bytes, k: nat, r: Rec) {
    32 * (k + 2) <= |root| && Describes(root[32 * (k + 1)..32 * (k + 2)], r)
  }

  lemma {:induction false} SlotStep(img: bytes, rootOff: nat, root: bytes, k: nat, r: Rec, rest: seq<Rec>)
    requires Has(img, rootOff, root) && k < 223 && SlotReads(root, k, r) && ReadDir(img, rootOff, k + 2, 224) == Ok(rest)
    ensures ReadDir(img, rootOff, k + 1, 224) == Ok([r] + rest)
  {
    RootSlice(img, rootOff, root, k + 1);
    DirStep(img, rootOff, k + 1, 224, root[32 * (k + 1)..32 * (k + 2)], rest);
  }

  lemma {:induction false} DirOfWritten(img: bytes, rootOff: nat, root: bytes, recs: seq<Rec>, j: nat)
    requires Has(img, rootOff, root) && |root| == ROOT_BYTES && j <= |recs| <= 223
    requires forall k: nat :: k < |recs| ==> SlotReads(root, k, recs[k])
    requires |recs| < 223 ==> root[32 * (|recs| + 1)] == 0
    ensures ReadDir(img, rootOff, j + 1, 224) == Ok(recs[j..])
    decreases |recs| - j
  {
    if j < |recs| {
      DirOfWritten(img, rootOff, root, recs, j + 1);
      assert SlotReads(root, j, recs[j]);
      SlotStep(img, rootOff, root, j, recs[j], recs[j + 1..]);
      assert recs[j..] == [recs[j]] + recs[j + 1..];
    } else {
      DirEnd(img, rootOff, |recs| + 1, 224, root);
      assert recs[j..] == [];
    }
  }

  lemma {:induction false} ListedReads(root: bytes, files: seq<File>, k: nat)
    requires Storable(files) && k < |files| && Listed(root, files, k) && Describes(EntryFor(files, k), RecOf(files, k))
    ensures SlotReads(root, k, RecOf(files, k))
  {
  }

  lemma {:induction false} EntryOfFile(files: seq<File>, j: nat)
    requires Storable(files) && j < |files| && Name83(files[j].name)
    requires First(files, |files|) < 0x1_0000 && Distinct(files)
    ensures Describes(EntryFor(files, j), RecOf(files, j)) && EntryFor(files, j)[11] == 0x20
  {
    var name, size, c := files[j].name, |files[j].payload|, StartOf(files, files[j].name);
    ClusterOfFile(files, |files|, j);
    FirstMonotone(files, j, |files|);
    NameRoundTrip(name, size, c, 0x20);
    EntryFields(name, size, c, 0x20);
    NamePlain(name);
    EntryNotEnd(name, size, c, 0x20);
  }

  lemma {:induction false} NamePlain(name: string)
    requires Name83(name)
    ensures forall i :: 0 <= i < |name| ==> name[i] as int != 0
  {
    var d := LastDot(name);
    forall i | 0 <= i < |name|
      ensures name[i] as int != 0
    {
      if d >= 0 && i > d { assert Plain(ExtOf(name)[i - d - 1]); }
      else if d < 0 || i < d { assert Plain(BaseOf(name)[i]); }
    }
  }

  /** The table links file k's clusters in order. */
  ghost predicate Linked(img: bytes, fatOff: nat, first: nat, end: nat) {
    forall c: nat :: first <= c < end ==> Fat16(img, fatOff, c) == Ok(if c + 1 == end then EOF else c + 1)
  }

  /** From any cluster of a linked run the chain reads to the end of the run. */
  lemma {:induction false} ChainReads(img: bytes, fatOff: nat, l: Layout, first: nat, end: nat, c: nat, spins: nat)
    requires 2 <= first <= c < end < 0xFFF8 && spins <= c && Linked(img, fatOff, first, end)
    requires ClusterAt(l, end) <= |img|
    ensures ReadChain(img, fatOff, DataLba(l), 1, c, spins) == Ok(img[ClusterAt(l, c)..ClusterAt(l, end)])
    decreases end - c
  {
    var at, next, stop := ClusterAt(l, c), ClusterAt(l, c + 1), ClusterAt(l, end);
    OneCluster(img, l, c);
    assert Fat16(img, fatOff, c).Ok?;
    if c + 1 < end {
      ChainReads(img, fatOff, l, first, end, c + 1, spins + 1);
      assert img[at..next] + img[next..stop] == img[at..stop];
    } else {
      assert img[at..next] + [] == img[at..stop];
    }
  }

  lemma {:induction false} OneCluster(img: bytes, l: Layout, c: nat)
    requires c >= 2 && ClusterAt(l, c + 1) <= |img|
    ensures ClusterAt(l, c) <= ClusterAt(l, c + 1)
    ensures ClusterBytes(img, DataLba(l), 1, c) == img[ClusterAt(l, c)..ClusterAt(l, c + 1)]
  {
  }

  lemma {:induction false} EntryInChain(img: bytes, fatOff: nat, files: seq<File>, fat: bytes, k: nat, c: nat)
    requires k < |files| && First(files, k) <= c < First(files, k + 1)
    requires First(files, |files|) < 0x1_0000 && 2 * First(files, |files|) <= |fat|
    requires Table(|fat|, files) == Ok(fat) && Has(img, fatOff, fat)
    ensures Fat16(img, fatOff, c) == Ok(if c + 1 == First(files, k + 1) then EOF else c + 1)
  {
    FirstMonotone(files, k + 1, |files|);
    TableEntries(|fat|, files);
    LinkInFile(files, |files|, k, c);
    HasU16(img, fatOff, fat, 2 * c);
    assert Entry(fat, c) == Link(files, |files|, c);
  }

  lemma {:induction false} FileLinked(img: bytes, fatOff: nat, files: seq<File>, fat: bytes, k: nat)
    requires k < |files| && First(files, |files|) < 0x1_0000 && 2 * First(files, |files|) <= |fat|
    requires Table(|fat|, files) == Ok(fat) && Has(img, fatOff, fat)
    ensures Linked(img, fatOff, First(files, k), First(files, k + 1))
  {
    forall c: nat | First(files, k) <= c < First(files, k + 1)
      ensures Fat16(img, fatOff, c) == Ok(if c + 1 == First(files, k + 1) then EOF else c + 1)
    {
      EntryInChain(img, fatOff, files, fat, k, c);
    }
  }

  /** File k's clusters are linked in order. */
  ghost predicate Chained(img: bytes, fatOff: nat, files: seq<File>, k: int)
    requires 0 <= k < |files|
  {
    Linked(img, fatOff, First(files, k), First(files, k + 1))
  }

  lemma {:induction false} PayloadPrefix(img: bytes, at: nat, end: nat, p: bytes)
    requires Has(img, at, p) && at + |p| <= end <= |img|
    ensures img[at..end][..|p|] == p
  {
  }

  lemma {:induction false} FileOfWritten(img: bytes, l: Layout, fatOff: nat, files: seq<File>, k: nat)
    requires k < |files| && Distinct(files) && First(files, k + 1) < 0xFFF8
    requires Chained(img, fatOff, files, k) && ClusterAt(l, First(files, k + 1)) <= |img|
    requires Stored(img, l, files, k)
    ensures var r := ReadChain(img, fatOff, DataLba(l), 1, StartOf(files, files[k].name), 0);
      r.Ok? && r.value[..Min(|files[k].payload|, |r.value|)] == files[k].payload
  {
    var p, c := files[k].payload, First(files, k);
    ClusterOfFile(files, |files|, k);
    if Clusters(p) > 0 {
      ChainReads(img, fatOff, l, c, First(files, k + 1), c, 0);
      PayloadPrefix(img, ClusterAt(l, c), ClusterAt(l, First(files, k + 1)), p);
    } else {
      assert p == [];
    }
  }

  /** The files as a dictionary. */
  function FileMap(files: seq<File>, k: nat): map<string, bytes>
    requires k <= |files|
  {
    if k == 0 then map[] else FileMap(files, k - 1)[files[k - 1].name := files[k - 1].payload]
  }

  lemma {:induction false} FileMapLooksUp(files: seq<File>, k: nat, j: nat)
    requires Distinct(files) && j < k <= |files|
    ensures files[j].name in FileMap(files, k) && FileMap(files, k)[files[j].name] == files[j].payload
  {
    if j < k - 1 { FileMapLooksUp(files, k - 1, j); }
  }

  lemma {:induction false} FilesOfWritten(img: bytes, l: Layout, fatOff: nat, files: seq<File>, recs: seq<Rec>, k: nat)
    requires k <= |files| == |recs| && recs == Recs(files) && Distinct(files)
    requires First(files, |files|) < 0xFFF8 && ClusterAt(l, First(files, |files|)) <= |img|
    requires forall j :: 0 <= j < |files| ==> Chained(img, fatOff, files, j)
    requires forall j :: 0 <= j < |files| ==> Stored(img, l, files, j)
    ensures ReadFiles(img, fatOff, DataLba(l), 1, recs, k) == Ok(FileMap(files, k))
  {
    if k > 0 {
      FilesOfWritten(img, l, fatOff, files, recs, k - 1);
      FirstMonotone(files, k, |files|);
      FileOfWritten(img, l, fatOff, files, k - 1);
      assert recs[k - 1] == RecOf(files, k - 1);
    }
  }

  lemma {:induction false} AllChained(img: bytes, fatOff: nat, files: seq<File>, fat: bytes)
    requires First(files, |files|) < 0x1_0000 && 2 * First(files, |files|) <= |fat|
    requires Table(|fat|, files) == Ok(fat) && Has(img, fatOff, fat)
    ensures forall j :: 0 <= j < |files| ==> Chained(img, fatOff, files, j)
  {
    forall j | 0 <= j < |files|
      ensures Chained(img, fatOff, files, j)
    {
      FileLinked(img, fatOff, files, fat, j);
    }
  }

  lemma {:induction false} DirPart(img: bytes, total: nat, l: Layout, files: seq<File>, title: string, blob: bytes, stage2: bytes)
    requires Written(img, total, l, files, title, blob, stage2)
    ensures ReadDir(img, RootLba(l) * SECTOR, 0, 224) == Ok(Recs(files))
  {
    RootReads(title, files);
    DirOfRoot(img, RootLba(l) * SECTOR, Root(title, files, |files|), Recs(files));
  }

  lemma {:induction false} FilesPart(img: bytes, total: nat, l: Layout, files: seq<File>, title: string, blob: bytes,
                                     stage2: bytes)
    requires Written(img, total, l, files, title, blob, stage2)
    ensures var recs := Recs(files);
      ReadFiles(img, FatLba(l) * SECTOR, DataLba(l), 1, recs, |recs|) == Ok(FileMap(files, |files|))
  {
    TableSize(l.fatSize * SECTOR, files);
    AllChained(img, FatLba(l) * SECTOR, files, Table(l.fatSize * SECTOR, files).value);
    FilesOfWritten(img, l, FatLba(l) * SECTOR, files, Recs(files), |files|);
  }

  /** Both copies of the table hold the same bytes. */
  ghost predicate SameCopies(img: bytes, l: Layout) {
    var f1, f2, n := FatLba(l) * SECTOR, (FatLba(l) + l.fatSize) * SECTOR, l.fatSize * SECTOR;
    f2 + n <= |img| && img[f1..f1 + n] == img[f2..f2 + n]
  }

  lemma {:induction false} TwoCopies(img: bytes, l: Layout, fat: bytes)
    requires Has(img, FatLba(l) * SECTOR, fat) && Has(img, (FatLba(l) + l.fatSize) * SECTOR, fat)
    requires |fat| == l.fatSize * SECTOR
    ensures SameCopies(img, l)
  {
  }

  lemma {:induction false} FitsTable(total: nat, l: Layout, files: seq<File>, title: string, blob: bytes, stage2: bytes)
    requires Fits(total, l, files, title, blob, BLOB_LBA * SECTOR, stage2)
    ensures 2 * First(files, |files|) <= l.fatSize * SECTOR && First(files, |files|) < 0x1_0000
  {
    PlanCovers(total, l, First(files, |files|));
    FitsStorable(total, l, files, title, blob, BLOB_LBA * SECTOR, stage2);
  }

  lemma {:induction false} PlanCovers(total: nat, l: Layout, first: nat)
    requires GoodPlan(total, l.partLba, l.reserved, l) && first <= l.clusters + 2
    ensures 2 * first <= l.fatSize * SECTOR
  {
    assert l.fatSize * SECTOR == 2 * (l.fatSize * 256);
  }

  lemma {:induction false} CopiesEqual(img: bytes, total: nat, l: Layout, files: seq<File>, title: string,
                                       blob: bytes, stage2: bytes)
    requires Written(img, total, l, files, title, blob, stage2)
    ensures SameCopies(img, l)
  {
    FitsTable(total, l, files, title, blob, stage2);
    TableSize(l.fatSize * SECTOR, files);
    TwoCopies(img, l, Table(l.fatSize * SECTOR, files).value);
  }

  lemma {:induction false} ContentsOf(img: bytes, l: Layout, recs: seq<Rec>, found: map<string, bytes>)
    requires ReadGeo(img) == Ok(Geo(l.partLba, 1, l.reserved, 2, 224, l.fatSize))
    requires ReadDir(img, RootLba(l) * SECTOR, 0, 224) == Ok(recs)
    requires ReadFiles(img, FatLba(l) * SECTOR, DataLba(l), 1, recs, |recs|) == Ok(found)
    ensures Contents(img) == Ok(found)
  {
    var g := Geo(l.partLba, 1, l.reserved, 2, 224, l.fatSize);
    assert g.RootLba() == RootLba(l) && g.FatOff() == FatLba(l) * SECTOR && g.DataLba() == DataLba(l);
  }

  /** Each file is in the dictionary under its own name, with its own bytes. */
  ghost predicate AllThere(files: seq<File>) {
    forall k :: 0 <= k < |files| ==>
      files[k].name in FileMap(files, |files|) && FileMap(files, |files|)[files[k].name] == files[k].payload
  }

  lemma {:induction false} EveryFileThere(files: seq<File>)
    requires Distinct(files)
    ensures AllThere(files)
  {
    forall k | 0 <= k < |files|
      ensures files[k].name in FileMap(files, |files|) && FileMap(files, |files|)[files[k].name] == files[k].payload
    {
      FileMapLooksUp(files, |files|, k);
    }
  }

  /** The independent reader returns exactly the files that were written, empty ones included,
      and the two FAT copies are equal. */
  lemma {:induction false} VolumeRoundTrip(img: bytes, total: nat, l: Layout, files: seq<File>, title: string,
                                           blob: bytes, stage2: bytes)
    requires Written(img, total, l, files, title, blob, stage2)
    ensures Contents(img) == Ok(FileMap(files, |files|)) && AllThere(files) && SameCopies(img, l)
  {
    GeoOfWritten(img, total, l, files, title, blob, stage2);
    DirPart(img, total, l, files, title, blob, stage2);
    FilesPart(img, total, l, files, title, blob, stage2);
    ContentsOf(img, l, Recs(files), FileMap(files, |files|));
    CopiesEqual(img, total, l, files, title, blob, stage2);
    EveryFileThere(files);
  }

  lemma {:induction false} AllSlotsRead(root: bytes, files: seq<File>)
    requires Storable(files) && First(files, |files|) < 0x1_0000 && Distinct(files)
    requires forall k :: 0 <= k < |files| ==> Name83(files[k].name)
    requires forall k :: 0 <= k < |files| ==> Listed(root, files, k)
    ensures forall k: nat :: k < |files| ==> SlotReads(root, k, Recs(files)[k])
  {
    forall k: nat | k < |files|
      ensures SlotReads(root, k, Recs(files)[k])
    {
      assert Listed(root, files, k);
      EntryOfFile(files, k);
      ListedReads(root, files, k);
    }
  }

  /** A directory that starts with a label, then describes the records, then ends. */
  ghost predicate RootLists(root: bytes, recs: seq<Rec>) {
    && |root| == ROOT_BYTES && |recs| <= 223 && root[0] != 0 && Skipped(root[0..32])
    && (|recs| < 223 ==> root[32 * (|recs| + 1)] == 0)
    && forall k: nat :: k < |recs| ==> SlotReads(root, k, recs[k])
  }

  lemma {:induction false} RootReads(title: string, files: seq<File>)
    requires GoodLabel(title) && Storable(files) && |files| <= 223
    requires First(files, |files|) < 0x1_0000 && Distinct(files)
    requires forall k :: 0 <= k < |files| ==> Name83(files[k].name)
    ensures RootLists(Root(title, files, |files|), Recs(files))
  {
    var root := Root(title, files, |files|);
    RootEntries(title, files, |files|);
    AllSlotsRead(root, files);
    LabelEntry(title);
    LabelFirst(root, DirEntry(title, 0, 0, 0x08));
  }

  lemma {:induction false} LabelFirst(root: bytes, e: bytes)
    requires Has(root, 0, e) && |e| == 32 && e[0] != 0 && Skipped(e)
    ensures |root| >= 32 && root[0] != 0 && Skipped(root[0..32])
  {
    assert root[0..32] == e;
  }

  /** The volume label comes first and is skipped. */
  lemma {:induction false} DirOfRoot(img: bytes, rootOff: nat, root: bytes, recs: seq<Rec>)
    requires Has(img, rootOff, root) && RootLists(root, recs)
    ensures ReadDir(img, rootOff, 0, 224) == Ok(recs)
  {
    DirOfWritten(img, rootOff, root, recs, 0);
    assert recs[0..] == recs;
    RootSlice(img, rootOff, root, 0);
    DirSkip(img, rootOff, 0, 224, root[0..32]);
  }

  lemma {:induction false} LabelEntry(title: string)
    requires GoodLabel(title)
    ensures var e := DirEntry(title, 0, 0, 0x08);
      e[0] != 0 && Skipped(e) && e[11] == 0x08 && U16(e, 26) == 0 && U32(e, 28) == 0
  {
    EntryNotEnd(title, 0, 0, 0x08);
    EntryFields(title, 0, 0, 0x08);
  }

  lemma {:induction false} DirSkip(img: bytes, rootOff: nat, i: nat, count: nat, e: bytes)
    requires i < count && |e| == 32 && Slice(img, rootOff + 32 * i, rootOff + 32 * (i + 1)) == e
    requires e[0] != 0 && Skipped(e)
    ensures ReadDir(img, rootOff, i, count) == ReadDir(img, rootOff, i + 1, count)
  {
  }
}

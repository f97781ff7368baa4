/** The 16-bit FAT the image tool writes (`fat_set` and the chain loops of `build_image`) and the
    kernel's reading of it (`fat_entry_16` and `count_free` in kernel/drivers/fat.c). */
module FatTable {
  import opened Bits
  import opened Bytes

  const EOF: nat := 0xFFFF
  datatype FatError = StructError

  datatype File = File(name: string, payload: bytes)

  function Clusters(p: bytes): nat { (|p| + 511) / 512 }

  /** First cluster after the first k files; data clusters start at 2. */
  function First(files: seq<File>, k: nat): (r: nat)
    requires k <= |files|
    ensures r >= 2
  {
    if k == 0 then 2 else First(files, k - 1) + Clusters(files[k - 1].payload)
  }

  lemma {:induction false} FirstMonotone(files: seq<File>, j: nat, k: nat)
    requires j <= k <= |files|
    ensures First(files, j) <= First(files, k)
  {
    if j < k { FirstMonotone(files, j, k - 1); }
  }

  // ---------------------------------------------------------------- entries

  function Entry(fat: bytes, c: nat): nat
    requires 2 * c + 2 <= |fat|
  {
    U16(fat, 2 * c)
  }

  /** `fat_set` for 16 bits: `pack_into` refuses an index past the table. */
  function FatSet(fat: bytes, c: nat, v: nat): Result<bytes, FatError> {
    if 2 * c + 2 > |fat| then Err(StructError)
    else Ok(fat[2 * c := v % 0x1_0000 % 256][2 * c + 1 := v % 0x1_0000 / 256])
  }

  lemma {:induction false} FatSetEntry(fat: bytes, c: nat, v: nat, i: nat)
    requires 2 * c + 2 <= |fat| && 2 * i + 2 <= |fat| && v < 0x1_0000
    ensures FatSet(fat, c, v).Ok? && |FatSet(fat, c, v).value| == |fat|
    ensures Entry(FatSet(fat, c, v).value, i) == if i == c then v else Entry(fat, i)
  {
  }

  /** The links of a chain that starts at `first`: n entries, each naming its successor. */
  function Links(fat: bytes, first: nat, n: nat): Result<bytes, FatError> {
    if n == 0 then Ok(fat)
    else
      match Links(fat, first, n - 1)
      case Err(e) => Err(e)
      case Ok(f) => FatSet(f, first + (n - 1), first + n)
  }

  function FileChain(fat: bytes, first: nat, count: nat): Result<bytes, FatError> {
    if count == 0 then Ok(fat)
    else
      match Links(fat, first, count - 1)
      case Err(e) => Err(e)
      case Ok(f) => FatSet(f, first + count - 1, EOF)
  }

  function Chains(fat: bytes, files: seq<File>, k: nat): Result<bytes, FatError>
    requires k <= |files|
  {
    if k == 0 then Ok(fat)
    else
      match Chains(fat, files, k - 1)
      case Err(e) => Err(e)
      case Ok(f) => FileChain(f, First(files, k - 1), Clusters(files[k - 1].payload))
  }

  /** The whole table: one chain per file, then the two reserved entries. */
  function Table(size: nat, files: seq<File>): Result<bytes, FatError> {
    match Chains(Zeros(size), files, |files|)
    case Err(e) => Err(e)
    case Ok(f) =>
      match FatSet(f, 0, EOF)
      case Err(e) => Err(e)
      case Ok(g) => FatSet(g, 1, EOF)
  }

  /** What cluster c's entry should be after the first k files. */
  function Link(files: seq<File>, k: nat, c: nat): nat
    requires k <= |files|
  {
    if k == 0 then 0
    else if First(files, k - 1) <= c < First(files, k) then
      if c + 1 == First(files, k) then EOF else c + 1
    else Link(files, k - 1, c)
  }

  lemma {:induction false} LinksEntries(fat: bytes, first: nat, n: nat)
    requires 2 * (first + n) <= |fat| && first + n < 0x1_0000
    ensures Links(fat, first, n).Ok? && |Links(fat, first, n).value| == |fat|
    ensures forall c: nat :: 2 * c + 2 <= |fat| ==>
              Entry(Links(fat, first, n).value, c) == if first <= c < first + n then c + 1 else Entry(fat, c)
  {
    if n > 0 {
      LinksEntries(fat, first, n - 1);
      var f := Links(fat, first, n - 1).value;
      forall c: nat | 2 * c + 2 <= |fat|
        ensures Entry(Links(fat, first, n).value, c) == if first <= c < first + n then c + 1 else Entry(fat, c)
      {
        FatSetEntry(f, first + (n - 1), first + n, c);
      }
    }
  }

  lemma {:induction false} ChainEntries(fat: bytes, first: nat, count: nat)
    requires 2 * (first + count) <= |fat| && first + count < 0x1_0000
    ensures FileChain(fat, first, count).Ok? && |FileChain(fat, first, count).value| == |fat|
    ensures forall c: nat :: 2 * c + 2 <= |fat| ==>
              Entry(FileChain(fat, first, count).value, c) ==
                if first <= c < first + count then (if c + 1 == first + count then EOF else c + 1) else Entry(fat, c)
  {
    if count > 0 {
      LinksEntries(fat, first, count - 1);
      var f := Links(fat, first, count - 1).value;
      forall c: nat | 2 * c + 2 <= |fat|
        ensures Entry(FileChain(fat, first, count).value, c) ==
                if first <= c < first + count then (if c + 1 == first + count then EOF else c + 1) else Entry(fat, c)
      {
        FatSetEntry(f, first + count - 1, EOF, c);
      }
    }
  }

  lemma {:induction false} ChainsEntries(size: nat, files: seq<File>, k: nat)
    requires k <= |files| && 2 * First(files, k) <= size && First(files, k) < 0x1_0000
    ensures Chains(Zeros(size), files, k).Ok? && |Chains(Zeros(size), files, k).value| == size
    ensures forall c: nat :: 2 * c + 2 <= size ==>
              Entry(Chains(Zeros(size), files, k).value, c) == Link(files, k, c)
  {
    if k > 0 {
      ChainsEntries(size, files, k - 1);
      ChainEntries(Chains(Zeros(size), files, k - 1).value, First(files, k - 1), Clusters(files[k - 1].payload));
    }
  }

  /** Every entry of the finished table: reserved, in a file's chain, or free. */
  lemma {:induction false} TableEntries(size: nat, files: seq<File>)
    requires 2 * First(files, |files|) <= size && First(files, |files|) < 0x1_0000
    ensures Table(size, files).Ok? && |Table(size, files).value| == size
    ensures forall c: nat :: 2 * c + 2 <= size ==>
              Entry(Table(size, files).value, c) == if c < 2 then EOF else Link(files, |files|, c)
  {
    ChainsEntries(size, files, |files|);
    var f := Chains(Zeros(size), files, |files|).value;
    FatSetEntry(f, 0, EOF, 0);
    var g := FatSet(f, 0, EOF).value;
    forall c: nat | 2 * c + 2 <= size
      ensures Entry(Table(size, files).value, c) == if c < 2 then EOF else Link(files, |files|, c)
    {
      FatSetEntry(f, 0, EOF, c);
      FatSetEntry(g, 1, EOF, c);
    }
  }

  lemma {:induction false} TableSize(size: nat, files: seq<File>)
    requires 2 * First(files, |files|) <= size && First(files, |files|) < 0x1_0000
    ensures Table(size, files).Ok? && |Table(size, files).value| == size
  {
    TableEntries(size, files);
  }

  /** In use exactly below the first cluster past the last file. */
  lemma {:induction false} LinkUsed(files: seq<File>, k: nat, c: nat)
    requires k <= |files|
    ensures Link(files, k, c) != 0 <==> 2 <= c < First(files, k)
  {
    if k > 0 { LinkUsed(files, k - 1, c); }
  }

  /** Inside file j's clusters the table holds file j's chain. */
  lemma {:induction false} LinkInFile(files: seq<File>, k: nat, j: nat, c: nat)
    requires j < k <= |files| && First(files, j) <= c < First(files, j + 1)
    ensures Link(files, k, c) == if c + 1 == First(files, j + 1) then EOF else c + 1
  {
    if j < k - 1 {
      FirstMonotone(files, j + 1, k - 1);
      LinkInFile(files, k - 1, j, c);
    }
  }

  // ---------------------------------------------------------------- the writer's loops

  /** The loop of `build_image` over the clusters of one file. */
  method FillChain(fat0: bytes, nxt: nat, count: nat) returns (r: Result<bytes, FatError>)
    ensures r == FileChain(fat0, nxt, count)
  {
    if count == 0 {
      return Ok(fat0);
    }
    var fat: bytes := fat0;
    var i: nat := 0;
    while i < count - 1
      invariant i <= count - 1 && Links(fat0, nxt, i) == Ok(fat)
    {
      var link := FatSet(fat, nxt + i, nxt + i + 1);
      if link.Err? {
        LinksStuck(fat0, nxt, i + 1, count - 1);
        return Err(StructError);
      }
      fat := link.value;
      i := i + 1;
    }
    r := FatSet(fat, nxt + count - 1, EOF);
  }

  /** The loop of `build_image` over the files, with `nxt` running over the clusters. */
  method FillTable(size: nat, files: seq<File>) returns (r: Result<bytes, FatError>, nxt: nat)
    ensures r == Table(size, files)
    ensures r.Ok? ==> nxt == First(files, |files|)
  {
    var fat: bytes := Zeros(size);
    nxt := 2;
    var k: nat := 0;
    while k < |files|
      invariant k <= |files| && nxt == First(files, k)
      invariant Chains(Zeros(size), files, k) == Ok(fat)
    {
      var count := (|files[k].payload| + 511) / 512;
      var chained := FillChain(fat, nxt, count);
      if chained.Err? {
        assert chained.error.StructError?;
        ChainsStuck(Zeros(size), files, k + 1, |files|);
        return Err(StructError), nxt;
      }
      fat, nxt, k := chained.value, nxt + count, k + 1;
    }
    r := FatSet(fat, 0, EOF);
    if r.Ok? {
      r := FatSet(r.value, 1, EOF);
    }
  }

  lemma {:induction false} LinksStuck(fat: bytes, first: nat, m: nat, n: nat)
    requires m <= n && Links(fat, first, m) == Err(StructError)
    ensures Links(fat, first, n) == Err(StructError)
  {
    if m < n { LinksStuck(fat, first, m, n - 1); }
  }

  lemma {:induction false} ChainsStuck(fat: bytes, files: seq<File>, m: nat, n: nat)
    requires m <= n <= |files| && Chains(fat, files, m) == Err(StructError)
    ensures Chains(fat, files, n) == Err(StructError)
  {
    if m < n { ChainsStuck(fat, files, m, n - 1); }
  }

  // ---------------------------------------------------------------- the kernel's free count

  /** Free entries among clusters 2..n-1. */
  function FreeBelow(fat: bytes, n: nat): nat
    requires 2 * n <= |fat|
  {
    if n <= 2 then 0 else FreeBelow(fat, n - 1) + (if Entry(fat, n - 1) == 0 then 1 else 0)
  }

  /** `count_free` for a 16-bit table; clusters the table does not reach count as free. */
  method CountFree(fat: bytes, clusters: nat) returns (free: nat)
    requires |fat| % 2 == 0 && |fat| >= 4 && clusters + 2 < 0x1_0000_0000
    ensures |fat| / 2 >= clusters + 2 ==> free == FreeBelow(fat, clusters + 2)
    ensures |fat| / 2 < clusters + 2 ==> free == FreeBelow(fat, |fat| / 2) + (clusters + 2 - |fat| / 2)
  {
    var limit := |fat| / 2;
    if limit > clusters + 2 {
      limit := clusters + 2;
    }
    free := 0;
    var i := 2;
    while i < limit
      invariant 2 <= i <= limit && free == FreeBelow(fat, i)
    {
      var v := fat[i * 2] as int + 256 * fat[i * 2 + 1] as int;
      if v == 0 {
        free := free + 1;
      }
      i := i + 1;
    }
    if clusters > limit - 2 {
      free := free + (clusters - (limit - 2));
    }
  }

  lemma {:induction false} FreeOfTable(size: nat, files: seq<File>, n: nat)
    requires 2 * First(files, |files|) <= size && First(files, |files|) < 0x1_0000 && 2 <= n && 2 * n <= size
    ensures Table(size, files).Ok? && |Table(size, files).value| == size
    ensures FreeBelow(Table(size, files).value, n) == Max0(n - First(files, |files|))
    decreases n
  {
    TableEntries(size, files);
    if n > 2 {
      FreeOfTable(size, files, n - 1);
      LinkUsed(files, |files|, n - 1);
      assert Entry(Table(size, files).value, n - 1) == Link(files, |files|, n - 1);
    }
  }

  function Max0(x: int): nat { if x < 0 then 0 else x }

  /** Written by the image tool and counted by the kernel: free is planned minus used. */
  lemma {:induction false} FreeIsPlannedMinusUsed(size: nat, files: seq<File>, clusters: nat)
    requires 2 * (clusters + 2) <= size && First(files, |files|) <= clusters + 2 < 0x1_0000
    ensures Table(size, files).Ok? && |Table(size, files).value| == size
    ensures FreeBelow(Table(size, files).value, clusters + 2) == clusters - (First(files, |files|) - 2)
  {
    FreeOfTable(size, files, clusters + 2);
  }
}

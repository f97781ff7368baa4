/** Volume planning of tools/mkqizoimg/mkqizoimg.py: `fat_size_for`, `plan_layout` and
    `pick_layout`, for 16-bit FATs. */
module ImagePlan {
  import opened Bytes
  import opened BootLayout

  const RESERVED: nat := 32
  const ROOT_SECTORS: nat := 14
  const MIN_CLUSTERS: nat := 4085

  datatype Layout = Layout(fatSize: nat, clusters: nat, reserved: nat, rootSectors: nat, partLba: nat)

  function Max(a: int, b: int): int { if a < b then b else a }

  /** Sectors needed for a 16-bit FAT of the given number of entries. */
  function FatSizeFor(entries: int): (r: nat)
    ensures r >= 1 && r * 256 >= entries
  {
    Max(1, (entries * 16 + SECTOR * 8 - 1) / (SECTOR * 8))
  }

  function DataSectors(total: nat, part: nat, reserved: nat, fatSize: nat): int {
    total - part - reserved - 2 * fatSize - ROOT_SECTORS
  }

  /** A plan whose FAT covers every cluster and whose regions tile the volume exactly. */
  ghost predicate GoodPlan(total: nat, part: nat, reserved: nat, l: Layout) {
    && l.partLba == part && l.reserved == reserved && l.rootSectors == ROOT_SECTORS
    && l.clusters >= MIN_CLUSTERS && l.fatSize >= 1
    && l.fatSize * 256 >= l.clusters + 2
    && part + reserved + 2 * l.fatSize + ROOT_SECTORS + l.clusters == total
  }

  /** The FAT size the planner settles on: what a one-sector FAT would leave to be mapped. */
  function PlannedFatSize(total: nat, part: nat, reserved: nat): nat {
    FatSizeFor(DataSectors(total, part, reserved, 1) + 2)
  }

  /** `plan_layout(total, part, reserved, 16)`; `passes` counts loop passes and `broke` says
      whether the loop ended by its break. */
  method PlanLayout(total: nat, part: nat, reserved: nat) returns (r: Option<Layout>, passes: nat, broke: bool)
    ensures broke && passes <= 2
    ensures r.Some? <==> DataSectors(total, part, reserved, PlannedFatSize(total, part, reserved)) >= MIN_CLUSTERS
    ensures r.Some? ==> GoodPlan(total, part, reserved, r.value)
                        && r.value.fatSize == PlannedFatSize(total, part, reserved)
  {
    var fatSize := 1;
    passes, broke := 0, false;
    while passes < 48
      invariant passes <= 1 && !broke
      invariant fatSize == if passes == 0 then 1 else PlannedFatSize(total, part, reserved)
    {
      passes := passes + 1;
      var need := FatSizeFor(DataSectors(total, part, reserved, fatSize) + 2);
      if need <= fatSize {
        broke := true;
        break;
      }
      fatSize := need;
    }
    var clusters := DataSectors(total, part, reserved, fatSize);
    if clusters < MIN_CLUSTERS {
      return None, passes, broke;
    }
    return Some(Layout(fatSize, clusters, reserved, ROOT_SECTORS, part)), passes, broke;
  }

  /** What `pick_layout` ends with, for every blob the image can hold. */
  function PickedTotal(part: nat): nat { part + RESERVED + 2 + 14 + 4096 + 256 }

  /** `pick_layout`: grow the image until a 16-bit volume fits. The first size is always refused,
      the second always accepted. */
  method PickLayout(blobSectors: nat) returns (total: nat, r: Option<Layout>)
    requires blobSectors <= 248
    ensures total == PickedTotal(BLOB_LBA + blobSectors) && r.Some?
    ensures GoodPlan(total, BLOB_LBA + blobSectors, RESERVED, r.value)
    ensures r.value.fatSize == 18 && r.value.clusters == 4318
  {
    var part := BLOB_LBA + blobSectors;
    total, r := part + RESERVED + 2 + 14 + 4096, None;
    ghost var first := total;
    while total < 0x40_0000
      invariant total == first || total == first + 256
    {
      var l, passes, broke := PlanLayout(total, part, RESERVED);
      if l.Some? {
        return total, l;
      }
      total := total + 256;
    }
  }
}

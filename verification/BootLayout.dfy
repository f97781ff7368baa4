/** Where things lie on the disk and in memory during the boot (boot/qizoboot.inc). */
module BootLayout {
  // ---------------------------------------------------------------- disk

  const SECTOR: nat := 512
  const PART_LBA: nat := 16
  const STAGE2_SECTORS: nat := 8
  const STAGE2_BYTES: nat := 0x1000
  const BLOB_LBA: nat := 24
  const BLOB_MAX: nat := 248 * 512

  // ---------------------------------------------------------------- memory

  const LOAD: nat := 0x7C00
  const ARG: nat := 0x7DD0
  const DAP: nat := 0x7E00
  const BOOTINFO: nat := 0x10000
  const STAGE2: nat := 0x20000
  const BLOB_PHYS: nat := 0x21000
  const KTEXT: nat := 0x100000
  const SCRATCH: nat := 0x180000
  const BOOT_PAGES: nat := 0x300000
  const HHDM: nat := 0xFFFF888000000000

  // ---------------------------------------------------------------- kernel module

  const KERNEL_MAX: nat := 0x80000
  const QIZOK_MAGIC: nat := 0x4B4F5A49
  const QIZOK_HDR: nat := 64
}

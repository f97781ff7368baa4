# Qizo: the boot image, the boot chain and the kernel's core state, verified

Qizo is a from-scratch x86-64 system. A Python tool packs the kernel into a compressed module, lays out a
FAT16 disk around it and writes the boot arguments; two boot stages read that disk back, check and unpack the
module and jump into the kernel; the kernel then manages physical frames, page tables, a text console and two
interrupt-fed input rings. This project models that path in Dafny and proves that the two ends of each piece
agree: writer and reader, fast form and simple form, abstract state and the loops that keep it.

`dafny verify dfyconfig.toml` checks everything. Nothing here runs the original programs.

## What is proved

- **From kernel file to running kernel.** `BootChain.MakeAndBoot`: for every input the image tool accepts with a stage1
  of one sector, building the disk and replaying the boot on it raises no error exactly when the entry point is inside
  the kernel; memory then holds the kernel bytes unchanged at 0x100000, then zeros up to its total size, and no two boot
  regions overlap. With a longer stage1 the disk is shifted: as long as the excess fits the padding of stage2 it never
  boots, and in general exactly when the shifted disk happens to be bootable. `BootReplay.Replay` says for *every* disk
  when the replay succeeds. `BootChain.MakeAndJump` proves the same of the 32-bit assembly of boot/stage2.S, down to its
  error bytes, under the exact conditions it adds: kernel linked at 0x100000, and no overflow of the checksum loop on the
  last byte.
- **One format, two decoders.** Items (a literal, or a repeat of earlier bytes) have a meaning (`Replay`) and a byte
  encoding in groups of eight. The greedy compressor is proved against them (round trip for every input and every
  trailing suffix, overlapping copies included; output bound; match search optimal), and so are the Python decoder with
  its nested loops and the assembly decoder, a flat one-bit-at-a-time register machine that simulates it.
- **Checksum with one conditional subtraction.** A is exact, B is congruent and at most 65774, and the register value
  is the RFC 1950 checksum *if and only if* the last byte does not overflow.
- **FAT volume.** What `build_image` writes, the independent reader `check_fs` returns: every file, empty ones
  included; both FAT copies are equal; the planner stops within two passes with regions that tile the disk; the
  kernel's free count is planned minus used.
- **Frames and pages.** The bitmap refines a set of frames; first fit and lowest run are what the two searches
  compute; over whole runs, for every memory map and boot information, live allocations stay apart and clear of
  everything reserved; the counters are right at the end of a run exactly when no call of `qizo_pma_free` on the way
  counted a frame twice; every byte of every page handed out walks, through the tables the kernel builds, to the frame
  the bitmap accounts for, and lies outside those tables.
- **Rings and console.** The keyboard ring is right under every interleaving of interrupts with the single memory
  accesses of its reader; the mouse ring holds the newest packets; the 80x25 console is the last 25 rows of an unbounded
  transcript.

Code that updates things in place (memory, bitmap, page tables, rings, screen) is modelled by classes, arrays and
loops, each method proved against a specification function or predicate; the properties are lemmas about those. Every
lemma has automatic induction off, so a proof is what its body says.

### Where the code is not what one might expect

- `qizo_pma_free` proceeds only for a frame whose bit is already set, so it never changes the bitmap but moves the
  counters: `PmaSpec.FreeCounted` says exactly when the counters stay right (when the call does nothing),
  `PmaDriver.FreeDrifts` that every free frame gives a failing call right after initialisation, and `PmaSpec.RunCounted`
  that no later call repairs it. `qizo_page_free` is the inverse of allocation.
- The scratch area is reserved only if it ends below the managed top, and the kernel only if its end does not wrap
  32 bits: `PmaDriver.ScratchExposed` and `PmaDriver.KernelExposed` say exactly which of their frames are handed out
  otherwise, `PmaDriver.ScratchHandedOut` and `PmaDriver.KernelHandedOut` give such inputs.
- The stage2 checksum differs from RFC 1950 when the last byte makes A wrap while B is near the modulus:
  `Adler.OverflowHappens` is a sector of 512 bytes. A blob with at least one padding byte is never affected.
- The image tool does not check that the entry point is inside the kernel; both boot paths do.
- The slice assignment that puts stage1 on the disk moves everything behind it when stage1 is longer than one sector;
  `BootImage.LoadedParts` states by how much, `BootChain.ShiftedNeverBoots` that such a disk does not boot.
- A blob made with the raw option boots on neither path (`BootChain.RawNeverBoots`): the replay wants a stream, and the
  raw branch of the assembly keeps the eight bytes in front of the module.
- Bytes 34 and 35 of the volume's boot sector are overwritten after the 32-bit size was stored there, so the kernel's
  free count is taken with the planned cluster count.
- The Python decoder reads a match that reaches before the output with Python's negative indices, the assembly reads
  whatever lies in memory there; they agree on well-formed streams, which is what the compressor produces.
- Of the sizes `pick_layout` tries, the first is always refused and the second always accepted.

## Model

| member | source | states |
|---|---|---|
| `LzssFormat.TokenRoundTrip` | tools/common/qizolzss.py:26-30 | every match token fits 16 bits and unpacks to the offset and length it was packed from |
| `LzssFormat.TokenComplete` | tools/common/qizolzss.py:79-82 | every 16-bit word unpacks to a legal match and is that match's token, so packing is a bijection |
| `LzssFormat.FlagsBit` | tools/common/qizolzss.py:22-34 | bit k of a group's flag byte says whether item k is a match |
| `LzssFormat.WellFormedRuns` | tools/common/qizolzss.py:63-89 | a well-formed stream decodes without error to between total and total + 17 bytes |
| `LzssFormat.DecodesItems` | tools/common/qizolzss.py:70-89 | from any point of an encoded item list the decoder yields what the remaining items mean and ignores what follows |
| `LzssFormat.EncodedDecodes` | tools/common/qizolzss.py:63-89 | decoding inverts encoding for every replayable item list and every suffix, and the stream is well formed |
| `LzssFormat.StreamSize` | tools/common/qizolzss.py:19-34 | a stream is its item bytes plus one flag byte per eight items |
| `LzssFormat.PyCopyIsCopyBack` | tools/common/qizolzss.py:83-85 | the append loop is the overlapping byte-by-byte copy whenever the offset is inside the output |
| `LzssFormat.SuffixIgnored` | tools/common/qizolzss.py:63-89 | whatever decodes, well formed or not, decodes to the same bytes with anything behind it; a short input or another magic is refused |
| `LzssTool.FindMatchIsOptimal` | tools/common/qizolzss.py:38-60 | the search result is a match at least as long as any in the window, nearest among equals, and none only if none exists |
| `LzssTool.CommonLoop` | tools/common/qizolzss.py:49-51 | the inner loop counts how many bytes repeat, up to the limit |
| `LzssTool.ScanWindow` | tools/common/qizolzss.py:42-57 | the backward scan with early exit finds the best candidate of the whole window |
| `LzssTool.FindMatchLoop` | tools/common/qizolzss.py:38-60 | the loops compute the optimal search |
| `LzssTool.CopyRebuilds` | tools/common/qizolzss.py:83-85 | a match of the input against itself rebuilds the input, also when source and output overlap |
| `LzssTool.ParseReplays` | tools/common/qizolzss.py:19-33 | the greedy items from any position mean the rest of the input |
| `LzssTool.RoundTrip` | tools/common/qizolzss.py:15-35 | compress, append anything, decompress: the input comes back, for every input below 2^32 bytes |
| `LzssTool.CompressionBound` | tools/common/qizolzss.py:15-35 | the output is at most 8 + n + ceil(n/8) bytes |
| `LzssTool.NextItem` | tools/common/qizolzss.py:26-33 | one pass of the bit loop emits the next greedy item's code and its flag bit |
| `LzssTool.FillGroup` | tools/common/qizolzss.py:20-33 | one group: up to eight greedy items, fewer only at the end of the input, flag byte still to be patched |
| `LzssTool.FillCloses` | tools/common/qizolzss.py:34-34 | patching the flag byte completes the encoding of the group |
| `LzssTool.Compress` | tools/common/qizolzss.py:15-35 | the loops return header and stream of the greedy items, or fail when the length does not fit 32 bits |
| `LzssTool.Decompress` | tools/common/qizolzss.py:63-89 | the nested loops compute the step decoder, error cases included |
| `LzssTool.AppendCopy` | tools/common/qizolzss.py:84-85 | the innermost loop, with Python's negative indices and index errors |
| `Stage2Decoder.CopyLoop` | boot/stage2.S:659-666 | copies count bytes from off bytes back, possibly into its own source, and changes nothing else of the memory the boot shares |
| `Stage2Decoder.DecompMatch` | boot/stage2.S:647-668 | unpacks the token and performs that copy |
| `Stage2Decoder.DecompItem` | boot/stage2.S:632-639 | one item moves the machine as one step moves the Python decoder |
| `Stage2Decoder.DecompPass` | boot/stage2.S:623-645 | mask, refill and item together keep the simulation and consume input |
| `Stage2Decoder.DecompStream` | boot/stage2.S:611-645 | the whole loop leaves the Python decoder's bytes, at most 17 past the declared length |
| `Stage2Decoder.DecompRaw` | boot/stage2.S:618-676 | an input without the magic is copied whole, its first eight bytes included |
| `Stage2Decoder.QizoDecompress` | boot/stage2.S:602-691 | returns 1 and leaves exactly its output: for every well-formed stream the Python decoder's bytes, without the magic the input itself |
| `Adler.LoopInvariant` | boot/stage2.S:579-595 | A is exact; B is congruent to the RFC value, at most 65774, and unreduced exactly when the last byte overflows |
| `Adler.StepBounds` | boot/stage2.S:580-590 | the bounds one pass keeps, B being added before A is reduced |
| `Adler.PackedIsAdler32` | boot/stage2.S:596-600 | the register value is the RFC checksum if and only if the last byte does not overflow |
| `Adler.PaddedIsAdler32` | tools/mkqizoimg/mkqizoimg.py:232-234 | data ending in a zero byte is always summed right |
| `Adler.OverflowHappens` | boot/stage2.S:581-590 | a sector on which the register value is not the checksum |
| `Adler.AdlerByte` | boot/stage2.S:580-590 | one pass of the loop, with 32-bit registers |
| `Adler.QizoAdler` | boot/stage2.S:573-600 | the routine computes the packed value of the bytes it is pointed at |
| `Adler.HandAdler` | tools/qizocheck/qizotest.py:24-29 | the simple loop equals the definition by sums |
| `ImagePlan.FatSizeFor` | tools/mkqizoimg/mkqizoimg.py:24-29 | at least one sector, and room for that many 16-bit entries |
| `ImagePlan.PlanLayout` | tools/mkqizoimg/mkqizoimg.py:32-48 | leaves its loop by the break within two passes; refuses exactly the volumes that are too small; otherwise the FAT covers clusters + 2 and the regions tile the disk |
| `ImagePlan.PickLayout` | tools/mkqizoimg/mkqizoimg.py:55-64 | ends with the second size tried, with 18-sector FATs and 4318 clusters |
| `FatTable.FatSetEntry` | tools/mkqizoimg/mkqizoimg.py:169-179 | setting an entry changes that entry and no other |
| `FatTable.ChainEntries` | tools/mkqizoimg/mkqizoimg.py:135-139 | one file's entries name their successors and end with the end mark; all others stay |
| `FatTable.TableEntries` | tools/mkqizoimg/mkqizoimg.py:127-142 | every entry of the table: reserved, link of a file, or free |
| `FatTable.LinkUsed` | tools/mkqizoimg/mkqizoimg.py:129-140 | an entry is in use exactly below the first cluster past the last file |
| `FatTable.LinkInFile` | tools/mkqizoimg/mkqizoimg.py:137-139 | inside a file's clusters the table holds that file's chain |
| `FatTable.FillChain` | tools/mkqizoimg/mkqizoimg.py:137-139 | the loop writes one chain, or fails at the table's end |
| `FatTable.FillTable` | tools/mkqizoimg/mkqizoimg.py:127-142 | the loop over files writes the table and ends at the first unused cluster |
| `FatTable.CountFree` | kernel/drivers/fat.c:71-88 | counts zero entries of real clusters; clusters the table does not reach count as free |
| `FatTable.FreeIsPlannedMinusUsed` | kernel/drivers/fat.c:66-88 | over the table the tool writes, the kernel's free count is planned minus used clusters |
| `Directory.NameRoundTrip` | tools/qizocheck/qizocheck.py:63-66 | every stored 8.3 name reads back as itself |
| `Directory.NameReadsUpper` | tools/mkqizoimg/mkqizoimg.py:67-76 | a name in any case is stored, and reads back, in upper case |
| `Directory.EntryFields` | tools/mkqizoimg/mkqizoimg.py:67-88 | attribute, first cluster, size, times and dates read back from an entry |
| `Directory.EntryNotEnd` | tools/mkqizoimg/mkqizoimg.py:72-75 | an entry never starts with the zero that ends a directory |
| `ImageTool.BootSectorReads` | tools/mkqizoimg/mkqizoimg.py:97-122 | the geometry fields of the volume's boot sector read back as planned |
| `ImageTool.BootSectorExtended` | tools/mkqizoimg/mkqizoimg.py:108-121 | partition start, 16-bit size, serial number, label and type read back; the 32-bit size comes back with its upper half replaced by 0x180 |
| `ImageTool.ClusterOfFile` | tools/mkqizoimg/mkqizoimg.py:130-140 | a file is in the dictionary exactly when it is not empty, with its first cluster |
| `ImageTool.RootEntries` | tools/mkqizoimg/mkqizoimg.py:143-151 | the directory is the label, one entry per file, and zeros |
| `ImageTool.PayloadsStored` | tools/mkqizoimg/mkqizoimg.py:158-163 | after the write loop every file's bytes are in its clusters |
| `ImageTool.ImageHolds` | tools/mkqizoimg/mkqizoimg.py:91-166 | whatever fits is all on the disk: boot sector, both FATs, directory, files, stage2, blob, none overwriting another |
| `ImageTool.NumberFiles` | tools/mkqizoimg/mkqizoimg.py:130-140 | the loop numbers the files' clusters |
| `ImageTool.FillRoot` | tools/mkqizoimg/mkqizoimg.py:143-151 | the loop fills the root directory |
| `ImageTool.StorePayloads` | tools/mkqizoimg/mkqizoimg.py:158-163 | the loop writes the file contents |
| `ImageTool.BuildImage` | tools/mkqizoimg/mkqizoimg.py:91-166 | the whole tool step returns that disk and the number of clusters used, or the packing error |
| `FatReader.ReadDirLoop` | tools/qizocheck/qizocheck.py:56-66 | the directory loop lists entries up to the first empty one, skipping labels, and fails on entries cut off by the end of the image |
| `FatReader.WalkChain` | tools/qizocheck/qizocheck.py:69-76 | the chain walk collects the clusters a chain names |
| `FatReader.CheckFs` | tools/qizocheck/qizocheck.py:37-77 | the reader computes the dictionary of files on an image, or the error it stops with |
| `FatReader.RefusesOthers` | tools/qizocheck/qizocheck.py:38-52 | the reader goes on exactly when the partition sector is on the image with signature, sector size and media byte right |
| `FatReader.DirOfWritten` | tools/qizocheck/qizocheck.py:56-66 | a directory whose slots describe given records lists exactly those |
| `FatReader.DirOfRoot` | tools/qizocheck/qizocheck.py:56-66 | a directory of a label and described slots lists exactly the records |
| `FatReader.ChainReads` | tools/qizocheck/qizocheck.py:69-76 | from any cluster of a linked run the walk reads to the end of the run |
| `FatReader.VolumeRoundTrip` | tools/qizocheck/qizocheck.py:37-90 | on any image that holds the volume of a list of distinct 8.3 files, the reader returns each payload, empty files included, and both FAT copies are equal |
| `BootImage.MakeImage` | tools/mkqizoimg/mkqizoimg.py:195-274 | the tool succeeds exactly on the inputs it should accept, with a disk of the requested or picked size described by the other members; each refusal names a defect the input has |
| `BootImage.ChooseLayout` | tools/mkqizoimg/mkqizoimg.py:243-250 | a layout is found exactly when one can be planned, and it is a good plan |
| `BootImage.ArmedFields` | tools/mkqizoimg/mkqizoimg.py:236-238 | the argument block holds start sector, sector count and checksum; the length is kept |
| `BootImage.MbrShift` | tools/mkqizoimg/mkqizoimg.py:264-265 | putting stage1 on the disk moves everything behind the first sector by its excess length |
| `BootImage.EntryStores` | tools/mkqizoimg/mkqizoimg.py:266-273 | the partition entry changes its 16 bytes only and records kind, start and length |
| `BootImage.LoadedParts` | tools/mkqizoimg/mkqizoimg.py:240-265 | stage2 and blob are on the finished disk, shifted by exactly the excess length of stage1 |
| `BootImage.BootArguments` | tools/mkqizoimg/mkqizoimg.py:236-273 | start sector, count and checksum for the boot code, and an active FAT16 partition with its start and length, are in the first sector |
| `BootImage.Stage1Kept` | tools/mkqizoimg/mkqizoimg.py:264-273 | the boot code before the partition table and the signature are those of stage1 |
| `BootImage.EveryVolumeReads` | tools/mkqizoimg/mkqizoimg.py:91-179 | for every list of files that fits: on the disk `build_image` returns, with a boot sector and partition entry over its first sector, the reader finds each file intact |
| `BootImage.FilesOnDisk` | tools/mkqizoimg/mkqizoimg.py:251-274 | on the finished disk the file check finds README.TXT and KERNEL.BIN, intact, and nothing else |
| `Memory.Mem.Write` | tools/qizocheck/qizobootmodel.py:23-24 | inside the buffer the data is read back and every other byte and the size stay; across the end the buffer grows to hold the data |
| `BootReplay.Int13Read` | tools/qizocheck/qizobootmodel.py:45-63 | succeeds exactly on a good packet inside the disk; then memory changes by exactly those sectors, else not at all, and the error names a fault the packet has |
| `BootReplay.SetDap` | tools/qizocheck/qizobootmodel.py:73-80 | the packet holds count, address and sector, and nothing outside it changes |
| `BootReplay.ReadChunk` | tools/qizocheck/qizobootmodel.py:71-84 | one pass appends up to 64 sectors to what is loaded, or fails, with the error that applies, exactly when they are out of reach |
| `BootReplay.Stage1` | tools/qizocheck/qizobootmodel.py:66-85 | everything the arguments ask for is loaded in order, exactly when all of it can be read below the limit, on disks of any length |
| `BootReplay.ArgsDecide` | tools/qizocheck/qizobootmodel.py:66-70 | the arguments stage1 sees decide whether the disk is readable; one too short for a boot sector never is |
| `BootReplay.Stage2Real` | tools/qizocheck/qizobootmodel.py:88-104 | every field of the boot information block is set and nothing outside it changes |
| `BootReplay.Stage2Pm32` | tools/qizocheck/qizobootmodel.py:107-124 | succeeds exactly when checksum, stream and header are right and the entry is inside; then the kernel and its zeros are in place; each error exactly in its case |
| `BootReplay.InstallModule` | tools/qizocheck/qizobootmodel.py:113-124 | the header checks, copy and clear: Ok exactly for a good module with its entry inside |
| `BootReplay.RegionsApart` | tools/qizocheck/qizobootmodel.py:138-148 | for every kernel size the checks admit, no two boot regions share an address |
| `BootReplay.RegionsCover` | tools/qizocheck/qizobootmodel.py:138-148 | everything the boot writes after stage1 lies in one of the regions |
| `BootReplay.LoadBoot` | tools/qizocheck/qizobootmodel.py:162-165 | the blob of the disk ends up where stage2 looks for it, exactly when the disk is readable; nothing to decompress exactly when too little is asked for |
| `BootReplay.Replay` | tools/qizocheck/qizobootmodel.py:151-178 | on every disk: success if and only if it is bootable, the entry is inside and the kernel is the expected one; a difference is reported exactly when only the last fails |
| `BootChain.BlobDecodes` | tools/mkqizoimg/mkqizoimg.py:223-233 | the padded blob is a well-formed stream of exactly header plus kernel |
| `BootChain.PayloadFields` | tools/mkqizoimg/mkqizoimg.py:217-225 | every field of the module header, and the kernel behind it |
| `BootChain.MakeAndBoot` | tools/qizocheck/qizobootmodel.py:45-148 | build then replay: one-sector stage1 succeeds exactly when the entry is inside the kernel, delivering kernel and zeros with all regions apart; any longer stage1 within the padding of stage2 fails; in general success exactly on a bootable disk |
| `BootChain.ShiftedNeverBoots` | tools/mkqizoimg/mkqizoimg.py:240-265 | a stage1 longer than one sector by no more than the padding of stage2 gives a disk that is not bootable |
| `BootChain.QizoPm32` | boot/stage2.S:394-442 | checksum, unpacking, header checks in order with their error bytes; after a jump the load address holds as many bytes after the header as it says, then zeros, and the boot information block holds size, entry, total and bss size beside what was there |
| `BootChain.CheckAndCopy` | boot/stage2.S:409-442 | the header checks decide as stated and change nothing; on a jump the bytes after the header are at the load address, then zeros, and size, entry, total and bss size are recorded |
| `BootChain.VerdictMeans` | boot/stage2.S:410-425 | it jumps exactly when magic, sizes, base and entry are all in range, to base plus entry |
| `BootChain.Stage2OnBuilt` | boot/stage2.S:394-442 | on a built blob: jumps exactly when linked at 0x100000, entry inside and no checksum overflow, with the kernel's sizes recorded for it |
| `BootChain.Stage2OnShifted` | boot/stage2.S:394-425 | on a shifted disk the assembly stops with a wrong checksum or no module |
| `BootChain.MakeAndJump` | boot/stage2.S:394-442 | tool, disk reads and assembly in one run: it jumps exactly when stage1 is one sector and the conditions above hold |
| `BootChain.PaddedBlobIsSafe` | tools/mkqizoimg/mkqizoimg.py:232-234 | a compressed module that does not fill its last sector never meets the overflow |
| `BootChain.RawNeverBoots` | tools/mkqizoimg/mkqizoimg.py:226-227 | a raw blob is no stream for the replay and no module for the assembly |
| `Frames.MarkWordBits` | kernel/drivers/pma.c:25-33 | the or and the and-not change bit k of a word and no other |
| `Frames.FreeMarked` | kernel/drivers/pma.c:25-33 | marking adds one frame to the set of free frames or removes it |
| `Frames.CountStep` | kernel/drivers/pma.c:108-112 | counting set bits one by one counts the set |
| `PmaSpec.AllocIsFirstFit` | kernel/drivers/pma.c:117-139 | single allocation takes the first free frame in cyclic order from the hint and fails only if none is free |
| `PmaSpec.HintMoves` | kernel/drivers/pma.c:133-135 | after an allocation the hint is the next frame, cyclically; a failed one leaves it |
| `PmaSpec.HintStays` | kernel/drivers/pma.c:141-216 | the other calls leave the hint alone |
| `PmaSpec.NextFit` | kernel/drivers/pma.c:117-216 | allocate, give back, allocate again: the same frame comes back if and only if no other is free |
| `PmaSpec.LowestRunIsLowest` | kernel/drivers/pma.c:177-203 | the run taken is the lowest of its length; none is found only if none exists |
| `PmaSpec.StepSafe` | kernel/drivers/pma.c:117-216 | every call keeps live allocations apart, inside memory and the initial pool, and not free |
| `PmaSpec.RunSafe` | kernel/drivers/pma.c:117-216 | so does every run of calls |
| `PmaSpec.PageFreeSafe` | kernel/drivers/pma.c:205-216 | giving back a live allocation frees exactly its frames |
| `PmaSpec.RunCounted` | kernel/drivers/pma.c:122-216 | at the end of a run free counts the set bits, used the frames held, and their sum is the initial count, if and only if no call of `qizo_pma_free` counted a frame twice |
| `PmaSpec.DriftStays` | kernel/drivers/pma.c:117-216 | once the free counter is ahead of the set bits, every call leaves it ahead |
| `PmaSpec.FreeCounted` | kernel/drivers/pma.c:141-155 | the counters stay right across `qizo_pma_free` if and only if the call does nothing |
| `PmaSpec.GivingBack` | kernel/drivers/pma.c:141-216 | null and low addresses do nothing; a free frame given to `qizo_pma_free` moves one count from used to free |
| `PmaDriver.Allocator.FrameOk` | kernel/drivers/pma.c:18-23 | true exactly for the frames in the free set |
| `PmaDriver.Allocator.Mark` | kernel/drivers/pma.c:25-33 | the word update adds one frame to the free set or removes it; frames past the end are ignored |
| `PmaDriver.Allocator.MarkRange` | kernel/drivers/pma.c:35-43 | marks exactly the frames the byte range touches, with 64-bit wrap-around |
| `PmaDriver.Allocator.Init` | kernel/drivers/pma.c:45-115 | the state after initialisation: total, free set, counters and hint |
| `PmaDriver.TopIsHighest` | kernel/drivers/pma.c:55-75 | the managed top is the highest end of a usable entry that starts below 1 GiB, else the reported total, kept between 24 MiB and 1 GiB |
| `PmaDriver.KernelEndRounds` | kernel/drivers/pma.c:94-97 | the reserved kernel ends at the first page boundary after its bss |
| `PmaDriver.Allocator.FindFrame` | kernel/drivers/pma.c:122-128 | the search loop computes first fit |
| `PmaDriver.Allocator.Alloc` | kernel/drivers/pma.c:117-139 | new state and address returned |
| `PmaDriver.Allocator.FreeFrame` | kernel/drivers/pma.c:141-155 | the bitmap is unchanged, the counters move as coded |
| `PmaDriver.Allocator.FindRun` | kernel/drivers/pma.c:185-197 | the run-counting loop finds the lowest run |
| `PmaDriver.Allocator.PageAlloc` | kernel/drivers/pma.c:177-203 | new state and address returned; zero pages count as one |
| `PmaDriver.Allocator.PageFree` | kernel/drivers/pma.c:205-216 | new state, for any address and page count, frame numbers wrapping at 64 bits |
| `PmaDriver.InitCharacterised` | kernel/drivers/pma.c:45-115 | without address wrap a frame is free after init exactly when it is managed, in a usable entry and in no reserved range |
| `PmaDriver.PoolAvoidsReserved` | kernel/drivers/pma.c:93-107 | for every boot information: the initial pool is clear of the low megabyte, the blob, the kernel up to its rounded end, and of kernel with bss and scratch area under the code's own conditions; without boot information it is empty |
| `PmaDriver.ScratchExposed` | kernel/drivers/pma.c:103-107 | a frame of the scratch area is handed out if and only if the test fails, the memory map backs it and no other range covers it |
| `PmaDriver.KernelExposed` | kernel/drivers/pma.c:94-100 | a frame of the kernel with its bss is handed out if and only if the end wraps, the frame is past it, backed and not covered otherwise |
| `PmaDriver.ScratchHandedOut` | kernel/drivers/pma.c:105-106 | a memory map and scratch address for which a scratch page is free after init |
| `PmaDriver.KernelHandedOut` | kernel/drivers/pma.c:95-100 | a kernel size for which a kernel page is free after init |
| `PmaDriver.InitIsSafe` | kernel/drivers/pma.c:108-115 | initialisation starts every run in a safe and counted state |
| `PmaDriver.ReachableAvoidsReserved` | kernel/drivers/pma.c:93-216 | over whole runs from init, for every boot information, nothing handed out overlaps a reserved range or another live allocation |
| `PmaDriver.CountersFromInit` | kernel/drivers/pma.c:108-216 | from init on the counters are right exactly as long as `qizo_pma_free` has not counted a frame twice |
| `PmaDriver.FreeDrifts` | kernel/drivers/pma.c:141-155 | right after init, giving back any free frame once makes the free counter wrong |
| `Paging.PagingSetup` | kernel/boot64.S:41-106 | the loops leave exactly the intended table entries |
| `Paging.KernelWalk` | kernel/boot64.S:54-106 | walking the tables is identity on the low GiB, subtracts the direct-map base on the high GiB, and faults on every other canonical address |
| `Paging.BuildPages` | boot/stage2.S:707-743 | the boot loader's table block, entry by entry |
| `Paging.BootWalk` | boot/stage2.S:707-743 | those tables map exactly the low 4 GiB, each address to itself |
| `Paging.EntriesWritable` | kernel/boot64.S:54-106 | every table entry in use is present, writable and closed to user mode |
| `PmaPaging.HandedOutPagesAreMapped` | kernel/drivers/pma.c:13-16 | in every reachable state each byte of each page handed out walks to the frame the bitmap accounts for, which is not free |
| `PmaPaging.ClientsCannotReachTables` | kernel/boot64.S:41-106 | from init on, pages handed out are mapped to their frames and lie outside the tables while those are in the kernel image |
| `Keyboard.RunKeepsInv` | kernel/drivers/kbd.c:72-122 | every schedule of interrupts and reader accesses keeps the ring equal to accepted minus delivered keys and the reader's half-read values right |
| `Keyboard.EveryInterleaving` | kernel/drivers/kbd.c:72-122 | under every schedule: delivered is a prefix of accepted, the rest is in the ring in order, at most 255 wait |
| `Keyboard.GetDelivers` | kernel/drivers/kbd.c:113-122 | a reader that has seen a key returns the oldest one, whatever interrupts come between |
| `Keyboard.EmptyMeansEmpty` | kernel/drivers/kbd.c:117-118 | the reader reports an empty ring exactly when it was empty as it read the head |
| `Keyboard.DroppedOnlyWhenFull` | kernel/drivers/kbd.c:72-80 | a key is dropped exactly when 255 are waiting |
| `Keyboard.Driver.PushKey` | kernel/drivers/kbd.c:72-80 | the ring after one key |
| `Keyboard.Driver.Get` | kernel/drivers/kbd.c:113-122 | uninterrupted: the oldest key and the ring without it, or -1 and no change |
| `Console.ScrollWindow` | kernel/console.c:70-81 | scrolling keeps the buffer the last 25 rows of the transcript |
| `Console.Terminal.Scroll` | kernel/console.c:70-81 | past the last row the two in-place loops move 24 rows up and blank the last; otherwise nothing changes |
| `Console.Terminal.Putc` | kernel/console.c:83-109 | every byte moves screen and transcript alike; on the buffer: a printable byte shows in the current colour and moves the cursor, others show as a question mark, line feed, carriage return, backspace and the delayed wrap as coded |
| `Console.Terminal.ClearScreen` | kernel/console.c:214-225 | every cell a blank in the current colour, cursor at the top left |
| `Console.Terminal.SetColour` | kernel/console.c:323-326 | the low four bits become the colour of later cells |
| `Console.Terminal.Play` | kernel/console.c:70-109 | for every sequence of bytes, colours and clears the buffer is the window, row below 25, column at most 80 |
| `Mouse.AppendHolds` | kernel/drivers/mouse.c:156-158 | a packet appended to a ring with room |
| `Mouse.OverwriteHolds` | kernel/drivers/mouse.c:159-163 | a packet written over the oldest of a full ring: the ring holds the newest 64 |
| `Mouse.ReadHolds` | kernel/drivers/mouse.c:166-174 | reading takes the oldest packet still queued |
| `Mouse.DecodeMeans` | kernel/drivers/mouse.c:141-154 | motion is the nine-bit number of its byte and sign bit, y downward; buttons, position and counters follow |
| `Mouse.FeedMeans` | kernel/drivers/mouse.c:127-140 | what each byte does to the packet: start over, keep, complete, refuse |
| `Mouse.PacketAccepted` | kernel/drivers/mouse.c:120-164 | three bytes with bit 3 and no overflow bits are one accepted packet with the motion they encode |
| `Mouse.Driver.Start` | kernel/drivers/mouse.c:106-117 | ring, packet bytes, position, buttons and error count are reset; the drop counter is not |
| `Mouse.Driver.OnInterrupt` | kernel/drivers/mouse.c:120-164 | one byte: resynchronisation, packet assembly, refusal on overflow, or an accepted packet |
| `Mouse.Driver.ReadPacket` | kernel/drivers/mouse.c:166-174 | returns the oldest queued packet, or reports none |
| `Mouse.Driver.FlushQueue` | kernel/drivers/mouse.c:176-182 | queue and position are emptied |
| `Mouse.Driver.Drive` | kernel/drivers/mouse.c:120-182 | after any sequential run: the queue is the last accepted packets, accepted = read + dropped + flushed + queued, position = sum of motions since the last flush |

## Left out

- BootChain.MakeAndJump: a stage1 that exceeds one sector by more than the padding of stage2 is excluded, because the
  assembly would then run its decoder on code bytes; the disk reads are those of the replay, not the real-mode assembly.
- BootImage.FilesOnDisk: a stage1 longer than one sector is excluded, because the file check then reads shifted sectors
  and what it finds depends on the bytes of the blob.
- Stage2Decoder.QizoDecompress: a stream with the magic that is not well formed is outside the contract; the words pushed
  on the boot stack are not part of the modelled memory.
- Stage2Decoder.DecompMatch: leaves out the three words pushed on the boot stack and dropped again.
- Stage2Decoder.CopyLoop: keeps its counter in a variable, where the code decrements a word on the boot stack.
- BootChain.QizoPm32: likewise leaves out the boot stack.
- BootImage.MakeImage: a requested size that only a 12-bit plan fits counts as refused, because 12-bit FATs are left out.
- BootImage.ChooseLayout: leaves out the fallback to a 12-bit plan.
- FatReader.ReadDirLoop: names are decoded byte by byte, where `.decode()` raises an error on bytes that are not UTF-8 and
  `strip` removes other white space than blanks; names the tool writes have neither.
- FatReader.CheckFs: has the same limits; its comparison with the expected kernel and README prefix at the end is stated
  by BootImage.FilesOnDisk.
- The raw option of the tool, apart from the blob it makes, and 12-bit FATs.
- The text of README.TXT is a parameter of at most 4096 bytes; labels are ASCII without NUL.
- Real-mode assembly (stage1.S, the first part of stage2.S), the RAM total, trace output, the fault IDT, the error byte
  left in the boot information block, and the switch to long mode.
- The SIMD copy and fill routines of kernel/lib/sse2.S: plain copy and fill stand for them.
- Scan-code translation and modifier keys of the keyboard driver; port I/O of keyboard and mouse; the interrupt counter.
- Mouse.Driver.Drive: handler and reader are modelled as running one after the other; 32-bit wrap of counters and
  positions is not modelled.
- Console start-up probing, serial output and the hardware cursor.
- The 32-bit index of the loop that counts free frames at init, which cannot reach its width.
- Shell, history, help, system information, benchmarks, ISO builder, device drivers, GDT and IDT contents.

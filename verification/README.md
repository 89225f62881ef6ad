# A verified model of the memory tester's cores

This project models, in Dafny 4.11, those parts of the memory tester that keep state and
depend on a strong invariant, and proves the properties they rely on. `dafny verify
dfyconfig.toml` checks everything.

| part of the program | files here |
|---|---|
| FAT16/FAT32 file layer (`system/fat32.c`) | `fat_*.dfy`, `finite_sets.dfy` |
| AES with generated tables (`system/aes.c`) | `aes*.dfy` |
| barrier between CPUs (`lib/barrier.c`) | `barrier.dfy` |
| firmware map to page segments (`system/pmem.c`) | `memory_*.dfy` |
| fault record (`app/badram.c`) | `machine_word.dfy`, `bits.dfy`, `fault_*.dfy` |
| page heaps (`system/heap.c`) | `heap*.dfy` |
| test windows (`app/main.c`, `app/config.c`) | `windows.dfy` |
| self-relocation (`system/reloc64.c`) | `relocation.dfy` |

Code that updates arrays and globals in place is a class or method with loops, proved
against a specification function or predicate; what the program promises is then proved of
that specification by lemmas.

**FAT.** The disk is a sequence of sectors, the volume a class with the one shared sector
buffer. Any transfer may fail at any time; a failed write may or may not have reached the
disk, one sector being all or nothing. The flag `ioError` remembers a failure. `Written`
says what a successful write leaves: a chain of distinct clusters that were free, exactly as
many as the size needs, stored in every FAT copy and closed by the end mark; it holds the
data and zeros up to the end of the last sector, the first free slot describes it, and
everything else is as before. `FatLayout` says where all of this is on the disk, byte by
byte: FAT entries, chains, data, directory slots. The round trip,
the survival of other files, deletion as the inverse of writing and the rollback of a failed
write are consequences. Sector numbers are relative to the partition. `WellFormed` gathers
what the code takes on trust about a mounted layout; `FatBoot.ParseFatBpb` shows what
mounting checks of it. The directory may hold an older file of the name that is written;
`NewComesFirst` says which of the two is found then. The format is that of the Microsoft
FAT32 File System Specification 1.03.

**AES.** Bytes are `bv8` with the field of FIPS-197 section 4.2; the cipher of sections 5.1,
5.2, 5.3 and 5.3.5 is written out plainly. Inverses exist because 3 generates the field:
its order is proved to be 255 from two powers and the divisors of 255. Words are 64 bits
wide, as the C type may be; a packed word stays below 2^32 (`AesWords.PackedBytes`).
`AesSbox` proves the S-box entry by entry, `AesExample` the key schedules and the cipher run
that FIPS-197 prints in appendices A and B, down to the bytes the routines leave behind.

**Barrier.** A step is one access to shared memory, one wake-up, or a return, in the order
of the source under sequential consistency. A wake-up that comes before the halt is kept.
The participants are exactly as many CPUs as the barrier was reset for and use the same form
of the wait. Counters of calls, arrivals and returns are history only.

**Memory.** All sums are in 64 bits where the source uses 64 bits. The comment that memory
between 640KB and 1MB is never used does not hold for an entry that spans the whole hole:
`MemoryPages.HolePages` says exactly which pages there are taken. What the map and the page
count are to be is also told from the entries alone (`MemoryPages.PageOf`, `InLastPage`,
`BetweenPages`).

**Fault record.** The header promises that an insertion returns true iff the record changed;
that is `FaultInsert.InsertReports`. It does not promise that a covered address leaves the
record alone, and `FaultInsert.CoveredButChanged` shows one that does not. `FaultBounds`
bounds the record from above: as long as no merge is forced, an insertion adds the word of
the address, and in the range mode the address, and nothing else.

**Heaps.** The header says that a rewind frees what was allocated *in that heap* since the
mark. The code raises the end of the segment, so when both heaps share one, a rewind of
either takes back what both got from it since. `Heap.OnePageTwice` is a run in which both
heaps end up with the same page. The model keeps apart the chunks in use (`live`, given up
only by a rewind of their own heap, as the header has it) and those that still have their
pages (`held`). `Heap.RewindSafeIff` says when a rewind keeps the two equal: iff no chunk of
the other heap lies in the segment below the mark. The xHCI driver rewinds both heaps to
marks taken together, which `Heap.RewindBoth` shows to be in order. A mark lapses when a
rewind goes past it. Choosing the largest segment goes wrong when rounding has inverted one,
because its 64-bit size is then the largest there is: `HeapScan.InvertedChosen` is such a
firmware map, and `HeapScan.ScanFindsMostPagesIff` the exact condition. A heap in such a
segment never hands out a page. When the running program lies in a segment of the map, no
chunk ever meets it.

**Windows.** The first window is skipped when the lower limit, in pages, is at least the low
load limit, in bytes. The units differ; the effect is only that the skip comes later than it
could, and what is skipped is always empty.

**Relocation.** Distinct slots, and tables inside the image, are what the linker guarantees;
`Relocation.RepeatedSlot` shows what two entries for one slot would do.

## Model

| member | source | states |
|---|---|---|
| FatGeometry.EntryPlaceInjective | system/fat32.c:84-147 | FAT entries that share a sector belong to the same copy and either coincide or do not overlap |
| FatGeometry.ClusterPlaceInjective | system/fat32.c:69-72 | no two clusters share a sector |
| FatTable.StoredEffect | system/fat32.c:110-147 | storing an entry in one copy sets it, keeps its reserved top bits, and changes no other entry of any copy and no sector outside the FATs |
| FatChain.ReachableIn | system/fat32.c:163-171 | a set that contains the first link and is closed under links contains every reachable cluster |
| FatChain.LinkedReaches | system/fat32.c:163-171 | the clusters reachable from the head of a stored chain are exactly the chain |
| FatDirectory.FindNew | system/fat32.c:223-272 | an entry put in the first free slot is found under its name iff it comes before any older file of that name, which is found otherwise; even in a cyclic directory |
| FatDirectory.FindOther | system/fat32.c:223-272 | filling a free slot leaves every file that could be found where it was |
| FatFile.NumClustersCovers | system/fat32.c:533-534 | the 32-bit cluster count is the least that covers the size, or zero when the sum wraps |
| FatFile.ChainForLinked | system/fat32.c:650-672 | reading a file follows exactly the chain that was stored for it |
| FatFrame.SearchesSame | system/fat32.c:175-272 | changes confined to clusters outside the directory change no search |
| FatWrite.WrittenFile | system/fat32.c:529-674 | after a successful write the file of that name holds the data, unless an older one comes first |
| FatWrite.ReadsBack | system/fat32.c:628-674 | a reader with a large enough buffer then gets the size and bytes that were written |
| FatWrite.OlderReadsBack | system/fat32.c:223-272 | when an older file of the same name comes before the first free slot, a reader gets what he got before the write |
| FatWrite.RootStays | system/fat32.c:529-626 | a write, whatever fails, leaves the root directory's clusters in use |
| FatWrite.NewFileSound | system/fat32.c:529-618 | the chain of a new file has no free cluster and none of the directory, so later writes keep it |
| FatSeries.WriteAll | system/fat32.c:529-626 | any number of files with distinct new names, written one after the other, are all on the volume with their data, up to the first that is refused |
| FatSeries.ReadHeld | system/fat32.c:628-674 | each of them reads back |
| FatWrite.OtherFileKept | system/fat32.c:529-618 | a write changes no other file whose chain avoids free clusters |
| FatWrite.OtherFileKeptByDelete | system/fat32.c:469-527 | a delete changes no other file, unless chains are cross-linked |
| FatWrite.DeleteUndoesWrite | system/fat32.c:469-618 | deleting a file just written frees exactly its clusters and restores every FAT entry of every copy |
| FatWrite.FreedIsUntouched | system/fat32.c:162-171 | freeing clusters that were free in every copy restores the FAT bit for bit |
| FatVolume.FreedAll | system/fat32.c:163-171 | the cap of max_cluster steps never ends the walk before every reachable cluster is freed |
| FatVolume.Volume.ReadSector | system/fat32.c:74-77 | the buffer holds the sector, or a failure is recorded |
| FatVolume.Volume.WriteSector | system/fat32.c:79-82 | the sector holds the buffer, or a failure is recorded and the sector is old or new |
| FatVolume.Volume.FatReadEntry | system/fat32.c:84-108 | the value of the abstract FAT, or the end mark when the transfer failed |
| FatVolume.Volume.FatWriteEntry | system/fat32.c:110-147 | every copy holds the value or a transfer failed; nothing else changes |
| FatVolume.Volume.FatAllocCluster | system/fat32.c:149-160 | takes the first free cluster, touches nothing else, and fails only when none is free or a transfer failed |
| FatVolume.Volume.FatFreeChain | system/fat32.c:163-171 | on any table, cyclic or garbage, frees exactly the clusters reachable from the first |
| FatVolume.Volume.FindFreeDirEntry | system/fat32.c:175-219 | finds the first free slot in directory order, or there is none or a transfer failed |
| FatVolume.Volume.FindFileDirEntry | system/fat32.c:223-272 | finds the slot of the file, with its sector in the buffer |
| FatVolume.Volume.AllocateChain | system/fat32.c:536-555 | a chain of that many clusters that were free, in every copy; on failure only free clusters are touched and no link leaves them |
| FatVolume.Volume.WriteData | system/fat32.c:557-586 | the chain holds the data, padded with zeros to the end of its last sector, and no sector outside it changes |
| FatVolume.Volume.WriteFile | system/fat32.c:529-626 | whatever transfers fail, only free clusters and one free slot are touched; success leaves the file, its slot given byte by byte; without failures it succeeds exactly when there is room and otherwise restores the FAT and leaves the directory; the root directory stays in use |
| FatVolume.Volume.ReadFile | system/fat32.c:628-674 | without failures the buffer gets exactly the bytes of the file, as many as fit |
| FatVolume.Volume.DeleteFile | system/fat32.c:469-527 | overwrites one byte of the slot with 0xE5, frees exactly the reachable clusters, changes nothing else; a failed delete changes the slot at most |
| FatVolume.WriteThenRead | system/fat32.c:529-674 | round trip through both routines for any name, data, cluster size, FAT width and free space; with an older file of the name in front, that file is read instead |
| FatLayout.EntryBytes | system/fat32.c:84-108 | the bytes of a FAT entry, two or four, least significant first, at their place counted from the start of a copy; the top four bits of a FAT32 entry do not count |
| FatLayout.EntryExample | system/fat32.c:84-108 | with 512-byte sectors and the FAT at sector 1, entry 300 is at byte 88 of sector 2 in FAT16 and at byte 176 of sector 3 in FAT32 |
| FatLayout.ChainOnDisk | system/fat32.c:536-555 | a stored chain has in every copy the number of the next cluster in each entry, 0xFFFF or 0x0FFFFFFF in the last |
| FatLayout.DirSectors | system/fat32.c:175-219 | the scans visit the sectors of the fixed root directory one after the other, or those of the clusters of its chain |
| FatLayout.ContentByte | system/fat32.c:69-72 | each byte of a chain's content is that byte of that sector of that cluster on the disk |
| FatLayout.WrittenByte | system/fat32.c:557-586 | the sectors of a new file hold its data in order, and zeros behind it in the last one |
| FatLayout.WrittenEntry | system/fat32.c:593-616 | the 32 bytes of a new slot: name, archive attribute, cluster words at 26 and 20, size at 28, zeros elsewhere |
| FatLayout.EntryDecoded | system/fat32.c:234-243 | what reading takes from the bytes of any slot, and that of the attribute bytes exactly those with 0x08 or 0x10 set are skipped |
| FatLayout.FileByte | system/fat32.c:628-674 | of a file any system has written, the reader gets the bytes the disk has in the clusters its slot and the FAT name |
| FatLayout.SearchExample | system/fat32.c:223-272 | in a sector with a label, a directory, a deleted slot and a file of one name, the file is found with cluster 5 and 700 bytes, the deleted slot is the first free one, and an end mark in its place hides the file |
| FatBoot.ParseFatBpb | system/fat32.c:281-356 | succeeds exactly on the boot sectors described by Mountable, with the layout they describe, well formed iff what the code does not check holds |
| FatBoot.LayoutFacts | system/fat32.c:281-356 | of every accepted layout all clusters lie in the volume and the width follows the cluster count |
| FatBoot.WrittenLayout | system/fat32.c:281-356 | a boot sector written field by field as the specification lays it out is accepted, and the layout read from it is the one written, the root cluster at byte 44 included |
| AesField.OrderIs255 | system/aes.c:73-79 | 3 has order exactly 255 in the field |
| AesField.PowOnto | system/aes.c:73-79 | every non-zero byte is a power of 3, so the logarithm table is complete |
| AesField.InverseIsInverse | system/aes.c:93-100 | the looked-up power is the multiplicative inverse |
| AesField.MulAssociates | system/aes.c:64 | the field product of FIPS-197 section 4.2 is associative |
| AesCipher.SubInverse | system/aes.c:88-107 | the two S-boxes undo each other, both ways |
| AesSbox.Sbox | system/aes.c:88-107 | all 256 entries of the S-box are those of figure 7 of FIPS-197 |
| AesCipher.MixInverse | system/aes.c:109-136 | InvMixColumns undoes MixColumns on every column |
| AesRounds.InvCipherOfCipher | system/aes.c:588-764 | decryption undoes encryption for any round keys |
| AesRounds.EqInvCipherIsInvCipher | system/aes.c:678-764 | with the transformed keys the equivalent inverse cipher is the inverse cipher |
| AesRounds.ScheduledRoundTrip | system/aes.c:437-764 | decryption through the decryption schedule undoes encryption through the key schedule |
| AesWords.PackedBytes | system/aes.c:410-424 | packed words stay below 2^32 and give back their bytes |
| AesWords.TableSum | system/aes.c:599-622 | a key word plus four table entries is a column of the matrix product plus the key |
| AesWords.RowsRotate | system/aes.c:60-61 | each row of a table is the one before it rotated by a byte |
| Aes.TableMul | system/aes.c:64 | the product through logarithms is the field product, for all bytes |
| Aes.GenPowers | system/aes.c:73-79 | the tables hold all powers and logarithms |
| Aes.Tables.GenSboxes | system/aes.c:88-107 | the tables are the S-box of FIPS-197 section 5.1.1 and its inverse |
| Aes.Tables.GenTables | system/aes.c:66-137 | all tables hold what the cipher needs |
| Aes.Tables.GenKeyTables | system/aes.c:531-542 | the key tables act as InvMixColumns without the S-box |
| Aes.Tables.ForwardRound | system/aes.c:599-622 | one use of the macro is a round of FIPS-197 section 5.1 |
| Aes.Tables.ReverseRound | system/aes.c:689-712 | one use of the macro is a round of the equivalent inverse cipher |
| AesBlock.Encrypt | system/aes.c:588-674 | the output is the plain cipher of section 5.1 with the key schedule of section 5.2, for every key size |
| AesBlock.Decrypt | system/aes.c:678-764 | the output is the equivalent inverse cipher of section 5.3.5 |
| AesKey.SetKey | system/aes.c:437-584 | both schedules are in place for 128, 192 and 256 bits; other sizes give 1 and leave the context alone |
| AesKey.MixedWord | system/aes.c:555-573 | four key table entries are InvMixColumns of a key word |
| AesKey.EncryptThenDecrypt | system/aes.c:437-764 | set a key, encrypt, decrypt: the block is back, for every key and block |
| AesExample.RoundConstants | system/aes.c:81-86 | the ten round constants are 01 02 04 08 10 20 40 80 1b 36 |
| AesExample.Schedule128 | system/aes.c:466-482 | the key of appendix A.1 of FIPS-197 expands to the words listed there |
| AesExample.Schedule192 | system/aes.c:484-500 | so does the key of appendix A.2, through its second group of words, with 13 round keys |
| AesExample.Schedule256 | system/aes.c:502-527 | and that of appendix A.3, through its second group, the extra substitution included, with 15 round keys |
| AesExample.Cipher128 | system/aes.c:588-674 | the cipher turns the block of appendix B into 3925841d02dc09fbdc118597196a0b32 |
| AesExample.EncryptExample | system/aes.c:437-674 | setting that key and encrypting that block leaves those bytes in the buffer, and words 4 and 43 of the schedule in the context |
| Barrier.StepInv | lib/barrier.c:37-147 | every step of every CPU keeps the invariant |
| Barrier.Safety | lib/barrier.c:37-147 | in every schedule no CPU returns from its k-th wait before all have arrived at theirs, and at most one CPU is releasing |
| Barrier.AtRest | lib/barrier.c:69-73 | when all CPUs are outside, the count is full again and all have left every round |
| Barrier.OneWakePerWait | lib/barrier.c:135-144 | in the halt form every wait gets exactly one wake-up; none is lost or sent to a CPU that does not wait |
| Barrier.SomeHelpful | lib/barrier.c:37-147 | no deadlock: once all have entered their k-th wait, some CPU that has not left can take a step |
| Barrier.StepMeasure | lib/barrier.c:37-147 | no step adds to the work left in the k-th wait and a helpful one takes some away |
| Barrier.AllReleased | lib/barrier.c:37-147 | in every fair infinite run all CPUs leave the wait they have all entered |
| Barrier.Machine.Reset | lib/barrier.c:26-35 | the barrier is in its initial state for the new number of threads |
| Barrier.Machine.Advance | lib/barrier.c:37-147 | the in-place step of a CPU is the step of the state machine |
| Barrier.Machine.Execute | lib/barrier.c:37-147 | any schedule carried out in place keeps the safety property |
| MemoryPoints.SwapRemovesOne | system/pmem.c:137-142 | swapping neighbours in the wrong order removes exactly one inversion |
| MemoryPoints.SortPoints | system/pmem.c:130-145 | the swap-until-stable loop ends and leaves an ordered permutation |
| MemoryMap.OpenIffCovers | system/pmem.c:156-169 | between two change points the open entries are those that cover the addresses there |
| MemoryMap.OverlapExample | system/pmem.c:171-178 | with a RAM entry and a reserved one that overlap, the reserved type counts where both cover, and each at its own addresses alone |
| MemoryMap.RemoveOverlap | system/pmem.c:162-168 | swap-with-last takes exactly that entry off the list |
| MemoryMap.Sweep | system/pmem.c:147-198 | the sweep gives every address the largest type over the entries that cover it |
| MemoryMap.SanitizeMap | system/pmem.c:55-199 | the new map is ordered, disjoint, without empty entries and right at every address, or below its own end when it is full; a map that wraps gives an empty one |
| MemoryPages.ExactIff | system/pmem.c:201-230 | the segments are in order, disjoint and contain exactly the pages wholly inside a clipped usable entry, iff no usable entry starts inside the last page of the address space |
| MemoryPages.TooHighExample | system/pmem.c:220 | one such entry makes the map claim nearly all pages |
| MemoryPages.HolePages | system/pmem.c:209-218 | a page between 640KB and 1MB is taken iff its entry spans the hole |
| MemoryPages.PagesAreUsable | system/pmem.c:55-230 | every address of every page taken is RAM or ACPI in the firmware map |
| MemoryPages.CountIff | system/pmem.c:222 | on any clean map the accumulated page count is the number of pages wanted iff no entry is inverted by rounding and none starts inside the last page |
| MemoryPages.WantedAreContained | system/pmem.c:201-230 | the pages wanted are those in the segments, where these are exact |
| MemoryPages.MapPages | system/pmem.c:201-230 | the pages wanted are those of an entry of type 1 or 3 that holds the whole page, below 640KB or above 1MB, or anywhere when the entry spans the hole |
| MemoryPages.PagesCounted | system/pmem.c:222 | the count is the number of these pages iff no such entry starts in the last page of the address space or lies between two neighbouring page boundaries |
| MemoryPages.SegmentsMerged | system/pmem.c:223-228 | segments that meet have become one |
| MemoryPages.PhysicalMap.Fill | system/pmem.c:201-230 | the array holds the specified segments and the count their 64-bit sum |
| MemoryPages.PhysicalMap.Sort | system/pmem.c:232-244 | insertion sort: ordered, a permutation, and an ordered map stays as it is |
| MemoryPages.PhysicalMap.Init | system/pmem.c:250-266 | the whole initialisation from the firmware table: unless a usable entry starts in the last page, the map contains exactly the pages that entries of type 1 or 3 hold, as told from the entries, in segments that do not meet |
| Bits.MatchCount | app/badram.c:92-103 | a mask matches two to the power of its zero bits |
| FaultRecord.AddressesCount | app/badram.c:92-103 | the count is the number of matched 64-bit words modulo 2^64 |
| FaultRecord.CombineUpper | app/badram.c:76-87 | a combined pattern or range matches whatever either part matches |
| FaultRecord.CombineLeast | app/badram.c:71-82 | any pattern that matches all both match also matches all the combination matches |
| FaultRecord.NoCostIffCovered | app/badram.c:109-118 | combining costs nothing iff everything the other pattern matches is matched already |
| FaultRecord.RangeCost | app/badram.c:109-118 | the cost of combining ranges is how far the first is extended |
| FaultRecord.CountAddresses | app/badram.c:92-103 | the loop computes the count |
| FaultInsert.InsertKeeps | app/badram.c:263-305 | what was matched stays matched, and the new address is matched |
| FaultInsert.InsertReports | app/badram.c:263-305 | the result is true iff the record changed, and false only for an address matched already |
| FaultInsert.UnchangedIff | app/badram.c:276-286 | no change is reported iff some pattern matches the address and no earlier one is hit |
| FaultInsert.CoveredButChanged | app/badram.c:276-286 | a matched address may still change the record |
| FaultInsert.NothingLost | app/badram.c:263-305 | over any stream of addresses every one stays matched |
| FaultInsert.RecordGood | app/badram.c:263-305 | over any stream there are at most twenty sound patterns |
| FaultInsert.RecordSorted | app/badram.c:196-213 | with word-aligned addresses the ranges stay strictly sorted by lower end |
| FaultInsert.CheapestOfAll | app/badram.c:125-144 | in the range mode the cheapest pair of neighbours is as cheap as any pair |
| FaultInsert.CheapestIsLast | app/badram.c:125-144 | no pair of neighbours is cheaper than the one chosen, and any later one is dearer |
| FaultBounds.OneWordIff | app/badram.c:276-282 | in the pattern mode a pattern takes in an address at the cost of one word iff it stands for one word and the two words differ in a single address bit |
| FaultBounds.OneWordMore | app/badram.c:281-282 | it then matches exactly that word more |
| FaultBounds.InsertExact | app/badram.c:263-305 | while the record has fewer than twenty patterns, or when a pattern is hit, an insertion adds exactly the word of the address, or in the range mode, for aligned addresses, the address |
| FaultBounds.MergeExact | app/badram.c:290-303 | a forced merge gives up one pair of neighbours for their combination and changes nothing else that is matched |
| FaultBounds.FirstAddress | app/badram.c:42-48 | the first address leaves its word of 8 or 4 bytes, with the mask 0xfffffffffffffff8 or 0xfffffffffffffffc |
| FaultBounds.NeighboursMerge | app/badram.c:276-284 | two neighbouring words end as one pattern that matches the two and nothing else |
| FaultStore.Store.CheapestPair | app/badram.c:125-144 | the last cheapest pair of neighbours |
| FaultStore.Store.RemovePair | app/badram.c:149-159 | exactly the two entries are taken out |
| FaultStore.Store.InsertAt | app/badram.c:181-190 | the entry is put in its place and the others move up |
| FaultStore.Store.InsertSorted | app/badram.c:196-213 | the entry goes before the first larger address |
| FaultStore.Store.Insert | app/badram.c:263-305 | the array follows the specification within its 21 slots; nothing matched is lost, and with fewer than twenty patterns nothing is added but the word of the address |
| HeapPages.MaskRounds | system/heap.c:48 | the mask rounds down to a multiple of a power of two |
| HeapPages.AllocPlaces | system/heap.c:47-48 | a request that fits gets the highest aligned place below the end, with the fewest pages that hold it |
| HeapPages.AllocAligned | system/heap.c:41-54 | the byte address is a multiple of the alignment |
| HeapPages.AllocInBoundsIff | system/heap.c:47-52 | the allocation stays below the end iff the request fits below it |
| HeapScan.ScanFindsLargest | system/heap.c:120-138 | on any ordered map, inverted segments included, the scan finds the largest 64-bit size for each heap |
| HeapScan.LargestIsChosen | system/heap.c:120-138 | the area ends with its segment and starts behind the program, when that lies in the segment, or with the segment; no segment in question has more pages behind the program, and no later one as many, unless the area is that of an inverted one |
| HeapScan.ScanFindsMostPagesIff | system/heap.c:120-138 | for each heap, what the scan chooses has most pages iff no segment it sees below the heap's limit is inverted by rounding, or none has a page to offer |
| HeapScan.StartUpMap | system/heap.c:120 | on the map built at start-up the scan misses no segment that ends at or below the limit |
| HeapScan.InvertedChosen | system/heap.c:120-138 | a firmware map with a megabyte of RAM for which both heaps get an empty, inverted segment |
| Heap.Separation | system/heap.c:36-71 | chunks that have their pages share none with each other, whatever their heaps, or with the map |
| Heap.ProgramSafe | system/heap.c:120-125 | when the program lies in a segment of the map, no chunk meets it |
| Heap.RewindSafeIff | system/heap.c:65-71 | after a rewind every chunk in use has its pages to itself iff no chunk of the other heap lies in the segment below the mark |
| Heap.RewindBoth | system/heap.c:65-71 | rewinding both heaps to one page gives up exactly the chunks that lose their pages |
| Heap.OnePageTwice | system/heap.c:41-71 | with a shared segment, marking one heap, allocating from the other, rewinding and allocating again hands out one page to both |
| Heap.Heaps.Init | system/heap.c:76-148 | both areas are what the scan chooses: told from the segments, with limits 0x100 and 0x100000 and the program left out; the heaps are in a valid state on every ordered map |
| Heap.Heaps.Alloc | system/heap.c:41-54 | the address, the new map and the chunk taken; sound (in bounds, large enough, clear of the program, everything kept) iff the request fits; on failure nothing changes; a heap in an inverted segment gives nothing |
| Heap.Heaps.Mark | system/heap.c:56-63 | the current end, which may be rewound to |
| Heap.Heaps.Rewind | system/heap.c:65-71 | the end is the mark again; only chunks of this heap are given up; chunks in use all keep their pages iff no chunk of the other heap lies below the mark, as when the heaps are in different segments; any other mark does nothing |
| Windows.PagesBetweenCounts | app/main.c:533 | the sum of mapped parts is the number of pages in the segments and the limits |
| Windows.CutsContain | app/main.c:483-540 | the parts cut from the segments contain exactly the pages in the window |
| Windows.MappedOnce | app/main.c:587-670 | every page within the limits is mapped in exactly one window, no other in any |
| Windows.WindowsTotal | app/main.c:587-670 | windows that reach the end of memory hold all pages within the limits from the first window on |
| Windows.CountedIsPages | app/config.c:434-460 | the branches count the pages within the limits, less one for each inverted segment |
| Windows.MapIsListed | system/pmem.c:201-244 | the map built at start-up is one the windows can cover |
| Windows.HeapsKeepListed | system/heap.c:41-71 | so is every map the heaps make of it by allocations and rewinds |
| Windows.CountAndTest | app/main.c:587-670 | for a test of one stage the mapped total is the number of pages within the limits, each page is mapped in exactly one window, and the total equals the pages to test iff no inverted segment was counted |
| Windows.Tester.CountPagesToTest | app/config.c:434-460 | the sum is the number of pages iff no inverted segment is counted |
| Windows.Tester.SetupVmMap | app/main.c:466-546 | the mapping is the part of memory in the window and the limits, with its page count |
| Windows.Tester.TestAllWindows | app/main.c:587-670 | consecutive windows to the end of memory, the first to 4MB and each later one to the next multiple of 1GB, so that none is longer than 1GB or crosses one; the mapped pages add up to the pages to test when the first window is not skipped for a multi-stage test |
| Relocation.ApplyAt | system/reloc64.c:177-205 | with distinct slots each relative slot is adjusted once |
| Relocation.MoveSettles | system/reloc64.c:177-188 | a move settles every slot for the new address (R_X86_64_RELATIVE, section 4.4.1 of the AMD64 psABI) |
| Relocation.RepeatedSlot | system/reloc64.c:197-205 | a slot with two entries ends up wrong after the second move |
| Relocation.Image.GetDynamicInfo | system/reloc64.c:150-170 | the last entry of each tag is found and the two table pointers move by the distance |
| Relocation.Image.DoRelocations | system/reloc64.c:197-205 | the entries of the table take effect in order |
| Relocation.Image.Reloc | system/reloc64.c:211-238 | after every move slots and pointers suit the address, those of both tables included; a slot no relative entry names stays; a repeated address changes nothing |
| Relocation.Image.TablesAreSettled | system/reloc64.c:228-237 | every relative entry, read from the image, of the table at DT_RELA, and at DT_JMPREL when DT_PLTREL is there, has its slot at base plus addend |
| Relocation.ManyMovesAreOne | system/reloc64.c:211-238 | any sequence of moves that ends at a non-zero address equals one direct relocation to it |

## Left out

- Mounting beyond the boot sector (MBR and GPT scan, partition offset) and the choice of the next file name.
- FatVolume.Volume.WriteFile: requires that the clusters of a FAT32 root directory are marked used, which the code does not check.
- FatWrite.OtherFileKept: requires that the chain of the other file contains no cluster marked free and none of the root directory, which the code does not check.
- FatSeries.WriteAll: requires names that no directory slot bears, not even behind the end mark, since filling slots can bring such an entry back; a write that is refused after a failed transfer ends what is promised.
- A sector torn by a failed write, and a null data pointer for reading (a buffer of length zero stands for it).
- Aes.Tables: the four arrays of each kind of round table are the rows of one two-dimensional array.
- The precomputed tables of a build without generation, and the dongle protocol that uses the cipher.
- Barrier.Safety: weak memory ordering is not modelled, nor the interrupt handler that skips the halt; a wake-up is a flag that stays set.
- The halt forms for LoongArch and AArch64.
- MemoryPages.PagesAreUsable: a page whose addresses are all usable but lie in two entries of different type is not taken, and nothing is claimed of it.
- The load limits derived from the start of memory on AArch64 and the split of a segment at its heap limit.
- FaultInsert.RecordSorted: says nothing of the pattern mode, where combining in place can lower an address past its neighbour, nor of disjointness of ranges, which does not hold.
- FaultBounds.InsertExact: in the range mode it speaks of addresses that are multiples of the word size, which is what the tests report; of others a range takes in those between its words.
- Heap.Heaps.Rewind: a mark below a later rewind must not be used again; the source does not check this.
- Displaying the fault record.
- Windows.Tester.TestAllWindows: one CPU's view without bail-out, mapping failure, relocation to the other load address or proximity domains; a mapping is its range of physical pages.
- Relocation.Image.Reloc: load addresses are such that the image does not wrap around the end of the address space.
- All device drivers, ACPI, screens and menus, and the tests themselves.

# JudgePenguin in Dafny

JudgePenguin is a Linux driver that reserves memory, builds page tables for it and boots a small judging kernel
there. The kernel loads ELF programs next to a judge buffer, runs them, and keeps two content-addressed caches. This
project models the parts of it that carry state or arithmetic and proves what they promise.

| part | files | what is proved |
|---|---|---|
| DuckCache | `CacheSpec`, `CacheModel`, `CacheEviction`, `DuckCache`, `CacheRuns` | the arrays, page chains and free list implement a bounded map with minimal LRU eviction; over whole runs a load returns stored bytes, and a working set that fits is never evicted |
| page tables | `PageWalk`, `PageTree`, `PageNodes`, `PageTables`, `Firmware` | against the hardware walk of 4-level paging (section 4.5 of the Intel SDM, Volume 3A): what the built tables translate, what `map_page` changes, the recursive window, the block budget, where a loaded image is found |
| ELF loader | `ElfFile`, `ElfEncoding`, `ElfLayout`, `ElfAccept`, `Startup`, `Abi`, `ElfLoader`, `ElfHeaders` | wrapping checks accept exactly what the same checks over the integers accept; where every byte of an accepted file ends up; the startup block (section 3.4.1 of the System V AMD64 psABI); when the program finds its own program headers |
| judge | `Judger`, `JudgeReports`, `JudgeInit`, `JudgeRuns` | replay, verdicts, accounting, set-up of buffer and caches, cache requests; from set-up on, over any sequence of requests: each is answered as it should be, both caches run from empty, a cache hit returns what the inserting store took from the buffer, judge and buffer requests change nothing outside the program area and the buffer, and cache requests besides only the named cache's own region |
| CPU rendezvous | `Rendezvous` | for any number of CPUs and any interleaving: interrupts stay off, exactly when all CPUs can finish; every fair schedule gets to the release and then finishes, unless the reset stranded a CPU |
| user library | `Streams`, `Timer` | truncated output, sliced input, vectored calls; exact nanosecond conversion |

`Machine`, `Division`, `Bytes` and `VirtualMemory` hold words, quotients, memcpy and the address-space allocator.

## How to read the model

- A page address of the cache is its page number and the null link is -1. A page is a link and 4088 content bytes.
- `std::sort`, `lower_bound` and `upper_bound` are implemented; the sort's contract leaves the order among equal keys open.
- The clock is a parameter. 0 is the tombstone value in the cache, so calls require a reading other than 0.
- The `find` inside the `assert` at kernel/duck/kern/duck_cache.cpp:237 sets the insertion index and is modelled as executed.
- Shifts and masks on addresses are division and remainder; or-ing flags into an aligned address is addition
  (`PageWalk.OrFlags` and `PageWalk.OrHighBits` are the bit-vector facts behind this).
- Kernel memory is one byte array that holds both user space and the judge buffer, so the loader's reads and writes share it.
- The tables and pages of a cache are arrays of their own. In that byte array, set-up and every cache request that may write
  leave arbitrary bytes in the region the cache was allocated, as a user run does in its region.
- A user run is an arbitrary function of the loaded memory and the start registers. What it leaves is an arbitrary change
  to [0x400000, end of the special region) with an arbitrary trap number and times.
- The driver's tables are words of their own; the image bytes of a firmware load are in the reserved memory above them.
- Ghost state (`arena`, `mem`, `nodes`, `history`, `times`) mirrors the real fields and is tied to them by `Valid`.

## What the proofs found

- `p_offset + p_filesz` may wrap past the in-file check (kernel/duck/lib/elf.cpp:84; `ElfFile.InFileCheckIncomplete` shows
  such a segment); it is always refused later because its end is above every allowed address.
- The guard `kb * 1024 < kb` (kernel/duck/kern/judger.cpp:255) passes some wrapped products (`Judger.GuardIsIncomplete`); all of
  them are at least 2^54 and the layout check refuses them.
- `allocate_virtual_memory` hands out an empty region for sizes above 2^64 - 2 MiB, and a large enough one for all others.
- Rendezvous: CPU 0 can reset the counter while another CPU is still in its first spin; that CPU then spins for ever.
  This can happen exactly when there are at least two CPUs (`Rendezvous.RaceIffMany`), and it is the only way a CPU is lost.
- With the 512 MiB the driver reserves, `Judger::init` would always end in its fatal branch (`JudgeInit.InitReserved`). `main`
  does not call it at present (kernel/duck/kern/kern_main.cpp:97).
- `getauxval(AT_HWCAP)` finds the second pushed entry, 2, and never the first one.
- A request with sequence number 2^64 - 1 is answered "Not Judged" without being judged when the buffer was changed since
  the last reply, or there was none (`Judger.RequestLost`, and on a judge `Judger.AskLost`); every other request that repeats nothing is judged.
- The loader copies only the first page of the file, but points AT_PHDR at `e_phoff` in the copy. A program finds its headers
  there exactly when the table ends within that page, or within the 16 random bytes behind it and equals them
  (`ElfHeaders.HeadersReadIffCopied`); `ElfHeaders.HeadersCanBeLost` shows an accepted file that loses them.
- The firmware size check does not count the image offset of 352 bytes, so an accepted image may reach that far into the
  stack area (`Firmware.StackClearIffOffsetFits`).
- The nanosecond conversion is exact for all readings exactly when (freq - 1) * 10^9 < 2^64.

## Model

| member | source | states |
|---|---|---|
| CacheSpec.PagesFor | kernel/duck/kern/duck_cache.cpp:168-168 | the page count is the least number of 4088-byte contents that holds the object, and at least 1 |
| CacheSpec.PagesUsedRemove | kernel/duck/kern/duck_cache.cpp:195-198 | the pages of a table are the pages of any one entry plus those of the rest |
| CacheSpec.ResidentWasStored | kernel/duck/kern/duck_cache.cpp:161-271 | over every run, resident bytes are those of the store that brought the then absent digest in, and the digest has been resident with them ever since; ignored stores supply nothing |
| CacheSpec.LoadYieldsStoredBytes | kernel/duck/kern/duck_cache.cpp:130-153 | over every run, a successful load yields exactly the required number of bytes, those of the store that brought the digest in |
| CacheSpec.CapacityKept | kernel/duck/kern/duck_cache.cpp:168-178 | in every reachable state pages and objects stay within the block's bounds |
| CacheSpec.EvictionSparesRecent | kernel/duck/kern/duck_cache.cpp:187-218 | one eviction spares an object when everything used since, and the newcomer, fit together |
| CacheSpec.UseTouches | kernel/duck/kern/duck_cache.cpp:141-142 | over every run, a hit refreshes the last use and an inserting store sets it |
| CacheSpec.StoreAnswers | kernel/duck/kern/duck_cache.cpp:161-172 | over every run, a store succeeds exactly when its digest is resident afterwards, and fails exactly for an absent digest with more bytes than all pages hold |
| CacheSpec.StoreLeaves | kernel/duck/kern/duck_cache.cpp:161-271 | over every run, an ignored or failing store changes nothing, an inserting one enters its bytes and time and leaves survivors alone, and with room all objects survive |
| CacheSpec.LoadAnswers | kernel/duck/kern/duck_cache.cpp:130-153 | over every run, a load hits exactly a resident object of that length, a miss changes nothing, and no load changes another object |
| CacheSpec.WorkingSetStaysResident | kernel/duck/kern/duck_cache.cpp:173-238 | the LRU guarantee over runs: from a hit or the inserting store on, an object stays resident while it and all digests asked for since fit the cache |
| CacheSpec.WorkingSetLoadHits | kernel/duck/kern/duck_cache.cpp:130-153 | hence a load of an object that was hit or inserted, within its working set, is a hit |
| CacheModel.ChainsApart | kernel/duck/kern/duck_cache.cpp:202-208 | live chains repeat no page and share none with each other or with the free list |
| CacheModel.PagesConserved | kernel/duck/kern/duck_cache.cpp:234-235 | free pages plus pages of live chains are all pages |
| CacheModel.EvictOneSound | kernel/duck/kern/duck_cache.cpp:197-208 | splicing a victim's chain onto the free list keeps the partition, the lists and every other object's bytes |
| CacheModel.LiveOnlySorted | kernel/duck/kern/duck_cache.cpp:220-232 | compaction keeps the strict digest order |
| CacheModel.CompactSound | kernel/duck/kern/duck_cache.cpp:220-235 | compaction over tombstones keeps the partition and every survivor's chain and bytes |
| CacheModel.InsertSound | kernel/duck/kern/duck_cache.cpp:240-268 | taking pages off the free list and filling them keeps the partition, the free list and all other objects |
| CacheModel.TableAt | kernel/duck/kern/duck_cache.cpp:107-128 | every slot of the sorted table is in the map under its digest with its bytes and time stamp |
| CacheModel.TablePages | kernel/duck/kern/duck_cache.cpp:168-178 | the pages of the map are the lengths of the live chains |
| CacheEviction.EvictedTable | kernel/duck/kern/duck_cache.cpp:189-232 | after eviction and compaction the map has lost exactly the victims; survivors keep digest, bytes and time stamp |
| CacheEviction.EvictedShort | kernel/duck/kern/duck_cache.cpp:210-217 | the code's counters say "still need remove" exactly when the remaining map is short of room |
| CacheEviction.EvictedAll | kernel/duck/kern/duck_cache.cpp:191-218 | with every object evicted all pages are free, so the loop always ends with room for an object that fits the total |
| CacheEviction.EvictionFromIds | kernel/duck/kern/duck_cache.cpp:187-218 | the victims are a prefix of the last-use order, enough, and one fewer would not be enough |
| CacheEviction.InsertedTable | kernel/duck/kern/duck_cache.cpp:240-253 | inserting at the lower bound keeps the order and adds exactly the new entry |
| DuckCache.CmpDigest | kernel/duck/kern/duck_cache.cpp:98-105 | the sign is the lexicographic order and 0 is equality |
| DuckCache.LowerBound | kernel/duck/kern/duck_cache.cpp:114-114 | first position not below the key |
| DuckCache.UpperBound | kernel/duck/kern/duck_cache.cpp:115-115 | first position above the key |
| DuckCache.SortIds | kernel/duck/kern/duck_cache.cpp:181-187 | a permutation of the slots in last-use order |
| DuckCache.CopyIn | kernel/duck/kern/duck_cache.cpp:255-265 | the first pages of the free list carry the object's chunks, links and other pages are untouched, and the rest of the list is returned |
| DuckCache.CopyPagesFills | kernel/duck/kern/duck_cache.cpp:257-261 | page after page, the copy loop fills exactly the chain |
| DuckCache.DuckCache.Init | kernel/duck/kern/duck_cache.cpp:44-96 | when init fails, when it is fatal, and otherwise an empty valid cache with ceil(rest / 4096) pages that all lie inside the allocated region |
| DuckCache.TablesFit | kernel/duck/kern/duck_cache.cpp:49-66 | the four tables are page-aligned, follow one another, and each holds n entries of its words and no whole page more |
| DuckCache.LinkPages | kernel/duck/kern/duck_cache.cpp:76-85 | the page loop makes one null-terminated list of all pages |
| DuckCache.DuckCache.Find | kernel/duck/kern/duck_cache.cpp:107-128 | the index is the lexicographic lower bound and the answer is membership |
| DuckCache.DuckCache.Load | kernel/duck/kern/duck_cache.cpp:130-153 | succeeds exactly on a resident digest of the required length, writes its bytes and nothing else, refreshes its time stamp |
| DuckCache.DuckCache.Store | kernel/duck/kern/duck_cache.cpp:161-271 | insert if absent with a minimal LRU eviction; fails exactly for an absent digest larger than the whole cache |
| DuckCache.DuckCache.EvictVictims | kernel/duck/kern/duck_cache.cpp:189-218 | the eviction loop, with the state before the last victim as witness of minimality |
| DuckCache.DuckCache.EvictSlot | kernel/duck/kern/duck_cache.cpp:192-208 | kills one slot and splices its chain in front of the free list |
| DuckCache.DuckCache.Defrag | kernel/duck/kern/duck_cache.cpp:220-232 | the three arrays hold the live objects in order and in lockstep |
| DuckCache.DuckCache.OpenSlot | kernel/duck/kern/duck_cache.cpp:240-253 | the three arrays shift together and hold the new object at its index |
| DuckCache.PrefixOldestFirst | kernel/duck/kern/duck_cache.cpp:187-191 | every prefix of the sort is no newer than everything outside it |
| CacheRuns.Serve | kernel/duck/kern/duck_cache.cpp:130-271 | any sequence of calls on a fresh cache is a run of the specification whose events are those calls, in order |
| VirtualMemory.RoundUp64 | kernel/duck/inc/utils.hpp:12-15 | rounding up in 64 bits is exact unless the addition wraps |
| VirtualMemory.Memory.Allocate | kernel/duck/lib/memory.cpp:410-419 | regions are handed out downwards, pairwise disjoint; succeeds exactly when the size fits the room in whole 2 MiB pages; a region holds its size exactly for sizes up to 2^64 - 2 MiB |
| VirtualMemory.Memory.CanAllocate | kernel/duck/lib/memory.cpp:421-425 | true exactly when the size fits the room in whole 2 MiB pages, the very condition on which an allocation succeeds, or is one of the sizes whose rounding wraps |
| VirtualMemory.RoomInPages | kernel/duck/lib/memory.cpp:410-425 | comparing the room with the rounded size says whether whole pages fit |
| PageWalk.OrHighBits | kernel/duck/lib/memory.cpp:92-102 | or-ing in the high bits of the recursive addresses adds them to the low bits |
| PageWalk.OrFlags | driver/page_table.c:81-108 | an aligned address or-ed with flags is their sum |
| PageWalk.RecursiveIndices | kernel/duck/lib/memory.cpp:92-102 | the recursive addresses have the self index one to four times, then the indices of the address |
| PageWalk.RecursiveWindow | kernel/duck/lib/memory.cpp:92-102 | for every address with a 4 KiB leaf, the four recursive addresses translate to the entries its walk reads |
| PageTree.AddTableKeepsTree | driver/page_table.c:65-74 | a fresh table hung in an empty slot keeps the tables a tree with one parent slot per block |
| PageTree.AddTablePath | driver/page_table.c:132-139 | an empty table changes no walk outside the recursive window |
| PageTree.SetLeafPath | driver/page_table.c:141-143 | writing one leaf changes that page's walk and no other outside the window |
| PageTree.PathUnder | driver/page_table.c:129-149 | the walk through a level-1 table of the tree ends in its slot |
| PageTree.SetBigPath | driver/page_table.c:85-89 | a 1 GiB entry shows in the walks through its slot and in no others |
| PageTree.FirstTable | driver/page_table.c:77-81 | the zeroed root with its self entry maps nothing outside the recursive window |
| PageNodes.NodesDistinct | driver/page_table.c:129-149 | no two blocks hang in one slot |
| PageNodes.SlotUsed | driver/page_table.c:132-139 | a slot is present exactly when a block hangs there |
| PageTables.PageTables.AllocBlock | driver/page_table.c:65-74 | a zeroed block below the break, or 0 with the bump pointer moved all the same |
| PageTables.PageTables.MapPage | driver/page_table.c:129-149 | exactly one page gets the frame and no other walk outside the window changes, or the page was mapped and nothing changes; exactly the missing tables are added |
| PageTables.PageTables.InitPageTable | driver/page_table.c:51-127 | the walks of the built tables, 3 + ceil(size / 1 GiB) + ceil(size / 2 MiB) blocks used, 50 left, the break never hit |
| PageTables.Counts | driver/page_table.c:95-101 | the clipped level-1 counts of one GiB continue the totals |
| PageTables.InnerCounts | driver/page_table.c:101-110 | the clipped page counts of 2 MiB continue the totals |
| Firmware.BuiltTranslation | driver/page_table.c:76-127 | every address below the recursive window: the low mapping, the physical window, or nothing |
| Firmware.MapPageTranslation | driver/page_table.c:129-149 | map_page said of translations of all addresses below the recursive window |
| Firmware.TreeSelfMapped | driver/page_table.c:79-81 | valid tables map themselves, so the recursive window works on them |
| Firmware.MissingPays | driver/firmware.c:45-52 | every table that a mapping in the window adds is one the window was still missing |
| Firmware.FirmwareStart | driver/firmware.c:43-52 | after init, 7 spare blocks are enough for the window for good |
| Firmware.SignedMeans | driver/firmware.c:24-28 | the signature check passes exactly files that start with the eight characters JPenguin |
| Firmware.LoadFirmware | driver/firmware.c:24-57 | results of the checks; a refused file changes no byte, a loaded one is zeros, file, zeros at its place and nothing else; image and stack pages end up mapped, the constant offset and the block bound are kept by any number of calls |
| Firmware.PlacedByte | driver/firmware.c:39-41 | each byte of the reserved memory after the writes: the file's, zero, or unchanged |
| Firmware.ImageByteFound | driver/firmware.c:39-46 | each byte of a loaded file is found at its virtual address through the tables |
| Firmware.StackClearIffOffsetFits | driver/firmware.c:33-41 | of the accepted sizes, exactly those that leave room for the image offset keep every image out of the stack area |
| Firmware.FirmwareTranslation | driver/firmware.c:43-52 | every mapped byte of the window translates with the one offset of the reserved memory |
| Firmware.Boot | driver/memory.c:81-82 | from init on, any number of firmware loads: at most 7 blocks beyond init's, the constant offset kept, the mappings made by init still standing, no image byte written over the tables |
| Firmware.StillTranslation | driver/page_table.c:83-111 | in such a state every address of the low mapping and of the physical window translates as it did right after init |
| ElfFile.SegChecksDiffer | kernel/duck/lib/elf.cpp:82-93 | the wrapping segment checks and the exact ones differ only for ends above 2^64 - 2^32 |
| ElfFile.InFileCheckIncomplete | kernel/duck/lib/elf.cpp:82-85 | a segment whose offset and size wrap passes the in-file check |
| ElfFile.SegmentWithin | kernel/duck/lib/elf.cpp:95-97 | every loadable segment lies between the computed minimum and maximum |
| ElfEncoding.PhdrDecodes | kernel/duck/lib/elf.cpp:71-79 | wherever a program header record lies in a file, the loader reads exactly its fields |
| ElfEncoding.EhdrDecodes | kernel/duck/lib/elf.cpp:44-66 | from a file that starts with a header record the loader reads exactly its fields, and its identification checks accept exactly 64-bit little-endian x86-64 executables |
| ElfLayout.ScanSegments | kernel/duck/lib/elf.cpp:68-98 | the first pass accepts exactly when all headers are inside the file and pass the wrapping checks, and finds both bounds |
| ElfLayout.Carve | kernel/duck/lib/elf.cpp:127-165 | both overflow checks of a region together say exactly that its end is below 2^64 |
| ElfLayout.PlanLayout | kernel/duck/lib/elf.cpp:41-184 | accepts exactly the files and configurations that the same conditions over unbounded integers accept, with the unbounded layout |
| ElfLayout.RescuedByMaxVaddr | kernel/duck/lib/elf.cpp:84-105 | a wrap let through by the in-file check always shows as a too high segment end |
| ElfLayout.AcceptedRegions | kernel/duck/lib/elf.cpp:107-184 | accepted regions are page-aligned, in order, large enough, without a spare page between them, and inside [0x400000, vaddr_break) |
| ElfAccept.AcceptsMeans | kernel/duck/lib/elf.cpp:41-184 | acceptance said segment by segment over the integers, without the loader's minimum, maximum or wrapping sums |
| ElfLoader.SegmentByte | kernel/duck/lib/elf.cpp:199-215 | after the copy loop each byte is that of the last file range covering it, or unchanged |
| ElfLoader.AcceptedFits | kernel/duck/lib/elf.cpp:199-215 | in an accepted file every copy stays inside the file and below the program's last page |
| ElfLoader.LoadElf | kernel/duck/lib/elf.cpp:41-375 | for sources anywhere outside the area a program may take, nothing changes unless the file is accepted; then memory is exactly the loaded image |
| ElfLoader.LoadConfined | kernel/duck/lib/elf.cpp:199-322 | a load changes nothing outside [0x400000, end of the random bytes) |
| ElfLoader.LoadedProgramByte | kernel/duck/lib/elf.cpp:199-215 | every byte of the program area below the stack page, after the whole load |
| ElfLoader.LoadedBuffers | kernel/duck/lib/elf.cpp:217-239 | stdin, IB, OB and the file's first page are at their addresses after the whole load |
| ElfLoader.LoadedObKept | kernel/duck/lib/elf.cpp:226-233 | an output buffer to be cleared is not cleared: it keeps what was in that memory |
| ElfLoader.LoadedRandom | kernel/duck/lib/elf.cpp:241-247 | the two random words are at their address after the whole load |
| ElfLoader.LoadedStartup | kernel/duck/lib/elf.cpp:270-320 | the startup block lies in the last page, rsp is 16-byte aligned without realignment, every word reads back |
| ElfHeaders.LoadedFromRecord | kernel/duck/lib/elf.cpp:199-215 | a byte of the program is the file's byte at p_offset of the last covering header record |
| ElfHeaders.LoadedStack | kernel/duck/lib/elf.cpp:270-320 | from rsp on the program finds no arguments, no environment, and behind each auxiliary type the value of the file's header or of the layout |
| ElfHeaders.LoadedInfo | kernel/duck/lib/elf.cpp:252-273 | each pointer and size of the record behind AT_DUCK leads to the buffer with those bytes |
| ElfHeaders.HeadersReadIffCopied | kernel/duck/lib/elf.cpp:235-247 | for an accepted file, every load in whatever memory lets the program read the file's own headers there exactly when the table ends in the copied page, or equals the random bytes it runs into |
| ElfHeaders.HeadersCanBeLost | kernel/duck/lib/elf.cpp:64-66 | a concrete accepted file whose header table is not copied |
| Startup.StartupRead | kernel/duck/lib/elf.cpp:276-313 | argc, argv and envp are empty; every auxiliary type is found with the value pushed for it, and AT_HWCAP, pushed twice, with the value 2 that was pushed last |
| Startup.PushWords | kernel/duck/lib/elf.cpp:26-39 | pushing words one by one leaves them in memory in reverse order |
| Abi.RecordReads | kernel/duck/inc/abi.hpp:21-45 | the encoded record has each field at its own offset |
| Bytes.LeRoundTrip | kernel/duck/lib/elf.cpp:26-39 | little-endian words read back as written |
| Judger.CheckBuffers | kernel/duck/kern/judger.cpp:225-241 | true exactly when all descriptors are inside the buffer and no two overlap, over unbounded sums |
| Judger.GuardRescued | kernel/duck/kern/judger.cpp:254-257 | a product that passes the guard is exact or at least 2^54 |
| Judger.GuardIsIncomplete | kernel/duck/kern/judger.cpp:254-257 | some wrapped product passes the guard |
| Judger.ReplaysBeyondRepeats | kernel/duck/kern/judger.cpp:40-51 | a repetition is always answered from the stored result; what else is, is exactly number 2^64 - 1 with no reply since the last change |
| Judger.RequestLost | kernel/duck/kern/judger.cpp:244-246 | such a request exists |
| Judger.RepeatedReply | kernel/duck/kern/judger.cpp:244-246 | over any run, the same number asked twice with no change in between gets the same reply |
| Judger.AskLost | kernel/duck/kern/judger.cpp:129-137 | on a judge whose buffer was just written, number 2^64 - 1 is answered "Not Judged" and not counted as judged |
| Judger.Verdict | kernel/duck/kern/judger.cpp:295-320 | never both RE and TLE; TLE exactly on overrun or timer trap; the reported time is within the limit; code, trap, counters and sizes are those of the run |
| Judger.Judge.Run | kernel/duck/kern/judger.cpp:243-342 | exactly the replayed requests, named by the history alone, are not judged and change nothing; a fresh one is refused or judged; memory limit and ELF length reach the run unwrapped and untruncated; statistics add up; nothing outside the program area and the buffer changes |
| Judger.Judge.Fresh | kernel/duck/kern/judger.cpp:254-342 | which error for which request, and otherwise the program ran from the loaded image, with the memory and the result it leaves |
| Judger.Judge.Execute | kernel/duck/lib/elf.cpp:383-444 | the program runs on the memory and registers the load left, and its outputs are copied back |
| Judger.Judge.CopyBack | kernel/duck/lib/elf.cpp:427-444 | sizes the program reports are clamped by the judge's own limits before copying |
| Judger.AcceptedJudge | kernel/duck/kern/judger.cpp:254-292 | an accepted request has an exact memory limit and room for all its output |
| Judger.RanAfterLoad | kernel/duck/kern/judger.cpp:289-294 | loading writes only where the run may write |
| Judger.FreshConfined | kernel/duck/kern/judger.cpp:322-330 | a byte that a fresh request changed is in the program's own region below the break, or in the stdout, stderr or OB range of the buffer as clamped by the request's own limits |
| Judger.FreshKeepsOutside | kernel/duck/kern/judger.cpp:254-342 | so nothing outside the program area and the buffer changes |
| Judger.JudgeDelivers | kernel/duck/kern/judger.cpp:322-330 | after a completed judge the buffer holds exactly what the program, run from the loaded memory, left in its output regions |
| JudgeReports.JudgeLoads | kernel/duck/kern/judger.cpp:259-292 | the program of a request finds, through its record, the request's own stdin, IB and OB bytes and limits |
| JudgeReports.JudgeRunsFile | kernel/duck/kern/judger.cpp:271-292 | what is loaded is the named part of the buffer, and the program area is the memory limit in whole pages |
| JudgeReports.JudgeReadsRecord | kernel/duck/lib/elf.cpp:425-444 | reported sizes are those in the record the program leaves, clamped by the request's limits, and exactly so many bytes are delivered |
| JudgeReports.JudgeReturnsOutput | kernel/duck/kern/judger.cpp:322-325 | output written through the user library comes back as its first bytes up to the limit |
| JudgeReports.FreshErrors | kernel/duck/kern/judger.cpp:254-292 | which error answers which request, with the six descriptors named and the bounds written out; an error leaves memory alone |
| Judger.Judge.ClearResult | kernel/duck/kern/judger.cpp:40-51 | afterwards the state is "Not Judged" whatever it was |
| Judger.Judge.WriteBuffer | kernel/duck/kern/judger.cpp:129-137 | writes exactly the range and resets the result, or changes nothing |
| Judger.Judge.ClearBuffer | kernel/duck/kern/judger.cpp:109-118 | zeroes exactly the range and resets the result, or changes nothing |
| Judger.Judge.CopyBuffer | kernel/duck/kern/judger.cpp:139-151 | copies exactly when both ranges are inside and apart, over unbounded sums |
| JudgeInit.Init | kernel/duck/kern/judger.cpp:53-92 | succeeds exactly with at least 1024 MiB; sizes and entry counts of the large or the small set-up; a cleared buffer and two empty caches in disjoint regions above the break, each cache tied to the region carved for it and free to leave anything there, and a judge placed on them |
| JudgeInit.InitReserved | kernel/duck/lib/memory.cpp:195-204 | with the reserved 512 MiB set-up always fails |
| JudgeInit.DigestFromHex | kernel/duck/kern/duck_cache.cpp:17-42 | accepts exactly hexadecimal strings; each word has its i-th character as digit of weight 16^i |
| JudgeInit.HexValPlace | kernel/duck/kern/duck_cache.cpp:20-36 | the value of a character is its place among the sixteen digits |
| JudgeInit.HexRoundTrip | kernel/duck/kern/duck_cache.cpp:17-42 | every digest is read back from its 64 digits, lowest digit of each word first |
| JudgeInit.DigestInjective | kernel/duck/kern/duck_cache.cpp:17-42 | two hexadecimal strings give one digest exactly when their characters differ in letter case only |
| JudgeInit.LoadCache | kernel/duck/kern/judger.cpp:167-185 | a hit fills the named range with the object, resets the result, and may write in the cache's own region; a miss changes nothing in the judge or in memory |
| JudgeInit.StoreCache | kernel/duck/kern/judger.cpp:188-201 | the cache stores the named part of the buffer under the digest; memory changes at most in the cache's own region |
| JudgeRuns.OtherRegionsUntouched | kernel/duck/lib/memory.cpp:410-419 | what is confined to the judge's place misses every region above the break but the one its buffer is in |
| JudgeRuns.EffectKeeps | kernel/duck/kern/judger.cpp:167-201 | a request misses every region above the break that is neither the buffer's nor that of a cache it names |
| JudgeRuns.Origin | kernel/duck/kern/judger.cpp:167-201 | every event of a cache comes from a request naming it, in order |
| JudgeRuns.Serve | kernel/duck/kern/judger.cpp:109-342 | any number of requests, each answered as it should be: a judge request replays or is judged as asked, a write, clear or copy puts exactly its bytes or changes nothing, a cache request is an event of the named cache; regions other than the judge's and the caches' keep every byte; a cache that no request names keeps its region and all it holds |
| JudgeRuns.InitAndServe | kernel/duck/kern/judger.cpp:53-342 | the same from init on, whatever a client asks once it knows the buffer size: the runs start from empty caches, and regions allocated before init keep every byte |
| JudgeRuns.LoadReturnsStored | kernel/duck/kern/judger.cpp:167-201 | over any run, a load_cache hit puts into the buffer the very bytes that an earlier store_cache under the same digits but for case took from it, the one that brought the digest in, whatever was judged, overwritten or evicted between |
| Rendezvous.StepInv | driver/entry.c:13-45 | every step of every CPU keeps the protocol invariant |
| Rendezvous.MainRunsAlone | driver/entry.c:23-38 | while CPU 0 is in jpenguin_main every CPU has arrived and has interrupts off |
| Rendezvous.NoEarlyRestore | driver/entry.c:31-42 | no CPU restores interrupts before the reset, and each gets its own flag back |
| Rendezvous.StrandedForever | driver/entry.c:24-25 | a CPU overtaken by the reset in its first spin never leaves it |
| Rendezvous.FinishIffNotStranded | driver/entry.c:13-52 | all CPUs can finish exactly when the reset left none in its first spin |
| Rendezvous.FairScheduleFinishes | driver/entry.c:31-45 | after a reset that stranded nobody, a schedule finishes exactly when it gives every CPU the at most two turns it still needs |
| Rendezvous.FairScheduleReleases | driver/entry.c:13-31 | from every reachable state, two turns for every CPU and then two for CPU 0 get to the release |
| Rendezvous.FairScheduleEnds | driver/entry.c:13-52 | so every fair schedule ends with all CPUs done, or with one stranded by the reset |
| Rendezvous.RaceIffMany | driver/entry.c:24-37 | a reset that strands a CPU is reachable exactly when there are at least two |
| Streams.TakeAppend | kernel/duck/user_lib/duck64_syscall_handler.cpp:134-158 | truncating piece by piece is truncating the whole |
| Streams.Streams.Read | kernel/duck/user_lib/duck64_syscall_handler.cpp:106-118 | the next slice of stdin; all reads together are a prefix of stdin |
| Streams.Streams.ReadV | kernel/duck/user_lib/duck64_syscall_handler.cpp:120-132 | equals one read of the total length, whatever that total is |
| Streams.Streams.Write | kernel/duck/user_lib/duck64_syscall_handler.cpp:134-158 | the buffer holds the first bytes of all writes up to the limit; the full length is reported |
| Streams.Streams.WriteV | kernel/duck/user_lib/duck64_syscall_handler.cpp:160-172 | equals one write of the concatenation; the reported length is its length modulo 2^64 |
| Timer.ToNsExact | kernel/duck/inc/timer.hpp:19-29 | the split conversion is floor(ticks * 10^9 / freq) whenever that fits |
| Timer.ExactIffSmall | kernel/duck/inc/timer.hpp:19-29 | it is exact for all fitting readings exactly for frequencies with (freq - 1) * 10^9 < 2^64 |
| Timer.ToNsMonotone | kernel/duck/inc/timer.hpp:19-29 | later readings never convert to earlier times |
| Timer.UserClockAgrees | kernel/duck/user_lib/duck64_syscall_handler.cpp:91-104 | the user clock's pair is proper and agrees with the kernel's conversion |

## Left out

- PageTables.PageTables.MapPage: requires enough spare blocks for the missing tables, because the code ignores a failed `alloc_block` and would then write through physical address 0; access rights of entries are not modelled.
- DuckCache.DuckCache.Store: requires a clock reading other than 0 and a length below 2^64 - 4087, because the code uses 0 as tombstone and adds 4087 without a check.
- DuckCache.DuckCache.Load: requires a clock reading other than 0, for the first of these reasons.
- DuckCache.DuckCache.Init: requires at least one object slot and tables that do not wrap the address space, because the code checks neither.
- JudgeInit.LoadCache: requires the range to be inside the buffer, because the code leaves range checking to its caller; the choice between the two caches by name is in `JudgeRuns.ServeOne`.
- JudgeInit.StoreCache: requires the range to be inside the buffer, for the same reason.
- Hardware access and assembly: interrupt controllers, serial line, traps, context switch and model-specific registers.
- Linux services (firmware request, ioremap, misc device, ioctl) and the command-line tool.
- Commented-out code, among it the packet handlers and the page-flag functions, and BSS zeroing and page protection after a load.
- PCI scan, ACPI and multiboot parsing, which nothing running calls.
- `read_buffer`, `compare_buffer`, `info`, `get_statistics`, `duck_fstat`, `duck_brk`: would only add easy members.
- The realignment of the stack pointer at kernel/duck/lib/elf.cpp:316-320: the block is 384 bytes, so the branch never runs.
- Logger, scheduler idle policy, dynamic linking stubs, driver self-tests and build files.

# CP/M-386: file system, deblocking, editor, boot and loader cores

A Dafny model of the parts of CP/M-386 that keep data: the BDOS file system, the CBIOS layer below it, the
editor's text buffer, the Multiboot memory map, the random number generator and the two program loaders.

Code that works by changing globals and buffers is modelled by classes with arrays and loops; each of their
methods is proved to compute a function on values, and the theorems are about those functions.

- **File system** (bdosrw.c, fileio.c, dskutil.c, the file calls of bdosmain.c). `Machine.Bdos` is the code: sectors,
  allocation bytes, checksums, 36-byte FCBs. `Volume`, `RecordIo`, `FileCalls` and `Truncation` are the same
  operations on values. `Files`, `Blocks` and `FileSystem` say what a file *is* (a sparse map from record number to
  128 bytes, read from the directory and the FCBs in use) and which states are sound; `Transitions`, `Transfers`,
  `RecordAccess`, `Erasing` and `Closing` prove each call against that; `Sessions` proves it of whole runs, and
  `Programs` carries it back to the arrays.
- **Deblocking** (disk.c, iosys.c): `Deblocking.Cbios`, over a device that may fail at any time.
- **Editor** (ed.c): `Streams` (files read and written a buffer at a time) and `Editor.Ed` (the gap buffer).
- **Smaller cores**: `Multiboot` (mltiboot.c), `Salsa` and `Rng` (cpmrng.c), `Loader` (bdosmisc.c, mk386.c).

Every file-system theorem takes a disk parameter block that is well formed (`DiskParams.Dpb.WellFormed`) as a
hypothesis. The floppy and hard disk blocks are; the RAM disk's is not.

`Sessions.Allowed` states what the callers owe: one FCB per file, given up only after closing; names that are unique
and without wildcards; a free directory entry when a write has to create one; and, on a full disk, that such a write
begins an entry rather than continuing one. The last obligation is there because of a defect (see below) and is as
narrow as that: sequential writes always meet it.

## Model
| member | source | states |
|---|---|---|
| Sessions.RunKeeps | bdosrw.c:145-393 | Over every run of allowed calls (make, open, close, sequential, random and zero-filling record I/O, delete, truncate, relogin) the invariant holds at the end, and every record written and not since erased or cut off reads as last written |
| Sessions.CallKeeps | bdosmain.c:248-505 | Each call keeps the invariant and has exactly its effect: an open succeeds if and only if the file has its first entry, a make if and only if there is a free one, and the FCB then stands at the beginning of that file; a close always succeeds; a read delivers the record or fails because the file lacks it; a write changes that record, keeps every readable one and reaches no other directory entry; sequential transfers step on; nothing else that can be read changes |
| Sessions.LoggedRecordReadsBack | bdosrw.c:291-393 | At any point of any run a read of a record the run has written succeeds and delivers it |
| Sessions.ReachableState | dskutil.c:124-169 | In every reachable state no block is named by two map slots of entries and unclosed FCBs, none is a directory block, the vector marks the directory and named blocks only and all of those, every checksum is current, no live entry is above the high-water mark, and the drive is not read-only |
| Sessions.VectorIsRebuilt | fileio.c:106-157 | With all FCBs closed, the vector maintained call by call is the one a login would rebuild from the medium |
| Sessions.LoginStarts | fileio.c:106-157 | Logging in any consistent medium gives a state the runs can start from |
| Sessions.SequentialCreatesFirst | bdosrw.c:145-218 | A sequential write that has to create a directory entry always creates the first extent of one, so it needs no care on a full disk |
| Sessions.FullDiskWrite | bdosrw.c:345-380 | On a full disk a write that has to create an entry returns 2 and changes no file, and keeps the invariant if and only if the entry begins with its first extent |
| Limits.EmptyEntryHidesRecord | fileio.c:406-419 | After such a write, the first record written to the group is readable from the closed entry if and only if it does not lie in an extent before the entry's own |
| CrampedDrive.DamageInReach | bdosrw.c:345-380 | A concrete drive, medium and two allowed calls after which a random write returns 2 and breaks the invariant |
| Limits.DirectoryFullLeavesOldMap | bdosrw.c:145-218 | With no free entry the move to a new extent returns 5 and leaves the FCB addressing the new extent with the old map |
| Programs.Execute | bdosmain.c:1467-1494 | A sequence of calls on the machine's arrays and FCB buffers ends in the state the run on values leads to, so all of the above holds of it |
| Programs.SizeCall | bdosmain.c:397-435 | Call 35 leaves the file's size in the random-record field |
| Programs.SetRanCall | bdosmain.c:397-435 | Call 36 leaves the number of the record the FCB stands at, and a random read goes there |
| Machine.Bdos.Service | bdosmain.c:1467-1494 | A call selects the drive, does what the call does on values with the user number in the FCB, and puts the drive byte back |
| Machine.Bdos.Bdosrw | bdosrw.c:291-393 | The in-place transfer loop computes the record access that `RecordAccess` proves correct, for every mode |
| Machine.Bdos.Dirscan | dskutil.c:187-254 | The scanning loop, in every combination of its flags and with checksum checking or storing, computes the scan on values, including the relogin on a changed medium |
| Machine.Bdos.GetAloc | dskutil.c:304-346 | Sets the bit of the free block nearest to an allocated start and no other, or returns ~0 and changes nothing |
| Machine.Bdos.FreeSp | fileio.c:951-980 | The loop over 16-bit words computes the number that `CountsRightExactly` is about |
| Machine.Bdos.TruncateFi | fileio.c:909-944 | The in-place truncation, with its static variables, computes the cut on values |
| Machine.Bdos.CalcExt | bdosrw.c:228-255 | The backward scan for the last allocated slot gives the extent that slot lies in, inside the entry's bracket of extents |
| RecordAccess.ReadIsView | bdosrw.c:291-347 | A read returns success exactly when the file has the record, delivers it, changes no file, and sequential I/O steps on |
| RecordAccess.WriteIsWrite | bdosrw.c:345-393 | A write succeeds or returns disk full or past-maximum for that reason; success changes exactly one record; failure changes none |
| Transitions.NewExtKeeps | bdosrw.c:145-218 | Crossing to another extent, sequentially or at random, changes no file and never fails to close; a read gets 4 exactly when the file has no entry there, and a write leaves the FCB pending exactly when it created one |
| Transitions.CloseKeeps | fileio.c:440-450 | Closing an FCB in use succeeds, changes no file, and makes entry and FCB agree |
| Transfers.AllocationIsNearest | bdosrw.c:349-356 | The block a write gets is the free one nearest to its left neighbour, the lower on a tie, never block 0; none is found exactly when the disk is full |
| Allocation.OutwardNearest | dskutil.c:304-346 | The outward search from an allocated block finds the nearest free block, the lower on a tie, and fails exactly when no block is free |
| Zeroing.ZeroFillWrite | bdosrw.c:361-379 | A zero-filling write that took a new block makes every other record of that block readable as zeros |
| Closing.CloseIsMerge | fileio.c:345-433 | Close succeeds exactly when the maps do not clash; then the entry's map is the slotwise union and its (extent, count) the later of the two; otherwise the medium is unchanged and the drive read-only |
| Closing.MergeIsUnion | fileio.c:367-404 | The merge loops fill each empty slot from the other map, slot by slot, and stop at a clash exactly if there is one |
| Closing.SecondCloseIsIdle | fileio.c:345-433 | Closing again changes nothing, on disk or in the FCB |
| Closing.CountSurvivesExactly | fileio.c:406-419 | The FCB's record count survives the close if and only if its (extent, count) is not the earlier one or the counts are equal |
| Scanning.ScanIsSearch | dskutil.c:187-254 | On a steady drive a scan that stops at a match visits the first wanted entry and no other, whether or not it stops at the high-water mark, and changes nothing on the way |
| Erasing.FullScanCuts | dskutil.c:187-254 | A scan that goes on past matches deletes or cuts every entry of the file and no other |
| Checksums.ChangeShows | dskutil.c:144-169 | Two directory sectors that differ in one byte, by less than 254 or in the highest byte of a word, have different checksums |
| Checksums.ChangeNoticed | dskutil.c:212-234 | So the scan that loads a sector changed that way logs the drive in afresh, or makes it read-only in the middle of work |
| LoginScan.LoginEffect | fileio.c:140-157 | The login scan leaves the vector marking directory blocks and blocks of live entries, current checksums and high-water mark, and the medium as it was |
| FileCalls.GetSizeIsLargestEnd | fileio.c:734-751 | Repeated continued scans visit every entry of the file once, in order: the size is the largest end |
| Truncation.TruncateIsCut | fileio.c:909-944 | Where every cut is clean: records below n stay with their data and no others do, exactly the blocks past the cut are released, other files are untouched, and the size becomes the largest of min(old end, n) |
| Truncation.TruncateUnfolded | fileio.c:909-944 | With one extent to an entry every truncation to n > 0 is such a cut |
| Truncation.TruncateAboveData | fileio.c:909-944 | Truncation just above an existing record is such a cut on any drive, and the size becomes n |
| Truncation.TruncationExact | fileio.c:839-900 | An entry cut at t keeps exactly its records below t if and only if the extent that becomes last keeps a block or the last block kept ends within the stored count |
| Truncation.TruncationLosesRecords | fileio.c:839-900 | A map and a cut where a kept block's records become unreadable |
| Truncation.DeleteIsErase | fileio.c:550-585 | Delete removes the file and nothing else, releases exactly its blocks, and returns 255 exactly when there was none |
| Addressing.DecodeExact | bdosrw.c:160-187 | Random addressing reaches record n if and only if a condition on the two upper bytes holds; it holds below 0x8000 |
| Addressing.HighRecordAliases | bdosrw.c:160-187 | Record 0x8000 is taken for record 0x38000 |
| Addressing.DecodeInjective | bdosrw.c:160-187 | Two record numbers that decode right never meet |
| Addressing.SetRanReturns | fileio.c:691-701 | The number setran stores leads random I/O back to the sequential position, at the end of an extent to where sequential I/O would move |
| Addressing.BlkIndxFits | bdosrw.c:68-83 | The map index stays inside the map for all records if and only if an entry's extents hold no more records than its map |
| Addressing.RamDiskOverruns | bringup.c:74-82 | The RAM disk's block sends the index to 63 in a map of 16 |
| FreeSpace.CountsRightExactly | fileio.c:951-980 | free_sp reports the space chkaloc sees, for every vector, if and only if the number of blocks is a multiple of 16 |
| FreeSpace.StandardDrivesCount | disk.c:103-127 | It is, on all three drives |
| Deblocking.Cbios.BiosRw | disk.c:899-942 | Under any device failures and retries the cache tag stays truthful; a successful transfer is one 128-byte get or put at the flat address and leaves the neighbours; a failed one loses at most the physical sector it was writing; and it succeeds if and only if the drive is there and every physical transfer it takes is granted at once or on the second try, a cached read taking none |
| Deblocking.Cbios.PhioTransfer | iosys.c:72-98 | A linear sector number reaches the same flat address through track and sector, and succeeds under the same condition, the cache counting only if the drive was selected already |
| Deblocking.Cbios.SelDsk | disk.c:786-818 | Selects any drive, succeeds for those that are there, and drops the cache at a fresh login |
| Deblocking.LastWriteReadsBack | disk.c:627-682 | Over any history of transfers a successful read returns the last successful write to that sector, if nothing disturbed it since |
| Deblocking.FlatPutIsUpdate | disk.c:899-942 | Read-modify-write of a physical sector is an update of one element of the flat array |
| Deblocking.PackedAddress | disk.c:604-616 | For any reportable geometry an address below the capacity is packed into CX and DX that decode to it, larger ones are refused |
| Deblocking.AddressUnique | disk.c:604-616 | Only one cylinder, head and sector give a linear address |
| Editor.Ed.Execute | ed.c:3627-3715 | Each of A, B, C, D, F, K, L, S and W leaves written text, text before and after the cursor, and unread text exactly as its function of them says, or ends with the error that says |
| Editor.Ed.Session | ed.c:3627-3715 | Any sequence of these commands and an E writes the text they lead to, to the byte, and record count and last-record byte count give its length |
| Editor.MovesKeepText | ed.c:2248-2283 | Sequences without D, K and S, whatever their counts and whether they succeed, lead to the text there was |
| Editor.Ed.FindTimes | ed.c:3281-3285 | Command F passes n occurrences, or stops behind the last one |
| Editor.Ed.Terminate | ed.c:2465-2472 | The destination is the whole text and padding; 0xffff lines are never too few |
| Editor.Ed.Append | ed.c:3263-3279 | Appends the next n lines, or lines up to half the buffer, leaves the cursor, loses nothing, keeps the line number; overflows exactly when the gap cannot take them, and says what is then where |
| Editor.Ed.WriteOut | ed.c:2430-2450 | Writes the first n lines of the buffer, or lines until half is free, and leaves the cursor in what remains |
| Editor.Ed.Mover | ed.c:2248-2283 | A move of the gap changes neither the text nor what baseline counts, in sixteen bits |
| Editor.Ed.SetCLimits | ed.c:2338-2350 | Character limits stay inside the buffer, except backward by exactly front |
| Editor.Ed.SetLimitsForward | ed.c:2178-2231 | Forward line limits are just behind the n-th line feed, or the end |
| Editor.LineEndIsLines | ed.c:2178-2231 | What n lines pass over holds n line feeds, or all there are, and ends behind one or at the end |
| Editor.UptoIsFirst | ed.c:2703-2711 | Reading to half stops behind the first line that gets there |
| Editor.Ed.Find | ed.c:2538-2567 | True exactly when the NUL-free pattern occurs behind the cursor, which then stands just past its leftmost occurrence; the sentinel is never passed |
| Editor.FirstIsLeast | ed.c:2544-2560 | The place found is an occurrence, none is before it, and there is none if none is found |
| Editor.Ed.Substitute | ed.c:3312-3326 | The in-place loop computes the n replacements, or fails for lack of a match or of room as they do |
| Editor.SubstituteIsReplacement | ed.c:3312-3326 | A successful substitution replaces n non-overlapping occurrences, each the leftmost of what is left, and touches nothing else |
| Streams.Source.GetSource | ed.c:1279-1315 | Characters come in file order across buffer refills, up to the first end-of-file character and no further |
| Streams.Destination.Finis | ed.c:1494-1504 | The last record is padded, and record count and last-record byte count give the exact length back |
| Multiboot.MbMergeMmap | mltiboot.c:22-67 | The nested loops over the raw map compute the bounded fixpoint |
| Multiboot.MergeIsRun | mltiboot.c:22-67 | For up to 64 entries the result is the end of the maximal available run up from 1 MiB: all below it is available, no available entry starting at or below it ends above it |
| Multiboot.PassesSuffice | mltiboot.c:22-67 | 64 passes find that end for every map of n entries if and only if n is at most 64 |
| Multiboot.OrderIndependent | mltiboot.c:22-67 | The order of the entries does not matter |
| Multiboot.InitFromMultiboot | mltiboot.c:71-109 | Which source of memory size wins, and that the result lies in the TPA's bounds |
| Salsa.SalsaBlock | cpmrng.c:21-59 | The in-place quarter rounds compute the Salsa20 core of the specification, sections 3 to 8 |
| Salsa.PublishedQuarters | cpmrng.c:21-28 | The quarterround has the values that the Salsa20 specification publishes with it |
| Salsa.PublishedRow | cpmrng.c:43-51 | The rowround has the value that the Salsa20 specification publishes with it |
| Salsa.TurnMovesBits | cpmrng.c:17-28 | The rotations move each bit up by their amount, round the end |
| Salsa.RoundsBijective | cpmrng.c:21-59 | Any number of double rounds has an inverse |
| Rng.NoInputRepeats | cpmrng.c:107-234 | Over every run of seed and draw, no two block inputs between key replacements share a counter, and there are at most 257 |
| Rng.SeedReachesBlock | cpmrng.c:163-175 | Two seeds lead to the same block input if and only if they agree in what they bring to every byte of key and nonce |
| Rng.ShortSeedsDiffer | cpmrng.c:163-175 | Seeds of one length up to 32 do so only if they are the same |
| Rng.WordsComeBack | cpmrng.c:130-150 | The key and nonce that replace the old ones are the output block's words |
| Rng.RefusedExactly | cpmrng.c:205-234 | As long as fewer than 2^32 bytes are fed, 0xFFFF is returned exactly while fewer than 256 have been absorbed |
| Rng.Generator.Get16 | cpmrng.c:205-234 | The in-place draw is the step the runs are made of |
| Rng.Generator.Seed | cpmrng.c:152-179 | The in-place seeding is the step the runs are made of |
| Loader.LoadFromBuf | bdosmisc.c:507-535 | Return code, entry point and memory, touching only the image's place |
| Loader.LoadFromReader | bdosmisc.c:541-627 | The same from 128-byte records |
| Loader.CodesAgree | bdosmisc.c:502-627 | The loaders return the same code if and only if the header is bad or the file holds the whole image |
| Loader.MemoriesAgree | bdosmisc.c:502-627 | Both leave the same memory |
| Loader.MakeHeader | mk386.c:152-165 | All 32 bytes of the header by position, and that the loaders read the same fields from them |
| Loader.WrittenHeaderAccepted | mk386.c:152-165 | A written header is accepted exactly when the image is non-empty, fits, and its min_kb is 0 or at most tpa_len/1024 |
| Loader.WrittenFileIsWhole | mk386.c:152-165 | Header and image make a file both loaders find whole, image byte for byte |

## Where the code falls short
Each is a theorem above, with its exact condition.

- Random record numbers from 0x8000 on: the signed shift of `ran1` sends record 0x8000 to 0x38000 (`Addressing.DecodeExact`).
- Truncation on a drive with several extents to an entry and a hole before the cut: the stored extent and the last
  allocated slot disagree and kept records are lost (`Truncation.TruncationExact`).
- A full disk and a random write into a later extent of a group without an entry: an empty entry is left whose extent
  hides records written to earlier extents (`Sessions.FullDiskWrite`, `Limits.EmptyEntryHidesRecord`).
- A full directory: `new_ext` leaves the FCB with the old extent's map (`Limits.DirectoryFullLeavesOldMap`).
- `free_sp` on a number of blocks that is not a multiple of 16 reads bits beyond the drive (`FreeSpace.CountsRightExactly`).
- The RAM disk's parameter block (`Addressing.RamDiskOverruns`).
- ED: a character move backward by exactly `front` picks up the line feed below the text (`Editor.Ed.SetCLimits`).
- Multiboot: with more than 64 entries the passes can run out (`Multiboot.PassesSuffice`).
- bdosdef.h says the reserved header bytes must be zero; the loaders do not look at them, and neither does the model.

## Left out
- FileCalls.OpenCall: does not query the last-record byte count, so `cur` after an open that asks for it (0xFF) is provisional.
- Truncation.TruncateIsCut: does not cover truncation to 0, which removes the entry before the branch that would keep it.
- Machine.Bdos.Alloc: a block number beyond the drive in a live entry, which the code would use to index past the vector, does not occur on the consistent media considered.
- Machine.Bdos.Bdosrw: sequential I/O is modelled for FCBs whose `cur` is at most 128, as the BDOS itself leaves it; a program may store 129 to 255 there.
- Deblocking.Cbios.SelDsk: the drive probe is taken as done; it does not change which drives exist.
- Loader.LoadFromReader: for files that hold at least a header; the reader answers with success or end of file, not with an error code of its own.
- Editor.Ed.CharMove: excludes the move backward by exactly `front` (see above).
- Editor.Ed.Session: stops describing the edit at such a move, and at a D backward by as much.
- Drive letters, several drives at once, call 32 (user number), search, rename, set attributes: they would add a parameter or easy members.
- Read-only prompts, `ext_err`, `ro_err` and interactive recovery; device errors inside the file-system model.
- FCBs that overlap each other, the directory buffer or the DMA buffer.
- The RAM disk's own transfer, motor and spin-down timing, drive probing and `int13` itself, which is a device that may fail at any call.
- ED: backward line limits, J, N, insert mode, upper-casing, printing, the library and transfer files, disk-full recovery, and a destination that fails.
- Rng: the entropy sources and the port I/O that feed it.
- Multiboot: reading the boot information from memory; it is a parameter.
- Video, keyboard, timers, the console, the CCP and the utilities.

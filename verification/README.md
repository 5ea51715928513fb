# A Dafny model of the recovery engine

The engine finds lost partitions and files on a disk image and writes them back. This project models the parts of it that
compute: sorting, caching, the file formats it writes and reads again, the partition tables it writes and reads again, the
enumeration of places to look at, the carver, and the reassembly of files from clusters. For each it proves what the part is for.

| file | what it models |
|---|---|
| `ListOrder`, `BinaryCounter`, `ListSort` | the bottom-up merge sort of doubly linked rings: heap nodes, the `part[]` array, stability |
| `Disk`, `HdCache` | a disk with sector reads that may fail, and the 16-slot read cache in front of it |
| `Next` | the set of arithmetic progressions of candidate offsets and the enumeration of their union |
| `Words`, `Crc`, `CrcTable` | the table-driven CRC-32, its literal table, and its use over a file read in pieces |
| `Restore` | cluster reassembly, as a preview and as a restored file |
| `Tree` | the scan tree: paths split at slashes, nodes with parent and child links, totals |
| `Files`, `Bits`, `Session` | streams, little-endian fields, flag bytes; session files |
| `Backup` | `.dsk` backup files and the comparison of a backup with the live filesystem |
| `Layouts` | session and backup files byte by byte |
| `Partitions` | sorted partition lists, overlap tests, the GPT structure pass |
| `Chs`, `Ebr` | cylinder/head/sector arithmetic, MBR entries, chains of extended boot records |
| `Unicode`, `Gpt`, `GptDisk`, `GptBytes` | GPT names, headers, entries, tables, checksums; writing and reading a whole GPT; its bytes as other programs see them |
| `Carver`, `CarverPieces`, `CarverStats` | the carver's state machine over chunks, sectors and bytes; what a scan looks at and finds, file by file; the nodes and statistics of carved files |
| `Arith`, `Wrappers` | division and remainder by variable divisors; values that may be missing |

Each part has the same shape. What the source does step by step is a method over a class, an array or a stream, with the
source's branches; it is proved equal to a function of the inputs or of the old state. Lemmas then say what that function is
good for: the sort is *the* stable sort, the parser undoes the printer, the enumeration lists exactly a union, the adjacent test
is the all-pairs test.

Results that differ from what one would expect of the code:

- With a sector size that divides 64 KiB, the carver looks at all sectors exactly when the partition is no longer than one chunk
  of 512 KiB. Every later chunk is read from 64 KiB before its first sector, and these 64 KiB are skipped, but no more is read for
  that: its last 64 KiB are never looked at (`CarvedPieces.WhichSectors`, `CarvedPieces.AllSectorsIffOneChunk`).
- The backup of a partition that does not start at 0 is compared with the size of the whole disk: on its own disk it is accepted
  exactly when the partition takes at least two thirds of it (`Layouts.AcceptedAtHome`).
- A partition is refused as a duplicate exactly when the first one of its place and size is alike; with two of different types
  there, the second one is inserted again (`Partitions.RefusedIff`, `Partitions.TwinsAtOnePlace`).
- The carver's entries are disjoint exactly when 65536 is a multiple of the sector size, or the partition is too small for a
  second scanned chunk. `change_sector_size` admits 1536-byte sectors, for which part of the first chunk is scanned twice
  (`Carving.DisjointIffRegular`).
- A preview and the restored file agree on every disk exactly when clusters are at most 64 KiB, or the file is
  (`Restore.PreviewIsRestoredFile`, for clusters on a grid; `Restore.AgreeIffSamePlaces` for any). Otherwise the restored file can
  be shorter, or have the right length and wrong bytes: two 128 KiB clusters and a file that fills the first already show it
  (`Restore.TwoLargeClusters`).
- The first sector of head 2, which the code computes for i386 disks and overwrites, is a location on cylinder k exactly when the
  disk has at most two heads, or the sector lies on a multiple of 1 MiB, or the mode is the fullest one, or with fast mode 1 a
  backup sector falls there (`Next.Head2Reached`); with 255 heads and 63 sectors it is missed (`Next.Head2IsMissed`).
- A chain of logical partitions is read back in full exactly when there are at most 16 of them: the reader's limit of 32 counts
  links as well (`Ebr.LogicalsRoundTrip`, with 17 in `Ebr.SeventeenthIsLost`).
- The record of a logical partition lies in the gap before it exactly when that partition does not start within the first track
  of the disk; there the 64-bit computation wraps (`Ebr.RecordPosition`, `Ebr.InFirstTrack`).
- `write_backup_entry`, taken alone, writes entries that are not read back as they were, exactly for paths over 4095 bytes
  (`BackupFormat.EntryRoundTrip`). `backup_walk_dir` cuts paths to 4095 bytes before it calls it (`BackupFormat.FullPathFits`).
- `backup_restore`, taken alone, gives a node that is in the tree already the clusters of a changed file, but leaves it its own
  size and time (`BackupTree.BuiltUpdates`, `BackupTree.KeepsItsSize`); the main window always calls it with a fresh tree.
- Of the trees a session file can hold, exactly those are read back as they were in which nodes without clusters have no cluster
  size and files have no children (`SessionFormat.SessionRoundTrip`). The clusters of a directory are taken for records: if the first
  of them does not look like a short length, everything from there on is lost (`SessionFormat.SessionStopsAtDirectory`).
- After one changed byte anywhere on a disk with a written GPT all partitions are still read, even where the header's checksum does
  not protect its own size field (`GptRoundTrip.SurvivesAnyByte`).
- A GPT partition of one sector is written but not listed (`GptRoundTrip.ListedIffTwoSectors`); a GPT name survives exactly when
  it is ASCII and fits (`Unicode.NameRoundTrip`).
- A session file whose header does not fit is left behind incomplete, unlike one whose tree does not fit (`Sessions.SessionSave`).

Bytes are numbers below 256; offsets and sizes are natural numbers, with 64-bit wrap-around written out (`% WORD64`) where the
code relies on it or suffers from it. A `Disk` answers an in-range read in full if it is `reliable`; otherwise it may stop
anywhere, or on sector boundaries if it is `sectorwise`, and never delivers bytes of `damaged` sectors; if it is `singles`, a good
sector that is read alone is delivered. A `File` accepts bytes up to a `limit`. Filesystem probes, header and
footer checks of file formats, and generated identifiers are parameters, and every theorem holds for all of them.
`Ebr.SomeWellPlaced` and `GptRoundTrip.SomeGoodList` give layouts that meet the conditions of the partition table theorems.

## Model

| member | source | states |
|---|---|---|
| ListSort.TdListSort | src/disk/list_sort.c:117-156 | for every ring and comparator the nodes end in one ring through head, with prev the inverse of next, in an order that is a permutation of the old one; for a total preorder it is the stable insertion sort of the old order; part[] stays within its 21 slots |
| ListSort.Merge | src/disk/list_sort.c:41-58 | two disjoint NULL-terminated chains become one chain in merged order; only next links change |
| ListSort.MergeAndRestoreBackLinks | src/disk/list_sort.c:68-102 | two chains, the first not empty, become a ring through head in merged order with every prev link set |
| ListSort.RestoreBackLinks | src/disk/list_sort.c:87-101 | from a chain whose first nodes have prev links, the loop sets the others and closes the ring |
| ListSort.CarryUp | src/disk/list_sort.c:137-140 | the inner loop leaves the slots, the level and the carried chain that a binary counter's carry gives, as disjoint chains in memory |
| ListSort.PushNode | src/disk/list_sort.c:132-149 | after each node, part[] and max_lev hold the counter of all nodes taken so far |
| ListSort.CollapseParts | src/disk/list_sort.c:151-153 | the runs below max_lev become one chain, disjoint from the run in part[max_lev] |
| ListSort.TakeNodes | src/disk/list_sort.c:132-149 | the whole first loop: part[] holds the counter of the list |
| ListOrder.MergedSorted | src/disk/list_sort.c:41-58 | merging sorted lists gives a sorted list |
| ListOrder.MergedClass | src/disk/list_sort.c:41-58 | among elements that compare equal those of the first list come first, in their old order |
| ListOrder.MergedMultiset | src/disk/list_sort.c:41-58 | a merge is a permutation of the two lists together |
| ListOrder.InsertionSortedIsStableSort | src/disk/list_sort.c:107-116 | the reference sort is sorted and keeps equal elements in order |
| ListOrder.StableSortUnique | src/disk/list_sort.c:107-116 | two sorted lists that agree on every class of equal elements are the same list, so a stable sort has only one result |
| BinaryCounter.Push | src/disk/list_sort.c:132-149 | however long the list, max_lev stays below the last slot, that slot stays empty, and part[max_lev] is occupied |
| BinaryCounter.PushAll | src/disk/list_sort.c:132-149 | after at least one node part[max_lev] is not NULL; after none max_lev is 0 |
| BinaryCounter.PushAllClass | src/disk/list_sort.c:132-149 | every run in part[] is sorted, and read from the highest slot down the runs keep equal nodes in list order, also beyond 2^20 nodes |
| BinaryCounter.CounterSortedClass | src/disk/list_sort.c:117-156 | the result is sorted and stable for a total preorder |
| BinaryCounter.CounterSortedMultiset | src/disk/list_sort.c:117-156 | the result is a permutation for any comparator at all |
| BinaryCounter.CounterSortRefinesInsertionSort | src/disk/list_sort.c:104-156 | the binary-counter merge sort computes the stable insertion sort, for every length |
| HdCache.DiskCache.constructor | src/disk/hdcache.c:230-270 | a new cache is consistent with its disk, and complete on a disk that serves reads in full |
| HdCache.DiskCache.FindSlot | src/disk/hdcache.c:73-104 | a slot covering the offset is found whenever one of the 16 does |
| HdCache.DiskCache.FilledSlot | src/disk/hdcache.c:113-123 | a refilled slot matches the disk in its good prefix, whatever it held before |
| HdCache.DiskCache.Refill | src/disk/hdcache.c:111-123 | the next slot in the ring covers the request; all slots still match the disk |
| HdCache.DiskCache.ServeHit | src/disk/hdcache.c:79-103 | a full or partial hit delivers disk bytes, through the recursion for the rest |
| HdCache.DiskCache.ServeMiss | src/disk/hdcache.c:105-157 | a miss delivers disk bytes, with or without read-ahead, falling back to ReadFailure |
| HdCache.DiskCache.ReadFailure | src/disk/hdcache.c:136-157 | a short read returns fewer bytes or retries sector by sector; a full count still certifies every byte; after no earlier error the good sectors before the first bad one are delivered |
| HdCache.DiskCache.SplitRead | src/disk/hdcache.c:142-156 | the retry returns count only if every sector was read, and then the buffer equals the disk; on a device that gives good sectors one by one it returns the bytes before the first bad one, and they are in the buffer |
| HdCache.DiskCache.SplitStep | src/disk/hdcache.c:144-155 | one sector of the retry is delivered when it is good and refused when it is not |
| HdCache.DiskCache.PreadAux | src/disk/hdcache.c:65-158 | terminates by (read_ahead, count), never returns more than count, writes only its part of the buffer; on an in-range request of a reliable disk it delivers exactly the disk's bytes; on a failing one a full count certifies them, and is reached when all sectors of the request are good |
| HdCache.DiskCache.Pread | src/disk/hdcache.c:160-163 | for callers: an in-range read of a reliable disk is served in full with exactly the disk's bytes; on a disk with bad sectors, after no error, count is returned exactly when no sector of the request is bad, else no byte beyond the first bad sector is vouched for, and a request no slot covers returns the bytes before it |
| HdCache.DiskCache.Pwrite | src/disk/hdcache.c:165-177 | a write invalidates exactly the slots it overlaps, keeps the others, and reaches the disk; no slot is stale afterwards |
| HdCache.DiskCache.Replay | src/disk/hdcache.c:65-177 | any interleaving of in-range reads and writes gives the results, and leaves the disk, of the same requests without a cache |
| HdCache.MatchesAfterWrite | src/disk/hdcache.c:168-174 | a slot that does not overlap a write still matches the disk after it |
| HdCache.HitIsGood | src/disk/hdcache.c:82-99 | the bytes a slot serves out of its good prefix are disk bytes |
| Next.SearchLocations.UpdateLocation | src/disk/next.c:58-94 | the union of the progressions becomes the old union together with the new progression, in every branch; with the table full and nothing comparable it stays the same |
| Next.ReplaceUnion | src/disk/next.c:62-82 | overwriting an entry that the new progression contains adds exactly the new progression |
| Next.CoverUnion | src/disk/next.c:62-82 | a progression already contained in an entry adds nothing |
| Next.SearchLocations.SearchLocationUpdate | src/disk/next.c:183-193 | returns the least element of the union above the location, and changes the union only at or below it |
| Next.SearchLocations.AdvanceEntry | src/disk/next.c:187-188 | the inner loop ends at the first element of the progression above the location |
| Next.AdvancedKeepsUnion | src/disk/next.c:183-193 | moving every progression past a location neither loses nor adds elements above it |
| Next.LeastIsNext | src/disk/next.c:183-193 | the smallest offset after moving is the least element of the union above the location |
| Next.EnumerationIncreases | src/disk/next.c:183-193 | repeatedly feeding the result back gives strictly increasing elements of the union |
| Next.EnumeratesUnion | src/disk/next.c:183-193 | and skips none: up to the last result, being enumerated and being in the union are the same |
| Next.SearchLocations.SearchLocationInit | src/disk/next.c:96-181 | for each mode the table denotes what was there and, of the listed progressions, all when there is room for 20 more and never anything else; all increments stay positive |
| Next.SearchLocations.Register | src/disk/next.c:101-109 | registering one progression adds it to the accumulated union if there is room, and otherwise nothing that was not asked for |
| Next.BootUnion | src/disk/next.c:96-119 | what the boot-sector locations of an i386 disk denote, in tracks and cylinders |
| Next.BackupUnion | src/disk/next.c:125-179 | what fast mode 1 adds: backup boot sectors and superblocks |
| Next.OtherUnion | src/disk/next.c:120-179 | what the locations of other disks denote in every mode: a grid, its backup boot sectors and three superblocks |
| Next.Head2Reached | src/disk/next.c:111-116 | for every geometry, mode and cylinder: the first sector of head 2 is a location if and only if the mode is the fullest, or there are at most two heads, or it is a multiple of 1 MiB, or in fast mode 1 a backup location falls on it |
| Next.Head2Everywhere | src/disk/next.c:111-116 | with fast mode 0 the whole overwritten progression is covered if and only if there are at most two heads, or two tracks and a cylinder are multiples of 1 MiB |
| Next.Head2IsMissed | src/disk/next.c:111-116 | the witness: with 255 heads, 63 sectors and fast mode 0 the first sector of head 2 of cylinder 0 is not in the initial union |
| Crc.FeedBitsIsSteps | src/core/crc.c:80-92 | adding the message to the register first is the same as adding it bit by bit during the division |
| Crc.LookUp | src/core/crc.c:64-92 | one table look-up and shift does the work of eight division steps |
| Crc.MakeCrc32Table | src/core/crc.c:80-92 | the table built has the eight-step remainder of every byte |
| CrcTable.TabDoubles | src/core/crc.c:32-62 | in the literal table, the entries at 2 i and 2 i + 1 follow from the entry at i |
| CrcTable.LiteralIsDefined | src/core/crc.c:31-62 | every one of the 256 literal entries is the remainder that the definition gives |
| CrcTable.LiteralTable | src/core/crc.c:31-62 | so the literal table is one that get_crc32 computes the CRC with |
| Crc.GetCrc32 | src/core/crc.c:64-77 | the byte-at-a-time loop computes the bit-at-a-time CRC of section 8 of RFC 1952 up to the two complements, for every seed |
| Crc.CrcConcat | src/formats/file_ace.c:67-93 | a message fed in pieces with the register carried over has the CRC of the whole |
| Crc.CheckAceCrc | src/formats/file_ace.c:67-93 | returns 0 exactly when the file is long enough and the low half of the CRC of its next len bytes is the recorded one |
| Crc.CrcInjectiveInSeed | src/core/crc.c:64-77 | different seeds give different results |
| Crc.OneByteChangesCrc | src/core/crc.c:64-77 | changing a single byte always changes the CRC |
| Restore.RestoreClusters | src/core/restore.c:239-263 | the file has the smaller of its size and the clusters' bytes, each byte being the disk byte of its cluster, at most 64 KiB of a cluster; a full device is reported, and on a disk that serves the reads nothing else fails |
| Restore.RestoreSectors | src/core/restore.c:265-283 | a sector range is copied byte for byte, or a failing read or a full device is reported |
| Restore.RestoreOrphan | src/core/restore.c:211-291 | the file written, for nodes with clusters and for nodes with a sector range; on a disk that serves the reads it succeeds exactly when the device has room |
| Restore.AppendCluster | src/core/restore.c:464-486 | the chunk loop appends a cluster's bytes in order and fails only if a read does |
| Restore.ReadClusters | src/core/restore.c:445-490 | output byte k is the byte at part_offset + cluster_list[k / cluster_size] + k % cluster_size, min(size, clusters) bytes of them |
| Restore.ReadFileBytes | src/core/restore.c:435-515 | the same for the whole function: clusters, then a sector range of at most 64 MiB, then what the filesystem driver delivers; empty files give NULL |
| Restore.PreviewLength | src/core/restore.c:239-490 | the restored file is never longer than the preview, and as long exactly when no cluster data is missing |
| Restore.AgreeIffSamePlaces | src/core/restore.c:239-490 | for any clusters: they are the same on every disk if and only if they have the same length and take every byte from the same place |
| Restore.SilentlyWrong | src/core/restore.c:239-490 | for every larger cluster size and every file of at most 64 KiB a cluster, some disk gives a restored file of the right length with a wrong byte |
| Restore.TwoLargeClusters | src/core/restore.c:239-490 | the witness: two 128 KiB clusters and a file of 128 KiB |
| Restore.PreviewIsRestoredFile | src/core/restore.c:239-490 | for clusters on a grid: preview and restored file are the same on every disk if and only if clusters, or the file, are at most 64 KiB |
| PathTree.TokensOfJoined | src/core/tree.c:95-197 | splitting a printed path gives its names back |
| PathTree.AddPathKeepsNames | src/core/tree.c:75-150 | sibling names stay distinct, non-empty and slash-free |
| PathTree.AddPathCount | src/core/tree.c:118-149 | the number of file nodes grows by one exactly for a new file |
| PathTree.AddPathFound | src/core/tree.c:95-167 | the path just added leads to a node with its last name |
| PathTree.AddPathLookup | src/core/tree.c:95-150 | what every path leads to after an addition: old nodes stay with their fields, except that the added one may become deleted; new are the path and the missing directories on the way |
| PathTree.NodeAfterAddition | src/core/tree.c:118-149 | the fields of the node at the path added: new, or the old one, which only becomes deleted and then, if it is a file, takes the place and size given |
| PathTree.MarkedIsCount | src/core/tree.c:229-246 | the count and the size are those of the marked files reached through directories, each counted once |
| PathTree.PutLaws | src/core/session.c:257-303 | the subtree stored at a path is the one found there, and the last store wins |
| PathTree.PutInfoLookup | src/core/session.c:257-303 | storing fields in one node changes no other path |
| ScanTrees.AddNodesIsAddPath | src/core/tree.c:95-150 | on linked nodes the walk with allocation is the path insertion on trees |
| ScanTrees.AddedIsResolved | src/core/tree.c:95-167 | tree_find_path finds the very node tree_add_path returned |
| ScanTrees.ResolveKept | src/core/tree.c:95-167 | and keeps finding it, whatever is added later |
| ScanTrees.AddNodesExtends | src/core/tree.c:95-150 | no addition changes a node's name, type, parent or earlier children, or undeletes it |
| ScanTrees.SiblingsApart | src/core/tree.c:95-150 | the subtrees of two siblings share no node |
| ScanTrees.SetInfoIsPut | src/core/session.c:257-303 | assigning a found node's fields replaces exactly that subtree's root in the tree |
| ScanTrees.AddFacts | src/core/tree.c:95-150 | all of the above for one addition from the root |
| ScanTrees.ScanTree.constructor | src/core/tree.c:66-73 | a new tree is the directory "/" alone with all totals 0 |
| ScanTrees.ScanTree.NodeEnsureDir | src/core/tree.c:85-93 | the first child of that name, else a new last child |
| ScanTrees.ScanTree.TreeAddPath | src/core/tree.c:95-150 | the tree afterwards, the node returned, and the three totals; total_files always equals the number of file nodes |
| ScanTrees.ScanTree.AddPaths | src/core/tree.c:75-167 | over any sequence of additions every returned node is still found under its path, deletions are kept, names stay unique and total_files stays the number of files |
| ScanTrees.ScanTree.EnsureDirs | src/core/tree.c:103-111 | the loop over all but the last name leaves the rest of the insertion to do |
| ScanTrees.ScanTree.AddLeaf | src/core/tree.c:113-149 | updates an existing node or appends a new one, and the totals with it |
| ScanTrees.ScanTree.TreeFindPath | src/core/tree.c:152-167 | the node reached by first matches, NULL (-1) when a name is missing |
| ScanTrees.ScanTree.TreeGetPath | src/core/tree.c:169-197 | the last 128 names on the way to the node, clipped to the buffer |
| ScanTrees.ScanTree.PrintChain | src/core/tree.c:185-194 | the printing loop gives the joined names in reverse order of the chain, clipped like snprintf |
| ScanTrees.ScanTree.TreeCountMarked | src/core/tree.c:229-246 | number and total size of the marked files below a node |
| ScanTrees.ScanTree.SetInfo | src/core/session.c:257-303 | assigning fields of a found node keeps the tree valid and changes only that node |
| LittleEndian.LeRoundTrip | src/core/session.c:64-105 | a number that fits its width is read back from its bytes |
| LittleEndian.FromLeRoundTrip | src/core/session.c:64-105 | every byte string is the encoding of the number it is read as |
| LittleEndian.LeDigit | src/core/session.c:64-105 | the i-th byte is the i-th digit to the base 256, least significant first |
| LittleEndian.UnpackOfPack | src/core/session.c:64-105 | a run of fields is read back, wherever their boundaries fall |
| LittleEndian.SignedRoundTrip | src/core/session.c:134-139 | a modification time survives the cast to unsigned and back |
| Files.File.WriteLe64 | src/core/session.c:73-81 | eight bytes, least significant first, or nothing when the file is full |
| Files.File.WriteLe32 | src/core/session.c:64-71 | four bytes, the number cut to 32 bits |
| Files.File.WriteLe16 | src/core/session.c:83-88 | two bytes, the number cut to 16 bits |
| SessionFormat.FlagsOfByte | src/core/session.c:119-133 | the seven flags are recovered from the flag byte |
| SessionFormat.RecordRoundTrip | src/core/session.c:107-172 | reading one record adds its node, with all fields and, for a file, its clusters, at the end of its directory; clusters written for a directory are left in the input |
| SessionFormat.TreeRoundTrip | src/core/session.c:107-306 | reading the records of a subtree adds exactly what is read back of that subtree |
| SessionFormat.ForestRoundTrip | src/core/session.c:107-306 | the same for the children of a directory, in their order |
| SessionFormat.SessionRoundTrip | src/core/session.c:174-306 | the tree written and read again: shape, order, sizes, flags, times and clusters, whatever follows the end mark; it is the same tree if and only if nodes without clusters have no cluster size and files have no children |
| SessionFormat.ReadForestIsPlain | src/core/session.c:162-169 | the trees that are read back as they were are exactly the plain ones |
| SessionFormat.ClustersStop | src/core/session.c:251-275 | clusters left in the input end the reading if the first of them is no possible path length |
| SessionFormat.SessionStopsAtDirectory | src/core/session.c:157-160 | such a directory loses its clusters and everything written after it, so the tree is never read back as it was |
| SessionFormat.FileAfterDirectory | src/core/session.c:275-285 | the witness: a directory with one cluster, and a file that is lost |
| SessionFormat.EndMarkStops | src/core/session.c:200-214 | the end mark is never taken for an entry |
| SessionHeader.HeaderRoundTrip | src/core/session.c:308-777 | a saved header is accepted and gives back every field; an over-long model is dropped, strings over 65535 bytes are cut |
| Sessions.AncestryIsDeepest | src/core/tree.c:169-197 | the parent walk finds the last 128 names of the path from the root |
| Sessions.SessionWriteNodeRec | src/core/session.c:107-172 | writes the records of the node and everything below it in pre-order, and fails exactly when they do not fit |
| Sessions.WriteChildren | src/core/session.c:163-171 | the records of all children in order |
| Sessions.SessionWriteTree | src/core/session.c:174-189 | the records of everything below the root |
| Sessions.WriteClusters | src/core/session.c:155-161 | the cluster list, eight bytes each |
| Sessions.ReadClusters | src/core/session.c:275-285 | the cluster list; entries cut off by the end of the file stay 0 |
| Sessions.ReadFixed | src/core/session.c:194-255 | the fixed fields and the path of an entry, exactly when they are all there |
| Sessions.StoreEntry | src/core/session.c:257-303 | the tree after one entry: node added, flags, time and clusters set; clusters are skipped only for files |
| Sessions.ReadEntry | src/core/session.c:191-306 | one turn of the loop is one step of the parser, on less input |
| Sessions.SessionReadTree | src/core/session.c:191-306 | for any bytes at all the reader stops, returns 0 and has built the parsed tree |
| Sessions.WriteHeader | src/core/session.c:308-453 | the header, strings and padding, or failure exactly when they do not fit |
| Sessions.SessionSave | src/core/session.c:308-471 | header, tree and end mark; 0 exactly when all of it fits; the file is removed exactly when its header fits and the rest does not |
| Sessions.SessionLoad | src/core/session.c:473-777 | loads exactly the files with a valid header, with the fields and the tree found in them |
| Sessions.SessionFileRoundTrip | src/core/session.c:308-777 | what session_save writes, session_load reads: the same header, and the same tree if and only if it is plain |
| Layouts.RecordLayout | src/core/session.c:107-166 | where a record keeps path length, flags, sizes, time, clusters and path, in bytes |
| Layouts.SessionHeaderLayout | src/core/session.c:325-446 | where the session header keeps its twenty numbers, its strings and its padding, in bytes; a long model is dropped, long strings are cut |
| Layouts.LoadableIff | src/core/session.c:488-560 | a file is loadable exactly when its first bytes are the magic string and version 1 and its padded header is all there |
| Layouts.RecordsEnd | src/core/session.c:205-256 | a path length of 4096 or more, or a record cut short, ends the reading |
| BackupFormat.EntryRoundTrip | src/core/backup.c:484-523 | an entry written is read back exactly when its path has at most 4095 bytes |
| BackupFormat.FullPathFits | src/core/backup.c:663-717 | every path the walk writes is short enough, so its entry is read back as it was |
| BackupFormat.EntriesRoundTrip | src/core/backup.c:1342-1419 | all entries are loaded, in order, with their clusters |
| BackupFormat.BackupHeaderRoundTrip | src/core/backup.c:432-482 | the header fields are read back, and the entries start where the writer put them |
| BackupFormat.CountPatched | src/core/backup.c:1219-1227 | overwriting 4 bytes at the count's offset gives the file of that count |
| BackupFormat.BackupRoundTrip | src/core/backup.c:1164-1419 | a backup is accepted exactly on a disk of roughly the same size, and its entries are "/" and those given |
| Layouts.BackupEntryLayout | src/core/backup.c:484-523 | where an entry keeps path length, flags, size, time, cluster count, path and clusters, in bytes |
| Layouts.BackupHeaderLayout | src/core/backup.c:432-482 | where the header keeps its fourteen numbers, the model and its padding, in bytes |
| Layouts.AcceptedIff | src/core/backup.c:1272-1313 | a file is accepted exactly when its bytes give the magic number, version 1, and a size within half and one and a half of the disk |
| Layouts.AcceptedAtHome | src/core/backup.c:1297-1313 | the backup of a partition not at 0 is accepted on its own disk exactly when the partition takes two thirds of the disk or more |
| BackupTree.StrCmpEqual | src/core/backup.c:548-554 | strcmp is 0 only for equal paths, and antisymmetric |
| BackupTree.StrCmpTransitive | src/core/backup.c:548-554 | strcmp orders paths transitively |
| BackupTree.FindLiveEntry | src/core/backup.c:942-961 | the binary search finds an entry with that path; in a sorted list exactly when there is one |
| BackupTree.SearchFinds | src/core/backup.c:942-961 | in a sorted list a search that ends nowhere has overlooked nothing |
| BackupTree.JudgeIsPlainLookup | src/core/backup.c:984-997 | in a sorted list an entry is gone exactly when no live entry has its path; it is unchanged exactly when one with its path has its size and time, if live entries with the same path are alike |
| BackupTree.SectorsFor | src/core/backup.c:1008 | the least number of sectors that holds the file |
| BackupTree.StepLookup | src/core/backup.c:1001-1027 | what every path leads to after one entry was restored |
| BackupTree.BuiltHasEntry | src/core/backup.c:963-1041 | every entry that is gone or changed is in the tree, with its size, time, verdict and clusters |
| BackupTree.BuiltIsEffects | src/core/backup.c:963-1041 | for every path, whatever the tree held there before and however often it is restored: the node's fields are the effects of the entries in order |
| BackupTree.BuiltUpdates | src/core/backup.c:963-1041 | a node that was there ends with the clusters and verdict of its entry; with its size and time only if it is a live file that the entry declares deleted |
| BackupTree.BuiltClusters | src/core/backup.c:1014-1026 | the last selected entry of a path leaves all its clusters and the cluster size of the backup in the node when it is a file written with clusters; otherwise both stay as they were |
| BackupTree.KeepsItsSize | src/core/tree.c:118-134 | the witness: a file of 10 bytes that is restored from an entry of 5 bytes keeps its 10 bytes and takes the entry's cluster |
| BackupTree.BuiltHasNothingElse | src/core/backup.c:963-1041 | a new path exists afterwards exactly when it is such an entry or a directory on the way to one |
| BackupTree.BuiltMarks | src/core/backup.c:963-1041 | a node is marked as restored exactly when such an entry has its path ("/" marks the root) |
| BackupTree.MarksAreChanges | src/core/backup.c:984-1013 | against a sorted live list the marked paths are exactly those of entries of which no live entry has path, size and time |
| BackupTree.GoneFileIsThere | src/core/backup.c:999-1013 | an entry of which no live entry has the path, new to the tree: every field of its node, with the least number of sectors |
| BackupTree.BuiltKeeps | src/core/backup.c:963-1041 | entries for other paths leave a node's fields alone |
| Backups.WriteBackupHeader | src/core/backup.c:432-482 | the header bytes, or failure exactly when they do not fit |
| Backups.WriteBackupEntry | src/core/backup.c:484-523 | the entry's bytes, or failure exactly when they do not fit |
| Backups.BackupCreate | src/core/backup.c:1164-1237 | succeeds exactly when the walk finds a file and the header fits; the file is the backup of all entries when there is room, and its header counts all of them in any case |
| Backups.PatchCount | src/core/backup.c:1219-1227 | only the four count bytes change |
| Backups.LoadOne | src/core/backup.c:1353-1418 | one entry, or none exactly when the file ends within it |
| Backups.Load | src/core/backup.c:1342-1419 | the loop loads what the format's definition says, and stops at the first entry cut short |
| Backups.Compare | src/core/backup.c:984-997 | the verdict against the live entry the binary search finds, for any live list |
| Backups.RestoreEntry | src/core/backup.c:1001-1027 | the tree after one entry that is gone or changed |
| Backups.BackupRestoreBuildTree | src/core/backup.c:963-1041 | the tree built from all entries, and the counts of gone and changed ones |
| Backups.BackupRestore | src/core/backup.c:1239-1512 | succeeds exactly on acceptable files when the live filesystem can be walked, and then builds the tree of the entries found; otherwise the tree is unchanged |
| Backups.BackedUpEntryIsRestored | src/core/backup.c:963-1419 | end to end: what was backed up and is gone or changed appears in the tree with everything recorded of it |
| Backups.BackedUpClustersAreRestored | src/core/backup.c:963-1419 | end to end: a file backed up with any positive number of clusters has all of them, and the cluster size, in its node |
| Backups.BackupIsEffects | src/core/backup.c:963-1419 | end to end for every path and every tree: the node's fields are the effects of the entries that were backed up |
| Partitions.InsertNewPartition | src/disk/fnctdsk.c:164-208 | where the new partition goes, when it is refused as a duplicate, and that only a deleted duplicate changes, by taking its status |
| Partitions.PositionIs | src/disk/fnctdsk.c:170-174 | behind all that start earlier or are smaller there; a forced one also behind those whose superblock is not later |
| Partitions.RefusedIff | src/disk/fnctdsk.c:175-188 | on an ordered list, refused exactly when the first partition of its place and size has its types and its kind, or it has no known kind |
| Partitions.TwinsAtOnePlace | src/disk/fnctdsk.c:170-188 | a list with two types at one place, and a partition of the list that is inserted again |
| Partitions.InsertKeepsOrder | src/disk/fnctdsk.c:164-208 | an ordered list stays ordered, with or without force |
| Partitions.InsertUnlessKnown | src/disk/fnctdsk.c:164-208 | on an ordered list the new partition or a duplicate of it is in the list afterwards; nothing else leaves |
| Partitions.GenSortedPartitionList | src/disk/fnctdsk.c:244-255 | exactly the partitions that are not deleted, each once, by offset and size |
| Partitions.SortPartitionList | src/disk/fnctdsk.c:226-242 | an ordered list in which every given partition is represented; only statuses change |
| Partitions.IsPartOverlapping | src/disk/fnctdsk.c:282-305 | true exactly when two neighbours conflict, with the 64-bit wrap-around of an empty partition at offset 0 |
| Partitions.AdjacentIsAllPairs | src/disk/fnctdsk.c:282-305 | on a list ordered by offset, some neighbours conflict exactly when some pair does |
| Partitions.ConflictIsByte | src/disk/fnctdsk.c:296-302 | two neighbours conflict exactly when they share a byte, or a logical partition directly follows a primary or logical one |
| GptStructure.InitPartOrder | src/disk/partgpt.c:322-330 | real partitions are numbered 1, 2, ... in list order |
| GptStructure.NumberIsRank | src/disk/partgpt.c:322-330 | a number is one more than the count of real partitions before it in the list |
| GptStructure.TestStructureGpt | src/disk/partgpt.c:388-395 | non-zero exactly when two live partitions share a byte, wherever they are in the list |
| GptStructure.MarkOverlaps | src/disk/partgpt.c:405-418 | to_be_removed is set exactly for the partitions that overlap another one |
| GptStructure.InitStructureGpt | src/disk/partgpt.c:401-426 | exactly the partitions that overlap no other become primary; the fallback that deletes everything changes nothing |
| Chs.ChsRoundTrip | src/disk/fnctdsk.c:50-79 | an address computed from a sector number lies within the geometry and names that sector |
| Chs.LbaRoundTrip | src/disk/fnctdsk.c:50-79 | and every address within the geometry is the one computed from its sector number |
| Chs.PackedCylinder | src/disk/parti386.c:87-90 | ten bits of cylinder and six of sector are recovered from their two bytes |
| Chs.EntryBytesRoundTrip | src/disk/parti386.c:272-298 | an entry is recovered from its 16 bytes |
| Chs.StoredAddress | src/disk/parti386.c:935-1052 | the address stored passes the reader's checks, below and above cylinder 1023 |
| Chs.EntryRoundTrip | src/disk/parti386.c:935-1052 | decoding the entry written gives back offset, size, type and boot status, with no error |
| Chs.DecodedEntry | src/disk/parti386.c:974-1047 | for any entry: BAD_NOERR exactly when both stored addresses lie in the geometry and are those of the first and last sector, with 1023 or ten bits of the cylinder past 1023; else the code of the first check that fails; and the other fields |
| Chs.WrittenEntry | src/disk/parti386.c:935-972 | the addresses written are those of the first and last sector, or the last that fits past cylinder 1023; start and count are cut to 32 bits |
| Chs.EntryLayout | src/disk/parti386.c:272-298 | which of the sixteen bytes hold what |
| Ebr.RecordPosition | src/disk/parti386.c:795-836 | the record lies after the previous logical partition and before the next one exactly when the next one starts past the first track |
| Ebr.InFirstTrack | src/disk/parti386.c:795-836 | a pair within the first track whose record lies elsewhere |
| Ebr.Candidates | src/disk/parti386.c:795-831 | the position of the record as numbers: the start of the track before, else of the track, else the sector before the partition, each only if it lies behind the previous partition |
| Ebr.ChainPlaced | src/disk/parti386.c:729-857 | sorted, gapped logical partitions have a chain of records inside the extended partition |
| Ebr.RecordOnDisk | src/disk/parti386.c:779-852 | every record of a written chain, byte by byte: old code, the entry of its partition, the link, zeros, signature |
| Ebr.FourEntries | src/disk/parti386.c:538-610 | all four entries of any record are read, in order, from their bytes |
| Ebr.AnyEntryIsListed | src/disk/parti386.c:538-610 | any entry in use, with whatever errors, leaves a partition of its place, size and type in the list |
| Ebr.ReadOneRecord | src/disk/parti386.c:482-613 | reading one written record adds its partition and leads to the next record, from where a written chain follows |
| Ebr.ChainRoundTrip | src/disk/parti386.c:482-857 | a written chain is read back from any record on, within the reader's limit |
| Ebr.LogicalsRoundTrip | src/disk/parti386.c:482-857 | the logical partitions come back with offset, size, type and orders 5, 6, ..., all of them exactly when there are at most 16, else the first 16 |
| Ebr.SeventeenthIsLost | src/disk/parti386.c:491-611 | seventeen partitions that are written, and sixteen that are read |
| EbrChains.WriteAllLog | src/disk/parti386.c:729-857 | the disk afterwards is the old one with the chain of records, for any list, with 64-bit arithmetic where positions wrap; nothing is written in read-only mode or without an extended partition |
| EbrChains.WriteRun | src/disk/parti386.c:779-856 | the loop over the logical partitions writes that chain |
| EbrChains.WriteOne | src/disk/parti386.c:780-852 | one record is written at its position, keeping the code in front of the table |
| EbrChains.HandleEntry | src/disk/parti386.c:538-610 | one entry: a link, a logical partition, or nothing |
| EbrChains.HandleRecord | src/disk/parti386.c:492-610 | the four entries of a record |
| EbrChains.GetExtData | src/disk/parti386.c:482-613 | on any disk, even with a cyclic chain, at most 32 records are read; on a readable one the list is that of the chain |
| Unicode.Str2UCSle | src/disk/unicode.c:45-54 | the whole destination afterwards, and the number of units written |
| Unicode.UCSle2Str | src/disk/unicode.c:31-43 | the name up to the terminator, what is left alone after it, and its length |
| Unicode.NameRoundTrip | src/disk/unicode.c:31-54 | a name survives both exactly when it fits and is ASCII |
| Gpt.HeaderRoundTrip | src/disk/partgpt.h:30-58 | a header is recovered from its 92 bytes, and they start with the signature |
| Gpt.HeaderLayout | src/disk/partgpt.h:30-48 | where each field of a header is, by offset |
| Gpt.EntryRoundTrip | src/disk/partgpt.h:30-58 | an entry is recovered from its 128 bytes |
| Gpt.EntryLayout | src/disk/partgpt.h:50-58 | where each field of an entry is, by offset: type 0, identifier 16, first sector 32, last 40, attributes 48, name 56 |
| Gpt.TableRoundTrip | src/disk/partgptw.c:222-226 | every entry is recovered from the table's bytes |
| Gpt.ChecksumOfChange | src/disk/partgpt.c:206-279 | a table or header with one byte changed has another checksum |
| Gpt.ChecksumIs | src/disk/partgpt.c:206-279 | the checksum is the complement of the register that starts with all bits set |
| GptDisk.FindGptEntry | src/disk/partgptw.c:82-97 | the first used entry that starts there, unless an earlier one has its identifier |
| GptDisk.RegionsTile | src/disk/partgptw.c:240-272 | headers, tables and usable range follow each other without gap or overlap from sector 1 to the end of the disk, and each header points to the other |
| GptRoundTrip.GeneratedReads | src/disk/partgptw.c:99-113 | the entry generated for a partition stands for it again when it is read |
| GptRoundTrip.ListedIffTwoSectors | src/disk/partgpt.c:280-302 | an aligned partition is listed exactly when it has at least two sectors |
| GptRoundTrip.TableSlot | src/disk/partgptw.c:222-226 | slot k holds the partition with order k + 1, or nothing |
| GptRoundTrip.EntriesReadBack | src/disk/partgpt.c:280-302 | reading slot by slot gives the partitions in disk order, whatever their numbers |
| GptRoundTrip.HeaderAccepted | src/disk/partgpt.c:184-262 | either written header passes every check at its own sector |
| GptRoundTrip.ReadsBack | src/disk/partgpt.c:169-309 | reading through either header gives the partitions written |
| GptRoundTrip.WrittenOnDisk | src/disk/partgptw.c:254-289 | none of the five writes disturbs another |
| GptRoundTrip.GptRoundTrips | src/disk/partgptw.c:208-298 | after writing, the primary read, the read through the backup and the full read all give the partitions written |
| GptRoundTrip.DamagedHeader | src/disk/partgpt.c:184-262 | a header with one byte changed is refused, unless the change makes its size field a possible size |
| GptRoundTrip.SizeField | src/disk/partgpt.c:201-205 | the header size that is read when one byte of its field is changed |
| GptRoundTrip.DamagedTable | src/disk/partgpt.c:264-279 | a table with one byte changed is refused |
| GptRoundTrip.SurvivesOneByte | src/disk/partgpt.c:311-320 | with one such byte of the primary header, or one byte of its table, changed the damage is noticed and the backup gives all partitions |
| GptRoundTrip.HeaderByteHarmless | src/disk/partgpt.c:184-309 | through a header sector with any one byte changed, size field and padding included, all partitions are read or none |
| GptRoundTrip.SurvivesAnyByte | src/disk/partgpt.c:169-320 | with any one byte of the whole disk changed, read_part_gpt returns all partitions |
| GptBytes.EntryOnDisk | src/disk/partgptw.c:99-113 | after writing, the bytes at entry n of either table are type, identifier, first and last sector and name of the partition with order n |
| GptBytes.EmptyOnDisk | src/disk/partgptw.c:215-226 | an entry without a partition has sixteen zero bytes for a type, in both tables |
| GptBytes.HeadersOnDisk | src/disk/partgptw.c:228-289 | both header sectors field by field, each naming the other, with the checksums of their bytes and of the table |
| GptBytes.ElsewhereKept | src/disk/partgptw.c:254-289 | the first 512 bytes are the MBR, and nothing outside headers and tables is written |
| GptBytes.WhichIdentifier | src/disk/partgptw.c:82-111 | a partition keeps the identifier the disk has for its first sector, unless an earlier entry has it too; else its own, else a new one |
| GptBytes.HeaderChecks | src/disk/partgpt.c:184-262 | a header is accepted exactly when its bytes meet the listed conditions |
| GptBytes.ReaderSees | src/disk/partgpt.c:169-309 | for any disk: nothing without an accepted header and a table with its checksum; else, in disk order, exactly partitions that the bytes of entries in use stand for, and one for the place of every such entry |
| GptTables.FillTable | src/disk/partgptw.c:222-226 | the table of the list, each partition in the slot of its order |
| GptTables.PartitionGenerateGptEntry | src/disk/partgptw.c:99-113 | one entry from a partition and the slot's old name field |
| GptTables.WritePartGpt | src/disk/partgptw.c:208-298 | for any list of partitions, on a disk with room for both tables: both headers and tables and the MBR are on the disk and nothing else changed; nothing is written in read-only mode |
| GptTables.ReadPartGptAux | src/disk/partgpt.c:169-309 | on any disk the list in the table behind the header at a sector, or empty; on one that serves the reads, empty exactly when a check fails or nothing is listed |
| GptTables.ReadPartGpt | src/disk/partgpt.c:311-320 | on any disk the primary's list, the backup's, or none; on one that serves the reads the primary's unless it is empty, else the backup's |
| Carving.ConstantSafe | src/core/carver.c:592-624 | a constant sector keeps the entries in order, disjoint and behind the scan |
| Carving.ByteSafe | src/core/carver.c:626-734 | so does every position of the inner loop, for every header and footer oracle |
| Carving.ChunkScanSafe | src/core/carver.c:551-735 | so does a chunk, between its first and last scanned byte |
| Carving.ScanSafe | src/core/carver.c:551-756 | so does the scan of all chunks, also when it is cancelled or a read fails |
| Carving.FinishSafe | src/core/carver.c:768-781 | and closing the last file at the end of the partition |
| Carving.CarvedSafely | src/core/carver.c:495-781 | for all oracles the entries are in increasing order, pairwise disjoint, at least 512 bytes long and inside the partition, and the counters are their number and total |
| Carving.WitnessOverlaps | src/core/carver.c:551-573 | with chunks that do not meet at a sector boundary two entries can overlap |
| Carving.DisjointIffRegular | src/core/carver.c:551-573 | the entries of a full scan are disjoint for all oracles exactly when chunks meet at sector boundaries or no second chunk is scanned; 1536-byte sectors do not qualify |
| CarvedPieces.LookIs | src/core/carver.c:592-734 | one step: when it ends the open file, with which size, and what it opens |
| CarvedPieces.AllStops | src/core/carver.c:577-735 | for any stops and all oracles the entries are the files described: every header that counts opens one, each is ended by the first stop that ends it, with the size of that stop |
| CarvedPieces.ScanIsLooks | src/core/carver.c:551-756 | a scan makes the stops of its sectors, in order |
| CarvedPieces.ChunksAre | src/core/carver.c:551-575 | chunk after chunk, until the partition ends, one cannot be read or the user cancels |
| CarvedPieces.CarvedIsFound | src/core/carver.c:495-781 | the whole scan for all oracles: the entries are exactly the files found that have 512 bytes or more, up to ten million, with their formats; without a cancel the last one is ended by the partition, with that size |
| CarvedPieces.WhichSectors | src/core/carver.c:551-583 | which sectors of the partition are looked at, with how many bytes behind them |
| CarvedPieces.AllSectorsIffOneChunk | src/core/carver.c:551-583 | all of them exactly when the partition has at most 512 KiB |
| CarverRuns.Carver.AddEntry | src/core/carver.c:453-493 | an entry, its tree node, its statistics and both counters, unless the file is too small or there are too many |
| CarverRuns.Carver.ConstantSector | src/core/carver.c:592-624 | ends the open file exactly when its gap limit or footer is reached |
| CarverRuns.Carver.HeaderFound | src/core/carver.c:637-698 | ends the open file and opens the next, unless the header is ignored |
| CarverRuns.Carver.NoHeader | src/core/carver.c:700-733 | ends the open file at its footer or its gap limit |
| CarverRuns.Carver.ScanSector | src/core/carver.c:577-735 | one sector, byte by byte in a deep scan |
| CarverRuns.Carver.ScanChunk | src/core/carver.c:551-735 | one chunk, without its overlap |
| CarverRuns.Carver.CarverScan | src/core/carver.c:495-781 | the whole scan, from the start or resumed: the entries and formats are those of the files found at its stops, they are safe, every file is in the tree, and the statistics are exact and sorted |
| CarverRuns.Carver.ResumesInside | src/core/carver.c:540-549 | a scan resumes at the chunk the offset lies in, or at 0 when that is past the partition |
| CarverRuns.Carver.Finish | src/core/carver.c:768-781 | the file still open at the end gets the rest of the partition |
| CarverRuns.Carver.AddToTree | src/core/carver.c:471-489 | the tree with a node under the next numbered path, marked as orphan |
| CarverRuns.Carver.EveryFileInTree | src/core/carver.c:453-493 | after a scan each carved file has a node at its path |
| CarvedFiles.DecimalValue | src/core/carver.c:484 | the ten digits printed stand for the number |
| CarvedFiles.FilePathIs | src/core/carver.c:471-485 | the path of a carved file: ORPHAN, the extension in capitals, the numbered name with the extension |
| CarvedFiles.NewFileInfo | src/core/carver.c:469-489 | the fields of its node: place in the partition, size, the least number of sectors, deleted, orphan |
| CarvedFiles.FileTokens | src/core/carver.c:471-485 | the numbered name stands out among the names of a path, even for extensions with slashes such as mov/mdat |
| CarvedFiles.PathsApart | src/core/carver.c:484-487 | two carved files have different paths, and neither leads through the other |
| CarvedFiles.EveryFileIsThere | src/core/carver.c:453-493 | every carved file keeps its node, with its place and size, whatever is found before or after it; a node that was there and deleted before the scan keeps what it has |
| CarverStats.CountedIsExact | src/core/carver.c:409-451 | after each file the rows hold the number and bytes of the files of their extensions, and all extensions until the 64 rows are full |
| CarverStats.ExtStats.Index | src/core/carver.c:409-424 | the row of an extension, a new row, or none when they are full |
| CarverStats.ExtStats.Add | src/core/carver.c:444-451 | the rows after one more file |
| CarverStats.SwappedOrder | src/core/carver.c:426-442 | moving the largest of the remaining rows to the front of them extends the order |
| CarverStats.ExtStats.Sort | src/core/carver.c:426-442 | the same rows, most frequent first, still exact |

## Left out

- HdCache.DiskCache.Pread: how far a read of a failing disk gets is stated for a first error and slots that were filled in full; after an earlier error or with a short slot only what a full count certifies is
- CarvedPieces.WhichSectors: stated for sector sizes that divide 64 KiB, a scan from the start, and no failing read; `ChunksAre` has none of these conditions
- PathTree.Tokens: `strtok_r` is a function on values; its state between calls is not modelled
- ScanTrees.ScanTree.TreeAddPath: nodes are indices into a sequence that only grows, instead of heap objects; freeing a tree is not modelled
- Partitions.InsertNewPartition: the list cells are a sequence of partition objects; the links between cells are not modelled
- Files.File.WriteFields: a run of `write_le` calls is a loop over a list of fields; a failing `fwrite` writes nothing
- SessionFormat.SessionRoundTrip: distinct sibling names, depth at most 128 and paths under 4096 bytes are conditions of the theorem; trees outside them are read as `ParseEntries` says
- SessionFormat.SessionStopsAtDirectory: of directories with clusters, those whose first cluster looks like a length under 4096 are not covered
- Sessions.SessionSave: that a file can be opened is assumed; the result of `fclose` is ignored, as in the source
- Backups.BackupCreate: the entries come from walking the filesystem, which is an argument here; of a file that did not fit, only the header is described
- Backups.BackupRestore: the live entries are an argument, in the order `qsort` leaves them
- BackupTree.BuiltHasEntry: holds for entries whose path is new to the tree, is not "/", and is not repeated later; `BuiltIsEffects` has none of these conditions
- Backups.BackedUpEntryIsRestored: the same conditions; `BackupIsEffects` has none of them
- Restore.ReadFileBytes: what a filesystem driver delivers is an argument
- Restore.RestoreOrphan: creating the file, its directories and its owner are not modelled
- Chs.EntryRoundTrip: the filesystem probe after decoding is an oracle applied elsewhere
- EbrChains.GetExtData: warnings about the chain, and the entries of the MBR itself, are not modelled
- GptTables.WritePartGpt: boot code and protective MBR are an argument; on disks too small for both tables only the size of the disk is known afterwards
- CarvedFiles.EveryFileIsThere: extensions have at most 15 bytes, as all in the source have
- CarverRuns.Carver.CarverScan: progress and checkpoint callbacks are not modelled; sectors over 256 KiB are outside its `requires`
- Filesystem drivers, file format checks, device access, the user interface and logging
- Failure of memory allocation, and sums that exceed 64 bits, except where wrap-around is written out
- Humax, Sun, Xbox and Mac partition tables, which have no writers or repeat the GPT structure pass

# Verified models of AdaFS and its Btrfs tree code

The repository holds AdaFS, a RAM log that collects page writes and flushes them in sealed transactions, and the Btrfs
sources it is compared with. This project models the parts of both where state is rearranged in place, and proves what
they keep.

* **The RAM log** (`LogEntry`, `LogRing`, `SortSteps`, `LogSort`, `SortLimits`, `MergeFlush`, `LogImage`, `LogView`,
  `LogKinds`, `LogLengths`, `AdaLog`, `AdaRun`, `FlushLimits`, `SpoiledRun`, `ShortWrites`). A circular buffer of 32768 packed entries with 32-bit
  sequence numbers; an in-place quicksort with an explicit stack over a range that may wrap; the merge that coalesces
  versions of a page and submits one transaction per inode; copy-on-write of pages that belong to sealed transactions.
  The main result is `AdaRun.Run`. Which writes and creations take effect when, and what each seal and flush is worth, is
  defined from the operations alone (`AdaRun.TraceOf`), without log, sequence numbers or copies. From a new log, every
  sequence of page writes and inode creations (also ones that wait for room), seals, flushes and page cache reclaims
  leaves files and disk as that definition says: the disk is the file image at the last flushed seal, and each flush has
  handed over every page it took with the greatest length any of the page's entries had. A run never stops
  before an operation that fits (`AdaRun.Fits`), and whether one fits can be told from the operations before it: a write
  whose page has a version left, a flush of at most 35 entries that are clear of 2^31 and have keys le_cmp compares
  properly. Up to 254 operations, one write or creation waiting at a time, no flush of more than 35 entries, on files of
  less than 2^23 pages, always fit. `LogImage.FlushIsReplay` says why it works: sorting and coalescing a stretch of the
  log gives what replaying it in log order gives. `SortLimits.SortExactly` says when the sort can be relied on, and
  `SpoiledRun.Spoil` what a flush of more entries can do: it leaves the disk in a state the files never were in.
* **Leaves and nodes** (`Regions`, `LeafFormat`, `LeafHeaders`, `LeafEdit`, `CheckLeaf`, `LeafPush`, `Sequences`,
  `SplitLeaf`, `LeafBalance`, `Nodes`, `NodeLevel`). Leaves are byte arrays with headers growing up and data growing
  down; every edit is tied to the edit of the list of items the bytes represent. `CheckLeaf.CheckExact` relates that
  representation to check_leaf. `SplitLeaf` and `NodeLevel` work on the item and pointer lists of one level and follow
  the path's cursor through insertion, deletion, pushing and splitting; `LeafBalance` does the pushes, and
  one pass of a split, on the bytes of two leaves.
* **Delayed references** (`RefOrder`, `RefRuns`, `DelayedRefs`, `RefTransaction`). The ordered tree of queued reference
  changes, the heads that sum them up, clusters, running, and the predicted reference count. The main result is
  `RefTransaction.CarryOut`: for every sequence of requests, what is done for each extent once everything has been run,
  down to when a new extent is inserted as reserved and an extent op run, follows from the requests alone.
* **Space accounting** (`SpaceInfo`). Block reservations and block groups under one space_info, and the counters that
  must equal sums over them.
* **Ordered work queues** (`OrderedWork`). The completion protocol of any number of workers as a state machine: what is
  started, in which order, told from the items queued; and from every state reached, a way to have everything started.
* **Interval and stream structures** (`ExtentMap`, `Csums`, `Decompress`).

`Basics` holds the integer widths, error numbers and small types they share.

Kernel calls, locks, I/O results and tree shapes are parameters: what `shrink_delalloc` returns, which flushes fail,
whether `btrfs_split_item` asks to start over, which node of a red-black tree a search compares with next. A red-black
tree is the sequence of its nodes in order, and a search narrows an interval of it by probes chosen by a parameter, so
what is proved holds for every shape.

## Findings

Where the code does not keep a property, the exact condition under which it does is proved.

* check_leaf accepts leaves whose item ends wrap around 32 bits (`CheckLeaf.CheckMissesWrap`) and leaves whose headers
  run into the data (`CheckLeaf.CheckMissesOverlap`), whatever the leaf size; with the item offsets inside the leaf it is
  exact (`CheckLeaf.CheckExact`).
* le_cmp truncates a 64-bit difference to int: page keys of one file far apart compare the wrong way round
  (`LogEntry.FarKeysDisagree`, `LogEntry.AgreesExactly`). Version 256 of a page becomes version 0 of the next page
  (`LogEntry.VersionOverflow`).
* __log_sort's stack has 32 places. Up to 35 entries always fit (`LogSort.FewFit`); from 36 on there are pages of one
  file that make it return -EOVERFLOW, wherever they lie in the log (`SortLimits.SomeOverflow`). Its static stack then
  keeps 31 ranges for the next call, and log_flush ignores the result (`LogSort.Sorter.LogSort`). The half-sorted entries
  are merged all the same (`AdaLog.Log.Flush`), and an old version of a page can then overwrite a newer one
  (`FlushLimits.MergesStale`). For every number of entries from 36 to 32768 there is a run of writes and two seals from a
  new log, each of which fits, such that flushing both transactions leaves on the disk an image that is none of the
  images the files had on the way: not the last seal's, and not any other (`SpoiledRun.Spoil`).
* __log_sort reads sequence numbers as ints. Up to four entries on both sides of 2^31 are left as they are and 0 is
  returned (`SortLimits.StraddlingUntouched`, `SortLimits.TwoStayUnsorted`). From five on, a range that starts at 2^31 or
  ends just before it can give an empty range that looks like all ints there are, and entries that were not to be sorted
  take the range's place (`SortLimits.Starting`, `SortLimits.Ending`). All of this together: whatever the entries, the
  sort gets through and is right, if and only if the range has at most 35 entries and is clear of 2^31
  (`SortLimits.SortExactly`); up to four entries that only touch 2^31 are clear of it.
* The sequence number 2^32 - 1 equals L_NULL: the entry there is taken for none and its successor starts at version 1
  again (`AdaLog.OutranksExactly`). A writer whose wait for room is interrupted also leaves L_NULL behind, and the next
  write to the page takes that for a sealed entry exactly while l_head is below 2^31 (`AdaLog.InterruptedLooksSealed`).
* The length of an entry is set to where the last write to its page ended, not to where the furthest one did. A page
  written up to byte 100 and then, before it is sealed, up to byte 10 is handed over with length 10, and
  ext4-adafs.c passes that length on to the journalled write (`ShortWrites.SecondWriteCounts`). Lengths are as far as
  pages have been written, throughout a run, if and only if no write to an active page ends before the entry does
  (`ShortWrites.LengthsReach`).
* balance_level relies on nodes holding at least 10 pointers: that capacity is the least for which its BUG()s are out of
  reach (`NodeLevel.RebalanceSafe`, `NodeLevel.SmallCapacityBug`). Nodes of this code hold more.
* pin_down_extent without a reservation, in a read-only group, leaves bytes_readonly too large
  (`SpaceInfo.Space.PinDown`, `SpaceInfo.UnreservedPinBreaksBooks`).
* Merging two extent maps whose lengths add up to 2^64 or more loses the last offset of the earlier one, unless the sum
  wraps so late that the end stays cut off at the largest u64 (`ExtentMap.JoinExactly`, `ExtentMap.JoinLosesLast`).
  Adding or unpinning an extent keeps every place if and only if no merge it causes does that
  (`ExtentMap.MergedExactly`).

## Model

| member | source | states |
|---|---|---|
| `LeafFormat.LittleEndianRoundTrip` | btrfs/ctree.h:1736-1760 | a number that fits its width reads back from its little-endian bytes |
| `LeafFormat.HeaderReads` | btrfs/ctree.h:431-435 | the 25 bytes of a header read back as the key, offset and size written |
| `LeafFormat.RepReads` | btrfs/ctree.h:438-449 | in a leaf that represents an item list, header i gives item i's key and size, its end is the leaf size less the data of the items before it, and its bytes lie at its offset |
| `LeafFormat.RepUnique` | btrfs/ctree.h:438-449 | a leaf represents at most one item list of a given length |
| `LeafFormat.RepParts` | btrfs/ctree.h:438-449 | headers and data of any three consecutive parts of the list lie where the lengths of the parts before them put them |
| `LeafFormat.RepJoin` | btrfs/ctree.h:438-449 | and parts that lie there, headers apart from data, make up the list |
| `CheckLeaf.Check` | btrfs/disk-io.c:436-495 | check_leaf answers yes exactly if the first item ends at the leaf's end, each next one where the one before starts, and keys ascend |
| `CheckLeaf.RepAccepted` | btrfs/disk-io.c:436-495 | every leaf that represents a list with ascending keys is accepted |
| `CheckLeaf.AcceptedRep` | btrfs/disk-io.c:436-495 | an accepted leaf whose items lie inside it represents the list read off its headers |
| `CheckLeaf.CheckExact` | btrfs/disk-io.c:436-495 | accepted and inside, if and only if some list of that many items with ascending keys is represented |
| `CheckLeaf.CheckMissesWrap` | btrfs/disk-io.c:436-495 | in a leaf of any size, one item of offset 2^32 - 1 and the leaf size plus one is accepted and represents nothing |
| `CheckLeaf.CheckMissesOverlap` | btrfs/disk-io.c:436-495 | in a leaf of any size, two items in order whose data reaches down into their headers are accepted and represent nothing |
| `LeafHeaders.ShiftOffsets` | btrfs/ctree.c:3611-3625 | the loop that adds a constant to a run of item offsets moves the whole run's data end and touches no other byte |
| `LeafHeaders.WriteHeaders` | btrfs/ctree.c:3644-3652 | the loop that writes new headers lays out the new items below the given end |
| `LeafEdit.Leaf.DataEnd` | btrfs/ctree.c:717-724 | the offset of the last item, or the leaf size: the leaf size less all item data |
| `LeafEdit.Leaf.SpaceUsedBy` | btrfs/ctree.c:2170-2183 | headers and data of a stretch of items, computed from two headers |
| `LeafEdit.Leaf.FreeSpace` | btrfs/ctree.c:2190-2203 | what is left of the leaf |
| `LeafEdit.Leaf.OpenGap` | btrfs/ctree.c:3598-3642 | the shift of offsets and the two moves leave a gap for nr headers and total bytes of data, everything else in place |
| `LeafEdit.Leaf.InsertItems` | btrfs/ctree.c:3571-3669 | the leaf represents the old list with the new items inserted at slot; all other items keep key and bytes |
| `LeafEdit.Leaf.WriteItem` | btrfs/ctree.c:3711-3732 | writing an item's bytes changes that item only |
| `LeafEdit.Leaf.InsertItem` | btrfs/ctree.c:3711-3732 | one item inserted with its bytes |
| `LeafEdit.Leaf.DeleteItems` | btrfs/ctree.c:3811-3865 | the leaf represents the old list without the deleted stretch |
| `LeafEdit.Leaf.DeletedSpan` | btrfs/ctree.c:3824-3827 | the loop's sum is the deleted items' data, and the offset of the last one where it starts |
| `LeafEdit.Leaf.ExtendItem` | btrfs/ctree.c:3339-3412 | the item keeps its old bytes as a prefix of the longer one; all others are unchanged |
| `LeafEdit.Leaf.TruncateItem` | btrfs/ctree.c:3227-3334 | the item keeps its first bytes, or its last ones under a key moved on by the difference, or for inline extents its head and what remains; all others are unchanged |
| `LeafEdit.Leaf.SplitItem` | btrfs/ctree.c:3081-3150 | one item becomes two whose bytes together are the old ones |
| `LeafPush.RecomputeOffsets` | btrfs/ctree.c:2316-2328 | the loop gives every header the offset its place in the list calls for |
| `LeafPush.PushRight` | btrfs/ctree.c:2285-2335 | the last k items of the left leaf become the first of the right one, bytes included |
| `LeafPush.PushLeft` | btrfs/ctree.c:2511-2591 | the first k items of the right leaf become the last of the left one, bytes included |
| `LeafPush.CopyForSplit` | btrfs/ctree.c:2698-2775 | the items from mid on move to the new leaf, bytes included |
| `SplitLeaf.CountRight` | btrfs/ctree.c:2230-2273 | how many items go right, with and without leave to empty the leaf: the least number at which one of the loop's reasons to stop holds; they fit; without leave item 0 and those below min_slot stay |
| `SplitLeaf.CountLeft` | btrfs/ctree.c:2463-2497 | how many items go left, with and without leave to empty the leaf: the least number at which a reason to stop holds; they fit; those from max_slot on stay, and without leave the last one |
| `SplitLeaf.LeafLevel.PushLeafRight` | btrfs/ctree.c:2379-2433 | for both values of empty: exactly the counted items move, 1 if there are none; all items of the level stay in order, the path names the same place, parent keys of non-empty leaves stay first keys, and no leaf but the path's old one is emptied, and that only with empty; if the path moved to the right leaf it has the room asked for |
| `SplitLeaf.LeafLevel.PushLeafLeft` | btrfs/ctree.c:2632-2690 | the same to the left; the BUG_ON on an empty left leaf is not reached |
| `LeafBalance.PushLeafRight` | btrfs/ctree.c:2209-2433 | on the bytes of two leaves: the count read off the headers, the move and the path are those of the list operation |
| `LeafBalance.PushLeafLeft` | btrfs/ctree.c:2443-2690 | the same to the left |
| `LeafBalance.ChoosePlan` | btrfs/ctree.c:2889-2931 | the split point read off the headers of a leaf is the one planned for its items |
| `LeafBalance.SplitPass` | btrfs/ctree.c:2889-3004 | one pass of split_leaf on the bytes: the plan for the items is carried out, order and path are kept, every split point is proper, and the path's leaf then has the room asked for unless a second pass follows |
| `SplitLeaf.LeafLevel.DelItems` | btrfs/ctree.c:3811-3932 | exactly the deleted items leave the level and the others stay in order; a leaf left less than a third full gives to the left and then to the right what the pushes count; an emptied leaf goes, so that no leaf below a node is empty, and the node's keys are first keys; the path keeps its place as long as its leaf stays |
| `SplitLeaf.LeafLevel.InsertHere` | btrfs/ctree.c:3571-3669 | the items go in at the path's place and the node's key is the leaf's first key again |
| `SplitLeaf.LeafLevel.InsertEmpty` | btrfs/ctree.c:3675-3705 | split_leaf only where there is no room: the level is the one split_leaf leaves, or the old one, with the new items put into the path's leaf at its slot; the old items stay in order around them, in at most two more leaves |
| `SplitLeaf.LeafLevel.SplitAt` | btrfs/ctree.c:2698-2775 | exactly the path's leaf is cut, at mid, with order and cursor kept and the path on the proper side |
| `SplitLeaf.LeafLevel.NewLeafAt` | btrfs/ctree.c:2960-2995 | exactly an empty leaf under the key to be inserted is added, next to the path's leaf, with order and cursor kept |
| `SplitLeaf.LeafLevel.InsertNewRoot` | btrfs/ctree.c:1967-2031 | a parent with the first key as its only key |
| `SplitLeaf.LeafLevel.PushForDoubleSplit` | btrfs/ctree.c:2787-2833 | what is pushed is what the right push and, with the slot still inside a leaf without room, the left push move; order, cursor and number of leaves are kept; 1 exactly if the slot is inside a leaf without room and neither side takes anything |
| `SplitLeaf.LeafLevel.SplitLeaf` | btrfs/ctree.c:2841-3014 | -EOVERFLOW exactly if an item cannot be extended that far within one leaf; otherwise pushing right, or else left, is all that happens if it gives the room, and the passes start from there if not; the path's leaf ends with data_size bytes free (if and only if the request can fit a leaf at all), in at most three passes, with at most two new leaves, order and cursor kept; every leaf and the path are as SplitOf has them |
| `SplitLeaf.LeafLevel.SplitPasses` | btrfs/ctree.c:2889-3014 | the passes of split_leaf: the level ends as SplitFrom has it, a double split happens at most once and only after push_for_double_split has failed to make room, and there is room at the end |
| `SplitLeaf.AddsOnlyIfStuck` | btrfs/ctree.c:2864-3014 | a leaf is added if and only if neither the pushes split_leaf begins with nor, where a double split is in sight, those of push_for_double_split give the path's leaf the room |
| `SplitLeaf.PlanSafe` | btrfs/ctree.c:2889-2931 | every split point chosen is a proper one, so no item past the last is read; a double split is chosen only after pushing has been tried and never at slot 0 |
| `SplitLeaf.PlanRoom` | btrfs/ctree.c:2889-2931 | a single split leaves the path's side with the room asked for |
| `Nodes.PushLeftLeaves` | btrfs/ctree.c:1846-1880 | what push_node_left moves fits, and its source is left empty or with at least 8 pointers |
| `Nodes.BalanceRightLeaves` | btrfs/ctree.c:1910-1939 | what balance_node_right moves fits, is not all, and at most half the source and one |
| `Nodes.PushLeftMost` | btrfs/ctree.c:1855-1885 | push_node_left moves the greatest number that fits and leaves none or at least 8, except 8 fewer than fit where filling up would leave 1 to 7; it refuses exactly a full destination, a source of at most 8 not to be emptied, and one of which filling up at most 8 places would leave 1 to 7 |
| `Nodes.BalanceRightMost` | btrfs/ctree.c:1924-1943 | balance_node_right moves half and one, or what fits; it refuses exactly a full destination and a source of fewer than 4 |
| `Nodes.Node.InsertPtr` | btrfs/ctree.c:2042-2069 | the pointer is inserted at slot |
| `Nodes.Node.DelPtr` | btrfs/ctree.c:3740-3772 | the pointer at slot is gone |
| `Nodes.PushNodeLeft` | btrfs/ctree.c:1846-1899 | refused with 1 and no change, or the first pointers of the source are appended to the destination |
| `Nodes.BalanceNodeRight` | btrfs/ctree.c:1910-1958 | refused with 1 and no change, or the last pointers of the source are put before the destination's |
| `Nodes.SplitCopy` | btrfs/ctree.c:2135-2140 | the pointers from the middle on move to the new node; neither is empty |
| `NodeLevel.RebalanceSafe` | btrfs/ctree.c:971-1027 | with nodes of at least 10 pointers, balance_level's BUG()s are reached exactly if the node has one pointer and no neighbour; otherwise all pointers stay in order and the node does not end with one |
| `NodeLevel.NodeSaved` | btrfs/ctree.c:969-1042 | balance_level saves a node if and only if the left neighbour takes all of the middle, or the middle, after giving to the left, takes all of the right; where the left takes all of the middle, the right moves up |
| `NodeLevel.SmallCapacityBug` | btrfs/ctree.c:1005-1027 | with a capacity of 4 to 9 pointers a full right neighbour would make a node with one pointer hit the BUG_ON |
| `NodeLevel.Level.BalanceLevel` | btrfs/ctree.c:874-1078 | the BUG()s are reached exactly if the parent has one child with one pointer; else pointers stay in order, parent keys are first keys, the path names the same pointer, its node does not have exactly one, and the level is what the three steps make of the node and its neighbours |
| `NodeLevel.Level.PutBack` | btrfs/ctree.c:987-1066 | emptied nodes leave the parent, the others give it their first keys, and the path follows its pointer |
| `NodeLevel.Level.PushNodesForInsert` | btrfs/ctree.c:1084-1209 | 0 exactly if a neighbour takes pointers, left before right, and the border moves by exactly what push_node_left or balance_node_right counts; 1 means neither takes any and nothing changed; order, parent keys, number of nodes and the pointer the path names are kept; the path follows its pointer |
| `NodeLevel.StuckExactly` | btrfs/ctree.c:1084-1209 | nothing is pushed exactly if the left neighbour is full up to one or the node has at most 8 pointers, and the right neighbour is full up to one or the node has fewer than 4 |
| `NodeLevel.Level.SplitNode` | btrfs/ctree.c:2080-2163 | push_nodes_for_insert first, and nothing else if it leaves the node with room for more than three; otherwise the path's node is cut in the middle; order and the path's pointer are kept |
| `LogEntry.VersionFits` | ada_log.h:69-72 | a version below 256 leaves the page index intact |
| `LogEntry.VersionOverflow` | ada_log.h:69-72 | the page index survives exactly if the version is below 256; 256 gives the next page |
| `LogEntry.LengthFits` | ada_log.h:73-83 | setting the length leaves both flags alone |
| `LogEntry.SeqOrder` | ada_log.h:37-39 | seq_less, seq_ng and seq_dist order and measure unbounded positions less than 2^31 apart |
| `LogEntry.AgreesExactly` | ada_log.h:97-102 | le_cmp agrees with the order by inode, page and version if and only if the truncated difference keeps its sign |
| `LogEntry.NearKeysAgree` | ada_log.h:97-102 | it does for page keys of one inode less than 2^31 apart |
| `LogEntry.FarKeysDisagree` | ada_log.h:97-102 | it does not for two pages 2^23 pages apart |
| `SortSteps.ShortSort` | ada_log.c:59-70 | on any indices and keys, what the two loops make of the array; a short range is permuted and nothing else changes, and it is sorted if le_cmp can be trusted there |
| `SortSteps.Partition` | ada_log.c:72-85 | on any indices and keys, what the loops make of the array; the range is permuted and nothing else changes; if le_cmp can be trusted there, the entry from the middle ends at the returned place with everything left of it at most and everything right of it at least as great |
| `LogSort.SettledSplit` | ada_log.c:95-101 | replacing a range by its two parts keeps every pair outside a common range in order |
| `LogSort.SettledSorted` | ada_log.c:95-106 | sorting a range keeps every pair outside the remaining ranges in order; with none left, all is sorted |
| `LogSort.SpanReads` | ada_log.c:87-103 | the length of every range on the stack is right wherever it lies; read as ints, its ends are as far apart as they should be, or in the wrong order because it straddles 2^31, or all ints apart because it is empty at 2^31 |
| `LogSort.StepShuffles` | ada_log.c:95-104 | one round permutes the range it takes, whatever the keys, unless that range is empty and at 2^31 |
| `LogSort.RunEnds` | ada_log.c:95-106 | 0 with an empty stack, or -EOVERFLOW with 31 ranges |
| `LogSort.FewFit` | ada_log.c:95-101 | what came from at most 35 entries never overflows the stack, whatever they are and wherever they lie |
| `LogSort.SortsWindow` | ada_log.c:95-106 | within the ints, the ranges on the stack are permuted and nothing else, and 0 means sorted if le_cmp can be trusted |
| `SortLimits.SomeOverflow` | ada_log.c:95-101 | for every range of 36 entries or more there are pages of one file on which -EOVERFLOW is returned |
| `SortLimits.StraddlingUntouched` | ada_log.c:59-61 | two to four entries on both sides of 2^31 are not touched, and 0 is returned |
| `SortLimits.TwoStayUnsorted` | ada_log.c:59-61 | two entries out of order at 0x7FFF_FFFF and 0x8000_0000 stay so, and 0 is returned |
| `SortLimits.Straddling` | ada_log.c:72-106 | for every straddling range of 2 to 35 entries there are some that end unsorted or displaced |
| `SortLimits.Starting` | ada_log.c:59-106 | for 5 to 35 entries from 2^31 on there are some that are displaced by entries from around them |
| `SortLimits.Ending` | ada_log.c:59-106 | for 5 to 35 entries up to 2^31 there are some that are displaced |
| `SortLimits.SortExactly` | ada_log.c:87-107 | whatever the entries, the sort from an empty stack returns 0, permutes the range alone and sorts it where le_cmp can be trusted, if and only if there are at most 35 entries and the range is clear of 2^31 |
| `LogSort.Sorter.LogSort` | ada_log.c:87-107 | on every array, range and leftover stack: ends, with the result, array and stack that SortRun gives; 0 and an empty stack, or -EOVERFLOW and 31 ranges; from an empty stack 0 for up to 35 entries, and for ranges clear of 2^31 the range is permuted and all else unchanged whatever is returned, and sorted on 0 if le_cmp can be trusted there |
| `MergeFlush.OneSubmissionPerPage` | ada_log.c:166-248 | of a sorted stretch exactly one entry per page with data entries is submitted, with the highest version and the greatest length of them |
| `MergeFlush.SubmittedDistinct` | ada_log.c:166-248 | submissions are of different pages, in ascending order |
| `MergeFlush.InvalidLast` | ada_log.c:177-182 | after an invalid entry there are only invalid ones, so stopping there misses nothing |
| `MergeFlush.ScanGroup` | ada_log.c:197-212 | the first pass coalesces one inode's entries: superseded ones are invalid and their pages evicted, survivors carry the greatest length, and the count is the number of survivors |
| `MergeFlush.FlushGroup` | ada_log.c:221-230 | the second pass hands over exactly the survivors, in order; those that fail are invalidated and evicted |
| `MergeFlush.EvictGroup` | ada_log.c:234-238 | the third pass evicts exactly the pages that were written |
| `MergeFlush.MergeFlush` | ada_log.c:166-248 | of every stretch the walk can follow, sorted or not: all transactions together hand over exactly the submissions, one transaction per run of entries of an inode with as many credits as entries, in ascending order if the stretch is sorted; the pages of all data entries are evicted; from the new l_begin on there is no data entry; entries outside are unchanged |
| `MergeFlush.SortedWalkable` | ada_log.c:166-248 | a sorted stretch of well-formed entries is one the walk can follow |
| `LogKinds.BeginIs` | ada_log.c:177-240 | how far l_begin moves depends only on what the entries taken are about: past those of inodes up to the last one with a page |
| `LogLengths.HandedLengths` | ada_log.c:166-248 | a sorted stretch hands over exactly the pages it has entries of, each with the greatest length of these |
| `LogImage.FlushIsReplay` | ada_log.c:166-279 | sorting, coalescing and submitting a stretch puts the same image on disk as replaying it in log order |
| `LogImage.ReplaySplit` | ada_log.c:250-279 | replaying can stop after a transaction and go on |
| `LogImage.ApplyPassed` | ada_log.c:221-238 | with one submission per page, an entry that fails leaves its page on the disk as it was, and every other page is as if none had failed |
| `LogImage.SubmittedOnce` | ada_log.c:166-248 | a sorted stretch gives one submission per page |
| `LogView.AssocStep` | ada_fs.h:79-87 | giving a page an empty record keeps the invariant and every sealed image |
| `LogView.CowStep` | ada_fs.h:87-113 | so does copying a sealed page and turning its entry to the copy |
| `LogView.CopyStep` | ada_file.c:196-231 | so does writing into the page of a write whose entry is still to come |
| `LogView.AppendStep` | ada_fs.h:136-166 | appending that entry adds the write to the files and keeps the sealed images |
| `LogView.ActiveStep` | ada_fs.h:130-136 | writing an active page in place changes the files at that page and no sealed image |
| `LogView.SealStep` | ada_log.h:216-238 | sealing keeps the invariant |
| `LogView.FlushKeeps` | ada_log.c:250-279 | taking entries to disk and their pages off the reverse log keeps the invariant; what remains stands for the same images |
| `AdaLog.OutranksExactly` | ada_fs.h:137-153 | the entry built for a rewritten page has a higher key than the one it supersedes if and only if the version is below 255 and the recorded number is not L_NULL |
| `AdaLog.InterruptedLooksSealed` | ada_fs.h:87-163 | L_NULL left in a record is taken for a sealed entry exactly while l_head is below 2^31 |
| `AdaLog.SealedNotOpen` | ada_log.h:151-151 | a sealed transaction never looks open |
| `AdaLog.Log.constructor` | ada_log.h:175-190 | an empty log satisfies the invariant |
| `AdaLog.Log.Append` | ada_log.h:240-253 | -EAGAIN exactly if 32768 entries are taken; otherwise the entry is appended and no slot in use is overwritten |
| `AdaLog.Log.Seal` | ada_log.h:216-238 | -ENODATA exactly if there is nothing active; otherwise the active entries become a transaction standing for the files as they are |
| `AdaLog.Log.Assoc` | ada_fs.h:70-119 | the page found or made for a write, with its record new, copied off a sealed entry, or active; the log is unchanged but for the last entry of a sealed page, which is turned to the copy and marked so |
| `AdaLog.Log.CopyOnWrite` | ada_fs.h:87-113 | the sealed entry, and only it, refers to a copy with the same contents from now on |
| `AdaLog.Log.StartWrite` | ada_fs.h:70-153 | done at once exactly if the page has an active entry: then the files change at that page, and the log only in that entry's length, which is where the write ends; otherwise the files are as before, the entry with key, length, next version and contents of the write waits, and of the log only the last entry of a sealed page is turned to a copy |
| `AdaLog.Log.TryAppend` | ada_fs.h:154-163 | one round of the waiting loop: -EAGAIN exactly if 32768 slots are taken; appended, and the files have the write; or what was active is sealed, and the files are as before |
| `AdaLog.Log.TryCreate` | ada_fs.h:45-68 | one round of the hook's loop: a meta entry is appended and no file changes, or the log is full and what was active is sealed |
| `AdaLog.Log.TakeTrans` | ada_log.c:250-268 | the transactions taken are the first ones sealed, contiguous, so the BUG_ON is not reached; nothing to take if and only if begin equals end |
| `AdaLog.Log.Flush` | ada_log.c:250-279 | -ENODATA exactly if nothing is taken; the sort gets through exactly if its run from an empty stack does; whatever it leaves behind is merged and handed over, and of that the entries that do not fail reach the disk; if it got through and could be relied on, every page is as in the image at the last seal taken unless its entry failed, later seals still stand for their images, the entries taken leave the log, l_begin moves as far as BeginAfter says, and each page is handed over with the greatest length of its entries; if nothing failed, the invariant holds again; the files are unchanged |
| `AdaLog.Log.SortableExactly` | ada_log.c:87-107 | what a flush needs of its entries, told from what they are about: the range is clear of 2^31, and every two pages of one inode have keys le_cmp compares properly |
| `AdaLog.Log.FewGetThrough` | ada_log.c:87-107 | a flush of at most 35 entries gets its sort through |
| `AdaLog.Log.RoomExactly` | ada_fs.h:137-147 | a page has room for one more write if and only if it has an active entry or the number after its last one is not a multiple of 256 |
| `AdaLog.Log.MergeOut` | ada_log.c:166-248 | disk, reverse log and l_begin after the merge, whatever fails; l_begin moves past the entries up to the last one with a page, and stays if there is none; entries not taken stay |
| `AdaLog.Log.SortedTaken` | ada_log.c:250-279 | where the sort gets through and can be relied on, it leaves the entries taken in order, all of them and no others, and the merge can walk them |
| `AdaRun.Run` | ada_fs.h:45-168 | from a new log, for every sequence of operations: files and disk are what the operations alone determine, the disk being the files at the last flushed seal, and so are the lengths of all entries in the log and of all pages each flush has handed over; the run stops only before an operation that CanDo rules out in the state reached and that does not fit what went before; modest runs, of up to 254 operations with at most 35 entries to a flush, get to their end |
| `AdaRun.FitsCanDo` | ada_fs.h:45-168 | in every state a run reaches, an operation that fits what went before can be done; and one that can be done fits, flushes aside |
| `AdaRun.ModestFits` | ada_fs.h:45-168 | every operation of a modest run fits |
| `AdaRun.WriteReachesDisk` | ada_fs.h:45-168 | after any operations that leave nobody waiting and the log not full: a write, its round, a seal and a flush of all seals put on the disk all files as they were, with the write |
| `ShortWrites.LengthsReach` | ada_fs.h:130-135 | throughout every run the entries' lengths are how far their pages have been written, if and only if no write to an active page ends before its entry does |
| `ShortWrites.SecondWriteCounts` | ada_fs.h:130-142 | a page written, written again, sealed and flushed is handed over with the length of the second write, whatever the first was |
| `FlushLimits.Overflowing` | ada_log.c:72-104 | on entries that put the least one in the middle of every range, the sort gives up after 31 rounds, and what it leaves is those rounds with the last entry moved in front of the rest |
| `FlushLimits.MergesStale` | ada_log.c:166-248 | merging such a stretch, if it was written so, puts on the disk for one page the contents of an entry that a later one supersedes |
| `FlushLimits.NotTheReplay` | ada_log.c:166-279 | that image is not what replaying the entries gives, if the two contents differ |
| `FlushLimits.FlushSpoils` | ada_log.c:250-279 | in every valid log that holds such entries sealed, below 2^31, a flush does not get its sort through, merges all the same, and gives an image other than the one at the last seal taken |
| `SpoiledRun.Closes` | ada_fs.h:45-168 | for every n from 36 to 32768, n writes and two seals each fit what went before |
| `SpoiledRun.NeverWas` | ada_fs.h:45-168 | an image with the last page and with the first contents of the page before it is none the files have on the way |
| `SpoiledRun.Spoil` | ada_log.c:250-279 | a new log taken through those operations and a flush of both transactions: the files are as written, and the disk is at no point what the files were |
| `RefOrder.CompareIsRank` | btrfs/delayed-ref.c:38-115 | comp_entry is a strict total order, heads last within an extent, and gives 0 exactly for the same back reference |
| `DelayedRefs.Descend` | btrfs/delayed-ref.c:122-149 | tree_insert's descent finds the node of the same back reference, or the place where inserting keeps the order, in a tree of any shape |
| `DelayedRefs.FindRefHead` | btrfs/delayed-ref.c:155-184 | the head of the extent, or there is none; the node looked at last has no later extent before it and only later extents behind it |
| `DelayedRefs.RefMovesByOne` | btrfs/delayed-ref.c:291-329 | update_existing_ref moves the queued amount by exactly one and leaves a positive entry, or none if it comes to zero |
| `DelayedRefs.EntryIsNet` | btrfs/delayed-ref.c:291-329 | at most one entry per back reference, positive, equal to the net of the requests; none if and only if the net is zero |
| `DelayedRefs.HeadMod` | btrfs/delayed-ref.c:335-386 | the sum over an extent's heads is its one head's ref_mod |
| `DelayedRefs.Root.AddHead` | btrfs/delayed-ref.c:335-466 | the head is inserted, or updated by the change, with must_insert_reserved and the extent op added to what it had; nodes of other extents are untouched; tree order, num_entries and num_heads_ready stay exact |
| `DelayedRefs.Root.AddRefNode` | btrfs/delayed-ref.c:471-576 | the ref is inserted, updated or cancelled; order, counters and books hold, with net and intended count moved by one |
| `DelayedRefs.Root.Queue` | btrfs/delayed-ref.c:583-667 | a request keeps all invariants, moves the net of its back reference and the intended count of its extent by one, gives the head what it had and what the request brings (must_insert_reserved exactly for a new extent, the op if there is one), and leaves other extents alone |
| `DelayedRefs.Root.QueueAll` | btrfs/delayed-ref.c:583-667 | after any sequence of requests each back reference is queued with the net of its requests and each extent's intended count has moved by the net of all of its; a head is there exactly if it was or something was asked for its extent, must be inserted exactly if it had to be or was asked to be, and has an op exactly if it had one or was given one |
| `DelayedRefs.Root.QueueOp` | btrfs/delayed-ref.c:669-693 | an extent op adds or drops nothing, and the head has it; other extents are left alone |
| `DelayedRefs.Root.LookupRefs` | btrfs/extent-tree.c:689-789 | with the head's mutex free, disk count and head's ref_mod make the intended count |
| `DelayedRefs.Root.Scan` | btrfs/delayed-ref.c:244-268 | exactly the ready heads from there on are marked, up to 32 and no further than one already taken, in ascending order; num_heads_ready drops by as many, and run_delayed_start is the last of them |
| `DelayedRefs.Root.FindCluster` | btrfs/delayed-ref.c:212-281 | the scan starts at the first node of an extent not before `start`, or one node earlier, and over again from the first node if it finds none; 0 with a cluster exactly if some head is ready; num_heads_ready stays exact and nothing else about the tree changes |
| `DelayedRefs.SelectRef` | btrfs/extent-tree.c:2108-2137 | the ref of the extent nearest to the head, if there is one, and a drop only if no add is queued |
| `DelayedRefs.Root.RunRef` | btrfs/extent-tree.c:2222-2232 | the ref leaves the tree and the disk count moves by it; a drop that takes the count to zero leaves nothing queued |
| `DelayedRefs.Root.RunOne` | btrfs/extent-tree.c:2139-2240 | one round: all invariants hold; what is done is the first thing owed for the extent, and what is owed then is the rest; when the head goes, nothing is queued and the disk has the intended count |
| `DelayedRefs.Root.RunHead` | btrfs/extent-tree.c:2139-2240 | running a head ends, does exactly what was owed for the extent, takes the count to exactly what was predicted, and leaves other extents alone |
| `DelayedRefs.Root.RunAll` | btrfs/extent-tree.c:2249-2332 | running everything ends with an empty tree, every extent at its intended count, and for each exactly what was owed done |
| `DelayedRefs.Root.Cleanup` | btrfs/extent-tree.c:4575-4644 | the head goes if and only if it exists, is not the first node, has no ref before it, no extent op for an extent on disk and is not running; 1 exactly if it goes and the extent was never on disk; a head that only runs loses its op; when it goes nothing is queued and the count is settled; counters stay exact |
| `DelayedRefs.BooksFinish` | btrfs/extent-tree.c:2193-2224 | with no refs left, removing the head settles the extent |
| `RefRuns.DeliveredOnce` | btrfs/extent-tree.c:2139-2240 | of what is owed for an extent every ref comes once, adds first, and the head last; must_insert_reserved goes along once, with whatever comes first; so does the extent op, unless the extent never was and no ref is left |
| `RefTransaction.CarryOut` | btrfs/extent-tree.c:2139-2332 | for any requests, queued and run from an empty tree: every extent comes to its count and the net of its requests; something is done for it exactly if it was asked for; each of its back references is run once with its net, or not at all if that is zero; it is inserted as reserved, once and first, exactly if that was asked; its extent op runs once and first, unless the extent was made and nothing is left of it |
| `SpaceInfo.ReserveMetadataBytes` | btrfs/extent-tree.c:3381-3507 | whatever others do meanwhile and whatever shrink_delalloc returns for what it is asked: orig_bytes are reserved on success, nothing on failure; passes go on exactly as long as nothing fits, nothing is reclaimed and nothing fails, at most four; success exactly if the last pass found room or reclaimed some; a request that fits at once succeeds in the first pass; the error is the one the last pass ran into, and the result of every course of events is the one Verdict gives |
| `SpaceInfo.Space.UseBytes` | btrfs/extent-tree.c:3524-3537 | the bytes leave the reservation if it has them; books hold |
| `SpaceInfo.Space.AddBytes` | btrfs/extent-tree.c:3539-3549 | the bytes come to rest in the reservation; books hold |
| `SpaceInfo.Space.Migrate` | btrfs/extent-tree.c:3593-3604 | bytes move from one reservation to another, whose size grows by as much, or nothing changes; none are lost |
| `SpaceInfo.Space.ReleaseBytes` | btrfs/extent-tree.c:3551-3591 | the excess goes to the other reservation as far as it has room and the rest back to the space; both reservations are left exactly so, and no other changes; books hold |
| `SpaceInfo.Space.Release` | btrfs/extent-tree.c:3732-3741 | the excess fills the global reservation first, unless that is full or the one released |
| `SpaceInfo.Space.RsvAdd` | btrfs/extent-tree.c:3654-3671 | 0 exactly if nothing is asked or the reservation succeeds; then the reservation has the bytes and has grown by them, otherwise nothing changes |
| `SpaceInfo.Space.UpdateGlobal` | btrfs/extent-tree.c:3778-3811 | the global reservation ends with its new size reserved, or with all it had and all that is left of the space, if that is less; books hold |
| `SpaceInfo.Space.UpdateBlockGroup` | btrfs/extent-tree.c:4062-4143 | every group is charged for exactly its share of the extent up to the first byte that has no group; -1 exactly if there is one; books hold either way |
| `SpaceInfo.Space.PinDown` | btrfs/extent-tree.c:4161-4180 | books hold after pinning if and only if the bytes were reserved, or the group is writable, or there are none |
| `SpaceInfo.UnreservedPinBreaksBooks` | btrfs/tree-log.c:279-281 | pinning an unreserved block in a read-only group breaks them by its size |
| `SpaceInfo.Space.UpdateReservedBytes` | btrfs/extent-tree.c:4203-4240 | -EAGAIN exactly for a read-only group where the code refuses; books hold |
| `SpaceInfo.Space.UnpinRange` | btrfs/extent-tree.c:4275-4317 | every group is unpinned by exactly its share; free space is added for exactly the bytes before their group's last_byte_to_unpin; books hold |
| `SpaceInfo.Space.FinishCommit` | btrfs/extent-tree.c:4352-4374 | every durable reservation gets what was freed for it in the committed transaction, gives up its excess, all it has if nobody uses it, and leaves the list if it is to get nothing more; books hold |
| `SpaceInfo.GivenBackOnce` | btrfs/extent-tree.c:4352-4374 | what was freed for one reservation is its own again, and others are still to get theirs |
| `SpaceInfo.Space.FreeTreeBlock` | btrfs/extent-tree.c:4646-4732 | a freed block's bytes go back to the reservation or the space, or are pinned, and are promised to the durable reservation in the slot of the transaction's parity, exactly as each branch has it; books hold |
| `SpaceInfo.Space.FreeUnwritten` | btrfs/extent-tree.c:4685-4707 | back to the reservation if it is below its size and the group writable, else back to the space; nothing else changes |
| `SpaceInfo.Space.UseBlockRsv` | btrfs/extent-tree.c:5661-5709 | which of the reservation, the space and the global reservation pays for the block, or that none can; exactly that one is charged; books hold |
| `SpaceInfo.Space.UnuseBlockRsv` | btrfs/extent-tree.c:5711-5715 | the bytes go to the reservation that was charged, and what it then has too much back to the space |
| `SpaceInfo.Space.AllocBlock` | btrfs/extent-tree.c:5724-5746 | succeeds if and only if somebody pays and the search ended in a writable group; then the group has the bytes and exactly the one that pays is charged; otherwise the error is that of the step that failed, and what was paid is kept by the reservation charged up to its size |
| `SpaceInfo.FailureUndone` | btrfs/extent-tree.c:5711-5735 | after a failed allocation a reservation that paid is as before; what the space paid is back there if the reservation has no size, and else stays with the reservation, grown by as much |
| `SpaceInfo.Space.SetReadOnly` | btrfs/extent-tree.c:6535-6562 | exactly if everything still fits; books hold |
| `SpaceInfo.Space.SetReadWrite` | btrfs/extent-tree.c:6660-6677 | what is subtracted from bytes_readonly is exactly what the group had put in |
| `SpaceInfo.Space.MakeGroup` | btrfs/extent-tree.c:7053-7117 | a new group keeps the books |
| `SpaceInfo.Space.RemoveGroup` | btrfs/extent-tree.c:7227-7231 | taking the group's size off bytes_readonly keeps the books if and only if the group is empty |
| `OrderedWork.StepKeeps` | btrfs/async-thread.c:180-223 | every step of every worker keeps the invariant |
| `OrderedWork.QueueKeeps` | btrfs/async-thread.c:668-718 | so does queueing an item |
| `OrderedWork.QueuedAsAsked` | btrfs/async-thread.c:668-718 | in every run, each list has held exactly the items first queued with its priority, in that order |
| `OrderedWork.StartedInOrder` | btrfs/async-thread.c:180-223 | in every run, ordered functions start in enqueue order within each list, each at most once |
| `OrderedWork.NoOverlap` | btrfs/async-thread.c:180-223 | two run at once only if they are of different lists |
| `OrderedWork.StartsWhatIsDue` | btrfs/async-thread.c:180-223 | a step starts the item due or none: a normal one never while one of high priority is listed, and none before its func is done |
| `OrderedWork.NothingStuck` | btrfs/async-thread.c:180-223 | with nobody inside the completion loop, the item due is not done |
| `OrderedWork.AllRun` | btrfs/async-thread.c:180-223 | once all items asked for are done and nobody is inside, both lists are empty and every item asked for has been started, those of each priority in the order they were first queued |
| `OrderedWork.CanFinish` | btrfs/async-thread.c:180-223 | from every state of every run with at least one worker, the workers can go on without anything being queued until every item asked for has been started and both lists are empty |
| `ExtentMap.SaturatedIs` | btrfs/extent_map.h:38-50 | the saturating ends are the exact sums, cut off at the largest u64 |
| `ExtentMap.MergableExactly` | btrfs/extent_map.c:158-184 | two extents are merged if and only if they are adjacent, neither pinned nor compressed, and the later one is where the earlier one would go on |
| `ExtentMap.JoinKeepsPlaces` | btrfs/extent_map.c:158-184 | merging neighbours that fit leaves every file offset where it was |
| `ExtentMap.JoinExactly` | btrfs/extent_map.c:266-289 | the merged range ends where the later extent ended if and only if the lengths do not wrap, or wrap past the cut-off at the largest u64; otherwise it ends before the earlier one did |
| `ExtentMap.JoinLosesLast` | btrfs/extent_map.c:266-289 | and then the last offset of the earlier extent is in neither the later nor the merged one |
| `ExtentMap.JoinLosesOffsets` | btrfs/extent_map.c:266-289 | two holes over half the range each are merged into an empty one |
| `ExtentMap.TreeSearch` | btrfs/extent_map.c:111-155 | the extent holding the offset, or its two neighbours, in a tree of any shape |
| `ExtentMap.LookupExtent` | btrfs/extent_map.c:295-352 | the lowest extent that intersects the range, or there is none |
| `ExtentMap.InsertPlace` | btrfs/extent_map.c:79-105 | where the extent belongs, or the extent in the way |
| `ExtentMap.MergedExactly` | btrfs/extent_map.c:186-292 | merging an extent with its neighbours keeps the tree valid; it keeps every place if and only if each merge that happens fits, and then some extent covers the one merged |
| `ExtentMap.Tree.MergeAround` | btrfs/extent_map.c:266-289 | exactly the mergable neighbours are merged, the tree stays valid, and places are kept if and only if the merges fit |
| `ExtentMap.Tree.Add` | btrfs/extent_map.c:246-292 | -EEXIST exactly on overlap, and nothing changes then; otherwise the extent goes in at its place and is merged with its neighbours, and its offsets are added with all others where they were if and only if the merges fit |
| `ExtentMap.Tree.Unpin` | btrfs/extent_map.c:186-234 | the lowest extent in the range is unpinned and merged with its neighbours, or there is none and nothing changes; places are kept if and only if the merges fit |
| `Csums.TruncateCase` | btrfs/file-item.c:476-525 | truncate_one_csum's BUG() is not reached, and only checksums in the range go |
| `Csums.MiddleCase` | btrfs/file-item.c:591-632 | clearing and splitting in the middle changes checksums in the range only, and brings the end closer |
| `Csums.CsumTree.DelCsums` | btrfs/file-item.c:531-646 | afterwards the range has no checksums and every other sector has the one it had; the loop ends |
| `Decompress.Reader.Buf2Page` | btrfs/compression.c:946-1029 | one chunk: pages done stay right, the current page has all of the stream that belongs into it, and 0 is returned exactly if all pages are done |
| `Decompress.ReadAll` | btrfs/compression.c:946-1029 | over any sequence of chunks of at most a page, each finished page of an ascending list with gaps holds exactly its stretch of the stream |

## Left out

- Truncate, evict and rename hooks of AdaFS: they depend on page cache rules of the kernel.
- A wait for room that is interrupted; AdaLog.InterruptedLooksSealed says how the next write reads what it leaves behind.
- More than one writer waiting at a time, interleaving within one hook, and several logs sharing the reverse log.
- Progress of a full log that holds only meta entries: l_begin moves only past data groups.
- AdaLog.Log.Flush: needs a stretch the merge can walk, which sorted stretches are; entries left unsorted with a meta entry behind a data entry of the same inode are not covered.
- AdaRun.Run: takes every entry_flush to succeed and stops before a flush whose sort cannot be relied on; AdaLog.Log.Flush, FlushLimits and SpoiledRun say what happens otherwise.
- AdaLog.Log.StartWrite: needs room for one more version and page indices below 2^56; AdaLog.OutranksExactly says what happens otherwise.
- AdaLog.Log.TryAppend: l_end must not be 2^32 - 1; AdaLog.OutranksExactly says what happens to the entry there.
- What entry_flush does with the length it is given: pages reach the disk whole; which length that is, AdaRun.Run says.
- CheckLeaf.Check: header reads past the end of a leaf whose nritems is larger than it can hold.
- LeafEdit.Leaf.InsertItems: works on one leaf; the node's key is set by SplitLeaf.LeafLevel.InsertHere, the keys further up are not modelled.
- LeafEdit.Leaf.TruncateItem: front truncation of a file extent item to fewer than 21 bytes, where the code moves 21 bytes all the same.
- SplitLeaf.LeafLevel.SplitLeaf: works on item lists of one level, with LeafBalance and LeafPush for the bytes; the levels above are taken to have room, and an empty leaf asked for more than a leaf holds is left out.
- SplitLeaf.LeafLevel.DelItems: a path left beyond the end of its leaf by the deletion, and the key fix-up above the node.
- Nodes.Node.DelPtr: the key fix-up above, and turning an emptied root into a leaf.
- NodeLevel.Level.BalanceLevel: works on pointer lists of one level; shrinking the tree at the root is not modelled.
- Binary search within a block, path locking, readahead and copy-on-write of tree blocks.
- num_heads, is_data, reference counts of nodes, and the contents of extent ops in the delayed reference tree.
- DelayedRefs.Root.LookupRefs: gives the count only, not the extent flags or the BUG_ON about extents that are not on disk.
- Interleaving between taking a ref off the tree and applying it: DelayedRefs.Root.RunRef does both at once.
- SpaceInfo.Space.Reserve: assumes nobody else works meanwhile; SpaceInfo.ReserveMetadataBytes does not.
- Wrap-around of the space counters other than reservation sizes, raid factors, and disk_used.
- find_free_extent, chunk allocation and caching: allocation ends in some group or none.
- An item queued again while still on an order list; which worker takes which item.
- orig_start and reference counts of extent maps.
- Csums.CsumTree.DelCsums: ranges are whole sectors, and deleting an item does not fail.

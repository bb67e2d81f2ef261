# Verified models of the course programs

Five components of the repository, each modelled in the form its source has and proved against
what it is for.  They share nothing but a few small helper modules.

1. **The memory allocator** (`hw3/src/sfmm_block.c`, `hw3/src/sfmm.c`): memory as an array of rows of
   two 64-bit words, with headers, footers, prev-alloc bits and the links of ten circular free lists
   written in place, and stale words read as what their bits say.  `HeapWords` to `HeapResizing` say what
   memory means and what each step keeps, `HeapBytes` its single bytes, and `HeapDamage` what a touch of
   stale words does; class `Allocator.Heap` holds the operations; `HeapGaps` says where the free blocks are between
   calls, `HeapClients` has whole runs of client calls and `HeapExample` runs in which a call does damage, or
   does none.
2. **Neighbor joining** (`hw1/src/philo.c`): the global arrays as fields of `Taxonomy.Philo`;
   `TreeMetrics`, `QCriterion`, `CherryReduction` have the mathematics, `JoiningModel` one iteration,
   `LinkTree` and `JoiningRuns` the tree that a run builds, and `JoiningLengths` its lengths for any symmetric
   input.
3. **Roster quicksort** (`hw2/src/sort.c`): `Ordering`, `Quicksort`, `RosterSort`, `SortedRosters`, over the
   records of `Gradebook`.
4. **Statistics** (`hw2/src/stats.c`, `hw2/src/normal.c`, `hw2/src/report.c`): `FrequencyTables`,
   `FrequencyLists`, `CourseLinks`, `CourseStatistics`, `TalliedScores`, `Normalizing`, `RosterNormalizing`,
   `NormalizedGrades`, `Interpolation`.
5. **Reading and writing the grade database** (`hw2/src/read.c`, `hw2/src/write.c`): the writer of
   `GradeText` and the reader of `GradeReader` are imperative and refine the texts of `GradeText` and
   the functions of `ReaderSpec`; `ReadingWords` to `ReaderProducts` prove the round trip, `ReadingDetails`,
   `ReadingLines` and `ReadingFiles` treat files written in any other way, `GradeSample` one file word for word,
   and `GradeFiles` takes them through the program.

## Main results

- *Allocator.*  Over any run of `malloc`, `free`, `realloc` and byte stores the pointers held are aligned,
  inside the heap, disjoint and hold exactly the bytes that their owners put there (`HeapClients.Run`,
  `HeapClients.HeldApart`): for every run if `get_free_block` touches the successor that it means to touch
  (`intended` is set), and for the code as it is as long as no call does damage.  A call that changes a live
  payload makes the bytes of that one payload uncertain and of no other; only a call that breaks the heap ends
  the run.  Whether a call does damage, and which, is an if-and-only-if on the words in memory when its search
  ends (`HeapServing.DamageOfExactly`).
  Between calls the blocks tile the heap, footers and prev-alloc bits agree with the headers, the lists hold
  every free block once and in its class, and no two free blocks are neighbors.  The heap grows exactly when
  no free block fits, and then no further than needed.  The free blocks are the gaps between live blocks
  (`HeapGaps.VacantIsFree`): what `free` or a shrinking `realloc` gives back can be had again, and a request fits
  exactly if there is a gap of its size (`HeapGaps.FitsExactly`).
- *Neighbor joining.*  For the path metric of any binary tree with positive edges, and any number of
  taxa up to the program's limit, the built links are an unrooted binary tree in which every path has
  the length given in the input.  For any symmetric input the links are a tree exactly when the
  minimum's odd seed is harmless in every iteration, and then every inner node joins a pair of least criterion
  with edges and distances that are what neighbor joining defines, negative ones too (`Taxonomy.BuildFrom`).
- *Quicksort.*  `sorttable` terminates on every table for every total preorder, although a recursive
  call may have the caller's range, and sorts, by score from the highest down and by name by surnames first;
  `checkfordups` warns once for every student beyond the first of a name.
- *Statistics.*  From linked rosters to normalized scores (`NormalizedGrades.NormalizeCourse`): every table counts
  exactly the scores that are valid or use their raw grade, each score normalized by quantile gets the share of its
  peers below it, and every other one the grade that its policy or substitution stands for.  Interpolating back is
  in proportion inside a segment, bounded and monotone, with the exact exceptions.
- *Grade database.*  What the writer prints is read as the same course, field by field, exactly when the course
  has nothing that the writer loses, for every course that the reader can produce, from files with complaints or
  without; and the second reading is silent exactly when no word is missing and every substituted score is
  possible (`GradeFiles.ReadThenWrite`).  However an assignment is declared, with weight, normalization and maximum
  lines in any order and number and comments between them, each of its fields is what the last word about it
  says (`GradeFiles.ReadDeclared`).

## Where the code and its documentation part

The model follows the code.

- `get_free_block` touches the row behind the *requested* size (`hw3/src/sfmm_block.c:479`).  When 16 bytes are
  left over unsplit that row is the last one of the block being taken, and what it holds is stale: its two
  words are read as a header and a previous footer, and written where they lead.  `HeapDamage.DamageOf` says from
  the heap before the call what this does: nothing that matters, a change to a live payload, or a change to
  headers, footers or links that the heap does not survive.  Each is exact (`HeapDamage.DamageExactly`), and a
  hit changes exactly one payload (`HeapDamage.OneHit`).  Every operation that allocates returns the damage, keeps
  its invariants unless the heap is broken, and keeps all payloads exactly if there is none.
  `HeapExample.HitRun` is a run of six calls in which a live payload changes; if the stale header word gives the
  row no size, as memory of zeros does, there is never any damage (`HeapExample.NoSizeNoDamage`).
- `free` turns away exactly the pointers that fail its checks, and a pointer into a live payload can pass
  them (`HeapExample.WildRun`); what is there is then listed and marked free.
- List 9 takes every block above 55 * 32 bytes as well as the last block, unlike
  `hw3/include/sfmm.h:165-168`, and a footer agrees with its header on size and alloc bit only,
  unlike `hw3/include/sfmm.h:69`.
- The search over the lists reads one list head past the array (`hw3/src/sfmm_block.c:503-504`) before it ends;
  the model ends it at list 9.
- The minimum Q value is seeded with a distance (`hw1/src/philo.c:659`), not with a Q value; and the printed
  edges give node numbers, not the names promised in `hw1/src/philo.c:496-497`.
- `normal` promises the greatest score below one that is not in the table, but takes the first or the
  last bucket (`hw2/src/normal.c:131-143`); normalizing a roster never gets there
  (`NormalizedGrades.NormalizeCourse`).  `studentavg` promises equal weights when there are none, but
  returns 0, and mixed with weighted scores it adds the unweighted ones on top (`hw2/src/normal.c:181-219`).
- Interpolation gives the highest score for a negative quantile (`hw2/src/report.c:69-97`); the reports only ask
  for quantiles from 10 to 90.
- The writer's `NORMALIZE LINEAR:` is no keyword of the reader, the group of a RAW assignment is not
  written, a substituted normalized score on a RAW assignment loses its keyword and value, and a
  course without a professor is read through a null pointer (`hw2/src/write.c:24-114`).  Mean, deviation and
  scale stay in the record when another policy follows them (`hw2/src/read.c:301-349`), where a substituted class
  average takes the mean under any policy but QUANTILE (`hw2/src/normal.c:66-70`), and the writer leaves them
  out (`GradeFiles.LeftoverIsLost`).

## Model

| member | source | states |
|---|---|---|
| `HeapWords.FieldsRoundTrip` | hw3/src/sfmm_block.c:190-237 | The payload size, block size and flag bits that set_header packs into one word come back from the masks and shifts unchanged, for all values within their widths |
| `HeapWords.CalculateBlockSize` | hw3/src/sfmm_block.c:575-588 | The block size for a request is 16 times RowsFor, and 0 for a request of 0 |
| `HeapWords.RowsForIsLeast` | hw3/src/sfmm_block.c:575-588 | That size is the least multiple of 16 that holds the payload (or two links), a header and a footer |
| `HeapWords.ShrinkLeavesBlock` | hw3/src/sfmm_block.c:705-710 | Whenever realloc decides to split, what is split off is at least 32 bytes |
| `HeapWords.FindBetweenFibonacci` | hw3/src/sfmm_block.c:50-80 | The index is that of the first Fibonacci bound that covers the size, cut off at limit + 1; left and right are the two Fibonacci numbers before it, -1 where it is cut off and 0 for a size of 0 |
| `HeapWords.FindAllocationIndex` | hw3/src/sfmm_block.c:181-188 | The list for a block is its Fibonacci class, for any number of bytes, and 9 for everything above 55 * 32 |
| `HeapMemory.TouchWrites` | hw3/src/sfmm_block.c:100-149 | When the words that it reads are headers, touch_for_heap_update comes to four words, write by write: header and previous footer of the block, previous footer and prev-alloc bit of the next, the end of memory included |
| `HeapTiling.TouchCompletes` | hw3/src/sfmm_block.c:100-149 | Touching a block whose header alone is in place makes its footer, the prev-alloc bit behind it and what it knows of its predecessor agree: the heap is tiled again |
| `HeapTiling.TouchIsQuiet` | hw3/src/sfmm_block.c:100-149 | Touching any other block changes no header and leaves all footers in agreement, even next to the block being set up or behind a stale footer |
| `HeapSteps.InsertStep` | hw3/src/sfmm_block.c:239-267 | Inserting a block keeps tiling, list structure and live payloads, and puts it in front of its list |
| `HeapSteps.IsolateStep` | hw3/src/sfmm_block.c:151-179 | Isolating a listed block keeps tiling, the other lists and live payloads, and removes exactly its entry |
| `HeapHeaders.SplitStep` | hw3/src/sfmm_block.c:461-472 | The two headers of a split and the footer between them describe the cut block, keep the lists apart from the headers and all live payloads |
| `HeapHeaders.MergeStep` | hw3/src/sfmm_block.c:345-350 | Writing the header of a merged block describes the merged tiling but for the stale footer behind it |
| `HeapHeaders.GrowStep` | hw3/src/sfmm_block.c:269-300 | A new page and the header over the old epilogue describe the old blocks and one free block of a page |
| `HeapMoves.RelinkIsPush` | hw3/src/sfmm_block.c:356-364 | The four writes by which coalesce relinks the merged block have the effect of insert_block, in another order |
| `HeapMoves.CompletingTouch` | hw3/src/sfmm_block.c:100-149 | Touching the block that has just been given its header completes the whole state and keeps live payloads |
| `HeapMoves.MergeKeepsClasses` | hw3/src/sfmm_block.c:302-414 | A merge keeps every listed block in the class of its size, the old last block excepted until it is merged itself |
| `HeapWords.LinkRoundTrip` | hw3/include/sfmm.h:76-91 | The bits of a link to a block or a list head, read as a pointer, lead back to it, and those of a null link to none |
| `HeapDamage.TouchNearby` | hw3/src/sfmm_block.c:100-149 | Whatever words it reads, a touch writes only to its own row and to the row or two that the size there leads to |
| `HeapDamage.KeptExactly` | hw3/src/sfmm_block.c:479 | Live payloads are kept exactly if the touch changes no bit of theirs in those rows |
| `HeapDamage.OneHit` | hw3/src/sfmm_block.c:479 | A touch of a padding row that changes a live payload changes exactly one |
| `HeapDamage.DamageByKinds` | hw3/src/sfmm_block.c:479 | What these rows are for, and their words before and after, settle the damage |
| `HeapDamage.DamageExactly` | hw3/src/sfmm_block.c:479-489 | The heap is broken exactly if memory no longer describes the blocks and lists, up to the epilogue that is set anew; otherwise a payload is hit exactly if one of its bits has changed |
| `HeapServing.DamageOfExactly` | hw3/src/sfmm_block.c:458-489 | The same from the heap as it is before the block is taken |
| `HeapServing.FallowKeepsLastPage` | hw3/src/sfmm_block.c:269-300 | What lies in the rows of the page that ends up last, behind its link row, is what was there before the heap grew, page by page |
| `HeapExample.NoSizeNoDamage` | hw3/src/sfmm_block.c:479 | If the stale header word has no size bits, the touch does no damage |
| `HeapExample.FreshRun` | hw3/src/sfmm_block.c:437-539 | On a new heap of zeros a request for 4016 bytes, which leaves 16 bytes over, does no damage |
| `HeapExample.HitRun` | hw3/src/sfmm_block.c:437-539 | A run from a new heap, malloc(48), 32 stored twice in its last 16 bytes, malloc(3968), 1 stored there, free and malloc(32), after which the heap is intact and the payload of the 3968 bytes has changed |
| `HeapExample.WildRun` | hw3/src/sfmm_block.c:614-648 | A run in which the address behind 32 bytes of a payload, which hold 8 and 12 in their last 16, is no live pointer and passes all checks of free |
| `HeapInvariants.PayloadsSafe` | hw3/include/sfmm.h:94-99 | Live payloads lie inside the heap, are as large as requested, and do not overlap |
| `HeapInvariants.LivePassesChecks` | hw3/src/sfmm_block.c:614-648 | Freeing a live block passes every check of free_allocated_block |
| `HeapInvariants.FreeFailsChecks` | hw3/src/sfmm_block.c:614-648 | A free block or the prologue fails them: a second free aborts |
| `HeapInvariants.SearchComplete` | hw3/src/sfmm_block.c:437-507 | Every free block that is large enough is in a list from the class of the request on |
| `HeapInvariants.WalkMeetsBlocks` | hw3/src/sfmm_block.c:416-435 | A walk over the header sizes meets exactly the blocks and the epilogue: they tile the heap |
| `HeapGrowth.GrownTail` | hw3/src/sfmm_block.c:508-538 | After a page has been added and merged, the last block is free and has the old free rows at the end and the new ones |
| `HeapGrowth.GrownOnlyTail` | hw3/src/sfmm_block.c:508-538 | A new page changes only the free block at the end; every other free block is as before |
| `HeapServing.NoFit` | hw3/src/sfmm_block.c:447-507 | When the search ends without a block, no free block anywhere in the heap is large enough |
| `HeapServing.GrowthChain` | hw3/src/sfmm_block.c:508-538 | Growing page by page adds up: the heap ends as large as the request needs, and no larger |
| `HeapGaps.VacantIsFree` | hw3/src/sfmm_block.c:381-414 | Rows behind the prologue and before the epilogue that no live block takes up lie in one free block |
| `HeapGaps.FitsExactly` | hw3/src/sfmm_block.c:447-538 | A request fits exactly if there is a gap of its size between live blocks, so that growing and failing depend only on where these lie |
| `HeapGaps.ObtainedCuts` | hw3/src/sfmm_block.c:458-499 | The block that malloc returns, found free with n rows, has just the rows that the request needs if two or more are left over, and these lie in one free block; otherwise it has all n |
| `HeapResizing.RepayStep` | hw3/src/sfmm_block.c:712-731 | Changing the payload size in header and footer keeps the state and every payload |
| `HeapResizing.ShrinkStarts` | hw3/src/sfmm_block.c:733-757 | Cutting a live block leaves a state in which the rows behind it can be listed, and keeps what stays of the payload |
| `HeapResizing.MoveKeeps` | hw3/src/sfmm.c:61-70 | Allocating, copying and freeing moves the common prefix of the payload and leaves every other payload alone |
| `Allocator.Heap.constructor` | hw3/include/sfmm.h:180-181 | Before the first call the heap has no page, memory holds any words, and the invariant of the empty heap holds |
| `Allocator.Heap.TouchForHeapUpdate` | hw3/src/sfmm_block.c:100-149 | Does the loads and stores of Touch, byte address by byte address, also where the words lead off the rows; nothing if an address is outside the heap |
| `Allocator.Heap.InsertBlock` | hw3/src/sfmm_block.c:239-267 | Pushes the block to the front of its list and touches it |
| `Allocator.Heap.IsolateBlock` | hw3/src/sfmm_block.c:151-179 | Takes the block out of its list, clears its links and touches its list successor; a block in no list is left alone and reported |
| `Allocator.Heap.CanCoalesce` | hw3/src/sfmm_block.c:302-326 | Says yes exactly of a free block with a free neighbor in the heap, before or behind it |
| `Allocator.Heap.Coalesce` | hw3/src/sfmm_block.c:328-379 | Merges exactly when both blocks are free: one block of both sizes in the list for its size, the joined one in none, all invariants and live payloads kept |
| `Allocator.Heap.DoCoalesce` | hw3/src/sfmm_block.c:381-414 | Terminates with no two neighbors free, every block starting where one did, allocated blocks and live payloads untouched and every list right |
| `Allocator.Heap.FindLastInHeap` | hw3/src/sfmm_block.c:416-435 | The walk finds the block before the epilogue |
| `Allocator.Heap.PlaceInWilderness` | hw3/src/sfmm_block.c:541-547 | A free last block moves to the front of list 9; an allocated one changes nothing |
| `Allocator.Heap.FindFit` | hw3/src/sfmm_block.c:437-507 | Finds the first fit in list order, or nothing exactly when no list from the class on has one |
| `Allocator.Heap.MarkSplit` | hw3/src/sfmm_block.c:458-472 | The taken block gets its size, the rest becomes a free block in front of the list for its size |
| `Allocator.Heap.TakeBlock` | hw3/src/sfmm_block.c:458-499 | Takes the block whole or split; the damage is the one that the heap before the call determines: without any, all invariants and payloads are kept; with a hit, all invariants and every payload but exactly one; a broken heap is left as the touch leaves it |
| `Allocator.Heap.TouchPadding` | hw3/src/sfmm_block.c:479-489 | The touch of stale words: the damage it reports is exact, and unless the heap is broken the epilogue is mended and all invariants hold |
| `Allocator.Heap.InitFreeLists` | hw3/src/sfmm_block.c:22-34 | Afterwards every list head is linked, and a heap that was set up is unchanged |
| `Allocator.Heap.GetMoreMemory` | hw3/src/sfmm_block.c:269-300 | Prologue, new epilogue and the header of the new block |
| `Allocator.Heap.AddPage` | hw3/src/sfmm_block.c:508-536 | Fails exactly when no page is left; otherwise live blocks, payloads, the rows of the new page behind its link row and all invariants are kept, and only the free rows at the end grow, by a page less its overhead |
| `Allocator.Heap.GetFreeBlock` | hw3/src/sfmm_block.c:437-539 | Serves the request from the first fit in the state where the search ends, which is the state before the call or, after growing, keeps its payloads and the rows of the last page; grows exactly when no free block fits; NULL only when growth is refused; the damage is the one that state determines; terminates because the remaining pages decrease |
| `Allocator.Heap.FindNextFreeBlock` | hw3/src/sfmm_block.c:590-612 | The same between calls, with a free last block in list 9 at the end |
| `Allocator.Heap.Malloc` | hw3/src/sfmm.c:17-31 | A new live block of at least the requested size, cut as the state in which the search ends says; that state is the one before the call, or grown from it; NULL exactly for a size of 0, or with ENOMEM when nothing fits and growth is refused; the other payloads are all kept exactly when there is no damage, all but exactly one after a hit, and the invariants hold unless the heap is broken |
| `Allocator.Heap.MayFree` | hw3/src/sfmm_block.c:614-648 | Says yes exactly when all checks of free_allocated_block pass |
| `Allocator.Heap.ReleaseBlock` | hw3/src/sfmm_block.c:649-653 | The block is listed in its class and marked free, the rest kept |
| `Allocator.Heap.Free` | hw3/src/sfmm.c:33-48 | Aborts exactly for a null or misaligned pointer or one that fails the checks, changing nothing; never for a live one, and then exactly that block stops being live, every other payload and the leftovers behind its links are untouched and all invariants hold, and its rows lie in one free block; what else passes the checks is listed by its size and marked free |
| `HeapResizing.CanReallocRows` | hw3/src/sfmm_block.c:688-710 | A payload that grows moves, even if its block has room, unless the block has just the size for the new payload; staying leaves a block that is large enough, and a block is cut only when what is cut off is one |
| `Allocator.Heap.UpdatePayloadSize` | hw3/src/sfmm_block.c:712-731 | Only the payload size of the block changes |
| `Allocator.Heap.ReallocBlock` | hw3/src/sfmm_block.c:733-778 | The block shrinks to the least size, the rest is freed and merged, every other payload and what stays of this one is kept |
| `HeapBytes.PutByteReads` | hw3/src/sfmm.c:67 | A store of one byte changes this byte of memory and no other |
| `Allocator.Heap.CopyBytes` | hw3/src/sfmm.c:67 | The bytes copied are those of the old payload, as many as asked for and as far as it reaches; no other payload changes |
| `Allocator.Heap.StoreByte` | hw3/include/sfmm.h:88-91 | A store of one byte inside a live payload changes this byte alone and keeps all invariants |
| `Allocator.Heap.Realloc` | hw3/src/sfmm.c:50-85 | EINVAL for NULL, free for size 0, NULL with ENOMEM and nothing changed when a move finds no room; otherwise the pointer is live with the new size and, without damage, the first bytes, as many as both sizes have, are kept and every other payload is untouched; a move does the damage of its malloc, and then all payloads but one are kept and the bytes are moved unless it is the one that moves; a payload that grows moves unless its block has just the rows for it, its old rows then lie in one free block and the new block is cut to size; with 32 bytes or more less the block keeps just the rows that it needs and the others lie in one free block; otherwise its rows are as before |
| `HeapClients.Perform` | hw3/src/sfmm.c:17-85 | One call by a client that holds pointers: it did what the request asks in the state it was made in, with the damage that follows from the words there, the rows that it needs, and what it gives back in one free block; the cells held change as the call says, and by nothing else; a hit makes one cell forget its bytes |
| `HeapClients.Run` | hw3/src/sfmm.c:17-85 | Any run of calls: one event for each, chained from the first state to the last, up to a call that breaks the heap, if any; unless there is one, the pointers held at the end hold exactly the cells, byte for byte, that the calls and their outcomes describe, one cell being forgotten for each hit, and no other block is live; with the successor that is meant, no call does damage |
| `HeapClients.HeldApart` | hw3/src/sfmm.c:17-85 | Any two pointers held are 16-aligned and their payloads, of the sizes asked for, lie in the heap and apart |
| `TreeMetrics.TreeIsAdditive` | hw1/src/philo.c:483-527 | What build_taxonomy is given when the input comes from a tree: the path lengths of every binary tree with positive edges satisfy the strict four-point condition |
| `QCriterion.QSumOfOneNode` | hw1/src/philo.c:693-709 | One active node's Q values against all others add up to minus the sum of all distances |
| `QCriterion.NegativeQExists` | hw1/src/philo.c:693-709 | With a positive sum of distances every active node has a partner with a negative Q value |
| `QCriterion.NonCherryIsBeaten` | hw1/src/philo.c:693-719 | In a tree metric a pair that is no cherry is beaten by some pair |
| `QCriterion.LeastQIsCherry` | hw1/src/philo.c:693-719 | In a tree metric a pair of least Q is a cherry of the tree |
| `CherryReduction.CherryEdges` | hw1/src/philo.c:765-842 | The formulas give the two edge lengths of a cherry exactly, both positive, and the exact distances of the new node |
| `CherryReduction.ReductionIsAdditive` | hw1/src/philo.c:765-842 | Joining a cherry of a tree metric leaves a tree metric |
| `JoiningModel.EveryPairVisited` | hw1/src/philo.c:673-719 | Starting the columns of later rows at row + 1 misses no pair, because entry k of the active map is at least k |
| `JoiningModel.ScanIsLeast` | hw1/src/philo.c:659-719 | The scan ends with its seed or with a visited pair of less Q, and no visited pair has less |
| `JoiningModel.ScanIsFirst` | hw1/src/philo.c:659-719 | Among visited pairs of the same Q the scan keeps the one that it visits first |
| `JoiningModel.ChoosesLeastExactly` | hw1/src/philo.c:659-719 | The joined pair is a distinct active pair of least Q exactly when some Q value is below the seed, or the pair 0, 1 is active at entries 0, 1 and itself of least Q |
| `JoiningModel.PositiveTotalBeatsSeed` | hw1/src/philo.c:613-719 | With a positive sum of active distances and D[0][1] not negative, it is |
| `JoiningModel.HarmlessChoosesActive` | hw1/src/philo.c:659-719 | The joined pair is a distinct active pair, at its own map entries, exactly under the weaker condition |
| `JoiningModel.StepKeepsMap` | hw1/src/philo.c:853-857 | The active map stays injective with entry k at least k, and nodes created plus nodes active stay 2N; at most 2N - 2 nodes are ever created |
| `JoiningRuns.JoinLinks` | hw1/src/philo.c:723-744 | A join keeps the links: active nodes without a parent, others one of the two children of theirs, children pointing back |
| `JoiningRuns.StepKeepsAdditive` | hw1/src/philo.c:600-860 | One iteration on a tree metric joins a cherry and leaves a tree metric |
| `JoiningRuns.AdditiveBeatsSeed` | hw1/src/philo.c:600-860 | On a tree metric the seed is beaten in every iteration |
| `LinkTree.UpwardIsTree` | hw1/src/philo.c:579-597 | Links in which every node but the last has a higher parent are an unrooted binary tree: degrees, symmetry, and exactly one simple path between any two nodes |
| `JoiningRuns.RunIsTreeExactly` | hw1/src/philo.c:550-860 | For symmetric input the final links are an unrooted binary tree exactly when the seed is harmless in every iteration |
| `JoiningRuns.ZeroDistancesFail` | hw1/src/philo.c:659 | On four or more taxa at distance 0 they are not: the seed loses a node |
| `JoiningRuns.RunEmitsTree` | hw1/src/philo.c:845-851 | The printed edges are those of the final tree, 2N - 3 of them, each once and with its length |
| `JoiningLengths.FormulasFit` | hw1/src/philo.c:765-842 | For any symmetric distances the two edges of a join sum to the distance of the joined nodes, their difference is the average of what the other active nodes are farther from one than from the other, and twice the distance of the new node from another one plus that distance is the sum of both distances |
| `JoiningLengths.ActiveSeenLater` | hw1/src/philo.c:853-857 | The nodes active when a node is created are those before it whose parent, in the final links, is that node or a later one |
| `JoiningLengths.RunJoins` | hw1/src/philo.c:600-860 | In a run with a harmless seed every inner node of the final links is joined so, from a pair of least criterion over the nodes active then, or the pair 0, 1 if no criterion is below the seed |
| `JoiningLengths.RunPrints` | hw1/src/philo.c:845-851 | Each join prints the edges of its two children next, the first child first, with the matrix entries as lengths, which sum to the distance of the children |
| `JoiningRuns.RunRealizes` | hw1/src/philo.c:550-860 | On a tree metric every two active nodes are joined by a path of their distance through later nodes only |
| `JoiningRuns.RunRebuildsTree` | hw1/src/philo.c:550-860 | For the path metric of a binary tree the final links are an unrooted binary tree in which the one path between any two taxa has the length of the input |
| `Taxonomy.Philo.constructor` | hw1/include/global.h:60-134 | The state after the input has been read: all taxa active, nothing linked |
| `Taxonomy.Philo.RowSums` | hw1/src/philo.c:600-650 | Leaves S(i) for every active node and 0 for the others |
| `Taxonomy.Philo.FindPair` | hw1/src/philo.c:655-719 | Finds what Choose specifies |
| `Taxonomy.Philo.LinkNodes` | hw1/src/philo.c:723-744 | Links the new node and the joined ones, and no other |
| `Taxonomy.Philo.ExtendDistances` | hw1/src/philo.c:758-842 | Fills in row and column of the new node at the active nodes, and no other entry |
| `Taxonomy.Philo.Activate` | hw1/src/philo.c:844-857 | Prints the two edges if there is a stream, and replaces the joined entries of the map |
| `Taxonomy.Philo.JoinLastTwo` | hw1/src/philo.c:558-597 | Links the last two active nodes and prints their edge |
| `Taxonomy.Philo.TaxaHelper` | hw1/src/philo.c:550-861 | The run of iterations, ending when two nodes are left; edges are printed exactly if there is a stream |
| `Taxonomy.Philo.BuildTaxonomy` | hw1/src/philo.c:527-548 | -1 without taxa, nothing to do for one, otherwise the run |
| `Taxonomy.RebuildTree` | hw1/src/philo.c:527-861 | From the input matrix of any binary tree to its links and printed edges, through the program |
| `Taxonomy.BuildFrom` | hw1/src/philo.c:527-861 | The same for any symmetric matrix: if the links end as a tree, the printed edges are its edges, every inner node is joined as said, and its printed edges sum up |
| `Quicksort.Partition` | hw2/src/sort.c:87-111 | Divides the range around its middle entry and keeps its entries; returns less than high, and low exactly when that entry is the strict minimum, having then rotated the range left by one |
| `Ordering.RotatedMinMoves` | hw2/src/sort.c:87-111 | When the strict minimum is in the middle, after that rotation it no longer is |
| `Quicksort.SortTable` | hw2/src/sort.c:77-85 | Terminates and sorts the range for every total preorder, permuting it and touching nothing outside |
| `RosterSort.NameOrders` | hw2/src/sort.c:113-119 | comparename orders students totally and takes two for equal exactly when both names agree |
| `RosterSort.IdOrders` | hw2/src/sort.c:121-125 | compareid orders students totally |
| `RosterSort.ScoreOrders` | hw2/src/sort.c:127-132 | comparescore orders students totally |
| `SortedRosters.StrCmpPrecedes` | hw2/src/sort.c:113-125 | strcmp is negative exactly if the strings differ first where the one ends or has the lower character |
| `SortedRosters.SortedByName` | hw2/src/sort.c:113-119 | A roster is sorted by name exactly if surnames never fall, and names never among equal surnames |
| `SortedRosters.SortedById` | hw2/src/sort.c:121-125 | By id exactly if ids never fall |
| `SortedRosters.SortedByScore` | hw2/src/sort.c:127-132 | By score exactly if composites never rise |
| `RosterSort.FillTable` | hw2/src/sort.c:55-60 | The table is the roster, last student first |
| `RosterSort.SortRoster` | hw2/src/sort.c:41-71 | The same students, sorted, in a chain that ends; the other link field is untouched |
| `RosterSort.CheckForDups` | hw2/src/sort.c:134-144 | Warns of exactly the students that compare equal with the next one |
| `RosterSort.WarnsOfRepeats` | hw2/src/sort.c:134-144 | In a roster sorted by name, every name is warned of once less often than it occurs |
| `RosterSort.WarningCount` | hw2/src/sort.c:134-144 | So there are as many warnings as students beyond the number of distinct names |
| `FrequencyTables.CountScore` | hw2/src/stats.c:163-203 | A strictly increasing table with positive counts that stands for a list of scores comes to stand for that list and the new score |
| `FrequencyLists.CountScore` | hw2/src/stats.c:163-203 | The linked list in place: it stays a chain that ends, with the same nodes and at most one new one, and comes to stand for the scores and the new one; a score that was tallied changes no link |
| `FrequencyLists.FillQuantiles` | hw2/src/stats.c:217-231 | The list in place: only the quantile fields change, and are exact |
| `FrequencyTables.BucketIffTallied` | hw2/src/stats.c:163-203 | A table has a bucket for a score exactly if the score was tallied |
| `FrequencyTables.FillQuantiles` | hw2/src/stats.c:217-231 | Fills numless and numlesseq with the numbers of scores below and not above each bucket, changing nothing else |
| `FrequencyTables.NumlessGrows` | hw2/src/stats.c:217-231 | numless grows strictly from 0 and stays below the number of scores |
| `CourseLinks.ThreadStudent` | hw2/src/stats.c:110-118 | Threads one student in any pass: in a later pass the roster is a cycle cut behind the last visited student, and stays one |
| `CourseLinks.LinkScores` | hw2/src/stats.c:119-124 | The scores on the assignment point at its statistics, other scores are untouched |
| `CourseLinks.LinkPass` | hw2/src/stats.c:106-127 | One pass threads the whole roster again and links exactly the scores of its assignment |
| `CourseLinks.DoLinks` | hw2/src/stats.c:94-128 | With one assignment or more the course roster ends as the section rosters in order, ended by NULL, and every score points at the statistics of its assignment and section; without any it is NULL |
| `CourseLinks.LinkOfScore` | hw2/src/stats.c:119-124 | What that comes to for one score of one student of one section |
| `CourseStatistics.DoFreqs` | hw2/src/stats.c:140-155 | Every table comes to stand for exactly the counting scores that point at it, and tallied is their number |
| `CourseStatistics.DoQuantiles` | hw2/src/stats.c:210-233 | Every table gets exact quantile fields and still stands for the same scores |
| `CourseStatistics.LinksDecide` | hw2/src/stats.c:94-155 | The scores that point at a table are those of its assignment and section |
| `CourseStatistics.Tables` | hw2/src/stats.c:94-233 | Links, frequencies and quantiles together: every table stands for exactly the grades of the counting scores that belong to it |
| `TalliedScores.TableCounts` | hw2/src/stats.c:130-233 | A finished table has one bucket for each grade, in order, with the numbers of scores of this, a lower, and this or a lower grade among those marked valid or substituted by their raw grade, and of no others |
| `Normalizing.NormalQuantile` | hw2/src/normal.c:110-143 | The lookup gives the bucket of the score if there is one, else the first or last bucket, and fails on an empty table |
| `Normalizing.TalliedIsFound` | hw2/src/normal.c:131-142 | A tallied score is found and gets 100 times the share of the tallied scores below it, which is less than 100 |
| `Normalizing.QuantilesInOrder` | hw2/src/normal.c:131-142 | Quantile scores have the order of the raw scores |
| `Normalizing.FallbackAsPromised` | hw2/src/normal.c:131-143 | The fallback is the promised one, the greatest below, exactly when the table has a single bucket |
| `Normalizing.UnweightedAverage` | hw2/src/normal.c:181-219 | Without weights the average is 0 whatever the scores, so not the promised mean unless they sum to 0 |
| `Normalizing.MixedAverage` | hw2/src/normal.c:187-219 | When some like scores have weights, the average is that of the weighted ones plus the sum of the others over their weight; it is the weighted average exactly when the others sum to 0 |
| `Normalizing.WeightedAverage` | hw2/src/normal.c:187-219 | With positive weights the average lies between the least and greatest score |
| `RosterNormalizing.Normal` | hw2/src/normal.c:82-154 | The normalized score under each policy, with divisors below EPSILON replaced in place; the replacement changes no later result |
| `RosterNormalizing.StudentAvg` | hw2/src/normal.c:187-219 | The weighted average of the like scores that count, 0 with a warning exactly when their weight is 0 |
| `RosterNormalizing.NormalizeScore` | hw2/src/normal.c:47-73 | The grade for each flag and substitution |
| `RosterNormalizing.Normalize` | hw2/src/normal.c:25-76 | Every student of the roster gets one normalized score for each raw score, in order |
| `NormalizedGrades.GradedFrom` | hw2/src/normal.c:25-220 | What normalize leaves for one score: under LINEAR (grade - mean) * deviation of the group is deviation * (raw - mean of the group), under SCALE grade * maximum is raw * scale, under RAW the raw grade; for an invalid score the substituted grade, the average of the normalized like scores by weight, or 50 or the mean |
| `NormalizedGrades.LinearMoves` | hw2/src/normal.c:156-168 | The mean of the group goes to the mean of the assignment, one deviation above it to one deviation above, and the order is kept |
| `NormalizedGrades.NormalizeCourse` | hw2/src/normal.c:25-220 | From linked rosters to normalized scores: every table counts the scores that belong to it, each counting score on a QUANTILE assignment gets 100 times the share of its peers, by class or section, below it, without a fallback, and every other score is graded as said with mean and raised deviation of its class or section |
| `Interpolation.InterpolateQuantile` | hw2/src/report.c:69-97 | Between the quantiles of two neighboring buckets, up to the last but one, the result lies between their scores in the same proportion; below 0 and from there on it is the highest score, and 0 for an empty table |
| `Interpolation.ReadOffHalfWay` | hw2/src/report.c:84-96 | Half way between two quantiles the result is half way between their scores |
| `Interpolation.ReadOffRises` | hw2/src/report.c:84-96 | Inside a segment a higher quantile gives a higher score |
| `Interpolation.Monotone` | hw2/src/report.c:69-97 | Higher quantiles from 0 on give no lower score |
| `Interpolation.Bounded` | hw2/src/report.c:69-97 | The result lies between the lowest and highest score, for every q |
| `Interpolation.MonotoneExactly` | hw2/src/report.c:69-97 | Over all q the order is kept exactly unless the lower one is negative and the higher one lies from 0 to below the quantile of the last bucket but one |
| `Interpolation.InvertsQuantile` | hw2/src/report.c:69-97 | At the quantile of a bucket the result is its score, so that interpolation inverts the normalization, exactly for every bucket but the last but one |
| `Decimals.FixedRoundTrip` | hw2/src/write.c:28 | A number printed with six decimals is scanned as the same number |
| `Decimals.ScansAs` | hw2/src/read.c:195-299 | Digits behind a sign or none are scanned as that number, up to what follows them |
| `Decimals.DecimalScansAs` | hw2/src/read.c:195-299 | And with a point and up to six decimals, which may be missing, or the digits in front of it |
| `Decimals.FirstDigit` | hw2/src/read.c:195-299 | A digit counts by its place |
| `RoundTrip.ScoreRead` | hw2/src/write.c:24-59 | A written score line is read as one score of the same assignment, with the grade its text stands for, and exactly up to the end of the line |
| `GradeText.Writer.WriteStudent` | hw2/src/write.c:61-67 | Appends the student line, without names on request, and the score lines |
| `GradeText.Writer.WriteSection` | hw2/src/write.c:69-76 | Appends the section line, the assistant and the students |
| `GradeText.Writer.WriteCourse` | hw2/src/write.c:104-114 | Appends the text of the course; fails exactly when there is no professor |
| `GradeReader.Reader.GobbleBlankLines` | hw2/src/read.c:453-480 | Skips blank and comment lines, fatal at an unended comment |
| `GradeReader.Reader.AdvanceToken` | hw2/src/read.c:505-522 | Reads ahead one token, dropping an unread one with a complaint |
| `GradeReader.Reader.AdvanceEol` | hw2/src/read.c:529-551 | Reads ahead the rest of the line, fatal at the end of the file |
| `GradeReader.Reader.ReadNorm` | hw2/src/read.c:301-355 | The loop over the normalization words does what ReaderSpec says, for which ReadingDetails.LastDecides holds |
| `GradeReader.Reader.ReadDetails` | hw2/src/read.c:104-115 | The same for the lines of an assignment |
| `GradeReader.ReadFile` | hw2/src/read.c:32-56 | The imperative reader does what ReaderSpec.ReadFile says, for every text |
| `ReadingWords.KeyAhead` | hw2/src/read.c:576-585 | A keyword behind blanks is recognized as itself and as no other, whether or not it has been read ahead |
| `ReadingScores.GradeLine` | hw2/src/read.c:195-273 | Whatever a score line says, the reader takes exactly this line, with the grade it stands for and the complaints it deserves |
| `RoundTripExact.NumberlessMark` | hw2/src/read.c:195-273 | Where a score line lacks its number, or has another word there, the grade is 0, with one complaint or two |
| `ReadingDetails.LastDecides` | hw2/src/read.c:91-118 | Weight, normalization and maximum settings in any order and number: the policy is that of the last policy word, RAW, STDLINEAR and GENLINEAR for LINEAR, QUANTILE or SCALE, each number the one last given, 0 and 1 for STDLINEAR, the group that of the last group word |
| `ReadingLines.FillerSkipped` | hw2/src/read.c:453-480 | Comment lines and blank lines are skipped, whatever is in them |
| `ReadingLines.SettingsRead` | hw2/src/read.c:301-355 | A line of normalization words with their numbers, with any blanks, commas and colons, and numbers missing at its end, is read as these settings, with a complaint for each number that is missing |
| `ReadingFiles.LinesDone` | hw2/src/read.c:104-115 | So are all lines of an assignment, with comments and blank lines between them |
| `ReadingFiles.FileRead` | hw2/src/read.c:58-118 | A file with assignments declared by any such lines is read to its end, every assignment is what the last word about each field makes it, and there is no other complaint about them |
| `ReadingFiles.ExcessIsDropped` | hw2/src/read.c:604-614 | What follows the assignments and is no section is dropped with one complaint |
| `ReadingFiles.UndeclaredIsFatal` | hw2/src/read.c:157-193 | A score for an assignment that is not declared is fatal |
| `RoundTrip.ScoresRead` | hw2/src/read.c:157-193 | Reading back score lines gives the scores and stops at the next line |
| `RoundTrip.DetailsRead` | hw2/src/read.c:91-118 | Reading back the weight, normalization and maximum lines of an assignment gives the assignment as it comes back, with two complaints for a LINEAR policy |
| `RoundTrip.SectionsRead` | hw2/src/read.c:120-155 | Reading back sections gives the sections, with a complaint for every missing word and every impossible score |
| `RoundTrip.CourseRead` | hw2/src/read.c:32-193 | For every course that the reader can produce and that has a professor, reading its text ends without a fatal error with the course as it comes back and a known number of complaints |
| `RoundTripExact.MarkBack` | hw2/src/write.c:24-59 | A written grade comes back exactly when it is not a substituted normalized one on a RAW assignment |
| `RoundTripExact.RoundTripExactly` | hw2/src/write.c:24-114 | A course comes back unchanged exactly when it has no LINEAR policy, only BYCLASS groups on RAW assignments, no mean, deviation, scale or weight that is set but not used, and no substituted normalized score on RAW assignments |
| `RoundTripExact.SilentExactly` | hw2/src/read.c:233-264 | It then comes back without a complaint exactly when no word is missing in it and every substituted normalized score is possible under its policy |
| `ReaderProducts.FileProduced` | hw2/src/read.c:32-193 | Every file that is read to its end, with complaints or without, gives a course whose text can be taken apart |
| `ReaderProducts.ReadWriteRead` | hw2/src/read.c:32-193 | Reading, writing and reading again: for every file whose course has a professor, the course comes back unchanged exactly when it is faithful, and then without a complaint exactly when no word is missing and every substituted score is possible |
| `GradeFiles.WriteThenRead` | hw2/src/write.c:104-114 | Through the writer and the reader: the writer fails exactly without a professor; otherwise the course read is the one written exactly when it is faithful, and then silently exactly when it is complete and in range |
| `GradeFiles.ReadThenWrite` | hw2/src/read.c:32-56 | Through the reader, the writer and the reader again, the same for every file, however many complaints there are about it |
| `GradeFiles.ReadDeclared` | hw2/src/read.c:32-118 | The imperative reader on such a file: every assignment is what the last words about its fields make it |
| `GradeSample.SampleFile` | hw2/src/write.c:24-114 | A file word for word: its lines are written for the course with every kind of score, and are read as that course without a complaint |
| `GradeFiles.LeftoverIsLost` | hw2/src/read.c:301-349 | For all numbers, a file with NORMALIZE GENLINEAR and two of them and then SCALE and the third is read without a complaint, keeps the mean, and its course does not come back |
| `GradeFiles.StandardIsLost` | hw2/src/write.c:82-96 | A file with NORMALIZE STDLINEAR is read without a complaint, and its course does not come back |

## Left out

- Allocator.Heap.Malloc: when the touch of stale words breaks the heap, the model's call ends there with the memory as it is; the source goes on to walk headers that are none.
- Allocator.Heap.Free: for a pointer that is not live and passes the checks, the model ends once what is there has been listed and marked free, before the walk that merges.
- Allocator.Heap.Realloc: the source reads the header without checking the pointer; for a pointer that is not live the model ends and promises nothing.  The move copies the new size from the old block, and what lies behind the old payload is not described.
- CourseStatistics.DoFreqs: the tables hold their lists as the sequences of buckets that FrequencyLists proves the linked lists to stand for.
- CourseLinks.DoLinks: the laid-out statistics lists are parameters; how buildstats allocates them is not modelled.
- Interpolation.InterpolateQuantile: floating point is modelled by reals.
- Allocator: requests of 2^31 - 32 bytes and more, heaps of 2^28 bytes and more, and the overflow they cause; the heap and the list heads do not overlap.
- Allocator: the page source (sf_mem_grow) is a number of pages that are left; its implementation is not part of this model.
- Allocator: utilization and fragmentation figures, easy sums that are not updated on every path.
- Neighbor joining: reading the distance file, matrix output and the Newick tree; input is a square matrix, and lemmas ask for a symmetric one with zero diagonal where they need it.
- Neighbor joining: node names, stream errors, and the printing of lengths to two decimals.
- Floating point rounding in hw1 and hw2: reals stand for float and double.
- Sorting: sortrosters, which calls sortroster on every roster; the table's memory.
- Statistics: sums, moments, composites, histograms and report layout; mean and standard deviation are whatever they are when scores are normalized.
- Statistics: scores and students are read-only records but for links, normalized scores and statistics; freeing is left out.
- Reader: inclusion of other files, so a FILE line is fatal as for a file that cannot be opened; line numbers, warnings and the texts of complaints; the 512-byte token buffer; NUL characters.
- Reader and writer: numbers are six-decimal fixed-point values, so further decimals are cut, and exponents, hexadecimal and infinite numerals are not read; the three substituted scores of a record, which the reader sets to one number, are one field; the pointers and the composite of a record are no part of the file.
- hw4 and hw5, command line options, error formatting.

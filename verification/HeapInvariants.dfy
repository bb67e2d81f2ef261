/** What holds of the blocks and the free lists between calls of the allocator. */
module HeapInvariants {
  import opened HeapWords
  import opened HeapMemory
  import opened HeapTiling
  import opened HeapLists
  import opened HeapSteps

  /** The lists hold exactly the free blocks; with Disjoint, each of them once. */
  ghost predicate FreeListed(blk: Blocks, lists: Lists) {
    && (forall r {:trigger Listed(lists, r)} {:trigger r in blk} | r in blk :: !blk[r].alloc <==> Listed(lists, r))
    && ListedIn(blk, lists)
  }

  lemma FreeListedIn(blk: Blocks, lists: Lists)
    requires FreeListed(blk, lists)
    ensures ListedIn(blk, lists)
  {
  }

  /** List i below 9 holds blocks of class i; list 9 those above the largest class and the last block
      of the heap.  Block w is excepted. */
  ghost predicate ClassedBut(blk: Blocks, end: int, lists: Lists, w: int) {
    forall i, a {:trigger a in lists[i]} | 0 <= i < |lists| && a in lists[i] && a != w :: RightList(blk, end, i, a)
  }

  ghost predicate RightList(blk: Blocks, end: int, i: int, a: int) {
    a in blk && (ClassOf(blk[a].rows) == i || (i == NUM_FREE_LISTS - 1 && After(blk, a) == end - 1))
  }

  ghost predicate Classed(blk: Blocks, end: int, lists: Lists) {
    ClassedBut(blk, end, lists, NONE)
  }

  /** A free last block is in list 9. */
  ghost predicate WildernessLast(blk: Blocks, end: int, lists: Lists) {
    |lists| == NUM_FREE_LISTS &&
    forall r {:trigger r in blk} | r in blk && !blk[r].alloc && After(blk, r) == end - 1 ::
      r in lists[NUM_FREE_LISTS - 1]
  }

  /** No two neighbors are both free. */
  ghost predicate Coalesced(blk: Blocks) {
    forall r {:trigger Separated(blk, r)} | r in blk :: Separated(blk, r)
  }

  ghost predicate Separated(blk: Blocks, r: int)
    requires r in blk
  {
    After(blk, r) in blk ==> blk[r].alloc || blk[After(blk, r)].alloc
  }

  /** b1 comes from b0 by merging neighboring free blocks: every block of b1 starts where one of b0 did,
      allocated blocks are the same, and a free block covers only blocks that were free. */
  ghost predicate Coarser(b0: Blocks, b1: Blocks) {
    && (forall r {:trigger r in b1} | r in b1 ::
         r in b0 && b1[r].alloc == b0[r].alloc && (b1[r].alloc ==> b1[r] == b0[r]))
    && (forall q {:trigger q in b0} | q in b0 && b0[q].alloc :: q in b1)
    && (forall r, q {:trigger r in b1, q in b0} | r in b1 && q in b0 && !b1[r].alloc && r <= q < After(b1, r) ::
         !b0[q].alloc)
  }

  /** Every live block is large enough for its payload. */
  ghost predicate Sized(blk: Blocks) {
    forall r {:trigger r in blk} | r in blk && blk[r].alloc && r != 0 ::
      0 < blk[r].payload && RowsFor(blk[r].payload) <= blk[r].rows
  }

  /** The state between calls once the heap has a page. */
  ghost predicate HeapOk(m: Mem, blk: Blocks, lists: Lists) {
    && m.end > 0 && Consistent(m, blk, NONE, lists)
    && FreeListed(blk, lists) && Classed(blk, m.end, lists) && WildernessLast(blk, m.end, lists)
    && Coalesced(blk) && Sized(blk)
  }

  /** The state before the first page. */
  ghost predicate HeapEmpty(m: Mem, blk: Blocks, lists: Lists) {
    && Shape(m) && m.end == 0 && blk == map[] && lists == seq(NUM_FREE_LISTS, _ => [])
    && (forall i {:trigger m.hn[i]} | 0 <= i < NUM_FREE_LISTS :: m.hn[i] == NULL || m.hn[i] == Head(i))
    && (forall i {:trigger m.hp[i]} | 0 <= i < NUM_FREE_LISTS :: m.hp[i] == NULL || m.hp[i] == Head(i))
  }

  /** The live blocks: what malloc has returned and free has not taken back. */
  ghost function Live(blk: Blocks): (live: Blocks)
    ensures Within(live, blk)
    ensures forall r :: r in live <==> r in blk && blk[r].alloc && r != 0
  {
    map r | r in blk && blk[r].alloc && r != 0 :: blk[r]
  }

  // ----- consequences

  /** Payloads lie in the heap, hold what was asked for and do not overlap. */
  lemma PayloadsSafe(m: Mem, blk: Blocks, lists: Lists, p: int, q: int)
    requires HeapOk(m, blk, lists) && p in Live(blk) && q in Live(blk) && p != q
    ensures 0 <= 16 * (p + 1) && 16 * (p + 1) + blk[p].payload <= 16 * (m.end - 1)
    ensures 16 * (p + 1) + blk[p].payload <= 16 * (q + 1) || 16 * (q + 1) + blk[q].payload <= 16 * (p + 1)
    ensures blk[p].payload <= 16 * (blk[p].rows - 1)
  {
    assert BlockFits(blk, m.end, p) && BlockFits(blk, m.end, q);
    RowsForIsLeast(blk[p].payload);
    RowsForIsLeast(blk[q].payload);
  }

  /** What free_allocated_block checks before it frees a block. */
  ghost predicate PassesChecks(m: Mem, b: int)
    requires Shape(m)
  {
    && 0 <= b < |m.lo| && View(m.hi[b], m.base).alloc
    && MIN_ROWS <= b <= m.end - 1
    && (View(m.hi[b], m.base).prevAlloc <==> View(m.lo[b], m.base).alloc)
  }

  /** Freeing a live block never takes the abort path. */
  lemma LivePassesChecks(m: Mem, blk: Blocks, lists: Lists, b: int)
    requires HeapOk(m, blk, lists) && b in Live(blk)
    ensures PassesChecks(m, b)
  {
    assert BlockFits(blk, m.end, b) && BlockFits(blk, m.end, 0) && Tagged(m, blk, b);
    var p := Predecessor(blk, m.end, b);
    assert Footed(m, blk, p);
  }

  /** A free block passes none: freeing twice aborts. */
  lemma FreeFailsChecks(m: Mem, blk: Blocks, lists: Lists, b: int)
    requires HeapOk(m, blk, lists) && b in blk && (b == 0 || !blk[b].alloc)
    ensures !PassesChecks(m, b)
  {
    assert Tagged(m, blk, b);
  }

  /** Searching the lists from the class of the request on is a search of all free blocks. */
  lemma SearchComplete(m: Mem, blk: Blocks, lists: Lists, rows: int, r: int)
    requires HeapOk(m, blk, lists) && r in blk && !blk[r].alloc && blk[r].rows >= rows
    ensures exists i :: ClassOf(rows) <= i < |lists| && r in lists[i]
  {
    assert Listed(lists, r);
    var i :| 0 <= i < |lists| && r in lists[i];
    assert RightList(blk, m.end, i, r);
    ClassMonotone(rows, blk[r].rows);
  }

  /** A walk over the headers from the prologue meets every block: the blocks tile the heap. */
  ghost predicate WalkMeets(m: Mem, from: int, r: int)
    requires Shape(m)
    decreases m.end - from
  {
    from == r ||
    (0 <= from < m.end && from < |m.hi| && View(m.hi[from], m.base).rows >= MIN_ROWS
     && WalkMeets(m, from + View(m.hi[from], m.base).rows, r))
  }

  lemma {:induction false} WalkMeetsBlocks(m: Mem, blk: Blocks, lists: Lists, from: int, r: int)
    requires HeapOk(m, blk, lists) && Boundary(blk, m.end, from)
    ensures WalkMeets(m, from, r) <==> Boundary(blk, m.end, r) && from <= r
    decreases m.end - from
  {
    if r in blk { assert BlockFits(blk, m.end, r); }
    if from in blk {
      assert BlockFits(blk, m.end, from) && Tagged(m, blk, from);
      WalkMeetsBlocks(m, blk, lists, After(blk, from), r);
    }
  }
}

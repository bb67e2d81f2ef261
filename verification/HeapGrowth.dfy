/** What adding a page does to the free rows at the end of the heap. */
module HeapGrowth {
  import opened HeapWords
  import opened HeapMemory
  import opened HeapTiling
  import opened HeapLists
  import opened HeapSteps
  import opened HeapHeaders
  import opened HeapInvariants

  /** q is the last allocated block; the prologue is one, so there always is a last. */
  ghost predicate LastAllocated(blk: Blocks, q: int) {
    q in blk && blk[q].alloc && forall r {:trigger r in blk} | r in blk && blk[r].alloc :: r <= q
  }

  /** The free rows behind the last allocated block. */
  ghost function Tail(blk: Blocks, end: int): int {
    if exists q :: LastAllocated(blk, q) then
      var q :| LastAllocated(blk, q);
      end - 1 - After(blk, q)
    else 0
  }

  lemma TailIs(blk: Blocks, end: int, q: int)
    requires LastAllocated(blk, q)
    ensures Tail(blk, end) == end - 1 - After(blk, q)
  {
  }

  lemma SomeLastAllocated(blk: Blocks, end: int, from: int) returns (q: int)
    requires Layout(blk, end) && from in blk && blk[from].alloc
    ensures LastAllocated(blk, q)
    decreases end - from
  {
    assert BlockFits(blk, end, from);
    if r :| r in blk && blk[r].alloc && r > from {
      q := SomeLastAllocated(blk, end, r);
    } else {
      q := from;
    }
  }

  /** When free neighbors are merged, the free rows at the end are one block. */
  lemma TailIsBlock(blk: Blocks, end: int, q: int)
    requires Layout(blk, end) && Coalesced(blk) && LastAllocated(blk, q)
    ensures After(blk, q) == end - 1 ||
      (After(blk, q) in blk && !blk[After(blk, q)].alloc && After(blk, After(blk, q)) == end - 1)
  {
    assert BlockFits(blk, end, q);
    var r := After(blk, q);
    if r in blk {
      assert BlockFits(blk, end, r) && Separated(blk, r);
    }
  }

  /** The rows that a new page adds to the free rows at the end. */
  function PageGain(end: int): int {
    if end == 0 then PAGE_ROWS - MIN_ROWS - 1 else PAGE_ROWS
  }

  /** After a page has been added and merged, the free block at the end has grown by the page. */
  lemma GrownTail(blk0: Blocks, end0: int, blk1: Blocks) returns (r: int)
    requires end0 >= 0 && if end0 == 0 then blk0 == map[] else Layout(blk0, end0)
    requires Layout(blk1, end0 + PAGE_ROWS) && Coarser(GrownBlocks(blk0, end0), blk1) && Coalesced(blk1)
    ensures r in blk1 && !blk1[r].alloc && After(blk1, r) == end0 + PAGE_ROWS - 1
    ensures blk1[r].rows == Tail(blk0, end0) + PageGain(end0) == Tail(blk1, end0 + PAGE_ROWS)
    ensures Tail(blk0, end0) >= 0
  {
    var end1 := end0 + PAGE_ROWS;
    var q := SomeLastAllocated(blk1, end1, 0);
    r := After(blk1, q);
    TailIs(blk1, end1, q);
    TailIsBlock(blk1, end1, q);
    if end0 == 0 {
      assert !exists p :: LastAllocated(blk0, p);
      assert q == 0;
    } else {
      GrowLayout(blk0, end0);
      SameLastAllocated(blk0, end0, blk1, q);
      TailIs(blk0, end0, q);
    }
  }

  lemma SameLastAllocated(blk0: Blocks, end0: int, blk1: Blocks, q: int)
    requires Layout(blk0, end0) && end0 - 1 !in blk0
    requires Coarser(GrownBlocks(blk0, end0), blk1) && LastAllocated(blk1, q) && end0 > 0
    ensures LastAllocated(blk0, q) && blk0[q] == blk1[q] && After(blk0, q) <= end0 - 1
  {
    assert q in GrownBlocks(blk0, end0);
    assert BlockFits(blk0, end0, q);
    forall r | r in blk0 && blk0[r].alloc
      ensures r <= q
    {
      assert r in GrownBlocks(blk0, end0);
    }
  }

  /** A new page changes only the free block at the end. */
  ghost predicate OnlyTailGrows(blk0: Blocks, blk1: Blocks, end1: int) {
    forall r {:trigger r in blk1} | r in blk1 && !blk1[r].alloc && After(blk1, r) != end1 - 1 ::
      r in blk0 && blk0[r] == blk1[r]
  }

  lemma GrownOnlyTail(blk0: Blocks, end0: int, blk1: Blocks)
    requires end0 >= 0 && if end0 == 0 then blk0 == map[] else Layout(blk0, end0) && Coalesced(blk0)
    requires Layout(blk1, end0 + PAGE_ROWS) && Coarser(GrownBlocks(blk0, end0), blk1) && Coalesced(blk1)
    ensures OnlyTailGrows(blk0, blk1, end0 + PAGE_ROWS)
  {
    var end1 := end0 + PAGE_ROWS;
    if end0 > 0 {
      GrowLayout(blk0, end0);
      forall r | r in blk1 && !blk1[r].alloc && After(blk1, r) != end1 - 1
        ensures r in blk0 && blk0[r] == blk1[r]
      {
        BeforeTail(blk0, end0, blk1, r);
      }
    } else {
      forall r | r in blk1 && !blk1[r].alloc
        ensures After(blk1, r) == end1 - 1
      {
        assert BlockFits(blk1, end1, r) && r in GrownBlocks(blk0, end0);
      }
    }
  }

  lemma BeforeTail(blk0: Blocks, end0: int, blk1: Blocks, r: int)
    requires end0 > 0 && Layout(blk0, end0) && Coalesced(blk0) && Layout(GrownBlocks(blk0, end0), end0 + PAGE_ROWS)
    requires end0 - 1 !in blk0
    requires Layout(blk1, end0 + PAGE_ROWS) && Coarser(GrownBlocks(blk0, end0), blk1) && Coalesced(blk1)
    requires r in blk1 && !blk1[r].alloc && After(blk1, r) != end0 + PAGE_ROWS - 1
    ensures r in blk0 && blk0[r] == blk1[r]
  {
    var grown, end1, n := GrownBlocks(blk0, end0), end0 + PAGE_ROWS, After(blk1, r);
    assert BlockFits(blk1, end1, r) && n in grown && r in grown;
    assert BlockFits(grown, end1, n);
    assert r in blk0;
    assert BlockFits(blk0, end0, r) && Separated(blk0, r);
    var p := After(blk0, r);
    assert p <= n;
    assert p in grown;
  }

  /** The free block at the end has all the free rows there. */
  lemma TailRows(blk: Blocks, end: int, r: int)
    requires Layout(blk, end) && Coalesced(blk) && r in blk && !blk[r].alloc && After(blk, r) == end - 1
    ensures Tail(blk, end) == blk[r].rows
  {
    var q := SomeLastAllocated(blk, end, 0);
    TailIs(blk, end, q);
    TailIsBlock(blk, end, q);
    if After(blk, q) != end - 1 {
      PredecessorUnique(blk, end, r, After(blk, q), end - 1);
    } else {
      PredecessorUnique(blk, end, r, q, end - 1);
    }
  }

  /** Merging changes no live block. */
  lemma CoarserLive(b0: Blocks, b1: Blocks)
    requires Coarser(b0, b1)
    ensures Live(b1) == Live(b0)
  {
    assert forall r :: r in Live(b1) <==> r in Live(b0);
    assert forall r | r in Live(b1) :: Live(b1)[r] == Live(b0)[r];
  }

  lemma CoarserSized(b0: Blocks, b1: Blocks)
    requires Coarser(b0, b1) && Sized(b0)
    ensures Sized(b1)
  {
  }
}

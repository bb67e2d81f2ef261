/** What taking a block, growing the heap and settling the last block do to the invariants. */
module HeapTaking {
  import opened HeapWords
  import opened HeapMemory
  import opened HeapTiling
  import opened HeapLists
  import opened HeapSteps
  import opened HeapHeaders
  import opened HeapInvariants
  import opened HeapMoves
  import opened HeapGrowth

  /** t is in no list; what was split off is in front of the list for its size. */
  ghost predicate TakenLists(before: Lists, after: Lists, t: int, total: int, rows: int) {
    && |after| == |before|
    && forall i, a {:trigger a in after[i]} | 0 <= i < |after| ::
      a in after[i] <==>
        a != t && (a in before[i] || (rows - total >= MIN_ROWS && a == t + total && i == ClassOf(rows - total)))
  }

  lemma TakenMembers(blk: Blocks, end: int, before: Lists, after: Lists, t: int, total: int, payload: Payload,
      live: Blocks)
    requires Layout(blk, end) && FreeListed(blk, before) && t in blk && t != 0 && !blk[t].alloc
    requires MIN_ROWS <= total <= blk[t].rows
    requires Within(live, blk) && |before| == NUM_FREE_LISTS && Disjoint(before)
    requires after == if blk[t].rows - total >= MIN_ROWS
      then Pushed(before, ClassOf(blk[t].rows - total), t + total) else before
    ensures Listed(after, t) && TakenWith(before, after, t, total, blk[t].rows)
    ensures forall a {:trigger Listed(after, a)} | Listed(after, a) ::
      a in Taken(blk, t, total, payload) && a !in live && a != 0
    ensures TakenFree(Taken(blk, t, total, payload), after, t)
  {
    assert Listed(before, t);
    if blk[t].rows - total >= MIN_ROWS {
      SplitLayout(blk, end, t, total, payload);
      PushedDisjoint(before, ClassOf(blk[t].rows - total), t + total);
      PushedMembers(before, ClassOf(blk[t].rows - total), t + total);
    }
  }

  /** The lists hold the free blocks, and t as well. */
  ghost predicate TakenFree(blk: Blocks, lists: Lists, t: int) {
    forall a {:trigger Listed(lists, a)} {:trigger a in blk} ::
      Listed(lists, a) <==> a in blk && (a == t || !blk[a].alloc)
  }

  /** What was split off is in front of the list for its size. */
  ghost predicate TakenWith(before: Lists, after: Lists, t: int, total: int, rows: int) {
    && |after| == |before|
    && forall i, a {:trigger a in after[i]} | 0 <= i < |after| ::
      a in after[i] <==> a in before[i] || (rows - total >= MIN_ROWS && a == t + total && i == ClassOf(rows - total))
  }

  lemma TakenOut(blk: Blocks, before: Lists, mid: Lists, t: int, total: int, payload: Payload, i: int, k: int)
    requires t in blk && Disjoint(mid) && At(mid, i, k, t) && total > 0
    requires TakenWith(before, mid, t, total, blk[t].rows) && TakenFree(Taken(blk, t, total, payload), mid, t)
    ensures FreeListed(Taken(blk, t, total, payload), Removed(mid, i, k))
    ensures TakenLists(before, Removed(mid, i, k), t, total, blk[t].rows)
  {
    RemovedDisjoint(mid, i, k);
    RemovedMembers(mid, i, k);
    var after := Removed(mid, i, k);
    forall j, a | 0 <= j < |after|
      ensures a in after[j] <==> a != t && a in mid[j]
    {
    }
  }

  /** The blocks after t has been taken for a payload: split if enough is left over. */
  ghost function Taken(blk: Blocks, t: int, total: int, payload: Payload): Blocks
    requires t in blk
  {
    if blk[t].rows - total >= MIN_ROWS then SplitBlocks(blk, t, total, true, payload)
    else blk[t := Block(blk[t].rows, true, payload)]
  }

  lemma TakenRows(blk: Blocks, t: int, total: int, payload: Payload)
    requires t in blk && 0 < total <= blk[t].rows
    ensures
      var after := Taken(blk, t, total, payload);
      && t in after && after[t].alloc && after[t].payload == payload
      && (after[t].rows == total || (after[t].rows == total + 1 == blk[t].rows))
      && (blk[t].rows == total + 1 ==> after[t].rows == total + 1)
  {
  }

  lemma WithinTaken(live: Blocks, blk: Blocks, t: int, total: int, payload: Payload, end: int)
    requires Layout(blk, end) && Within(live, blk) && t in blk && t !in live && t + total !in blk
    ensures Within(live, SplitBlocks(blk, t, total, true, payload))
  {
  }

  // ----- the invariants after a block has been taken

  lemma TakenKeepsClasses(blk: Blocks, end: int, before: Lists, after: Lists, t: int, total: int, payload: Payload)
    requires Layout(blk, end) && Classed(blk, end, before) && t in blk && t != 0 && MIN_ROWS <= total <= blk[t].rows
    requires TakenLists(before, after, t, total, blk[t].rows)
    ensures Classed(Taken(blk, t, total, payload), end, after)
  {
    if blk[t].rows - total >= MIN_ROWS {
      SplitLayout(blk, end, t, total, payload);
    }
    var b1 := Taken(blk, t, total, payload);
    forall i, a | 0 <= i < |after| && a in after[i] && a != NONE
      ensures RightList(b1, end, i, a)
    {
      assert a in before[i] ==> RightList(blk, end, i, a);
    }
  }

  lemma TakenKeepsCoalesced(blk: Blocks, end: int, t: int, total: int, payload: Payload)
    requires Layout(blk, end) && Coalesced(blk) && t in blk && t != 0 && !blk[t].alloc
    requires MIN_ROWS <= total <= blk[t].rows
    ensures Coalesced(Taken(blk, t, total, payload))
  {
    if blk[t].rows - total >= MIN_ROWS {
      SplitLayout(blk, end, t, total, payload);
    }
    var b1 := Taken(blk, t, total, payload);
    forall r | r in b1
      ensures Separated(b1, r)
    {
      assert Separated(blk, t);
      if r in blk { assert Separated(blk, r) && BlockFits(blk, end, r); }
    }
  }

  lemma TakenKeepsSized(blk: Blocks, end: int, t: int, total: int, payload: Payload)
    requires Sized(blk) && t in blk && t != 0 && total <= blk[t].rows && 0 < payload && RowsFor(payload) <= total
    ensures Sized(Taken(blk, t, total, payload))
  {
  }

  /** Taking t makes it live and leaves every live block as it was. */
  lemma TakenLive(blk: Blocks, end: int, t: int, total: int, payload: Payload)
    requires Layout(blk, end) && t in blk && t != 0 && !blk[t].alloc && MIN_ROWS <= total <= blk[t].rows
    ensures
      var b1 := Taken(blk, t, total, payload);
      t in b1 && Live(b1) == Live(blk)[t := b1[t]]
  {
    if blk[t].rows - total >= MIN_ROWS {
      SplitLayout(blk, end, t, total, payload);
    }
    var b1 := Taken(blk, t, total, payload);
    var l1 := Live(blk)[t := b1[t]];
    assert forall r :: r in Live(b1) <==> r in l1;
    assert forall r | r in l1 :: Live(b1)[r] == l1[r];
  }

  // ----- the last block

  /** Once the last block, if free, has been moved to list 9, every list holds what it should. */
  lemma WildernessSettled(blk: Blocks, end: int, before: Lists, after: Lists, last: int)
    requires Layout(blk, end) && Classed(blk, end, before) && |before| == NUM_FREE_LISTS
    requires last in blk && After(blk, last) == end - 1
    requires if blk[last].alloc then after == before else MainMoved(before, after, last, NUM_FREE_LISTS - 1)
    ensures Classed(blk, end, after) && WildernessLast(blk, end, after)
  {
    forall i, a | 0 <= i < |after| && a in after[i] && a != NONE
      ensures RightList(blk, end, i, a)
    {
      if blk[last].alloc || a != last {
        assert a in before[i];
      }
    }
    forall r | r in blk && !blk[r].alloc && After(blk, r) == end - 1
      ensures r in after[NUM_FREE_LISTS - 1]
    {
      PredecessorUnique(blk, end, r, last, end - 1);
    }
  }

  /** After a page has been added and merged, the last block is in list 9 for its size. */
  lemma GrownSettled(blk0: Blocks, end0: int, blk1: Blocks, lists: Lists)
    requires end0 >= 0 && if end0 == 0 then blk0 == map[] else Layout(blk0, end0)
    requires Layout(blk1, end0 + PAGE_ROWS) && Coarser(GrownBlocks(blk0, end0), blk1) && Coalesced(blk1)
    requires FreeListed(blk1, lists) && Classed(blk1, end0 + PAGE_ROWS, lists) && |lists| == NUM_FREE_LISTS
    ensures WildernessLast(blk1, end0 + PAGE_ROWS, lists)
    ensures Tail(blk1, end0 + PAGE_ROWS) == Tail(blk0, end0) + PageGain(end0)
  {
    hide Coarser, Coalesced, Tail, GrownBlocks;
    var end1 := end0 + PAGE_ROWS;
    var r := GrownTail(blk0, end0, blk1);
    assert BlockFits(blk1, end1, r);
    assert Listed(lists, r);
    var i :| 0 <= i < |lists| && r in lists[i];
    assert RightList(blk1, end1, i, r);
    forall q | q in blk1 && !blk1[q].alloc && After(blk1, q) == end1 - 1
      ensures q in lists[NUM_FREE_LISTS - 1]
    {
      PredecessorUnique(blk1, end1, q, r, end1 - 1);
    }
  }

  /** A new page changes no live block. */
  lemma GrownLive(blk0: Blocks, end0: int, blk1: Blocks)
    requires end0 >= 0 && if end0 == 0 then blk0 == map[] else Layout(blk0, end0)
    requires Coarser(GrownBlocks(blk0, end0), blk1) && Sized(blk0)
    ensures Sized(blk1) && Live(blk1) == Live(blk0)
  {
    var grown := GrownBlocks(blk0, end0);
    CoarserLive(grown, blk1);
    if end0 > 0 { GrowLayout(blk0, end0); }
    assert Sized(grown);
    CoarserSized(grown, blk1);
    assert forall q :: q in Live(grown) <==> q in Live(blk0);
    assert forall q | q in Live(blk0) :: Live(grown)[q] == Live(blk0)[q];
  }

  /** The old last block, if free, is the only one that may be in list 9 for no reason of its size. */
  lemma GrownClassed(blk: Blocks, end: int, before: Lists, after: Lists) returns (w: int)
    requires end > 0 && Layout(blk, end) && Classed(blk, end, before) && |before| == NUM_FREE_LISTS
    requires FreeListed(blk, before) && after == Pushed(before, NUM_FREE_LISTS - 1, end - 1)
    requires Layout(GrownBlocks(blk, end), end + PAGE_ROWS)
    ensures ClassedBut(GrownBlocks(blk, end), end + PAGE_ROWS, after, w) && Dangling(GrownBlocks(blk, end), w)
  {
    GrowLayout(blk, end);
    var grown := GrownBlocks(blk, end);
    var q := Predecessor(blk, end, end - 1);
    w := if blk[q].alloc then NONE else q;
    assert grown[end - 1].rows == PAGE_ROWS;
    forall i, a | 0 <= i < |after| && a in after[i] && a != w
      ensures RightList(grown, end + PAGE_ROWS, i, a)
    {
      if a != end - 1 {
        assert a in before[i];
        assert Listed(before, a);
        assert BlockFits(blk, end, a);
        assert RightList(blk, end, i, a);
        if After(blk, a) == end - 1 { PredecessorUnique(blk, end, a, q, end - 1); }
      }
    }
  }
}

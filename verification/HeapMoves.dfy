/** Sequences of steps that the allocator takes between consistent states. */
module HeapMoves {
  import opened HeapWords
  import opened HeapMemory
  import opened HeapTiling
  import opened HeapLists
  import opened HeapSteps
  import opened HeapHeaders
  import opened HeapInvariants

  // ----- positions in the lists

  ghost predicate At(lists: Lists, i: int, k: int, a: int) {
    0 <= i < |lists| && 0 <= k < |lists[i]| && lists[i][k] == a
  }

  lemma Position(lists: Lists, a: int) returns (i: int, k: int)
    requires Listed(lists, a)
    ensures At(lists, i, k, a)
  {
    i :| 0 <= i < |lists| && a in lists[i];
    k :| 0 <= k < |lists[i]| && lists[i][k] == a;
  }

  /** The lists after a has been taken out of list i. */
  lemma RemovedMembers(lists: Lists, i: int, k: int)
    requires Disjoint(lists) && 0 <= i < |lists| && 0 <= k < |lists[i]|
    ensures forall j, a | 0 <= j < |lists| :: a in Removed(lists, i, k)[j] <==> a != lists[i][k] && a in lists[j]
  {
    assert NoDuplicates(lists[i]);
    WithoutMembers(lists[i], k);
    forall j, a | 0 <= j < |lists|
      ensures a in Removed(lists, i, k)[j] <==> a != lists[i][k] && a in lists[j]
    {
      assert lists[i][k] in lists[i];
    }
  }

  lemma PushedMembers(lists: Lists, i: int, b: int)
    requires 0 <= i < |lists|
    ensures forall j, a | 0 <= j < |lists| :: a in Pushed(lists, i, b)[j] <==> (j == i && a == b) || a in lists[j]
  {
  }

  // ----- coalesce relinks the merged block

  /** The four writes that coalesce makes to put main in front of list i. */
  function Relink(m: Mem, i: int, b: int): Mem
    requires Shape(m) && 0 <= i < NUM_FREE_LISTS && 0 <= b < |m.lo| - 1 && Linkable(m, NextOf(m, Head(i)))
  {
    var next := NextOf(m, Head(i));
    SetPrev(SetNext(SetPrev(SetNext(m, Head(i), b), b, Head(i)), b, next), next, b)
  }

  /** They have the effect of insert_block's. */
  lemma RelinkIsPush(m: Mem, i: int, b: int)
    requires Shape(m) && 0 <= i < NUM_FREE_LISTS && 0 <= b < |m.lo| - 1 && Linkable(m, NextOf(m, Head(i)))
    requires NextOf(m, Head(i)) != b
    ensures Relink(m, i, b) == PushFront(m, i, b)
  {
    var s, t := Relink(m, i, b), PushFront(m, i, b);
    assert s.lo == t.lo && s.hi == t.hi && s.hn == t.hn && s.hp == t.hp;
  }

  /** Taking a block's entry out of its list and putting it in front of another. */
  lemma RelistStep(m: Mem, blk: Blocks, x: int, lists: Lists, i: int, k: int, idx: int, live: Blocks)
    requires Consistent(m, blk, x, lists) && 0 <= i < |lists| && 0 <= k < |lists[i]| && 0 <= idx < NUM_FREE_LISTS
    requires AllClear(live, lists)
    ensures
      var b := lists[i][k];
      && 0 <= b < |m.lo| - 1 && Linkable(m, NextOf(m, b)) && Linkable(m, PrevOf(m, b)) && Shape(Bypass(m, b))
      && var m2 := Bypass(m, b);
      && |m2.lo| == |m.lo| && Linkable(m2, NextOf(m2, Head(idx))) && NextOf(m2, Head(idx)) != b
      && var t := PushFront(m2, idx, b);
      && Consistent(t, blk, x, Pushed(Removed(lists, i, k), idx, b)) && KeepsPayloads(m, t, live)
      && t.end == m.end && t.base == m.base
      && (forall r {:trigger SameRow(m, t, r)} | r - 1 != b && !Listed(lists, r - 1) :: SameRow(m, t, r))
  {
    hide Bypass, PushFront, NextOf, PrevOf;
    var b := lists[i][k];
    assert b in lists[i];
    assert Listed(lists, b);
    assert LinkRowInside(blk, m.end, b) && Clear(live, b);
    BypassLinks(m, lists, i, k);
    UnlinkFrame(m, lists, i, k);
    var m2 := Bypass(m, b);
    var mid := Removed(lists, i, k);
    RemovedDisjoint(lists, i, k);
    LinkFrameKeepsTiling(m, m2, blk, x, lists, b);
    PushLinks(m2, mid, idx, b);
    PushFrame(m2, mid, idx, b);
    FirstIsListed(m2, mid, idx);
    var t := PushFront(m2, idx, b);
    LinkFrameKeepsTiling(m2, t, blk, x, mid, b);
    PushedApart(blk, m.end, mid, idx, b);
    assert forall r {:trigger SameRow(m, t, r)} | r - 1 != b && !Listed(lists, r - 1) :: SameRow(m, t, r) by {
      forall r | r - 1 != b && !Listed(lists, r - 1)
        ensures SameRow(m, t, r)
      {
        assert SameRow(m, m2, r) && SameRow(m2, t, r);
      }
    }
    LinkFrameKeepsPayloads(m, t, lists, b, live);
  }

  lemma FirstIsListed(m: Mem, lists: Lists, i: int)
    requires Linked(m, lists) && 0 <= i < |lists|
    ensures NextOf(m, Head(i)) == Head(i) || Listed(lists, NextOf(m, Head(i)))
  {
    assert NodeLinked(m, lists, i, -1);
    if lists[i] != [] { assert lists[i][0] in lists[i]; }
  }

  /** Writing a block's header over its footer changes nothing that matters. */
  lemma RefreshFooter(m: Mem, blk: Blocks, lists: Lists, b: int, live: Blocks)
    requires Consistent(m, blk, NONE, lists) && b in blk && Covered(live, blk, m.end)
    ensures 0 <= b < After(blk, b) < |m.lo| == |m.hi|
    ensures
      var t := m.(lo := m.lo[After(blk, b) := m.hi[b]]);
      Consistent(t, blk, NONE, lists) && KeepsPayloads(m, t, live)
  {
    assert BlockFits(blk, m.end, b) && Tagged(m, blk, b) && Footed(m, blk, b);
    var n := After(blk, b);
    var t := m.(lo := m.lo[n := m.hi[b]]);
    forall r | r in blk
      ensures Tagged(t, blk, r) && Footed(t, blk, r)
    {
      assert BlockFits(blk, m.end, r) && Tagged(m, blk, r) && Footed(m, blk, r);
      if After(blk, r) == n {
        PredecessorUnique(blk, m.end, r, b, n);
      }
    }
    BoundaryFrameKeepsLinks(m, t, blk, lists);
    BoundaryFrameKeepsPayloads(m, t, blk, live);
  }

  lemma AllClearOf(blk: Blocks, end: int, lists: Lists, live: Blocks)
    requires Layout(blk, end) && Covered(live, blk, end) && FreeListed(blk, lists)
    ensures AllClear(live, lists)
  {
    AllClearFree(blk, end, lists, live);
  }

  lemma AllClearFree(blk: Blocks, end: int, lists: Lists, live: Blocks)
    requires Layout(blk, end) && Covered(live, blk, end)
    requires forall a {:trigger Listed(lists, a)} | Listed(lists, a) :: a in blk && !blk[a].alloc
    ensures AllClear(live, lists)
  {
    hide Sheltered, Layout;
    forall a, q | Listed(lists, a) && q in live
      ensures !(q < a + 1 < After(live, q))
    {
      if q < a + 1 < After(live, q) { ShelteredRow(blk, end, q, After(live, q), a + 1); }
    }
  }

  // ----- list membership while two blocks are merged

  /** a is where it was, except that main is in list index. */
  ghost predicate MainMoved(before: Lists, after: Lists, main: int, index: int) {
    && |after| == |before| && 0 <= index < |after|
    && forall i, a {:trigger a in after[i]} {:trigger a in before[i]} | 0 <= i < |after| ::
      a in after[i] <==> if a == main then i == index else a in before[i]
  }

  /** a is where it was, except that join is nowhere. */
  ghost predicate JoinDropped(before: Lists, after: Lists, join: int) {
    && |after| == |before|
    && forall i, a {:trigger a in after[i]} {:trigger a in before[i]} | 0 <= i < |after| ::
      a in after[i] <==> a != join && a in before[i]
  }

  lemma MainMovedListed(before: Lists, after: Lists, main: int, index: int)
    requires MainMoved(before, after, main, index) && Listed(before, main)
    ensures forall a {:trigger Listed(after, a)} :: Listed(after, a) <==> Listed(before, a)
  {
    forall a
      ensures Listed(after, a) <==> Listed(before, a)
    {
      if a == main {
        assert a in after[index];
      } else if Listed(before, a) {
        var i :| 0 <= i < |before| && a in before[i];
        assert a in after[i];
      }
    }
  }

  lemma JoinDroppedListed(before: Lists, after: Lists, join: int)
    requires JoinDropped(before, after, join)
    ensures forall a {:trigger Listed(after, a)} :: Listed(after, a) <==> a != join && Listed(before, a)
  {
    forall a
      ensures Listed(after, a) <==> a != join && Listed(before, a)
    {
      if a != join && Listed(before, a) {
        var i :| 0 <= i < |before| && a in before[i];
        assert a in after[i];
      }
    }
  }

  lemma StaleFooterKept(m: Mem, t: Mem, blk: Blocks, before: Lists, after: Lists, main: int, join: int)
    requires StaleFooter(m, blk, before, main, join) && Apart(blk, m.end, before) && Layout(blk, m.end)
    requires |t.lo| == |m.lo| && |t.hi| == |m.hi| && main < join - 1
    requires forall r {:trigger SameRow(m, t, r)} | r - 1 != main && !Listed(before, r - 1) :: SameRow(m, t, r)
    requires forall a {:trigger Listed(after, a)} :: Listed(after, a) <==> Listed(before, a)
    ensures StaleFooter(t, blk, after, main, join)
  {
    var n := After(blk, main);
    assert BlockFits(blk, m.end, main);
    assert Listed(before, n - 1) ==> LinkRowInside(blk, m.end, n - 1);
    assert SameRow(m, t, n) && SameRow(m, t, join);
  }

  /** Both parts of a merge are in their lists. */
  lemma MergeableListed(blk: Blocks, lists: Lists, main: int, join: int)
    requires FreeListed(blk, lists) && Mergeable(blk, main, join)
    ensures Listed(lists, main) && Listed(lists, join)
  {
  }

  /** Moving main and dropping join is what relisting means. */
  lemma RelistedBy(before: Lists, mid: Lists, after: Lists, blk: Blocks, main: int, join: int)
    requires main in blk && main != join && MainMoved(before, mid, main, ClassOf(blk[main].rows))
    requires JoinDropped(mid, after, join)
    ensures Relisted(before, after, blk, main, join)
  {
    forall i, a | 0 <= i < |after|
      ensures a in after[i] <==> if a == main then i == ClassOf(blk[main].rows) else a != join && a in before[i]
    {
      assert a in mid[i] <==> if a == main then i == ClassOf(blk[main].rows) else a in before[i];
    }
  }

  lemma OthersFreeAfter(blk: Blocks, before: Lists, mid: Lists, main: int, join: int)
    requires FreeListed(blk, before) && Mergeable(blk, main, join) && main != join
    requires forall a {:trigger Listed(mid, a)} :: Listed(mid, a) <==> Listed(before, a)
    ensures OthersFree(Merged(blk, main, join), mid, join)
  {
    MergedBlocks(blk, main, join);
  }

  /** Every listed block but join is a free block. */
  ghost predicate OthersFree(blk: Blocks, lists: Lists, join: int) {
    forall a {:trigger Listed(lists, a)} | Listed(lists, a) && a != join :: a in blk && !blk[a].alloc
  }

  lemma MergedFreeListed(blk: Blocks, end: int, before: Lists, after: Lists, main: int, join: int)
    requires FreeListed(blk, before) && Mergeable(blk, main, join) && main != join
    requires forall a {:trigger Listed(after, a)} :: Listed(after, a) <==> a != join && Listed(before, a)
    ensures FreeListed(Merged(blk, main, join), after)
  {
    MergedBlocks(blk, main, join);
  }

  // ----- one step of do_coalesce

  lemma CoarserReflexive(blk: Blocks, end: int)
    requires Layout(blk, end)
    ensures Coarser(blk, blk) && CoalescedTo(blk, 0)
  {
    forall r | r in blk
      ensures r >= 0
    {
      assert BlockFits(blk, end, r);
    }
  }

  lemma MergeCoarser(b0: Blocks, b1: Blocks, end: int, main: int, join: int)
    requires Coarser(b0, b1) && Layout(b1, end) && Mergeable(b1, main, join)
    ensures Coarser(b0, Merged(b1, main, join))
  {
    assert BlockFits(b1, end, main) && BlockFits(b1, end, join);
    MergedBlocks(b1, main, join);
    hide Merged;
    var b2 := Merged(b1, main, join);
    forall r, q | r in b2 && q in b0 && !b2[r].alloc && r <= q < After(b2, r)
      ensures !b0[q].alloc
    {
      if r == main {
        if q < join {
          assert main <= q < After(b1, main);
        } else {
          assert join <= q < After(b1, join);
        }
      } else {
        assert r <= q < After(b1, r);
      }
    }
  }

  /** A free block in list 9 whose free successor it is about to be merged with. */
  ghost predicate Dangling(blk: Blocks, w: int) {
    w == NONE || (w in blk && !blk[w].alloc && After(blk, w) in blk && !blk[After(blk, w)].alloc)
  }

  lemma MergeKeepsClasses(blk: Blocks, end: int, before: Lists, after: Lists, main: int, join: int, w: int)
    requires Layout(blk, end) && Mergeable(blk, main, join) && ClassedBut(blk, end, before, w)
    requires Relisted(before, after, Merged(blk, main, join), main, join)
    requires Dangling(blk, w) && (w == NONE || main <= w)
    ensures
      var w1 := if w == main || w == join then NONE else w;
      && ClassedBut(Merged(blk, main, join), end, after, w1) && Dangling(Merged(blk, main, join), w1)
      && (w1 == NONE || main <= w1)
  {
    assert BlockFits(blk, end, main) && BlockFits(blk, end, join);
    MergedBlocks(blk, main, join);
    hide Merged;
    var b2 := Merged(blk, main, join);
    var w1 := if w == main || w == join then NONE else w;
    forall i, a | 0 <= i < |after| && a in after[i] && a != w1
      ensures RightList(b2, end, i, a)
    {
      if a != main {
        assert a in before[i];
        assert RightList(blk, end, i, a);
      }
    }
    if w1 != NONE {
      assert BlockFits(blk, end, w1);
    }
  }

  /** The merged block is in the list for its size and the joined one in none. */
  ghost predicate Relisted(before: Lists, after: Lists, blk: Blocks, main: int, join: int) {
    && |after| == |before| && main in blk
    && forall i, a {:trigger a in after[i]} | 0 <= i < |after| ::
      a in after[i] <==> if a == main then i == ClassOf(blk[main].rows) else a != join && a in before[i]
  }

  /** No two neighbors up to row tmp are both free. */
  ghost predicate CoalescedTo(blk: Blocks, tmp: int) {
    forall r {:trigger Separated(blk, r)} | r in blk && r < tmp :: Separated(blk, r)
  }

  lemma MergeKeepsPrefix(blk: Blocks, end: int, main: int, join: int)
    requires Layout(blk, end) && Mergeable(blk, main, join) && CoalescedTo(blk, main)
    ensures CoalescedTo(Merged(blk, main, join), main)
    ensures |Merged(blk, main, join)| == |blk| - 1
  {
    assert BlockFits(blk, end, main);
    MergedBlocks(blk, main, join);
    hide Merged;
    var b2 := Merged(blk, main, join);
    assert b2.Keys == blk.Keys - {join};
    forall r | r in b2 && r < main
      ensures Separated(b2, r)
    {
      assert BlockFits(blk, end, r) && Separated(blk, r);
    }
  }

  lemma AllClearIn(blk: Blocks, end: int, lists: Lists, live: Blocks)
    requires Layout(blk, end) && Covered(live, blk, end)
    requires forall a {:trigger Listed(lists, a)} | Listed(lists, a) :: a in blk && a !in live
    ensures AllClear(live, lists)
  {
    forall a | Listed(lists, a)
      ensures Clear(live, a)
    {
      BlockIsClear(blk, end, live, a);
    }
  }

  /** What a consistent state says at once. */
  lemma Parts(m: Mem, blk: Blocks, x: int, lists: Lists)
    requires Consistent(m, blk, x, lists)
    ensures Shape(m) && Layout(blk, m.end) && EpilogueTagged(m) && |lists| == NUM_FREE_LISTS && Disjoint(lists)
  {
  }

  lemma PartsOf(m: Mem, blk: Blocks, x: int, lists: Lists, b: int)
    requires Consistent(m, blk, x, lists) && b in blk
    ensures Tagged(m, blk, b) && BlockFits(blk, m.end, b) && 0 <= b < After(blk, b) < m.end <= |m.lo| == |m.hi|
  {
    assert BlockFits(blk, m.end, b) && Tagged(m, blk, b);
  }

  // ----- touching a block

  /** Touching the block being set up completes the state. */
  lemma CompletingTouch(m: Mem, blk: Blocks, lists: Lists, b: int, live: Blocks)
    requires Consistent(m, blk, b, lists) && b in blk && b != 0 && Covered(live, blk, m.end)
    ensures
      var t := Touch(m, b);
      && Consistent(t, blk, NONE, lists) && KeepsPayloads(m, t, live)
      && |t.lo| == |m.lo| && t.end == m.end && t.base == m.base
  {
    hide Touch, Linked, Apart;
    TouchCompletes(m, blk, b);
    assert BlockFits(blk, m.end, b);
    TouchFrameKeepsLinks(m, Touch(m, b), blk, b, After(blk, b), lists);
    TouchFrameKeepsPayloads(m, Touch(m, b), blk, b, After(blk, b), live);
  }

  /** Touching a block of a complete heap keeps the state. */
  lemma QuietTouch(m: Mem, blk: Blocks, lists: Lists, b: int, live: Blocks)
    requires Consistent(m, blk, NONE, lists) && b in blk && b != 0 && Covered(live, blk, m.end)
    ensures
      var t := Touch(m, b);
      && Consistent(t, blk, NONE, lists) && KeepsPayloads(m, t, live) && t.hi == m.hi
      && |t.lo| == |m.lo| && t.end == m.end && t.base == m.base
  {
    hide Touch, Linked, Apart;
    assert BlockFits(blk, m.end, b);
    TouchIsQuiet(m, blk, NONE, b);
    TouchFrameKeepsLinks(m, Touch(m, b), blk, b, After(blk, b), lists);
    TouchFrameKeepsPayloads(m, Touch(m, b), blk, b, After(blk, b), live);
  }

  lemma InteriorOfOne(blk: Blocks, end: int, t: int, q: int, g: int)
    requires Layout(blk, end) && t in blk && q in blk && q != t && t < g < After(blk, t)
    ensures !(q < g < After(blk, q))
  {
    assert BlockFits(blk, end, q) && BlockFits(blk, end, t);
    if q < t {
      assert After(blk, q) <= t;
    } else {
      assert After(blk, t) <= q;
    }
  }
}

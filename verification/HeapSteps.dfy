/** The allocator's building blocks keep memory consistent with the blocks and the free lists. */
module HeapSteps {
  import opened HeapWords
  import opened HeapMemory
  import opened HeapTiling
  import opened HeapLists

  /** The link row of a listed block lies strictly inside a block. */
  ghost predicate Apart(blk: Blocks, end: int, lists: Lists) {
    forall a {:trigger Listed(lists, a)} | Listed(lists, a) :: LinkRowInside(blk, end, a)
  }

  /** Every listed address is a block. */
  ghost predicate ListedIn(blk: Blocks, lists: Lists) {
    forall a {:trigger Listed(lists, a)} | Listed(lists, a) :: a in blk
  }

  ghost predicate LinkRowInside(blk: Blocks, end: int, a: int) {
    0 <= a && a + 1 < end && !Boundary(blk, end, a + 1)
  }

  /** Memory describes the blocks, with x being set up, and holds the lists. */
  ghost predicate Consistent(m: Mem, blk: Blocks, x: int, lists: Lists) {
    TiledBut(m, blk, x) && Linked(m, lists) && Apart(blk, m.end, lists)
  }

  // ----- payloads

  /** live is a set of live blocks of blk. */
  ghost predicate Within(live: Blocks, blk: Blocks) {
    forall q {:trigger q in live} | q in live :: q in blk && blk[q] == live[q] && live[q].alloc
  }

  /** The rows strictly between q and n are payload of a live block, lie in a free block behind its link
      row, or lie behind the epilogue. */
  ghost predicate Sheltered(blk: Blocks, end: int, q: int, n: int) {
    q >= end - 1 || exists b :: Shelters(blk, b, q, n)
  }

  ghost predicate Shelters(blk: Blocks, b: int, q: int, n: int) {
    b in blk && b <= q && n <= After(blk, b) && (b == q ==> blk[b].alloc)
  }

  /** Rows that the allocator leaves alone, given as blocks: payloads of live blocks, what lies behind the
      link row of a free block, and what lies behind the heap. */
  ghost predicate Covered(live: Blocks, blk: Blocks, end: int) {
    forall q {:trigger q in live} | q in live :: Sheltered(blk, end, q, After(live, q))
  }

  lemma WithinCovered(live: Blocks, blk: Blocks, end: int)
    requires Within(live, blk)
    ensures Covered(live, blk, end)
  {
    forall q | q in live
      ensures Sheltered(blk, end, q, After(live, q))
    {
      assert Shelters(blk, q, q, After(live, q));
    }
  }

  /** No block starts in sheltered rows, and they hold no link row but that of q itself. */
  lemma ShelteredRow(blk: Blocks, end: int, q: int, n: int, r: int)
    requires Layout(blk, end) && Sheltered(blk, end, q, n) && q < r < n
    ensures !Boundary(blk, end, r)
    ensures r - 1 in blk ==> r - 1 == q && blk[q].alloc
  {
    if q >= end - 1 {
      assert r in blk ==> BlockFits(blk, end, r);
      assert r - 1 in blk ==> BlockFits(blk, end, r - 1);
    } else {
      var b :| Shelters(blk, b, q, n);
      InteriorRow(blk, end, b, r);
      if r - 1 > b { InteriorRow(blk, end, b, r - 1); }
    }
  }

  ghost predicate SameRow(m: Mem, t: Mem, r: int) {
    0 <= r < |m.lo| == |m.hi| == |t.lo| == |t.hi| ==> t.lo[r] == m.lo[r] && t.hi[r] == m.hi[r]
  }

  /** Row r holds the same bits, whatever they are taken for. */
  ghost predicate SameBits(m: Mem, t: Mem, r: int) {
    0 <= r < |m.lo| == |m.hi| == |t.lo| == |t.hi| ==>
      BitsOf(t.lo[r], t.base) == BitsOf(m.lo[r], m.base) && BitsOf(t.hi[r], t.base) == BitsOf(m.hi[r], m.base)
  }

  /** The payload rows of the live blocks hold the same bits. */
  ghost predicate KeepsPayloads(m: Mem, t: Mem, live: Blocks) {
    && |t.lo| == |m.lo| && |t.hi| == |m.hi| && t.base == m.base
    && forall q, r {:trigger q in live, SameBits(m, t, r)} | q in live && q < r < After(live, q) :: SameBits(m, t, r)
  }

  lemma KeepsReflexive(m: Mem, live: Blocks)
    ensures KeepsPayloads(m, m, live)
  {
  }

  lemma KeepsTransitive(m: Mem, t: Mem, u: Mem, live: Blocks)
    requires KeepsPayloads(m, t, live) && KeepsPayloads(t, u, live)
    ensures KeepsPayloads(m, u, live)
  {
    forall q, r | q in live && q < r < After(live, q)
      ensures SameBits(m, u, r)
    {
      assert SameBits(m, t, r) && SameBits(t, u, r);
    }
  }

  lemma KeepsSubset(m: Mem, t: Mem, live: Blocks, sub: Blocks)
    requires KeepsPayloads(m, t, live) && forall q | q in sub :: q in live && sub[q].rows <= live[q].rows
    ensures KeepsPayloads(m, t, sub)
  {
    forall q, r | q in sub && q < r < After(sub, q)
      ensures SameBits(m, t, r)
    {
      assert q in live;
    }
  }

  /** Rows among kept rows are kept. */
  lemma KeepsInside(m: Mem, t: Mem, live: Blocks, q: int, p: int, b: Block)
    requires KeepsPayloads(m, t, live) && q in live && q <= p && p + b.rows <= After(live, q)
    ensures KeepsPayloads(m, t, map[p := b])
  {
    var sub := map[p := b];
    forall o, r | o in sub && o < r < After(sub, o)
      ensures SameBits(m, t, r)
    {
      assert q in live;
    }
  }

  lemma CoveredUnion(a: Blocks, b: Blocks, blk: Blocks, end: int)
    requires Covered(a, blk, end) && Covered(b, blk, end)
    ensures Covered(a + b, blk, end)
  {
    hide Sheltered;
  }

  // ----- frames

  /** Only link rows of listed blocks, and of b, differ. */
  ghost predicate LinkFrame(m: Mem, t: Mem, lists: Lists, b: int) {
    && |t.lo| == |m.lo| && |t.hi| == |m.hi| && t.end == m.end && t.base == m.base
    && forall r {:trigger SameRow(m, t, r)} | r - 1 != b && !Listed(lists, r - 1) :: SameRow(m, t, r)
  }

  lemma LinkFrameKeepsTiling(m: Mem, t: Mem, blk: Blocks, x: int, lists: Lists, b: int)
    requires TiledBut(m, blk, x) && Shape(t) && LinkFrame(m, t, lists, b)
    requires Apart(blk, m.end, lists) && LinkRowInside(blk, m.end, b)
    ensures TiledBut(t, blk, x)
    ensures forall n | Boundary(blk, m.end, n) :: SameRow(m, t, n)
  {
    forall n | Boundary(blk, m.end, n)
      ensures SameRow(m, t, n)
    {
      assert Listed(lists, n - 1) ==> LinkRowInside(blk, m.end, n - 1);
    }
    SameBoundaries(m, t, blk, x);
  }

  lemma SameBoundaries(m: Mem, t: Mem, blk: Blocks, x: int)
    requires TiledBut(m, blk, x) && Shape(t) && |t.lo| == |m.lo| && t.end == m.end
    requires forall n {:trigger SameRow(m, t, n)} | Boundary(blk, m.end, n) :: SameRow(m, t, n)
    ensures TiledBut(t, blk, x)
  {
    assert SameRow(m, t, m.end - 1);
    forall r | r in blk
      ensures Tagged(t, blk, r)
      ensures r != x && After(blk, r) != x ==> Footed(t, blk, r)
      ensures r != x && After(blk, r) == x ==> HalfFooted(t, blk, r)
    {
      assert Tagged(m, blk, r) && BlockFits(blk, m.end, r);
      assert SameRow(m, t, r) && SameRow(m, t, After(blk, r));
      if r != x {
        if After(blk, r) != x {
          assert Footed(m, blk, r);
        } else {
          assert HalfFooted(m, blk, r);
        }
      }
    }
  }

  /** The link row of a is not payload of a live block. */
  ghost predicate Clear(live: Blocks, a: int) {
    forall q {:trigger q in live} | q in live :: !(q < a + 1 < After(live, q))
  }

  ghost predicate AllClear(live: Blocks, lists: Lists) {
    forall a {:trigger Listed(lists, a)} | Listed(lists, a) :: Clear(live, a)
  }

  lemma LinkFrameKeepsPayloads(m: Mem, t: Mem, lists: Lists, b: int, live: Blocks)
    requires LinkFrame(m, t, lists, b) && AllClear(live, lists) && Clear(live, b)
    ensures KeepsPayloads(m, t, live)
  {
    forall q, r | q in live && q < r < After(live, q)
      ensures SameBits(m, t, r)
    {
      assert Listed(lists, r - 1) ==> Clear(live, r - 1);
      assert SameRow(m, t, r);
    }
  }

  lemma BlockIsClear(blk: Blocks, end: int, live: Blocks, a: int)
    requires Layout(blk, end) && Covered(live, blk, end) && a in blk && a !in live
    ensures Clear(live, a)
  {
    hide Sheltered, Layout;
    forall q | q in live
      ensures !(q < a + 1 < After(live, q))
    {
      if q < a + 1 < After(live, q) { ShelteredRow(blk, end, q, After(live, q), a + 1); }
    }
  }

  /** The link row of one block is not inside another. */
  lemma LinkRowElsewhere(blk: Blocks, end: int, q: int, a: int)
    requires Layout(blk, end) && q in blk && a in blk && a != q
    ensures !(q < a + 1 < After(blk, q))
  {
    assert BlockFits(blk, end, a) && BlockFits(blk, end, q);
    if q < a {
      assert After(blk, q) <= a;
    } else {
      assert After(blk, a) <= q;
    }
  }

  /** A touch writes only where blocks start, so links and payloads stay. */
  lemma TouchFrameKeepsLinks(m: Mem, t: Mem, blk: Blocks, b: int, n: int, lists: Lists)
    requires Linked(m, lists) && Apart(blk, m.end, lists) && Shape(t) && TouchFrame(m, t, b, n)
    requires Boundary(blk, m.end, b) && Boundary(blk, m.end, n)
    ensures Linked(t, lists)
  {
    forall i, k | 0 <= i < |lists| && -1 <= k < |lists[i]|
      ensures NodeLinked(t, lists, i, k)
    {
      assert NodeLinked(m, lists, i, k);
      if k >= 0 {
        assert NodeAt(lists, i, k) in lists[i];
        assert Listed(lists, NodeAt(lists, i, k));
      }
    }
  }

  lemma TouchFrameKeepsPayloads(m: Mem, t: Mem, blk: Blocks, b: int, n: int, live: Blocks)
    requires TouchFrame(m, t, b, n) && Layout(blk, m.end) && Covered(live, blk, m.end)
    requires Boundary(blk, m.end, b) && Boundary(blk, m.end, n)
    ensures KeepsPayloads(m, t, live)
  {
    hide Sheltered, Layout;
    forall q, r | q in live && q < r < After(live, q)
      ensures SameBits(m, t, r)
    {
      ShelteredRow(blk, m.end, q, After(live, q), r);
    }
  }

  // ----- list heads are outside the heap

  lemma TouchHead(m: Mem, a: int)
    requires Shape(m) && IsHead(a)
    ensures Touch(m, a) == m
  {
  }

  /** A complete tiling may be looked at as one whose block x is being set up. */
  lemma Weaken(m: Mem, blk: Blocks, x: int)
    requires Tiled(m, blk)
    ensures TiledBut(m, blk, x)
  {
    forall r | r in blk && r != x && After(blk, r) == x
      ensures HalfFooted(m, blk, r)
    {
      assert BlockFits(blk, m.end, r) && Footed(m, blk, r);
    }
    forall r | r in blk && r != x && After(blk, r) != x
      ensures Footed(m, blk, r)
    {
      assert BlockFits(blk, m.end, r);
    }
  }

  // ----- insert_block and isolate_block

  function Insert(m: Mem, i: int, b: int): Mem
    requires Shape(m) && 0 <= i < NUM_FREE_LISTS && 0 <= b < |m.lo| - 1
    requires Linkable(m, NextOf(m, Head(i))) || NextOf(m, Head(i)) == NULL
  {
    PushShape(m, i, b);
    Touch(PushFront(m, i, b), b)
  }

  lemma PushShape(m: Mem, i: int, b: int)
    requires Shape(m) && 0 <= i < NUM_FREE_LISTS && 0 <= b < |m.lo| - 1
    requires Linkable(m, NextOf(m, Head(i))) || NextOf(m, Head(i)) == NULL
    ensures
      var t := PushFront(m, i, b);
      Shape(t) && |t.lo| == |m.lo| && t.end == m.end && t.base == m.base
  {
  }

  function Isolate(m: Mem, b: int): Mem
    requires Shape(m) && 0 <= b < |m.lo| - 1
    requires Linkable(m, NextOf(m, b)) && Linkable(m, PrevOf(m, b))
  {
    BypassShape(m, b);
    Touch(ClearLinks(Bypass(m, b), b), NextOf(m, b))
  }

  lemma BypassShape(m: Mem, b: int)
    requires Shape(m) && Linkable(m, NextOf(m, b)) && Linkable(m, PrevOf(m, b))
    ensures
      var t := Bypass(m, b);
      Shape(t) && |t.lo| == |m.lo| && t.end == m.end && t.base == m.base
  {
  }

  lemma SetFrame(m: Mem, a: int, v: int)
    requires Shape(m) && Linkable(m, a)
    ensures
      var t := SetNext(m, a, v);
      Shape(t) && |t.lo| == |m.lo| && t.end == m.end && t.base == m.base && forall r | IsHead(a) || r != a + 1 ::
        SameRow(m, t, r)
    ensures
      var t := SetPrev(m, a, v);
      Shape(t) && |t.lo| == |m.lo| && t.end == m.end && t.base == m.base && forall r | IsHead(a) || r != a + 1 ::
        SameRow(m, t, r)
  {
  }

  lemma PushFrame(m: Mem, lists: Lists, i: int, b: int)
    requires Linked(m, lists) && 0 <= i < NUM_FREE_LISTS && 0 <= b < |m.lo| - 1
    ensures Linkable(m, NextOf(m, Head(i))) && LinkFrame(m, PushFront(m, i, b), lists, b)
    ensures Shape(PushFront(m, i, b))
  {
    hide SetNext, SetPrev;
    assert NodeLinked(m, lists, i, -1);
    if lists[i] != [] { assert NodeLinked(m, lists, i, 0); }
    var head, tmp := Head(i), NextOf(m, Head(i));
    var t := PushFront(m, i, b);
    var m1, m2, m3;
    if tmp == NULL || tmp == head {
      SetFrame(m, head, b);
      m1 := SetNext(m, head, b);
      SetFrame(m1, head, b);
      m2 := SetPrev(m1, head, b);
      SetFrame(m2, b, head);
      m3 := SetNext(m2, b, head);
      SetFrame(m3, b, head);
    } else {
      assert tmp in lists[i];
      assert Listed(lists, tmp);
      SetFrame(m, b, tmp);
      m1 := SetNext(m, b, tmp);
      SetFrame(m1, b, head);
      m2 := SetPrev(m1, b, head);
      SetFrame(m2, head, b);
      m3 := SetNext(m2, head, b);
      SetFrame(m3, tmp, b);
    }
    forall r | r - 1 != b && !Listed(lists, r - 1)
      ensures SameRow(m, t, r)
    {
      assert SameRow(m, m1, r) && SameRow(m1, m2, r) && SameRow(m2, m3, r) && SameRow(m3, t, r);
    }
  }

  lemma UnlinkFrame(m: Mem, lists: Lists, i: int, k: int)
    requires Linked(m, lists) && 0 <= i < |lists| && 0 <= k < |lists[i]|
    ensures
      var b := lists[i][k];
      && 0 <= b < |m.lo| - 1 && Linkable(m, NextOf(m, b)) && Linkable(m, PrevOf(m, b))
      && LinkFrame(m, Bypass(m, b), lists, b) && LinkFrame(m, ClearLinks(Bypass(m, b), b), lists, b)
  {
    hide SetNext, SetPrev;
    var b := lists[i][k];
    BypassLinks(m, lists, i, k);
    var next, prev := NextOf(m, b), PrevOf(m, b);
    assert IsHead(next) || next in lists[i];
    assert IsHead(prev) || prev in lists[i];
    assert !IsHead(next) ==> Listed(lists, next);
    assert !IsHead(prev) ==> Listed(lists, prev);
    SetFrame(m, prev, next);
    var m1 := SetNext(m, prev, next);
    SetFrame(m1, next, prev);
    var m2 := SetPrev(m1, next, prev);
    SetFrame(m2, b, NULL);
    var m3 := SetNext(m2, b, NULL);
    SetFrame(m3, b, NULL);
    var m4 := SetPrev(m3, b, NULL);
    forall r | r - 1 != b && !Listed(lists, r - 1)
      ensures SameRow(m, m2, r) && SameRow(m, m4, r)
    {
      assert SameRow(m, m1, r) && SameRow(m1, m2, r) && SameRow(m2, m3, r) && SameRow(m3, m4, r);
    }
  }

  /** insert_block on the block being set up completes it and puts it in front of list i. */
  lemma InsertStep(m: Mem, blk: Blocks, b: int, lists: Lists, i: int, live: Blocks)
    requires Consistent(m, blk, b, lists) && b in blk && b != 0 && !Listed(lists, b) && 0 <= i < NUM_FREE_LISTS
    requires Covered(live, blk, m.end) && AllClear(live, lists) && Clear(live, b)
    ensures 0 <= b < |m.lo| - 1 && Linkable(m, NextOf(m, Head(i)))
    ensures
      var t := Insert(m, i, b);
      && Consistent(t, blk, NONE, Pushed(lists, i, b)) && KeepsPayloads(m, t, live)
      && t.end == m.end && t.base == m.base
  {
    hide PushFront, Touch, NextOf, PrevOf;
    assert BlockFits(blk, m.end, b);
    PushFrame(m, lists, i, b);
    PushLinks(m, lists, i, b);
    var m1 := PushFront(m, i, b);
    InteriorRow(blk, m.end, b, b + 1);
    LinkFrameKeepsTiling(m, m1, blk, b, lists, b);
    LinkFrameKeepsPayloads(m, m1, lists, b, live);
    PushedApart(blk, m.end, lists, i, b);
    var t := Touch(m1, b);
    TouchCompletes(m1, blk, b);
    TouchFrameKeepsLinks(m1, t, blk, b, After(blk, b), Pushed(lists, i, b));
    TouchFrameKeepsPayloads(m1, t, blk, b, After(blk, b), live);
    KeepsTransitive(m, m1, t, live);
  }

  lemma PushedApart(blk: Blocks, end: int, lists: Lists, i: int, b: int)
    requires Apart(blk, end, lists) && LinkRowInside(blk, end, b) && 0 <= i < |lists| && Disjoint(lists)
    requires !Listed(lists, b)
    ensures Apart(blk, end, Pushed(lists, i, b))
  {
    PushedDisjoint(lists, i, b);
  }

  /** What the touch of the next list entry needs. */
  ghost predicate NextIsQuiet(m: Mem, blk: Blocks, x: int, lists: Lists, b: int, next: int) {
    IsHead(next) || (
      && next in blk && next != 0 && next != x
      && (x in blk && After(blk, x) == next ==>
            StaleFooterFree(m, next) && !Listed(lists, next - m.lo[next].rows - 1) && b != next - m.lo[next].rows - 1)
      && (After(blk, next) == x ==> !blk[next].alloc))
  }

  /** isolate_block takes entry k out of list i. */
  lemma IsolateStep(m: Mem, blk: Blocks, x: int, lists: Lists, i: int, k: int, live: Blocks)
    requires Consistent(m, blk, x, lists) && 0 <= i < |lists| && 0 <= k < |lists[i]|
    requires NextIsQuiet(m, blk, x, lists, lists[i][k], NodeAt(lists, i, k + 1))
    requires Covered(live, blk, m.end) && AllClear(live, lists)
    ensures
      var b := lists[i][k];
      && 0 <= b < |m.lo| - 1 && Linkable(m, NextOf(m, b)) && Linkable(m, PrevOf(m, b))
      && var t := Isolate(m, b);
      && Consistent(t, blk, x, Removed(lists, i, k)) && KeepsPayloads(m, t, live)
      && t.end == m.end && t.base == m.base
  {
    hide Bypass, ClearLinks, Touch, NextOf, PrevOf;
    var b, next := lists[i][k], NodeAt(lists, i, k + 1);
    var after := Removed(lists, i, k);
    assert b in lists[i];
    assert Listed(lists, b);
    assert LinkRowInside(blk, m.end, b) && Clear(live, b);
    UnlinkFrame(m, lists, i, k);
    BypassLinks(m, lists, i, k);
    RemovedDisjoint(lists, i, k);
    ClearKeepsLinks(Bypass(m, b), after, b);
    var m1 := ClearLinks(Bypass(m, b), b);
    LinkFrameKeepsTiling(m, m1, blk, x, lists, b);
    LinkFrameKeepsPayloads(m, m1, lists, b, live);
    if IsHead(next) {
      TouchHead(m1, next);
    } else {
      assert SameRow(m, m1, next);
      assert x in blk && After(blk, x) == next ==> SameRow(m, m1, next - m.lo[next].rows);
      TouchIsQuiet(m1, blk, x, next);
      var t := Touch(m1, next);
      assert BlockFits(blk, m.end, next);
      TouchFrameKeepsLinks(m1, t, blk, next, After(blk, next), after);
      TouchFrameKeepsPayloads(m1, t, blk, next, After(blk, next), live);
      KeepsTransitive(m, m1, t, live);
    }
  }
}

/** What realloc and the owners of payloads do to memory and to the blocks. */
module HeapResizing {
  import opened HeapWords
  import opened HeapMemory
  import opened HeapTiling
  import opened HeapLists
  import opened HeapSteps
  import opened HeapBytes
  import opened HeapHeaders
  import opened HeapInvariants
  import opened HeapMoves
  import opened HeapDamage
  import opened HeapGrowth
  import opened HeapTaking
  import opened HeapServing

  /** The way realloc goes: 0 free, 1 move, 2 nothing, 3 update the payload size, 4 split. */
  function CanRealloc(payload: Payload, rows: nat, rsize: Payload): int {
    if rsize == 0 then 0
    else if rows == RowsFor(rsize) then 3
    else if rsize > payload then 1
    else if rsize == payload then 2
    else if payload - rsize < 16 * MIN_ROWS then 3
    else 4
  }

  function Min(a: nat, b: nat): nat {
    if a <= b then a else b
  }

  lemma BytesFit(bytes: nat)
    ensures bytes <= 16 * (RowsFor(bytes) - 1)
  {
  }

  lemma LiveSized(m: Mem, blk: Blocks, lists: Lists, b: int)
    requires (HeapOk(m, blk, lists) || HeapEmpty(m, blk, lists)) && b in Live(blk)
    ensures 0 < blk[b].payload <= 16 * (blk[b].rows - 1) && RowsFor(blk[b].payload) <= blk[b].rows
  {
    BytesFit(blk[b].payload);
  }

  /** What the ways mean: a payload that grows moves, even when its block has room for it, unless the block has
      just the size for the new payload; every way that stays leaves a block that is large enough, and a block is
      only cut when what is cut off is one. */
  lemma CanReallocRows(payload: Payload, rows: nat, rsize: Payload)
    requires RowsFor(payload) <= rows
    ensures CanRealloc(payload, rows, rsize) == 1 <==> rsize > payload && RowsFor(rsize) != rows
    ensures CanRealloc(payload, rows, rsize) > 1 ==> 0 < rsize && RowsFor(rsize) <= rows
    ensures CanRealloc(payload, rows, rsize) == 4 ==> rows - RowsFor(rsize) >= MIN_ROWS
    ensures CanRealloc(payload, rows, rsize) == 3 && rows != RowsFor(rsize) ==> 0 < payload - rsize < 16 * MIN_ROWS
    ensures CanRealloc(payload, rows, rsize) == 4 <==> 0 < rsize <= payload - 32
  {
    if 0 < rsize <= payload - 32 { ShrinkLeavesBlock(payload, rsize, rows); }
  }

  lemma CanReallocNone(payload: Payload, rows: nat, rsize: Payload)
    ensures CanRealloc(payload, rows, rsize) == 0 <==> rsize == 0
    ensures 0 <= CanRealloc(payload, rows, rsize) <= 4
    ensures CanRealloc(payload, rows, rsize) == 2 ==> rsize == payload
  {
  }

  /** Header and footer of b with another payload size. */
  function Repay(m: Mem, b: int, update: Payload): Mem
    requires 0 <= b < |m.hi| && m.hi[b].Header? && b + m.hi[b].rows < |m.lo|
  {
    var h := Header(update, m.hi[b].rows, m.hi[b].alloc, m.hi[b].prevAlloc);
    m.(hi := m.hi[b := h], lo := m.lo[b + m.hi[b].rows := h])
  }

  lemma RepayStep(m: Mem, blk: Blocks, lists: Lists, b: int, update: Payload, live: Blocks)
    requires Consistent(m, blk, NONE, lists) && b in Live(blk)
    requires live == Live(blk)[b := Block(blk[b].rows, true, update)]
    ensures Tagged(m, blk, b) && b + m.hi[b].rows < |m.lo|
    ensures
      var t, after := Repay(m, b, update), blk[b := Block(blk[b].rows, true, update)];
      Consistent(t, after, NONE, lists) && KeepsPayloads(m, t, live)
  {
    assert BlockFits(blk, m.end, b) && Tagged(m, blk, b) && Footed(m, blk, b);
    var t, after := Repay(m, b, update), blk[b := Block(blk[b].rows, true, update)];
    RetagLayout(blk, m.end, b, update, true);
    assert forall r :: Boundary(after, m.end, r) <==> Boundary(blk, m.end, r);
    forall r | r in after
      ensures Tagged(t, after, r) && Footed(t, after, r)
    {
      assert BlockFits(blk, m.end, r) && Tagged(m, blk, r) && Footed(m, blk, r);
      AfterInjective(blk, m.end, r, b);
    }
    forall a | Listed(lists, a)
      ensures LinkRowInside(after, m.end, a)
    {
      assert LinkRowInside(blk, m.end, a);
    }
    BoundaryFrameKeepsLinks(m, t, after, lists);
    WithinCovered(live, after, m.end);
    BoundaryFrameKeepsPayloads(m, t, after, live);
  }

  lemma RepayKeeps(blk: Blocks, end: int, lists: Lists, b: int, update: Payload)
    requires FreeListed(blk, lists) && Classed(blk, end, lists) && WildernessLast(blk, end, lists) && Coalesced(blk)
    requires Sized(blk)
    requires b in Live(blk) && 0 < update && RowsFor(update) <= blk[b].rows
    ensures
      var after := blk[b := Block(blk[b].rows, true, update)];
      && FreeListed(after, lists) && Classed(after, end, lists) && WildernessLast(after, end, lists) && Coalesced(after)
      && Sized(after) && Live(after) == Live(blk)[b := after[b]]
  {
    var after := blk[b := Block(blk[b].rows, true, update)];
    forall i, a | 0 <= i < |lists| && a in lists[i] && a != NONE
      ensures RightList(after, end, i, a)
    {
      assert RightList(blk, end, i, a);
    }
    forall r | r in after
      ensures Separated(after, r)
    {
      assert Separated(blk, r);
    }
    var l0, l1 := Live(blk)[b := after[b]], Live(after);
    assert forall r :: r in l1 <==> r in l0;
    assert forall r | r in l0 :: l1[r] == l0[r];
  }

  lemma ShrinkLive(blk: Blocks, end: int, b: int, rows: int, update: Payload, live: Blocks)
    requires Layout(blk, end) && b in Live(blk) && MIN_ROWS <= rows && MIN_ROWS <= blk[b].rows - rows
    requires live == Live(blk)[b := Block(rows, true, update)]
    ensures Live(SplitBlocks(blk, b, rows, true, update)) == live
  {
    SplitLayout(blk, end, b, rows, update);
    var l1 := Live(SplitBlocks(blk, b, rows, true, update));
    assert forall r :: r in l1 <==> r in live;
    assert forall r | r in live :: l1[r] == live[r];
  }

  /** The state once b has been cut. */
  lemma ShrinkStarts(m: Mem, blk: Blocks, lists: Lists, b: int, rows: int, update: Payload, live: Blocks)
    requires Consistent(m, blk, NONE, lists) && FreeListed(blk, lists) && b in Live(blk)
    requires MIN_ROWS <= rows && MIN_ROWS <= blk[b].rows - rows && live == Live(blk)[b := Block(rows, true, update)]
    ensures 0 <= b < b + rows < |m.hi| == |m.lo| && m.hi[b].Header? && m.hi[b].rows == blk[b].rows
    ensures
      var t, after, s := SplitHeaders(m, b, blk[b].rows, rows, update),
        SplitBlocks(blk, b, rows, true, update), b + rows;
      && Consistent(t, after, s, lists) && KeepsPayloads(m, t, live) && Covered(live, after, m.end) && s in after
      && s != 0
      && !Listed(lists, s) && AllClear(live, lists) && Clear(live, s) && After(after, s) == After(blk, b)
      && Live(after) == live
  {
    hide TiledBut, Linked, Apart, Disjoint, KeepsPayloads, Clear, AllClear, Covered;
    Parts(m, blk, NONE, lists);
    PartsOf(m, blk, NONE, lists, b);
    SplitLayout(blk, m.end, b, rows, update);
    ShrinkLive(blk, m.end, b, rows, update, live);
    FreeListedIn(blk, lists);
    WithinCovered(live, SplitBlocks(blk, b, rows, true, update), m.end);
    SplitStep(m, blk, lists, b, rows, update, live);
    ListedClear(blk, m.end, lists, live, b);
    BlockIsClear(SplitBlocks(blk, b, rows, true, update), m.end, live, b + rows);
  }

  lemma ListedClear(blk: Blocks, end: int, lists: Lists, live: Blocks, b: int)
    requires Layout(blk, end) && FreeListed(blk, lists)
    requires b in Live(blk) && b in live && live[b].rows <= blk[b].rows
    requires forall q | q in live && q != b :: q in Live(blk) && live[q] == blk[q]
    ensures AllClear(live, lists)
  {
    WithinCovered(Live(blk), blk, end);
    AllClearOf(blk, end, lists, Live(blk));
    forall a | Listed(lists, a)
      ensures Clear(live, a)
    {
      assert Clear(Live(blk), a);
      assert b in Live(blk);
    }
  }

  /** The footer of the block being set up may be written. */
  lemma FootNew(m: Mem, blk: Blocks, lists: Lists, x: int, live: Blocks)
    requires Consistent(m, blk, x, lists) && x in blk && Covered(live, blk, m.end)
    ensures Tagged(m, blk, x) && 0 <= After(blk, x) < |m.lo| == |m.hi|
    ensures
      var t := m.(lo := m.lo[After(blk, x) := m.hi[x]]);
      Consistent(t, blk, x, lists) && KeepsPayloads(m, t, live)
  {
    assert BlockFits(blk, m.end, x) && Tagged(m, blk, x);
    var n := After(blk, x);
    var t := m.(lo := m.lo[n := m.hi[x]]);
    forall r | r in blk
      ensures Tagged(t, blk, r)
      ensures r != x && After(blk, r) != x ==> Footed(t, blk, r)
      ensures r != x && After(blk, r) == x ==> HalfFooted(t, blk, r)
    {
      assert BlockFits(blk, m.end, r) && Tagged(m, blk, r);
      if After(blk, r) == n { PredecessorUnique(blk, m.end, r, x, n); }
      assert r != x && After(blk, r) != x ==> Footed(m, blk, r);
      assert r != x && After(blk, r) == x ==> HalfFooted(m, blk, r);
    }
    BoundaryFrameKeepsLinks(m, t, blk, lists);
    BoundaryFrameKeepsPayloads(m, t, blk, live);
  }

  lemma ShrinkKeeps(blk: Blocks, end: int, lists: Lists, b: int, rows: int, update: Payload)
    requires Layout(blk, end) && FreeListed(blk, lists) && Classed(blk, end, lists) && Sized(blk) && Disjoint(lists)
    requires b in Live(blk) && 0 < update && rows == RowsFor(update) && MIN_ROWS <= blk[b].rows - rows
    requires |lists| == NUM_FREE_LISTS
    ensures
      var after, lists1 := SplitBlocks(blk, b, rows, true, update),
        Pushed(lists, ClassOf(blk[b].rows - rows), b + rows);
      FreeListed(after, lists1) && Classed(after, end, lists1) && Sized(after)
  {
    hide ClassOf, RowsFor, Layout, Boundary, Disjoint, Classed;
    RowsForIsLeast(update);
    SplitLayout(blk, end, b, rows, update);
    PushedDisjoint(lists, ClassOf(blk[b].rows - rows), b + rows);
    ShrinkKeepsClasses(blk, end, lists, b, rows, update);
  }

  lemma ShrinkKeepsClasses(blk: Blocks, end: int, lists: Lists, b: int, rows: int, update: Payload)
    requires FreeListed(blk, lists) && Classed(blk, end, lists) && |lists| == NUM_FREE_LISTS
    requires b in Live(blk) && blk[b].rows - rows >= MIN_ROWS && rows > 0 && b + rows !in blk
    ensures Classed(SplitBlocks(blk, b, rows, true, update), end, Pushed(lists, ClassOf(blk[b].rows - rows), b + rows))
  {
    var i1 := ClassOf(blk[b].rows - rows);
    var after, lists1 := SplitBlocks(blk, b, rows, true, update), Pushed(lists, i1, b + rows);
    hide ClassOf;
    forall i, a | 0 <= i < |lists1| && a in lists1[i] && a != NONE
      ensures RightList(after, end, i, a)
    {
      assert a in lists[i] ==> Listed(lists, a) && a != b && RightList(blk, end, i, a);
    }
  }

  /** Only rows of the payload between b and n differ. */
  ghost predicate OnlyInside(m: Mem, t: Mem, b: int, n: int) {
    && |t.lo| == |m.lo| && |t.hi| == |m.hi| && t.hn == m.hn && t.hp == m.hp && t.end == m.end && t.base == m.base
    && forall r {:trigger SameRow(m, t, r)} | !(b < r < n) :: SameRow(m, t, r)
  }

  lemma OnlyInsideStep(m: Mem, t: Mem, u: Mem, b: int, n: int, k: int)
    requires OnlyInside(m, t, b, n) && b < k < n && |u.lo| == |t.lo| && |u.hi| == |t.hi|
    requires u.hn == t.hn && u.hp == t.hp && u.end == t.end && u.base == t.base
    requires forall r {:trigger SameRow(t, u, r)} | r != k :: SameRow(t, u, r)
    ensures OnlyInside(m, u, b, n)
  {
    forall r | !(b < r < n)
      ensures SameRow(m, u, r)
    {
      assert SameRow(m, t, r) && SameRow(t, u, r);
    }
  }

  /** Payloads of different blocks share no row. */
  lemma PayloadsApart(blk: Blocks, end: int, p: int, q: int, r: int)
    requires Layout(blk, end) && p in blk && q in blk && p != q
    ensures p < r < After(blk, p) ==> !(q < r < After(blk, q))
  {
    assert BlockFits(blk, end, p) && BlockFits(blk, end, q);
  }

  lemma InsideKeepsLinks(m: Mem, t: Mem, blk: Blocks, lists: Lists, b: int)
    requires HeapOk(m, blk, lists) && b in Live(blk) && Shape(t) && OnlyInside(m, t, b, After(blk, b))
    ensures Linked(t, lists)
  {
    forall i, k | 0 <= i < |lists| && -1 <= k < |lists[i]|
      ensures NodeLinked(t, lists, i, k)
    {
      assert NodeLinked(m, lists, i, k);
      if k >= 0 {
        var a := NodeAt(lists, i, k);
        assert a in lists[i];
        assert Listed(lists, a);
        LinkRowElsewhere(blk, m.end, b, a);
        assert SameRow(m, t, a + 1);
      }
    }
  }

  /** Writes inside a live payload concern no one else. */
  lemma InsideKeeps(m: Mem, t: Mem, blk: Blocks, lists: Lists, b: int)
    requires HeapOk(m, blk, lists) && b in Live(blk) && Shape(t) && OnlyInside(m, t, b, After(blk, b))
    ensures HeapOk(t, blk, lists) && KeepsPayloads(m, t, Live(blk) - {b})
  {
    assert Consistent(t, blk, NONE, lists) by {
      forall n | Boundary(blk, m.end, n)
        ensures SameRow(m, t, n)
      {
        if b < n < After(blk, b) { InteriorRow(blk, m.end, b, n); }
      }
      SameBoundaries(m, t, blk, NONE);
      InsideKeepsLinks(m, t, blk, lists, b);
    }
    forall q, r | q in Live(blk) - {b} && q < r < After(Live(blk) - {b}, q)
      ensures SameBits(m, t, r)
    {
      PayloadsApart(blk, m.end, q, b, r);
      assert SameRow(m, t, r);
    }
  }

  /** One more byte has been copied. */
  lemma ByteCopied(m: Mem, t: Mem, u: Mem, blk: Blocks, from: int, to: int, k: nat)
    requires Layout(blk, m.end) && from in blk && to in blk && from != to && 0 <= from && 0 <= to
    requires After(blk, from) <= |m.lo| && After(blk, to) <= |m.lo| == |m.hi| && k < 16 * (blk[to].rows - 1)
    requires OnlyInside(m, t, to, After(blk, to))
    requires PrefixKept(m, t, from, to, if k <= 16 * (blk[from].rows - 1) then k else 16 * (blk[from].rows - 1))
    requires u == if 16 * (from + 1) + k < 16 * |t.lo|
      then PutByte(t, 16 * (to + 1) + k, ByteAt(t, 16 * (from + 1) + k)) else t
    ensures OnlyInside(m, u, to, After(blk, to))
    ensures PrefixKept(m, u, from, to, if k < 16 * (blk[from].rows - 1) then k + 1 else 16 * (blk[from].rows - 1))
  {
    hide ByteAt, PutByte, Layout;
    var src, dst, room := 16 * (from + 1) + k, 16 * (to + 1) + k, 16 * (blk[from].rows - 1);
    PayloadByte(m, to, blk[to].rows, k);
    if src < 16 * |t.lo| {
      PutByteFrame(t, dst, ByteAt(t, src));
      OnlyInsideStep(m, t, u, to, After(blk, to), dst / 16);
      forall j | 0 <= j < (if k < room then k + 1 else room)
        ensures ByteMoved(m, u, from, to, j)
      {
        PutByteReads(t, dst, ByteAt(t, src), 16 * (to + 1) + j);
        if j < k {
          assert ByteMoved(m, t, from, to, j);
        } else {
          PayloadByte(m, from, blk[from].rows, k);
          PayloadsApart(blk, m.end, from, to, src / 16);
          assert SameRow(m, t, src / 16);
          SameRowBytes(m, t, src);
        }
      }
    } else {
      assert k >= room;
    }
  }

  /** Block q with a payload of rsize bytes takes the place of block b; the others are as before. */
  ghost predicate Resized(live0: Blocks, live1: Blocks, b: int, q: int, rsize: Payload) {
    && b in live0 && q in live1 && live1[q].payload == rsize && RowsFor(rsize) <= live1[q].rows
    && q !in live0 - {b} && live1 == (live0 - {b})[q := live1[q]]
  }

  /** A payload that is resized in its block. */
  lemma StaysPut(m: Mem, t: Mem, blk: Blocks, lists: Lists, live: Blocks, b: int, rsize: Payload)
    requires HeapOk(m, blk, lists) && b in Live(blk) && 0 < rsize
    requires b in live && live == Live(blk)[b := live[b]] && live[b].payload == rsize
    requires RowsFor(rsize) <= live[b].rows <= blk[b].rows && KeepsPayloads(m, t, live)
    ensures Resized(Live(blk), live, b, b, rsize) && KeepsPayloads(m, t, Live(blk) - {b})
    ensures PrefixKept(m, t, b, b, Min(blk[b].payload, rsize))
  {
    LiveInMemory(m, blk, lists, b);
    KeepsSubset(m, t, live, Live(blk) - {b});
    assert live == (Live(blk) - {b})[b := live[b]];
    BytesFit(rsize);
    PrefixOfKept(m, t, live, b, Min(blk[b].payload, rsize));
  }

  lemma ServedNew(before: Blocks, after: Blocks, q: int, rsize: Payload, b: int)
    requires Served(before, after, q, RowsFor(rsize), rsize) && b in Live(before)
    ensures q != b && q in Live(after) && b in Live(after) && after[b] == before[b]
    ensures rsize <= 16 * (after[q].rows - 1)
    ensures Live(before) == Live(after) - {q} && Resized(Live(before), Live(after) - {b}, b, q, rsize)
  {
    BytesFit(rsize);
    assert b in Live(after) && Live(after)[b] == Live(before)[b];
    assert q in Live(after);
  }

  /** Allocating, copying and freeing moves the payload. */
  lemma MoveKeeps(m0: Mem, m1: Mem, m2: Mem, m3: Mem, live0: Blocks, live1: Blocks, live3: Blocks, b: int, q: int,
      n: int)
    requires KeepsPayloads(m0, m1, live0) && KeepsPayloads(m1, m2, live1 - {q}) && KeepsPayloads(m2, m3, live3)
    requires b in live0 && q in live1 && live0 == live1 - {q} && live3 == live1 - {b} && b != q
    requires 0 <= n <= 16 * (live0[b].rows - 1) && n <= 16 * (live1[q].rows - 1) && PrefixKept(m1, m2, b, q, n)
    requires 0 <= b && After(live0, b) <= |m0.lo| == |m0.hi| && 0 <= q && After(live1, q) <= |m2.lo| == |m2.hi|
    ensures KeepsPayloads(m0, m3, live0 - {b}) && PrefixKept(m0, m3, b, q, n)
  {
    hide KeepsPayloads, PrefixKept;
    MoveKeepsOthers(m0, m1, m2, m3, live0 - {b}, live0, live1 - {q}, live3);
    assert q in live3 && live3[q] == live1[q];
    PrefixCarried(m0, m1, m2, m3, live0, live3, b, q, n);
  }

  lemma MoveKeepsOthers(m0: Mem, m1: Mem, m2: Mem, m3: Mem, rest: Blocks, l1: Blocks, l2: Blocks, l3: Blocks)
    requires KeepsPayloads(m0, m1, l1) && KeepsPayloads(m1, m2, l2) && KeepsPayloads(m2, m3, l3)
    requires forall q | q in rest :: q in l1 && rest[q] == l1[q]
    requires forall q | q in rest :: q in l2 && rest[q] == l2[q]
    requires forall q | q in rest :: q in l3 && rest[q] == l3[q]
    ensures KeepsPayloads(m0, m3, rest)
  {
    hide KeepsPayloads;
    KeepsSubset(m0, m1, l1, rest);
    KeepsSubset(m1, m2, l2, rest);
    KeepsSubset(m2, m3, l3, rest);
    KeepsTransitive(m0, m1, m2, rest);
    KeepsTransitive(m0, m2, m3, rest);
  }

  /** A payload has moved from b to p, and a payload of live, that of q, has been hit: the others are kept, and
      the first n bytes have moved unless it was the payload that moves. */
  ghost predicate MovedBut(m: Mem, t: Mem, live: Blocks, b: int, p: int, n: int, q: int) {
    q in live && KeepsPayloads(m, t, live - {b} - {q}) && (q != b ==> PrefixKept(m, t, b, p, n))
  }

  ghost predicate MovedWithHit(m: Mem, t: Mem, live: Blocks, b: int, p: int, n: int) {
    exists q :: MovedBut(m, t, live, b, p, n, q)
  }

  /** The same when allocating has hit a payload. */
  lemma MoveKeepsRest(m0: Mem, m1: Mem, m2: Mem, m3: Mem, live0: Blocks, live1: Blocks, live3: Blocks, b: int, q: int,
      n: int)
    requires HitsOne(m0, m1, live0) && KeepsPayloads(m1, m2, live1 - {q}) && KeepsPayloads(m2, m3, live3)
    requires b in live0 && q in live1 && live0 == live1 - {q} && live3 == live1 - {b} && b != q
    requires 0 <= n <= 16 * (live0[b].rows - 1) && n <= 16 * (live1[q].rows - 1) && PrefixKept(m1, m2, b, q, n)
    requires 0 <= b && After(live0, b) <= |m0.lo| == |m0.hi| && 0 <= q && After(live1, q) <= |m2.lo| == |m2.hi|
    ensures MovedWithHit(m0, m3, live0, b, q, n)
  {
    hide KeepsPayloads, PrefixKept;
    var h :| HitsOnly(m0, m1, live0, h);
    MoveKeepsOthers(m0, m1, m2, m3, live0 - {b} - {h}, live0 - {h}, live1 - {q}, live3);
    if h != b {
      assert q in live3 && live3[q] == live1[q];
      PrefixCarried(m0, m1, m2, m3, live0 - {h}, live3, b, q, n);
    }
    assert MovedBut(m0, m3, live0, b, q, n, h);
  }
}

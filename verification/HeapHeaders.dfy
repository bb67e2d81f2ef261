/** Writing headers: changing a block's status, splitting it, merging two and adding a page. */
module HeapHeaders {
  import opened HeapWords
  import opened HeapMemory
  import opened HeapTiling
  import opened HeapLists
  import opened HeapSteps

  /** Only rows where blocks of blk start differ. */
  ghost predicate BoundaryFrame(m: Mem, t: Mem, blk: Blocks) {
    && |t.lo| == |m.lo| && |t.hi| == |m.hi| && t.hn == m.hn && t.hp == m.hp && t.base == m.base
    && forall r {:trigger SameRow(m, t, r)} | !Boundary(blk, t.end, r) :: SameRow(m, t, r)
  }

  lemma BoundaryFrameKeepsLinks(m: Mem, t: Mem, blk: Blocks, lists: Lists)
    requires Linked(m, lists) && Shape(t) && BoundaryFrame(m, t, blk) && Apart(blk, t.end, lists)
    ensures Linked(t, lists)
  {
    forall i, k | 0 <= i < |lists| && -1 <= k < |lists[i]|
      ensures NodeLinked(t, lists, i, k)
    {
      assert NodeLinked(m, lists, i, k);
      if k >= 0 {
        var a := NodeAt(lists, i, k);
        assert a in lists[i];
        assert Listed(lists, a);
        assert LinkRowInside(blk, t.end, a);
        assert SameRow(m, t, a + 1);
      }
    }
  }

  lemma BoundaryFrameKeepsPayloads(m: Mem, t: Mem, blk: Blocks, live: Blocks)
    requires BoundaryFrame(m, t, blk) && Layout(blk, t.end) && Covered(live, blk, t.end)
    ensures KeepsPayloads(m, t, live)
  {
    hide Sheltered, Layout;
    forall q, r | q in live && q < r < After(live, q)
      ensures SameBits(m, t, r)
    {
      ShelteredRow(blk, t.end, q, After(live, q), r);
      assert SameRow(m, t, r);
    }
  }

  function WithHeader(m: Mem, b: int, h: Word): Mem
    requires 0 <= b < |m.hi|
  {
    m.(hi := m.hi[b := h])
  }

  // ----- a new status for one block

  /** The block's header with another payload size and alloc bit. */
  function Retag(m: Mem, b: int, payload: Payload, alloc: bool): Mem
    requires 0 <= b < |m.hi| && m.hi[b].Header?
  {
    WithHeader(m, b, Header(payload, m.hi[b].rows, alloc, m.hi[b].prevAlloc))
  }

  lemma RetagStep(m: Mem, blk: Blocks, lists: Lists, b: int, payload: Payload, alloc: bool, live: Blocks)
    requires Consistent(m, blk, NONE, lists) && b in blk && b != 0 && (!alloc ==> payload == 0)
    requires Covered(live, blk, m.end) && b !in live
    ensures Tagged(m, blk, b)
    ensures
      var t := Retag(m, b, payload, alloc);
      var after := blk[b := Block(blk[b].rows, alloc, payload)];
      && Consistent(t, after, b, lists) && KeepsPayloads(m, t, live) && Covered(live, after, m.end)
      && t.end == m.end && t.base == m.base && t.lo == m.lo
  {
    assert Tagged(m, blk, b) && BlockFits(blk, m.end, b);
    var t := Retag(m, b, payload, alloc);
    var after := blk[b := Block(blk[b].rows, alloc, payload)];
    RetagLayout(blk, m.end, b, payload, alloc);
    RetagTiling(m, t, blk, b, payload, alloc);
    assert forall r :: Boundary(after, m.end, r) <==> Boundary(blk, m.end, r);
    assert Apart(after, m.end, lists) by {
      forall a | Listed(lists, a)
        ensures LinkRowInside(after, m.end, a)
      {
        assert LinkRowInside(blk, m.end, a);
      }
    }
    BoundaryFrameKeepsLinks(m, t, after, lists);
    CoveredRetagged(live, blk, m.end, b, payload, alloc);
    BoundaryFrameKeepsPayloads(m, t, after, live);
  }

  lemma CoveredRetagged(live: Blocks, blk: Blocks, end: int, b: int, payload: Payload, alloc: bool)
    requires Covered(live, blk, end) && b in blk && b !in live
    ensures Covered(live, blk[b := Block(blk[b].rows, alloc, payload)], end)
  {
    var after := blk[b := Block(blk[b].rows, alloc, payload)];
    forall q | q in live
      ensures Sheltered(after, end, q, After(live, q))
    {
      if q < end - 1 {
        var c :| Shelters(blk, c, q, After(live, q));
        assert Shelters(after, c, q, After(live, q));
      }
    }
  }

  lemma RetagLayout(blk: Blocks, end: int, b: int, payload: Payload, alloc: bool)
    requires Layout(blk, end) && b in blk && b != 0 && (!alloc ==> payload == 0)
    ensures Layout(blk[b := Block(blk[b].rows, alloc, payload)], end)
  {
    var after := blk[b := Block(blk[b].rows, alloc, payload)];
    forall r | r in after
      ensures BlockFits(after, end, r)
    {
      assert BlockFits(blk, end, r);
    }
  }

  lemma RetagTiling(m: Mem, t: Mem, blk: Blocks, b: int, payload: Payload, alloc: bool)
    requires Tiled(m, blk) && b in blk && b != 0 && Tagged(m, blk, b) && t == Retag(m, b, payload, alloc)
    requires Layout(blk[b := Block(blk[b].rows, alloc, payload)], m.end) && 0 <= b < m.end - 1
    ensures TiledBut(t, blk[b := Block(blk[b].rows, alloc, payload)], b)
  {
    hide Layout;
    var after := blk[b := Block(blk[b].rows, alloc, payload)];
    forall r | r in after
      ensures Tagged(t, after, r)
      ensures r != b && After(after, r) != b ==> Footed(t, after, r)
      ensures r != b && After(after, r) == b ==> HalfFooted(t, after, r)
    {
      assert Tagged(m, blk, r) && Footed(m, blk, r);
    }
  }

  // ----- splitting

  /** The blocks after cutting block t behind its first rows. */
  ghost function SplitBlocks(blk: Blocks, t: int, rows: int, alloc: bool, payload: Payload): Blocks
    requires t in blk
  {
    blk[t := Block(rows, alloc, payload)][t + rows := Block(blk[t].rows - rows, false, 0)]
  }

  /** The headers of the two parts and the footer of the first. */
  function SplitHeaders(m: Mem, t: int, total: Rows, rows: nat, payload: Payload): Mem
    requires 0 <= t < t + rows < |m.hi| == |m.lo| && rows <= total && m.hi[t].Header?
  {
    var first := Header(payload, rows, true, m.hi[t].prevAlloc);
    m.(hi := m.hi[t := first][t + rows := Header(0, total - rows, false, true)], lo := m.lo[t + rows := first])
  }

  lemma SplitLayout(blk: Blocks, end: int, t: int, rows: int, payload: Payload)
    requires Layout(blk, end) && t in blk && t != 0 && MIN_ROWS <= rows && MIN_ROWS <= blk[t].rows - rows
    ensures Layout(SplitBlocks(blk, t, rows, true, payload), end) && t + rows !in blk && t + rows < end - 1
    ensures forall r ::
      Boundary(SplitBlocks(blk, t, rows, true, payload), end, r) <==> r == t + rows || Boundary(blk, end, r)
  {
    var after := SplitBlocks(blk, t, rows, true, payload);
    var s := t + rows;
    assert BlockFits(blk, end, t);
    InteriorRow(blk, end, t, s);
    assert forall r :: Boundary(after, end, r) <==> r == s || Boundary(blk, end, r);
    forall r | r in after
      ensures BlockFits(after, end, r)
    {
      if r != s { assert BlockFits(blk, end, r); }
    }
    forall r, q | r in after && q in after && r < q
      ensures After(after, r) <= q
    {
      SplitOrder(blk, end, t, s, r, q);
    }
  }

  lemma SplitOrder(blk: Blocks, end: int, t: int, s: int, r: int, q: int)
    requires Layout(blk, end) && t in blk && t < s < After(blk, t) && r < q
    requires (r == s || r in blk) && (q == s || q in blk) && s !in blk
    ensures r == s ==> After(blk, t) <= q
    ensures r != s && r != t ==> After(blk, r) <= q
    ensures r == t ==> s <= q
  {
    if q == s && r != t {
      assert BlockFits(blk, end, r);
    }
  }

  lemma SplitStep(m: Mem, blk: Blocks, lists: Lists, t: int, rows: int, payload: Payload, live: Blocks)
    requires Consistent(m, blk, NONE, lists) && t in blk && t != 0
    requires MIN_ROWS <= rows && MIN_ROWS <= blk[t].rows - rows
    requires ListedIn(blk, lists)
    requires Covered(live, SplitBlocks(blk, t, rows, true, payload), m.end)
    ensures Tagged(m, blk, t) && 0 <= t < t + rows < |m.hi| == |m.lo|
    ensures
      var n := SplitHeaders(m, t, blk[t].rows, rows, payload);
      var after := SplitBlocks(blk, t, rows, true, payload);
      && Consistent(n, after, t + rows, lists) && KeepsPayloads(m, n, live)
      && n.end == m.end && n.base == m.base
  {
    assert Tagged(m, blk, t) && BlockFits(blk, m.end, t);
    var s := t + rows;
    var n := SplitHeaders(m, t, blk[t].rows, rows, payload);
    var after := SplitBlocks(blk, t, rows, true, payload);
    SplitLayout(blk, m.end, t, rows, payload);
    SplitTiling(m, n, blk, t, rows, payload);
    SplitApart(blk, m.end, lists, t, rows, payload);
    assert BoundaryFrame(m, n, after);
    BoundaryFrameKeepsLinks(m, n, after, lists);
    BoundaryFrameKeepsPayloads(m, n, after, live);
  }

  lemma SplitApart(blk: Blocks, end: int, lists: Lists, t: int, rows: int, payload: Payload)
    requires Layout(blk, end) && t in blk && t != 0 && MIN_ROWS <= rows && MIN_ROWS <= blk[t].rows - rows
    requires Apart(blk, end, lists) && ListedIn(blk, lists)
    ensures Apart(SplitBlocks(blk, t, rows, true, payload), end, lists)
  {
    SplitLayout(blk, end, t, rows, payload);
    forall a | Listed(lists, a)
      ensures LinkRowInside(SplitBlocks(blk, t, rows, true, payload), end, a)
    {
      assert LinkRowInside(blk, end, a);
      if a + 1 == t + rows {
        InteriorRow(blk, end, t, a);
        assert false;
      }
    }
  }

  lemma SplitTiling(m: Mem, n: Mem, blk: Blocks, t: int, rows: int, payload: Payload)
    requires Tiled(m, blk) && t in blk && t != 0 && Tagged(m, blk, t)
    requires MIN_ROWS <= rows && MIN_ROWS <= blk[t].rows - rows && 0 <= t < t + rows < m.end - 1
    requires n == SplitHeaders(m, t, blk[t].rows, rows, payload)
    requires Layout(SplitBlocks(blk, t, rows, true, payload), m.end) && !Boundary(blk, m.end, t + rows)
    requires forall r {:trigger BlockFits(blk, m.end, r)} | r in blk :: BlockFits(blk, m.end, r)
    ensures TiledBut(n, SplitBlocks(blk, t, rows, true, payload), t + rows)
  {
    hide Layout;
    var after := SplitBlocks(blk, t, rows, true, payload);
    var s := t + rows;
    forall r | r in after
      ensures Tagged(n, after, r)
      ensures r != s && After(after, r) != s ==> Footed(n, after, r)
      ensures r != s && After(after, r) == s ==> HalfFooted(n, after, r)
    {
      if r != s && r != t {
        assert BlockFits(blk, m.end, r);
        assert Tagged(m, blk, r) && Footed(m, blk, r);
      }
    }
  }

  // ----- merging

  /** The blocks after the free block join has become part of the free block main before it. */
  ghost function Merged(blk: Blocks, main: int, join: int): Blocks
    requires main in blk && join in blk
  {
    map r | r in blk && r != join :: if r == main then Block(blk[main].rows + blk[join].rows, false, 0) else blk[r]
  }

  lemma MergedBlocks(blk: Blocks, main: int, join: int)
    requires main in blk && join in blk && main != join
    ensures
      var after := Merged(blk, main, join);
      && (forall r {:trigger r in after} :: r in after <==> r in blk && r != join)
      && (forall r {:trigger after[r]} | r in blk && r != join ::
            after[r] == if r == main then Block(blk[main].rows + blk[join].rows, false, 0) else blk[r])
  {
  }

  function MergeHeader(m: Mem, main: int, rows: Rows): Mem
    requires 0 <= main < |m.hi| && m.hi[main].Header?
  {
    WithHeader(m, main, Header(0, rows, false, m.hi[main].prevAlloc))
  }

  ghost predicate Mergeable(blk: Blocks, main: int, join: int) {
    && main in blk && join in blk && main != 0 && After(blk, main) == join
    && !blk[main].alloc && !blk[join].alloc
  }

  lemma MergeLayout(blk: Blocks, end: int, main: int, join: int)
    requires Layout(blk, end) && Mergeable(blk, main, join)
    ensures main in Merged(blk, main, join) && After(Merged(blk, main, join), main) == After(blk, join)
    ensures Layout(Merged(blk, main, join), end)
    ensures forall r :: Boundary(Merged(blk, main, join), end, r) <==> r != join && Boundary(blk, end, r)
  {
    assert BlockFits(blk, end, main);
    MergedBlocks(blk, main, join);
    hide Merged;
    var after := Merged(blk, main, join);
    assert BlockFits(blk, end, main) && BlockFits(blk, end, join);
    forall r | r in after
      ensures BlockFits(after, end, r)
    {
      assert BlockFits(blk, end, r);
      if r != main && After(blk, r) == join {
        PredecessorUnique(blk, end, r, main, join);
      }
    }
    forall r, q | r in after && q in after && r < q
      ensures After(after, r) <= q
    {
      if r == main {
        assert join < q;
      }
    }
  }

  lemma MergeStep(m: Mem, blk: Blocks, lists: Lists, main: int, join: int, live: Blocks)
    requires Consistent(m, blk, NONE, lists) && Mergeable(blk, main, join) && Covered(live, blk, m.end)
    ensures Tagged(m, blk, main) && Tagged(m, blk, join) && 0 <= blk[main].rows + blk[join].rows < ROW_LIMIT
    ensures
      var t := MergeHeader(m, main, blk[main].rows + blk[join].rows);
      var after := Merged(blk, main, join);
      && Consistent(t, after, main, lists) && KeepsPayloads(m, t, live) && Covered(live, after, m.end)
      && t.end == m.end && t.base == m.base && StaleFooter(t, after, lists, main, join)
  {
    assert Tagged(m, blk, main) && Tagged(m, blk, join) && Footed(m, blk, join);
    assert BlockFits(blk, m.end, main) && BlockFits(blk, m.end, join);
    MergedBlocks(blk, main, join);
    hide Merged;
    var t := MergeHeader(m, main, blk[main].rows + blk[join].rows);
    var after := Merged(blk, main, join);
    MergeLayout(blk, m.end, main, join);
    MergeTiling(m, t, blk, main, join);
    forall a | Listed(lists, a)
      ensures LinkRowInside(after, m.end, a) && a != join - 1
    {
      assert LinkRowInside(blk, m.end, a);
    }
    assert BoundaryFrame(m, t, after);
    BoundaryFrameKeepsLinks(m, t, after, lists);
    CoveredMerged(live, blk, m.end, main, join);
    BoundaryFrameKeepsPayloads(m, t, after, live);
  }

  lemma CoveredMerged(live: Blocks, blk: Blocks, end: int, main: int, join: int)
    requires Layout(blk, end) && Covered(live, blk, end) && Mergeable(blk, main, join)
    ensures Covered(live, Merged(blk, main, join), end)
  {
    assert BlockFits(blk, end, main) && BlockFits(blk, end, join);
    MergedBlocks(blk, main, join);
    hide Merged, Layout;
    var after := Merged(blk, main, join);
    forall q | q in live
      ensures Sheltered(after, end, q, After(live, q))
    {
      if q < end - 1 {
        var b :| Shelters(blk, b, q, After(live, q));
        assert Shelters(after, if b == join then main else b, q, After(live, q));
      }
    }
  }

  /** The footer of the merged block still leads to the old header of the part that joined. */
  ghost predicate StaleFooter(t: Mem, after: Blocks, lists: Lists, main: int, join: int) {
    && main in after && !Listed(lists, join - 1)
    && var n := After(after, main);
    && 0 <= join < n < |t.lo| == |t.hi| && t.lo[n].Header? && t.lo[n].rows == n - join
    && t.hi[join].Header? && !t.hi[join].alloc
  }

  lemma MergeTiling(m: Mem, t: Mem, blk: Blocks, main: int, join: int)
    requires Tiled(m, blk) && Mergeable(blk, main, join) && Tagged(m, blk, main)
    requires 0 <= blk[main].rows + blk[join].rows < ROW_LIMIT && blk[main].rows >= 0 && blk[join].rows >= 0
    requires t == MergeHeader(m, main, blk[main].rows + blk[join].rows)
    requires Layout(Merged(blk, main, join), m.end) && 0 <= main < m.end - 1
    ensures TiledBut(t, Merged(blk, main, join), main)
  {
    var after := Merged(blk, main, join);
    forall r | r in after
      ensures Tagged(t, after, r)
      ensures r != main && After(after, r) != main ==> Footed(t, after, r)
      ensures r != main && After(after, r) == main ==> HalfFooted(t, after, r)
    {
      assert r in blk;
      assert Tagged(m, blk, r) && Footed(m, blk, r);
      MergeRow(m, t, blk, after, main, r, blk[main].rows + blk[join].rows);
    }
    hide Layout, Merged, Mergeable;
  }

  lemma MergeRow(m: Mem, t: Mem, blk: Blocks, after: Blocks, main: int, r: int, rows: Rows)
    requires r in blk && r in after && Tagged(m, blk, r) && Footed(m, blk, r)
    requires 0 <= main < |m.hi| && m.hi[main].Header? && t == MergeHeader(m, main, rows)
    requires after[r] == if r == main then Block(rows, false, 0) else blk[r]
    ensures Tagged(t, after, r)
    ensures r != main && After(after, r) != main ==> Footed(t, after, r)
    ensures r != main && After(after, r) == main ==> HalfFooted(t, after, r)
  {
  }

  // ----- growing

  /** get_more_memory and the header of the new block: a page is added, the epilogue moves to its
      end, and its old place becomes a free block.  The first page also gets the prologue. */
  function Grow(m: Mem): Mem
    requires Shape(m) && m.end + PAGE_ROWS < |m.lo|
  {
    var first := m.end == 0;
    var b := if first then MIN_ROWS else m.end - 1;
    var rows := if first then PAGE_ROWS - MIN_ROWS - 1 else PAGE_ROWS;
    var hi1 := if first then m.hi[0 := Header(0, MIN_ROWS, true, false)] else m.hi;
    var end := m.end + PAGE_ROWS;
    m.(hi := hi1[end - 1 := Header(0, 0, true, false)][b := Header(0, rows, false, false)],
       lo := if first then m.lo[b := Header(0, MIN_ROWS, false, false)] else m.lo,
       end := end)
  }

  ghost function NewRow(end: int): int {
    if end == 0 then MIN_ROWS else end - 1
  }

  ghost function GrownBlocks(blk: Blocks, end: int): Blocks {
    if end == 0 then map[0 := Block(MIN_ROWS, true, 0), MIN_ROWS := Block(PAGE_ROWS - MIN_ROWS - 1, false, 0)]
    else blk[end - 1 := Block(PAGE_ROWS, false, 0)]
  }

  lemma GrowStep(m: Mem, blk: Blocks, lists: Lists, live: Blocks)
    requires Consistent(m, blk, NONE, lists) && m.end + PAGE_ROWS < |m.lo|
    requires Covered(live, GrownBlocks(blk, m.end), m.end + PAGE_ROWS)
    ensures
      var t := Grow(m);
      var after := GrownBlocks(blk, m.end);
      && Consistent(t, after, NewRow(m.end), lists) && KeepsPayloads(m, t, live)
      && NewRow(m.end) !in blk && !Listed(lists, NewRow(m.end))
  {
    var t := Grow(m);
    var e := m.end - 1;
    var after := GrownBlocks(blk, m.end);
    GrowLayout(blk, m.end);
    GrowTiling(m, t, blk);
    forall a | Listed(lists, a)
      ensures LinkRowInside(after, t.end, a) && a != e
    {
      assert LinkRowInside(blk, m.end, a);
    }
    assert BoundaryFrame(m, t, after);
    BoundaryFrameKeepsLinks(m, t, after, lists);
    BoundaryFrameKeepsPayloads(m, t, after, live);
  }

  lemma GrowLayout(blk: Blocks, end: int)
    requires Layout(blk, end) && end > 0
    ensures Layout(GrownBlocks(blk, end), end + PAGE_ROWS) && end - 1 !in blk && end - 1 > 0
  {
    var after := GrownBlocks(blk, end);
    assert BlockFits(blk, end, 0);
    forall r | r in blk
      ensures BlockFits(after, end + PAGE_ROWS, r) && r < end - 1 && After(blk, r) <= end - 1
    {
      assert BlockFits(blk, end, r);
    }
    assert end - 1 !in blk;
    assert BlockFits(after, end + PAGE_ROWS, end - 1);
    forall r, q | r in after && q in after && r < q
      ensures After(after, r) <= q
    {
    }
  }

  lemma GrowTiling(m: Mem, t: Mem, blk: Blocks)
    requires Tiled(m, blk) && m.end + PAGE_ROWS < |m.lo| && t == Grow(m)
    requires Layout(GrownBlocks(blk, m.end), t.end) && 0 < m.end - 1 && m.end - 1 !in blk
    ensures TiledBut(t, GrownBlocks(blk, m.end), m.end - 1)
  {
    var after := GrownBlocks(blk, m.end);
    var e := m.end - 1;
    forall r | r in after
      ensures Tagged(t, after, r)
      ensures r != e && After(after, r) != e ==> Footed(t, after, r)
      ensures r != e && After(after, r) == e ==> HalfFooted(t, after, r)
    {
      if r != e {
        assert BlockFits(blk, m.end, r);
        assert Tagged(m, blk, r) && Footed(m, blk, r);
      }
    }
  }

  /** The first page. */
  lemma FirstGrowStep(m: Mem, lists: Lists, live: Blocks)
    requires Shape(m) && m.end == 0 && PAGE_ROWS < |m.lo| && Linked(m, lists) && forall a :: !Listed(lists, a)
    requires Covered(live, GrownBlocks(map[], 0), PAGE_ROWS)
    ensures
      var t := Grow(m);
      Consistent(t, GrownBlocks(map[], 0), NewRow(0), lists) && KeepsPayloads(m, t, live)
  {
    var t := Grow(m);
    var after := GrownBlocks(map[], 0);
    forall r | r in after
      ensures BlockFits(after, t.end, r) && Tagged(t, after, r)
    {
    }
    assert HalfFooted(t, after, 0);
    BoundaryFrameKeepsLinks(m, t, after, lists);
    BoundaryFrameKeepsPayloads(m, t, after, live);
  }
}

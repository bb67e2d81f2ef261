/** Between calls the free blocks are the gaps between the live ones: rows that no live block takes up lie in one
    free block together. */
module HeapGaps {
  import opened HeapWords
  import opened HeapMemory
  import opened HeapTiling
  import opened HeapLists
  import opened HeapSteps
  import opened HeapHeaders
  import opened HeapInvariants
  import opened HeapMoves
  import opened HeapDamage
  import opened HeapGrowth
  import opened HeapTaking
  import opened HeapServing

  /** No live block takes up a row from x on and before y. */
  ghost predicate Vacant(live: Blocks, x: int, y: int) {
    forall q {:trigger q in live} | q in live :: After(live, q) <= x || y <= q
  }

  /** The rows from x on and before y lie in one free block. */
  ghost predicate InOneFree(blk: Blocks, x: int, y: int) {
    exists f :: f in blk && !blk[f].alloc && f <= x && y <= After(blk, f)
  }

  /** Some block takes up row x. */
  lemma {:induction false} BlockAround(blk: Blocks, end: int, from: int, x: int) returns (r: int)
    requires Layout(blk, end) && from in blk && from <= x < end - 1
    ensures r in blk && r <= x < After(blk, r)
    decreases end - from
  {
    assert BlockFits(blk, end, from);
    r := from;
    if After(blk, from) <= x { r := BlockAround(blk, end, After(blk, from), x); }
  }

  /** What lies between live blocks is a single free block. */
  lemma VacantIsFree(blk: Blocks, end: int, x: int, y: int)
    requires Layout(blk, end) && Coalesced(blk) && MIN_ROWS <= x < y < end && Vacant(Live(blk), x, y)
    ensures InOneFree(blk, x, y)
  {
    assert BlockFits(blk, end, 0);
    var f := BlockAround(blk, end, 0, x);
    var n := After(blk, f);
    assert BlockFits(blk, end, f) && Separated(blk, f);
    assert f in Live(blk) <==> blk[f].alloc;
    assert n in Live(blk) <==> n in blk && blk[n].alloc;
    assert n in blk ==> BlockFits(blk, end, n);
  }

  /** And a free block is vacant. */
  lemma FreeIsVacant(blk: Blocks, end: int, f: int)
    requires Layout(blk, end) && f in blk && !blk[f].alloc
    ensures Vacant(Live(blk), f, After(blk, f)) && MIN_ROWS <= f < After(blk, f) < end
  {
    assert BlockFits(blk, end, f) && BlockFits(blk, end, 0);
  }

  /** Behind the prologue and before the epilogue there are total rows from x on that no live block takes up. */
  ghost predicate Gap(live: Blocks, end: int, x: int, total: int) {
    MIN_ROWS <= x && x + total < end && Vacant(live, x, x + total)
  }

  /** A request fits exactly if there is a gap of its size between live blocks, so that whether the heap has to
      grow, or malloc fails, depends on nothing but where the live blocks lie. */
  lemma FitsExactly(m: Mem, blk: Blocks, lists: seq<seq<int>>, total: int)
    requires HeapOk(m, blk, lists) && total > 0
    ensures Fits(blk, total) <==> exists x :: Gap(Live(blk), m.end, x, total)
  {
    if Fits(blk, total) {
      var f :| f in blk && !blk[f].alloc && blk[f].rows >= total;
      FreeIsVacant(blk, m.end, f);
      assert Gap(Live(blk), m.end, f, total);
    }
    if x :| Gap(Live(blk), m.end, x, total) {
      VacantIsFree(blk, m.end, x, x + total);
      var f :| f in blk && !blk[f].alloc && f <= x && x + total <= After(blk, f);
      assert blk[f].rows >= total;
    }
  }

  // ----- memory that is given back

  /** Up to block b the live blocks of blk are live ones of blk0. */
  ghost predicate NoNewLive(blk0: Blocks, blk: Blocks, b: int) {
    forall q {:trigger q in Live(blk)} | q in Live(blk) && q != b :: q in Live(blk0) && blk0[q] == blk[q]
  }

  /** What block b no longer takes up lies in one free block. */
  lemma GivenBack(blk0: Blocks, blk: Blocks, end: int, b: int, from: int)
    requires Layout(blk0, end) && Layout(blk, end) && Coalesced(blk)
    requires b in Live(blk0) && b <= from < After(blk0, b) && NoNewLive(blk0, blk, b)
    requires b in Live(blk) ==> After(blk, b) <= from
    ensures InOneFree(blk, from, After(blk0, b))
  {
    assert BlockFits(blk0, end, b) && BlockFits(blk0, end, 0);
    VacantIsFree(blk, end, from, After(blk0, b));
  }

  /** Rows that lie in a free block still do when a live block has been freed. */
  lemma StaysFree(blk0: Blocks, blk: Blocks, end: int, x: int, y: int, b: int)
    requires Layout(blk0, end) && Layout(blk, end) && Coalesced(blk) && InOneFree(blk0, x, y) && x < y
    requires NoNewLive(blk0, blk, b) && b !in Live(blk)
    ensures InOneFree(blk, x, y)
  {
    var f :| f in blk0 && !blk0[f].alloc && f <= x && y <= After(blk0, f);
    FreeIsVacant(blk0, end, f);
    VacantIsFree(blk, end, x, y);
  }

  /** Block b, free in before, has been taken for total rows: cut if what is left over is a block, and else whole. */
  ghost predicate CutToSize(before: Blocks, after: Blocks, b: int, total: int) {
    && b in before && !before[b].alloc && total <= before[b].rows && b in after && after[b].alloc
    && if before[b].rows >= total + 2 then after[b].rows == total && InOneFree(after, b + total, After(before, b))
       else after[b].rows == before[b].rows
  }

  lemma ObtainedCuts(intended: bool, s0: Snapshot, s: Snapshot, t: Snapshot, b: int, damage: Damage, total: int,
      payload: Payload)
    requires Obtained(intended, s0, s, t, b, damage, total, payload) && total > 0
    ensures CutToSize(s.blk, t.blk, b, total)
  {
    hide Searched, HeapOk, DamageFor, KeepsPayloads, HitsOne, BrokenBy, Served, Live;
    FoundFree(s0, s, t.m.end, total, b);
    if s.blk[b].rows >= total + 2 {
      var f := b + total;
      assert f in t.blk && !t.blk[f].alloc && After(t.blk, f) == After(s.blk, b);
    }
  }

  lemma FoundFree(s0: Snapshot, s: Snapshot, end: int, total: int, b: int)
    requires Searched(s0, s, end, total, b)
    ensures b in s.blk && !s.blk[b].alloc && s.blk[b].rows >= total
  {
    FirstFitIsBlock(s.blk, s.lists, ClassOf(total), total, b);
  }

  /** The payload of block b has been made size bytes without moving: with 32 bytes or more less, the block has
      just the rows that these need and the rest lies in a free block; otherwise it has the rows that it had. */
  ghost predicate ResizedInPlace(s: Snapshot, t: Snapshot, b: int, size: Payload) {
    && t.m.end == s.m.end && b in s.blk && b in t.blk && t.blk[b].alloc && t.blk[b].payload == size
    && if s.blk[b].payload - size >= 32 then
         && t.blk[b].rows == RowsFor(size) < s.blk[b].rows
         && InOneFree(t.blk, b + RowsFor(size), After(s.blk, b))
       else t.blk[b].rows == s.blk[b].rows
  }

  lemma SizedInPlace(s: Snapshot, t: Snapshot, b: int, size: Payload, live: Blocks)
    requires HeapOk(s.m, s.blk, s.lists) && (HeapOk(t.m, t.blk, t.lists) || HeapEmpty(t.m, t.blk, t.lists))
    requires t.m.end == s.m.end && b in Live(s.blk)
    requires b in live && live == Live(s.blk)[b := live[b]] && Live(t.blk) == live && live[b].payload == size > 0
    requires live[b].alloc && live[b].rows == if s.blk[b].payload - size >= 32 then RowsFor(size) else s.blk[b].rows
    requires RowsFor(s.blk[b].payload) <= s.blk[b].rows
    ensures ResizedInPlace(s, t, b, size)
  {
    hide RowsFor, Live, InOneFree, WildernessLast, Classed, FreeListed, Linked, Sized;
    LiveInMemory(t.m, t.blk, t.lists, b);
    assert b in Live(t.blk) && Live(t.blk)[b] == live[b];
    if s.blk[b].payload - size >= 32 {
      ShrinkLeavesBlock(s.blk[b].payload, size, s.blk[b].rows);
      GivenBack(s.blk, t.blk, s.m.end, b, b + RowsFor(size));
    }
  }

  lemma FreedIsFree(m0: Mem, blk0: Blocks, lists0: seq<seq<int>>, m: Mem, blk: Blocks, lists: seq<seq<int>>, b: int)
    requires HeapOk(m0, blk0, lists0) && HeapOk(m, blk, lists) && m.end == m0.end
    requires b in Live(blk0) && Live(blk) == Live(blk0) - {b}
    ensures InOneFree(blk, b, After(blk0, b))
  {
    hide InOneFree, WildernessLast, Classed, FreeListed, Linked, Sized;
    assert BlockFits(blk0, m.end, b);
    GivenBack(blk0, blk, m.end, b, b);
  }

  /** The payload of block b has moved to block q, found free in before: q has been cut to size, and the rows of b
      lie in one free block. */
  ghost predicate MovedInBlocks(before: Blocks, after: Blocks, b: int, rows: int, q: int, total: int) {
    CutToSize(before, after, q, total) && InOneFree(after, b, b + rows)
  }

  lemma MovedCuts(before: Blocks, m1: Mem, blk1: Blocks, lists1: seq<seq<int>>, m: Mem, blk: Blocks,
      lists: seq<seq<int>>, b: int, q: int, total: int)
    requires HeapOk(m1, blk1, lists1) && (HeapOk(m, blk, lists) || HeapEmpty(m, blk, lists)) && m.end == m1.end
    requires b in Live(blk1) && Live(blk) == Live(blk1) - {b} && q in Live(blk1) && q != b
    requires CutToSize(before, blk1, q, total)
    ensures MovedInBlocks(before, blk, b, blk1[b].rows, q, total)
  {
    hide InOneFree, WildernessLast, Classed, FreeListed, Linked, Sized;
    LiveInMemory(m, blk, lists, q);
    FreedIsFree(m1, blk1, lists1, m, blk, lists, b);
    assert q in Live(blk) && Live(blk)[q] == Live(blk1)[q];
    if before[q].rows >= total + 2 { StaysFree(blk1, blk, m.end, q + total, After(before, q), b); }
  }
}

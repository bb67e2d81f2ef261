/** What searching, growing, serving and releasing mean for the blocks and the lists. */
module HeapServing {
  import opened HeapWords
  import opened HeapMemory
  import opened HeapTiling
  import opened HeapLists
  import opened HeapSteps
  import opened HeapHeaders
  import opened HeapInvariants
  import opened HeapMoves
  import opened HeapDamage
  import opened HeapGrowth
  import opened HeapTaking
  import opened HeapWalks

  ghost predicate NoneFits(blk: Blocks, list: seq<int>, total: int) {
    forall a {:trigger a in list} | a in list :: a in blk && blk[a].rows < total
  }

  /** tmp is large enough, and nothing before it in the lists from index on is. */
  ghost predicate FirstFit(blk: Blocks, lists: Lists, index: int, total: int, tmp: int) {
    && tmp in blk && !blk[tmp].alloc && blk[tmp].rows >= total && tmp != NULL
    && exists i, k :: At(lists, i, k, tmp) && index <= i
        && NoneFits(blk, lists[i][..k], total) && forall j | 0 <= index <= j < i :: NoneFits(blk, lists[j], total)
  }

  lemma FirstFitIsBlock(blk: Blocks, lists: Lists, index: int, total: int, tmp: int)
    requires FirstFit(blk, lists, index, total, tmp)
    ensures tmp in blk && !blk[tmp].alloc && blk[tmp].rows >= total
  {
  }

  /** A state of the allocator. */
  datatype Snapshot = Snapshot(m: Mem, blk: Blocks, lists: Lists)

  /** In state s, the search for total rows finds tmp, the first fit. */
  ghost predicate Found(s: Snapshot, total: int, tmp: int) {
    HeapOk(s.m, s.blk, s.lists) && FirstFit(s.blk, s.lists, ClassOf(total), total, tmp)
  }

  lemma FoundInPages(s: Snapshot, total: int, tmp: int)
    requires Found(s, total, tmp)
    ensures s.m.end > 0 && Shape(s.m)
  {
  }

  /** The lists hold free blocks with headers. */
  ghost predicate ListedFree(m: Mem, blk: Blocks, lists: Lists) {
    forall a {:trigger Listed(lists, a)} | Listed(lists, a) :: a in blk && !blk[a].alloc && Tagged(m, blk, a)
  }

  lemma SearchStarts(m: Mem, blk: Blocks, lists: Lists)
    requires HeapOk(m, blk, lists) || HeapEmpty(m, blk, lists)
    ensures ListedFree(m, blk, lists)
  {
    if m.end > 0 {
      forall a | Listed(lists, a)
        ensures a in blk && !blk[a].alloc && Tagged(m, blk, a)
      {
      }
    }
  }

  /** Some free block is large enough. */
  ghost predicate Fits(blk: Blocks, total: int) {
    exists r :: r in blk && !blk[r].alloc && blk[r].rows >= total
  }

  /** The rows that growing the heap from end0 to end adds to the free rows at its end. */
  function Gain(end0: int, end: int): int {
    if end == end0 then 0 else if end0 == 0 then end - MIN_ROWS - 1 else end - end0
  }

  /** What a search for total rows means for the size of the heap: it is as before exactly if a free
      block was large enough; otherwise it grows until the free rows at its end suffice, and no further,
      or until it can grow no more. */
  ghost predicate GrowthNeeded(blk0: Blocks, end0: int, end: int, total: int, found: bool) {
    && (found ==> (end == end0 <==> Fits(blk0, total)))
    && (found && end > end0 ==>
         Tail(blk0, end0) + Gain(end0, end - PAGE_ROWS) < total <= Tail(blk0, end0) + Gain(end0, end))
    && (!found ==> !Fits(blk0, total) && Tail(blk0, end0) + Gain(end0, end) < total)
  }

  lemma FitMeansOk(m: Mem, blk: Blocks, lists: Lists, t: int, total: int)
    requires (HeapOk(m, blk, lists) || HeapEmpty(m, blk, lists)) && t in blk && !blk[t].alloc && blk[t].rows >= total
    ensures HeapOk(m, blk, lists) && t != 0 && GrowthNeeded(blk, m.end, m.end, total, true)
  {
  }

  /** When the search fails, no free block anywhere is large enough. */
  lemma NoFit(m: Mem, blk: Blocks, lists: Lists, total: int)
    requires HeapOk(m, blk, lists) || HeapEmpty(m, blk, lists)
    requires forall i | ClassOf(total) <= i < NUM_FREE_LISTS :: NoneFits(blk, lists[i], total)
    ensures !Fits(blk, total)
    ensures (total > 0 ==> Tail(blk, m.end) < total && GrowthNeeded(blk, m.end, m.end, total, false))
  {
    forall r | r in blk && !blk[r].alloc
      ensures blk[r].rows < total
    {
      if blk[r].rows >= total { SearchComplete(m, blk, lists, total, r); }
    }
    if m.end > 0 {
      var q := SomeLastAllocated(blk, m.end, 0);
      TailIs(blk, m.end, q);
      TailIsBlock(blk, m.end, q);
    }
  }

  lemma GrowthChain(blk0: Blocks, end0: int, blk1: Blocks, end1: int, end: int, total: int, found: bool)
    requires end0 >= 0 && end1 == end0 + PAGE_ROWS && end >= end1 && (end - end1) % PAGE_ROWS == 0
    requires !Fits(blk0, total) && Tail(blk0, end0) < total && Tail(blk1, end1) == Tail(blk0, end0) + PageGain(end0)
    requires Layout(blk1, end1) && Coalesced(blk1) && OnlyTailGrows(blk0, blk1, end1)
    requires GrowthNeeded(blk1, end1, end, total, found)
    ensures GrowthNeeded(blk0, end0, end, total, found)
  {
    hide Tail;
    if Fits(blk1, total) {
      var r :| r in blk1 && !blk1[r].alloc && blk1[r].rows >= total;
      TailRows(blk1, end1, r);
    }
  }

  /** The state once the new page is there and its block has a header. */
  lemma GrowthStarts(m: Mem, blk: Blocks, lists: Lists, live: Blocks) returns (w: int)
    requires Shape(m) && m.end + PAGE_ROWS < |m.lo| && Linked(m, lists)
    requires Covered(live, GrownBlocks(blk, m.end), m.end + PAGE_ROWS) && NewRow(m.end) !in live
    requires HeapOk(m, blk, lists) || HeapEmpty(m, blk, lists)
    ensures
      var t, after, nb := Grow(m), GrownBlocks(blk, m.end), NewRow(m.end);
      && Consistent(t, after, nb, lists) && KeepsPayloads(m, t, live)
      && nb in after && nb != 0 && !Listed(lists, nb) && AllClear(live, lists) && Clear(live, nb)
      && var lists1 := Pushed(lists, NUM_FREE_LISTS - 1, nb);
      && FreeListed(after, lists1) && ClassedBut(after, t.end, lists1, w) && Dangling(after, w)
  {
    var t, after, nb := Grow(m), GrownBlocks(blk, m.end), NewRow(m.end);
    if m.end == 0 {
      FirstGrowStep(m, lists, live);
      w := NONE;
    } else {
      GrowStep(m, blk, lists, live);
      GrowLayout(blk, m.end);
      AllClearFree(after, t.end, lists, live);
      w := GrownClassed(blk, m.end, lists, Pushed(lists, NUM_FREE_LISTS - 1, nb));
    }
    BlockIsClear(after, t.end, live, nb);
    PushedDisjoint(lists, NUM_FREE_LISTS - 1, nb);
  }

  /** Rows that growing by a page leaves alone: the new ones behind the link row of their block, up to the
      new epilogue, and those behind the heap. */
  ghost function Fallow(end: int, length: int): Blocks {
    var q, e := NewRow(end) + 1, end + PAGE_ROWS - 1;
    map[q := Block(e - q, false, 0), e := Block(length - e, false, 0)]
  }

  /** The rows of the last page behind the link row that its block had when it was added. */
  ghost function LastPage(end: int): Blocks {
    map[end - PAGE_ROWS + MIN_ROWS + 1 := LastRows()]
  }

  ghost function LastRows(): Block {
    Block(PAGE_ROWS - MIN_ROWS - 2, false, 0)
  }

  lemma FallowCovered(live: Blocks, blk: Blocks, end: int, length: int)
    requires end >= 0 && Within(live, blk) && if end == 0 then blk == map[] else Layout(blk, end)
    ensures Covered(live + Fallow(end, length), GrownBlocks(blk, end), end + PAGE_ROWS)
    ensures NewRow(end) !in live + Fallow(end, length)
    ensures forall q | q in live :: q !in Fallow(end, length)
  {
    hide Sheltered, Layout;
    var grown, fallow := GrownBlocks(blk, end), Fallow(end, length);
    forall r | r in live
      ensures r in grown && grown[r] == live[r] && r < end - 1
    {
      LiveInGrown(blk, end, r);
    }
    WithinCovered(live, grown, end + PAGE_ROWS);
    FallowSheltered(blk, end, length);
    CoveredUnion(live, fallow, grown, end + PAGE_ROWS);
  }

  lemma LiveInGrown(blk: Blocks, end: int, r: int)
    requires r in blk && end >= 0 && if end == 0 then blk == map[] else Layout(blk, end)
    ensures r in GrownBlocks(blk, end) && GrownBlocks(blk, end)[r] == blk[r] && r < end - 1
  {
    assert BlockFits(blk, end, r);
  }

  lemma FallowSheltered(blk: Blocks, end: int, length: int)
    requires end >= 0
    ensures Covered(Fallow(end, length), GrownBlocks(blk, end), end + PAGE_ROWS)
  {
    var q := NewRow(end) + 1;
    assert Shelters(GrownBlocks(blk, end), NewRow(end), q, After(Fallow(end, length), q));
  }

  /** Adding a page keeps what the last page, now or later, is to hold. */
  lemma FallowKeepsLastPage(m: Mem, t: Mem, end0: int, end: int)
    requires KeepsPayloads(m, t, Fallow(end0, |m.lo|)) && 0 <= end0 < end < |m.lo|
    requires (end - end0) % PAGE_ROWS == 0
    ensures KeepsPayloads(m, t, LastPage(end))
  {
    var p := end - PAGE_ROWS + MIN_ROWS + 1;
    if end == end0 + PAGE_ROWS {
      KeepsInside(m, t, Fallow(end0, |m.lo|), NewRow(end0) + 1, p, LastRows());
    } else {
      assert end >= end0 + 2 * PAGE_ROWS;
      KeepsInside(m, t, Fallow(end0, |m.lo|), end0 + PAGE_ROWS - 1, p, LastRows());
    }
  }

  /** The damage, as it follows from the heap before the call, is exact: taking t breaks the heap exactly if
      memory then describes the blocks and lists no more, up to the epilogue, and otherwise changes a live
      payload exactly if it says so. */
  lemma DamageOfExactly(m: Mem, blk: Blocks, lists: Lists, i: int, k: int, t: int, total: int, payload: Payload)
    requires HeapOk(m, blk, lists) && At(lists, i, k, t) && t in blk && t != 0 && !blk[t].alloc
    requires blk[t].rows == total + 1 && MIN_ROWS <= total
    ensures 0 <= t < |m.lo| - 1 && m.hi[t].Header?
    ensures
      var u, after, rest := Touch(Bared(m, t, payload), t + total), Taken(blk, t, total, payload), Removed(lists, i, k);
      && (DamageOf(m, blk, t, total, payload) == HeapBroken <==> !Repairable(u, after, rest))
      && (DamageOf(m, blk, t, total, payload) == Unharmed <==>
           Repairable(u, after, rest) && KeepsPayloads(m, u, Live(blk)))
  {
    hide Touch, Bared, TiledBut, Linked, Apart, FreeListed, Layout, KeepsPayloads, Repairable, DamageAt, Live, Disjoint,
      Listed, TakenWith, TakenFree, Classed, WildernessLast, Coalesced, Sized;
    Parts(m, blk, NONE, lists);
    PartsOf(m, blk, NONE, lists, t);
    BaredKeeps(m, blk, lists, i, k, t, total, payload);
    var m2, after := Bared(m, t, payload), Taken(blk, t, total, payload);
    TakenMembers(blk, m.end, lists, lists, t, total, payload, Live(blk));
    TakenOut(blk, lists, lists, t, total, payload, i, k);
    DamageExactly(m2, after, Removed(lists, i, k), Live(blk), t, t + total);
    KeepsLater(m, m2, Touch(m2, t + total), Live(blk));
  }

  /** From state s0 the search for total rows ends in state s with heap end `end` and finds b.  Without a new
      page s is s0; otherwise live payloads and, in the last page, the rows behind its link row are as in s0. */
  ghost predicate Searched(s0: Snapshot, s: Snapshot, end: int, total: int, b: int) {
    && Found(s, total, b) && s.m.end == end && s0.m.end <= end && Live(s.blk) == Live(s0.blk)
    && KeepsPayloads(s0.m, s.m, Live(s0.blk))
    && (end == s0.m.end ==> s == s0)
    && (end > s0.m.end ==> KeepsPayloads(s0.m, s.m, LastPage(end)))
  }

  lemma SearchedHere(s: Snapshot, total: int, b: int)
    requires Found(s, total, b)
    ensures Searched(s, s, s.m.end, total, b)
  {
    KeepsReflexive(s.m, Live(s.blk));
  }

  /** A page has been added between s0 and s1, and the search goes on from there. */
  lemma SearchedFrom(s0: Snapshot, s1: Snapshot, s: Snapshot, end: int, total: int, b: int)
    requires Searched(s1, s, end, total, b) && Live(s1.blk) == Live(s0.blk) && KeepsPayloads(s0.m, s1.m, Live(s0.blk))
    requires 0 <= s0.m.end && s1.m.end == s0.m.end + PAGE_ROWS && (end - s0.m.end) % PAGE_ROWS == 0
    requires KeepsPayloads(s0.m, s1.m, Fallow(s0.m.end, |s0.m.lo|))
    ensures Searched(s0, s, end, total, b)
  {
    hide KeepsPayloads, Live, Found, Fallow, LastPage;
    FoundInPages(s, total, b);
    KeepsTransitive(s0.m, s1.m, s.m, Live(s0.blk));
    SameLength(s1.m, s.m, Live(s1.blk));
    SameLength(s0.m, s1.m, Live(s0.blk));
    FallowKeepsLastPage(s0.m, s1.m, s0.m.end, end);
    if end == s1.m.end {
      KeepsReflexive(s1.m, LastPage(end));
    }
    KeepsTransitive(s0.m, s1.m, s.m, LastPage(end));
  }

  lemma SameLength(m: Mem, t: Mem, live: Blocks)
    requires KeepsPayloads(m, t, live)
    ensures |t.lo| == |m.lo|
  {
  }

  /** The damage that serving the request in the state that its search ends in does. */
  ghost function DamageFor(intended: bool, s: Snapshot, b: int, total: int, payload: Payload): Damage {
    if intended then Unharmed else DamageOf(s.m, s.blk, b, total, payload)
  }

  /** t is a new live block for the payload; the others are as before. */
  ghost predicate Served(before: Blocks, after: Blocks, t: int, total: int, payload: Payload) {
    && t in after && t !in Live(before) && Live(after) == Live(before)[t := after[t]]
    && after[t].payload == payload && after[t].rows >= total
  }

  lemma TakenKeeps(blk: Blocks, end: int, before: Lists, after: Lists, t: int, total: int, payload: Payload)
    requires Layout(blk, end) && Classed(blk, end, before) && Coalesced(blk) && Sized(blk)
    requires t in blk && t != 0 && !blk[t].alloc && 0 < payload && RowsFor(payload) <= total <= blk[t].rows
    requires TakenLists(before, after, t, total, blk[t].rows)
    ensures
      var b1 := Taken(blk, t, total, payload);
      && Served(blk, b1, t, total, payload) && Classed(b1, end, after) && Coalesced(b1) && Sized(b1)
      && (blk[t].rows == total + 1 ==> b1[t].rows == total + 1)
  {
    RowsForIsLeast(payload);
    TakenRows(blk, t, total, payload);
    TakenKeepsClasses(blk, end, before, after, t, total, payload);
    TakenKeepsCoalesced(blk, end, t, total, payload);
    TakenKeepsSized(blk, end, t, total, payload);
    TakenLive(blk, end, t, total, payload);
  }

  lemma ServedWithin(before: Blocks, after: Blocks, t: int, total: int, payload: Payload)
    requires Served(before, after, t, total, payload)
    ensures Within(Live(before), after)
  {
    var live := Live(before);
    forall q | q in live
      ensures q in after && after[q] == live[q] && live[q].alloc
    {
      assert q in Live(after) && Live(after)[q] == live[q];
    }
  }

  lemma LivePasses(m: Mem, blk: Blocks, lists: Lists, b: int)
    requires HeapOk(m, blk, lists) || HeapEmpty(m, blk, lists)
    ensures b in Live(blk) ==> PassesChecks(m, b)
  {
    if b in Live(blk) { LivePassesChecks(m, blk, lists, b); }
  }

  lemma LiveInMemory(m: Mem, blk: Blocks, lists: Lists, b: int)
    requires (HeapOk(m, blk, lists) || HeapEmpty(m, blk, lists)) && b in Live(blk)
    ensures HeapOk(m, blk, lists) && 0 <= b < After(blk, b) < |m.lo| && Tagged(m, blk, b) && blk[b].alloc
  {
    PartsOf(m, blk, NONE, lists, b);
  }

  lemma ReleaseStarts(m: Mem, blk: Blocks, lists: Lists, b: int, live: Blocks)
    requires Consistent(m, blk, NONE, lists) && FreeListed(blk, lists) && b in Live(blk)
    requires Covered(live, blk, m.end) && b !in live
    ensures Consistent(m, blk, b, lists) && b != 0
    ensures AllClear(live, lists) && Clear(live, b) && !Listed(lists, b)
  {
    Weaken(m, blk, b);
    AllClearOf(blk, m.end, lists, live);
    BlockIsClear(blk, m.end, live, b);
  }

  /** The lists hold what they should once b is listed and marked free. */
  lemma Released(blk: Blocks, end: int, lists: Lists, b: int)
    requires FreeListed(blk, lists) && Classed(blk, end, lists) && b in blk && b != NONE && Disjoint(lists)
    requires !Listed(lists, b)
    requires |lists| == NUM_FREE_LISTS
    ensures
      var after, lists1 := blk[b := Block(blk[b].rows, false, 0)], Pushed(lists, ClassOf(blk[b].rows), b);
      FreeListed(after, lists1) && Classed(after, end, lists1)
  {
    var after, lists1 := blk[b := Block(blk[b].rows, false, 0)], Pushed(lists, ClassOf(blk[b].rows), b);
    PushedDisjoint(lists, ClassOf(blk[b].rows), b);
    forall i, a | 0 <= i < |lists1| && a in lists1[i] && a != NONE
      ensures RightList(after, end, i, a)
    {
      assert a in lists[i] ==> Listed(lists, a) && RightList(blk, end, i, a);
    }
  }

  lemma ReleasedLive(blk: Blocks, b: int)
    requires b in Live(blk)
    ensures Live(blk[b := Block(blk[b].rows, false, 0)]) == Live(blk) - {b}
  {
    var l0, l1 := Live(blk) - {b}, Live(blk[b := Block(blk[b].rows, false, 0)]);
    assert forall r :: r in l1 <==> r in l0;
    assert forall r | r in l0 :: l1[r] == l0[r];
  }

  lemma ReleasedSized(blk: Blocks, b: int)
    requires Sized(blk) && b in blk
    ensures Sized(blk[b := Block(blk[b].rows, false, 0)])
  {
  }

  /** The block of a payload pointer. */
  function BlockOf(pp: int): int {
    pp / 16 - 1
  }

  /** Where the last touch finds memory when t has been taken whole. */
  lemma TakenWhole(m0: Mem, m1: Mem, m2: Mem, blk0: Blocks, blk: Blocks, t: int, total: int, payload: Payload,
      live: Blocks)
    requires Shape(m0) && 0 <= t < t + total < |m0.lo| && t < |m0.lo| - 1 && m0.hi[t].Header? && MIN_ROWS <= total
    requires t in blk0 && total <= blk0[t].rows && blk == Taken(blk0, t, total, payload) && t in blk
    requires live == Live(blk0) && t !in live && Live(blk) == live[t := blk[t]]
    requires blk0[t].rows - total < MIN_ROWS ==> m1 == Touch(Retag(m0, t, payload, true), t)
    requires Shape(m1) && |m1.lo| == |m0.lo| && Linkable(m1, NextOf(m1, t)) && Linkable(m1, PrevOf(m1, t))
    requires m2 == Isolate(m1, t)
    ensures live == Live(blk) - {t} && Shape(m2) && |m2.lo| == |m0.lo|
    ensures blk[t].rows == total || blk[t].rows == total + 1
    ensures blk[t].rows == total ==> DamageOf(m0, blk0, t, total, payload) == Unharmed
    ensures blk[t].rows == total + 1 ==> m2 == Bared(m0, t, payload)
    ensures blk[t].rows == total + 1 ==> DamageOf(m0, blk0, t, total, payload) == DamageAt(m2, blk, live, t + total)
  {
    hide Touch, Isolate, DamageAt, NextOf, PrevOf, Live, Retag;
    IsolateKeepsShape(m1, t);
    TakenRows(blk0, t, total, payload);
  }

  /** The touch behind the block b, taken whole in state m, has left t, which is no heap any more. */
  ghost predicate BrokenBy(m: Mem, t: Mem, b: int, total: int, payload: Payload) {
    Shape(m) && 0 <= b < |m.lo| - 1 && m.hi[b].Header? && t == Touch(Bared(m, b, payload), b + total)
  }

  lemma PartsBetween(m: Mem, blk: Blocks, lists: Lists)
    requires HeapOk(m, blk, lists) || HeapEmpty(m, blk, lists)
    ensures m.end >= 0 && Sized(blk) && if m.end == 0 then blk == map[] else Layout(blk, m.end) && Coalesced(blk)
  {
  }

  lemma ServedSame(blk0: Blocks, blk1: Blocks, blk: Blocks, t: int, total: int, payload: Payload)
    requires Live(blk1) == Live(blk0) && Served(blk1, blk, t, total, payload)
    ensures Served(blk0, blk, t, total, payload)
  {
  }

  /** Setting up the list heads makes no difference to a search. */
  lemma SearchedInit(m0: Mem, m1: Mem, blk: Blocks, lists: Lists, s: Snapshot, end: int, total: int, b: int)
    requires HeapOk(m0, blk, lists) || HeapEmpty(m0, blk, lists)
    requires m1.lo == m0.lo && m1.hi == m0.hi && m1.base == m0.base && m1.end == m0.end
    requires HeapOk(m0, blk, lists) ==> m1 == m0
    requires Searched(Snapshot(m1, blk, lists), s, end, total, b)
    ensures Searched(Snapshot(m0, blk, lists), s, end, total, b)
  {
    hide KeepsPayloads, Live, Found, LastPage;
    FoundInPages(s, total, b);
    KeepsIfSameRows(m0, m1, Live(blk));
    KeepsTransitive(m0, m1, s.m, Live(blk));
    KeepsIfSameRows(m0, m1, LastPage(end));
    if end > m0.end { KeepsTransitive(m0, m1, s.m, LastPage(end)); }
  }

  /** A request for total rows that is made in s0, and whose search ends in s, ends in t: b is a live block for
      the payload, and the damage is what the words in s make it. */
  ghost predicate Obtained(intended: bool, s0: Snapshot, s: Snapshot, t: Snapshot, b: int, damage: Damage, total: int,
      payload: Payload) {
    && Served(s0.blk, t.blk, b, total, payload) && Searched(s0, s, t.m.end, total, b)
    && b in s.blk && t.blk == Taken(s.blk, b, total, payload)
    && damage == DamageFor(intended, s, b, total, payload)
    && match damage
       case Unharmed => KeepsPayloads(s0.m, t.m, Live(s0.blk))
       case PayloadHit => HitsOne(s0.m, t.m, Live(s0.blk))
       case HeapBroken => BrokenBy(s.m, t.m, b, total, payload)
  }

  lemma ObtainedParts(intended: bool, s0: Snapshot, s: Snapshot, t: Snapshot, b: int, damage: Damage, total: int,
      payload: Payload)
    requires Obtained(intended, s0, s, t, b, damage, total, payload)
    ensures Served(s0.blk, t.blk, b, total, payload) && Searched(s0, s, t.m.end, total, b)
    ensures damage == DamageFor(intended, s, b, total, payload)
    ensures damage == Unharmed ==> KeepsPayloads(s0.m, t.m, Live(s0.blk))
    ensures damage == PayloadHit ==> HitsOne(s0.m, t.m, Live(s0.blk))
    ensures damage == HeapBroken ==> BrokenBy(s.m, t.m, b, total, payload)
  {
  }

  /** A page has been added between s0 and s1, and the request goes on from there. */
  lemma ObtainedFrom(intended: bool, s0: Snapshot, s1: Snapshot, s: Snapshot, t: Snapshot, b: int, damage: Damage,
      total: int, payload: Payload)
    requires Obtained(intended, s1, s, t, b, damage, total, payload)
    requires Live(s1.blk) == Live(s0.blk) && KeepsPayloads(s0.m, s1.m, Live(s0.blk))
    requires 0 <= s0.m.end && s1.m.end == s0.m.end + PAGE_ROWS && (t.m.end - s0.m.end) % PAGE_ROWS == 0
    requires KeepsPayloads(s0.m, s1.m, Fallow(s0.m.end, |s0.m.lo|))
    ensures Obtained(intended, s0, s, t, b, damage, total, payload)
  {
    hide Searched, KeepsPayloads, Live, Fallow, Taken, DamageFor, BrokenBy, HitsOne;
    SearchedFrom(s0, s1, s, t.m.end, total, b);
    ServedSame(s0.blk, s1.blk, t.blk, b, total, payload);
    KeepsLater(s0.m, s1.m, t.m, Live(s0.blk));
    HitLater(s0.m, s1.m, t.m, Live(s0.blk));
  }

  /** What is kept at first makes no difference to what is kept in the end. */
  lemma KeepsLater(m: Mem, t: Mem, u: Mem, live: Blocks)
    requires KeepsPayloads(m, t, live)
    ensures KeepsPayloads(m, u, live) <==> KeepsPayloads(t, u, live)
  {
    hide KeepsPayloads;
    if KeepsPayloads(t, u, live) { KeepsTransitive(m, t, u, live); }
    if KeepsPayloads(m, u, live) {
      KeepsSymmetric(m, t, live);
      KeepsTransitive(t, m, u, live);
    }
  }

  lemma HitLater(m: Mem, t: Mem, u: Mem, live: Blocks)
    requires KeepsPayloads(m, t, live)
    ensures HitsOne(t, u, live) ==> HitsOne(m, u, live)
  {
    hide KeepsPayloads, HitsOne;
    KeepsReflexive(u, live);
    if HitsOne(t, u, live) { HitStays(m, t, u, u, live); }
  }

  lemma ObtainedInit(intended: bool, s0: Snapshot, s1: Snapshot, s: Snapshot, t: Snapshot, b: int, damage: Damage,
      total: int, payload: Payload)
    requires Obtained(intended, s1, s, t, b, damage, total, payload) && s1.blk == s0.blk && s1.lists == s0.lists
    requires HeapOk(s0.m, s0.blk, s0.lists) || HeapEmpty(s0.m, s0.blk, s0.lists)
    requires s1.m.lo == s0.m.lo && s1.m.hi == s0.m.hi && s1.m.base == s0.m.base && s1.m.end == s0.m.end
    requires HeapOk(s0.m, s0.blk, s0.lists) ==> s1.m == s0.m
    ensures Obtained(intended, s0, s, t, b, damage, total, payload)
  {
    hide Searched, KeepsPayloads, Live, Taken, DamageFor, BrokenBy, Served, HeapOk, HeapEmpty, HitsOne;
    SearchedInit(s0.m, s1.m, s0.blk, s0.lists, s, t.m.end, total, b);
    KeepsIfSameRows(s0.m, s1.m, Live(s0.blk));
    KeepsLater(s0.m, s1.m, t.m, Live(s0.blk));
    HitLater(s0.m, s1.m, t.m, Live(s0.blk));
  }

  /** Work at the heap's end that keeps the payloads. */
  lemma ObtainedThen(intended: bool, s0: Snapshot, s: Snapshot, t: Snapshot, u: Snapshot, b: int, damage: Damage,
      total: int, payload: Payload)
    requires Obtained(intended, s0, s, t, b, damage, total, payload) && damage != HeapBroken
    requires u.blk == t.blk && u.m.end == t.m.end && KeepsPayloads(t.m, u.m, Live(s0.blk))
    ensures Obtained(intended, s0, s, u, b, damage, total, payload)
  {
    hide Searched, KeepsPayloads, Live, Taken, DamageFor, BrokenBy, Served, HitsOne;
    if damage == Unharmed {
      KeepsTransitive(s0.m, t.m, u.m, Live(s0.blk));
    } else {
      KeepsReflexive(s0.m, Live(s0.blk));
      HitStays(s0.m, s0.m, t.m, u.m, Live(s0.blk));
    }
  }

  lemma ServedCovered(intended: bool, s0: Snapshot, s: Snapshot, t: Snapshot, b: int, damage: Damage, total: int,
      payload: Payload)
    requires Obtained(intended, s0, s, t, b, damage, total, payload)
    ensures Covered(Live(s0.blk), t.blk, t.m.end)
  {
    ServedWithin(s0.blk, t.blk, b, total, payload);
    WithinCovered(Live(s0.blk), t.blk, t.m.end);
  }

  // ----- freeing

  /** The rows of block b behind its link row. */
  ghost function Leftovers(blk: Blocks, b: int): Blocks {
    if b in blk then map[b + 1 := Block(blk[b].rows - 1, false, 0)] else map[]
  }

  lemma FreedCovered(m: Mem, blk: Blocks, lists: Lists, b: int)
    requires (HeapOk(m, blk, lists) || HeapEmpty(m, blk, lists)) && b in Live(blk)
    ensures HeapOk(m, blk, lists) && Covered(Live(blk) - {b} + Leftovers(blk, b), blk, m.end)
    ensures b !in Live(blk) - {b} + Leftovers(blk, b)
  {
    var rest := Leftovers(blk, b);
    assert Shelters(blk, b, b + 1, After(rest, b + 1));
    WithinCovered(Live(blk) - {b}, blk, m.end);
    CoveredUnion(Live(blk) - {b}, rest, blk, m.end);
  }

  lemma FreedKeeps(m: Mem, t: Mem, blk: Blocks, b: int)
    requires Layout(blk, m.end) && b in Live(blk) && KeepsPayloads(m, t, Live(blk) - {b} + Leftovers(blk, b))
    ensures KeepsPayloads(m, t, Live(blk) - {b}) && KeepsPayloads(m, t, Leftovers(blk, b))
  {
    var live, rest := Live(blk) - {b}, Leftovers(blk, b);
    assert BlockFits(blk, m.end, b);
    forall q | q in live
      ensures q !in rest
    {
      assert BlockFits(blk, m.end, q);
    }
    KeepsSubset(m, t, live + rest, live);
    KeepsSubset(m, t, live + rest, rest);
  }

  lemma OutsideIsWild(m: Mem, blk: Blocks, lists: Lists, b: int)
    requires (HeapOk(m, blk, lists) || HeapEmpty(m, blk, lists)) && !(0 < b < m.end)
    ensures b !in Live(blk)
  {
    if b in Live(blk) { PartsOf(m, blk, NONE, lists, b); }
  }

  /** The header that free_allocated_block gives to a block with header w. */
  function Freed(w: Word, base: Bases): Word {
    var v := View(w, base);
    if LowBits(w, base) == 0 then Header(0, v.rows, false, v.prevAlloc)
    else Data(Wrap(Compose(0, v.rows, false, v.prevAlloc) + LowBits(w, base)))
  }

  /** Memory once row b, whatever its words say, has been listed and marked free. */
  ghost function FreedWild(m: Mem, b: int): Mem
    requires Shape(m) && 0 <= b < |m.lo| - 1
  {
    var i := ClassOf((Size(m.hi[b], m.base) + 15) / 16);
    if Linkable(m, NextOf(m, Head(i))) then
      InsertShape(m, i, b);
      var m1 := Insert(m, i, b);
      Touch(m1.(hi := m1.hi[b := Freed(m.hi[b], m.base)]), b)
    else m
  }

  lemma InsertShape(m: Mem, i: int, b: int)
    requires Shape(m) && 0 <= i < NUM_FREE_LISTS && 0 <= b < |m.lo| - 1 && Linkable(m, NextOf(m, Head(i)))
    ensures Shape(Insert(m, i, b)) && |Insert(m, i, b).lo| == |m.lo| && |Insert(m, i, b).hi| == |m.hi|
  {
    hide Touch, NextOf, PushFront;
    PushShape(m, i, b);
    TouchKeepsShape(PushFront(m, i, b), b);
  }

  lemma HeadLinkable(m: Mem, lists: Lists, i: int, b: int)
    requires Linked(m, lists) && 0 <= i < NUM_FREE_LISTS && 0 <= b < |m.lo| - 1
    ensures Linkable(m, NextOf(m, Head(i)))
  {
    PushFrame(m, lists, i, b);
  }

  /** What passes the checks lies between the prologue and the epilogue. */
  lemma InPages(m: Mem, blk: Blocks, lists: Lists, b: int)
    requires (HeapOk(m, blk, lists) || HeapEmpty(m, blk, lists)) && PassesChecks(m, b)
    ensures Linked(m, lists) && 0 <= b < |m.lo| - 1
  {
  }
}

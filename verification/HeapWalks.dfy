/** Walks over lists and over the heap, and the writes around the epilogue. */
module HeapWalks {
  import opened HeapWords
  import opened HeapMemory
  import opened HeapTiling
  import opened HeapLists
  import opened HeapSteps
  import opened HeapHeaders
  import opened HeapInvariants
  import opened HeapMoves
  import opened HeapDamage

  lemma KeepsIfSameRows(m: Mem, t: Mem, live: Blocks)
    requires t.lo == m.lo && t.hi == m.hi && t.base == m.base
    ensures KeepsPayloads(m, t, live)
  {
  }

  lemma HeadsSet(m: Mem, lists: Lists)
    requires Linked(m, lists)
    ensures forall k | 0 <= k < NUM_FREE_LISTS :: m.hn[k] != NULL && m.hp[k] != NULL
  {
    forall k | 0 <= k < NUM_FREE_LISTS
      ensures m.hn[k] != NULL && m.hp[k] != NULL
    {
      assert NodeLinked(m, lists, k, -1);
      assert lists[k] != [] ==> NodeLinked(m, lists, k, 0) && NodeLinked(m, lists, k, |lists[k]| - 1);
    }
  }

  lemma EmptyLinked(m: Mem, lists: Lists)
    requires Shape(m) && lists == seq(NUM_FREE_LISTS, _ => [])
    requires forall i | 0 <= i < NUM_FREE_LISTS :: m.hn[i] == Head(i) && m.hp[i] == Head(i)
    ensures Linked(m, lists)
  {
    forall i, k | 0 <= i < |lists| && -1 <= k < |lists[i]|
      ensures NodeLinked(m, lists, i, k)
    {
      assert m.hn[i] == Head(i);
    }
  }

  lemma LinkedNotNull(m: Mem, lists: Lists, i: int, k: int)
    requires Linked(m, lists) && 0 <= i < |lists| && 0 <= k < |lists[i]|
    ensures NextOf(m, lists[i][k]) != NULL && PrevOf(m, lists[i][k]) != NULL
  {
    hide NextOf, PrevOf;
    BypassLinks(m, lists, i, k);
  }

  /** A walk over a list is back at the head exactly after its last entry. */
  lemma HeadAtEnd(m: Mem, lists: Lists, i: int, k: int)
    requires Linked(m, lists) && 0 <= i < |lists| && 0 <= k <= |lists[i]|
    ensures NodeAt(lists, i, k) == Head(i) <==> k == |lists[i]|
  {
    if k < |lists[i]| { assert NodeLinked(m, lists, i, k); }
  }

  /** The entry after a free block may be touched. */
  lemma WildernessIsolates(m: Mem, blk: Blocks, lists: Lists, i: int, k: int)
    requires Consistent(m, blk, NONE, lists) && 0 <= i < |lists| && 0 <= k < |lists[i]|
    requires forall a {:trigger Listed(lists, a)} | Listed(lists, a) :: a in blk && a != 0
    ensures NextIsQuiet(m, blk, NONE, lists, lists[i][k], NodeAt(lists, i, k + 1))
  {
    var next := NodeAt(lists, i, k + 1);
    if k + 1 < |lists[i]| {
      assert next in lists[i];
      assert Listed(lists, next);
      assert BlockFits(blk, m.end, next);
    }
  }

  /** The list entry after the joined block may be touched. */
  lemma NextAfterJoin(m: Mem, blk: Blocks, lists: Lists, main: int, join: int, index: int, i: int, k: int)
    requires Consistent(m, blk, main, lists) && StaleFooter(m, blk, lists, main, join)
    requires main in blk && main != 0 && 0 <= main < join && 0 in blk && blk[0].alloc
    requires At(lists, i, k, join) && 0 <= index < |lists| && lists[index] != [] && lists[index][0] == main
    requires OthersFree(blk, lists, join)
    ensures NextIsQuiet(m, blk, main, lists, join, NodeAt(lists, i, k + 1))
  {
    var next := NodeAt(lists, i, k + 1);
    if k + 1 < |lists[i]| {
      assert NoDuplicates(lists[i]) && NoDuplicates(lists[index]);
      assert next in lists[i] && main in lists[index];
      assert Listed(lists, next);
      assert next != join && next != main;
    }
  }

  lemma SameListedClear(live: Blocks, before: Lists, after: Lists)
    requires AllClear(live, before) && forall a {:trigger Listed(after, a)} :: Listed(after, a) <==> Listed(before, a)
    ensures AllClear(live, after)
  {
  }

  lemma BeforeEpilogue(blk: Blocks, end: int, r: int)
    requires Layout(blk, end) && r in blk
    ensures r < After(blk, r) < end
  {
    assert BlockFits(blk, end, r);
  }

  lemma NothingAfterLast(blk: Blocks, end: int, tmp: int, w: int)
    requires Layout(blk, end) && tmp in blk && After(blk, tmp) >= end - 1
    requires Dangling(blk, w) && (w == NONE || tmp <= w)
    ensures w == NONE
  {
    if w != NONE {
      BeforeEpilogue(blk, end, w);
      BeforeEpilogue(blk, end, After(blk, w));
    }
  }

  /** The walk ends at the last block. */
  lemma LastIsSeparated(blk: Blocks, end: int, tmp: int, w: int)
    requires Layout(blk, end) && tmp in blk && After(blk, tmp) >= end - 1 && CoalescedTo(blk, tmp)
    requires Dangling(blk, w) && (w == NONE || tmp <= w)
    ensures Coalesced(blk) && w == NONE
  {
    NothingAfterLast(blk, end, tmp, w);
    assert BlockFits(blk, end, tmp);
    forall r | r in blk
      ensures Separated(blk, r)
    {
      assert BlockFits(blk, end, r);
      if r < tmp { assert Separated(blk, r); }
      assert After(blk, r) in blk ==> BlockFits(blk, end, After(blk, r));
    }
  }

  /** The epilogue's rewritten words leave the headers in place. */
  lemma SameHeaders(v: Mem, u: Mem, blk: Blocks)
    requires Tiled(v, blk) && SameButEpilogue(v, u)
    ensures EpilogueTagged(u) && forall r {:trigger Tagged(u, blk, r)} | r in blk :: Tagged(u, blk, r)
  {
    forall r | r in blk
      ensures Tagged(u, blk, r)
    {
      assert Tagged(v, blk, r) && BlockFits(blk, v.end, r);
    }
  }

  lemma HeadersStand(m: Mem, blk: Blocks)
    requires Tiled(m, blk)
    ensures EpilogueTagged(m) && forall r {:trigger Tagged(m, blk, r)} | r in blk :: Tagged(m, blk, r)
  {
  }

  /** The epilogue's words are no one's payload. */
  lemma MendedKeeps(v: Mem, u: Mem, blk: Blocks, live: Blocks)
    requires Layout(blk, v.end) && SameButEpilogue(v, u) && Covered(live, blk, v.end)
    ensures KeepsPayloads(u, v, live)
  {
    hide Sheltered, Layout;
    forall q, r | q in live && q < r < After(live, q)
      ensures SameBits(u, v, r)
    {
      ShelteredRow(blk, v.end, q, After(live, q), r);
    }
  }

  lemma KeepsSymmetric(m: Mem, t: Mem, live: Blocks)
    requires KeepsPayloads(m, t, live)
    ensures KeepsPayloads(t, m, live)
  {
    forall q, r | q in live && q < r < After(live, q)
      ensures SameBits(t, m, r)
    {
      assert SameBits(m, t, r);
    }
  }

  /** The payload that is hit stays the only one. */
  lemma HitStays(m0: Mem, m: Mem, u: Mem, t: Mem, live: Blocks)
    requires KeepsPayloads(m0, m, live) && KeepsPayloads(u, t, live) && HitsOne(m, u, live)
    ensures HitsOne(m0, t, live)
  {
    hide KeepsPayloads;
    var q :| HitsOnly(m, u, live, q);
    KeepsOthers(m0, m, live, q);
    KeepsOthers(u, t, live, q);
    KeepsTransitive(m0, m, u, live - {q});
    KeepsTransitive(m0, u, t, live - {q});
    if KeepsPayloads(m0, t, live) {
      KeepsSymmetric(m0, m, live);
      KeepsSymmetric(u, t, live);
      KeepsTransitive(m, m0, t, live);
      KeepsTransitive(m, t, u, live);
    }
    assert HitsOnly(m0, t, live, q);
  }

  lemma KeepsOthers(m: Mem, t: Mem, live: Blocks, q: int)
    requires KeepsPayloads(m, t, live)
    ensures KeepsPayloads(m, t, live - {q})
  {
    KeepsSubset(m, t, live, live - {q});
  }

  lemma EpilogueIsAfter(blk: Blocks, end: int, t: int)
    requires Layout(blk, end) && t in blk && After(blk, t) !in blk
    ensures After(blk, t) == end - 1
  {
    assert BlockFits(blk, end, t);
  }

  /** The epilogue's header after block last. */
  lemma EpilogueAfter(m: Mem, blk: Blocks, last: int)
    requires Tiled(m, blk) && last in blk && After(blk, last) == m.end - 1
    ensures 1 <= m.end <= |m.hi| && m.hi[m.end - 1] == Header(0, 0, true, blk[last].alloc)
  {
    assert BlockFits(blk, m.end, last) && Footed(m, blk, last);
  }

  /** Touching the epilogue after an allocated block overwrites only its previous footer. */
  lemma EpilogueTouch(m: Mem, blk: Blocks, t: int)
    requires Tiled(m, blk) && t in blk && t != 0 && blk[t].alloc && After(blk, t) == m.end - 1
    ensures SameButEpilogue(m, Touch(m, m.end - 1))
  {
    hide Load, Put;
    assert Tagged(m, blk, t) && Footed(m, blk, t) && BlockFits(blk, m.end, t);
    var e, h := m.end - 1, m.hi[m.end - 1];
    assert h == Header(0, 0, true, true) && m.lo[e].rows == e - t;
    Aligned(m, t, h);
    Aligned(m, e, h);
    var a1 := m.(hi := m.hi[e := h]);
    Aligned(a1, t, h);
    Aligned(a1, e, m.hi[t]);
    var a2 := a1.(lo := a1.lo[e := m.hi[t]]);
    Aligned(a2, e, h);
    var m1 := a2.(lo := a2.lo[e := h]);
    assert m1 == NotePrevious(m, e, 16 * e, 16 * t);
    Aligned(m1, e, h);
    assert m1.(lo := m1.lo[e := h]) == m1.(hi := m1.hi[e := h]) == m1;
    assert m1 == NoteAllocated(m1, e, 16 * e) == NoteFooter(m1, e, 16 * e, true);
    assert m1.hi == m.hi && m1.lo == m.lo[e := h];
  }

  /** The touch behind the taken block t leaves a consistent state, but for the epilogue. */
  lemma SuccessorTouched(m: Mem, blk: Blocks, lists: Lists, t: int, live: Blocks) returns (g: Mem)
    requires Consistent(m, blk, NONE, lists) && ListedIn(blk, lists) && Covered(live, blk, m.end)
    requires t in blk && blk[t].alloc && t != 0
    ensures Consistent(g, blk, NONE, lists) && KeepsPayloads(m, g, live) && g.end == m.end && g.base == m.base
    ensures SameButEpilogue(g, Touch(m, After(blk, t)))
  {
    hide Touch, TiledBut, Linked, KeepsPayloads, Apart, Layout, Covered;
    var next := After(blk, t);
    Parts(m, blk, NONE, lists);
    PartsOf(m, blk, NONE, lists, t);
    KeepsReflexive(m, live);
    if next in blk {
      PartsOf(m, blk, NONE, lists, next);
      QuietTouch(m, blk, lists, next, live);
      g := Touch(m, next);
      Parts(g, blk, NONE, lists);
      SameButEpilogueReflexive(g);
    } else {
      EpilogueIsAfter(blk, m.end, t);
      EpilogueTouch(m, blk, t);
      g := m;
    }
  }

  // ----- a block taken whole, up to the last touch

  /** The rows of block t behind its header are as they were. */
  ghost predicate InsideKept(m: Mem, t: Mem, blk: Blocks, b: int)
    requires b in blk
  {
    && |t.lo| == |m.lo| && t.base == m.base
    && forall r {:trigger SameBits(m, t, r)} | b < r < After(blk, b) :: SameBits(m, t, r)
  }

  lemma RetagKeepsInside(m: Mem, t: Mem, blk: Blocks, b: int, payload: Payload)
    requires b in blk && 0 <= b < |m.hi| && m.hi[b].Header?
    requires KeepsPayloads(Retag(m, b, payload, true), t, map[b := Block(blk[b].rows, true, payload)])
    ensures InsideKept(m, t, blk, b)
  {
    var m1, live := Retag(m, b, payload, true), map[b := Block(blk[b].rows, true, payload)];
    forall r | b < r < After(blk, b)
      ensures SameBits(m, t, r)
    {
      assert b in live && b < r < After(live, b);
      assert SameBits(m1, t, r);
    }
  }

  /** Removing block t from its list leaves the rows of t behind its links alone. */
  lemma IsolateKeepsRow(m: Mem, blk: Blocks, lists: Lists, i: int, k: int, t: int, g: int)
    requires Consistent(m, blk, NONE, lists) && At(lists, i, k, t) && ListedIn(blk, lists)
    requires t in blk && t + 1 < g < After(blk, t) && NextIsQuiet(m, blk, NONE, lists, t, NodeAt(lists, i, k + 1))
    ensures 0 <= t < |m.lo| - 1 && Linkable(m, NextOf(m, t)) && Linkable(m, PrevOf(m, t))
    ensures SameRow(m, Isolate(m, t), g)
  {
    hide Bypass, ClearLinks, Touch, NextOf, PrevOf;
    var next := NodeAt(lists, i, k + 1);
    assert t in lists[i];
    assert Listed(lists, t);
    assert LinkRowInside(blk, m.end, t);
    UnlinkFrame(m, lists, i, k);
    BypassLinks(m, lists, i, k);
    var m1 := ClearLinks(Bypass(m, t), t);
    ClearKeepsLinks(Bypass(m, t), Removed(lists, i, k), t) by { RemovedDisjoint(lists, i, k); }
    LinkFrameKeepsTiling(m, m1, blk, NONE, lists, t);
    InteriorRow(blk, m.end, t, g);
    InteriorRow(blk, m.end, t, g - 1);
    assert SameRow(m, m1, g);
    if IsHead(next) {
      TouchHead(m1, next);
    } else {
      TouchIsQuiet(m1, blk, NONE, next);
      assert BlockFits(blk, m.end, next);
    }
  }

  /** Taking t whole keeps payloads and the row left over, up to the touch of that row: the words that decide
      about damage are those in memory before the call. */
  lemma BaredKeeps(m: Mem, blk: Blocks, lists: Lists, i: int, k: int, t: int, total: int, payload: Payload)
    requires HeapOk(m, blk, lists) && At(lists, i, k, t) && t in blk && t != 0 && !blk[t].alloc
    requires blk[t].rows == total + 1 && MIN_ROWS <= total
    ensures 0 <= t < |m.lo| - 1 && m.hi[t].Header?
    ensures
      var m2 := Bared(m, t, payload);
      && SameBits(m, m2, t + total) && m2.end == m.end && m2.base == m.base && KeepsPayloads(m, m2, Live(blk))
      && Consistent(m2, blk[t := Block(blk[t].rows, true, payload)], NONE, Removed(lists, i, k))
  {
    hide TiledBut, Linked, Apart, Touch, Isolate, KeepsPayloads, Layout, NextOf, PrevOf, InsideKept, Retag, Covered;
    var live := Live(blk);
    PartsOf(m, blk, NONE, lists, t);
    WithinCovered(live, blk, m.end);
    RetagStep(m, blk, lists, t, payload, true, live);
    var m0, after := Retag(m, t, payload, true), blk[t := Block(blk[t].rows, true, payload)];
    CompletingTouch(m0, after, lists, t, live);
    OneCovered(after, t, m.end);
    CompletingTouch(m0, after, lists, t, map[t := after[t]]);
    Parts(m0, after, t, lists);
    var m1 := Touch(m0, t);
    RetagKeepsInside(m, m1, blk, t, payload);
    KeepsTransitive(m, m0, m1, live);
    Parts(m, blk, NONE, lists);
    Parts(m1, after, NONE, lists);
    AllClearOf(blk, m.end, lists, live);
    RemovedDisjoint(lists, i, k);
    WildernessIsolates(m1, after, lists, i, k);
    IsolateStep(m1, after, NONE, lists, i, k, live);
    var m2 := Isolate(m1, t);
    Parts(m2, after, NONE, Removed(lists, i, k));
    IsolateKeepsRow(m1, after, lists, i, k, t, t + total);
    KeepsTransitive(m, m1, m2, live);
    assert SameBits(m, m1, t + total) && SameBits(m1, m2, t + total);
  }

  lemma OneCovered(blk: Blocks, t: int, end: int)
    requires t in blk && blk[t].alloc
    ensures Covered(map[t := blk[t]], blk, end)
  {
    WithinCovered(map[t := blk[t]], blk, end);
  }

  lemma LiveWithin(blk: Blocks, end: int, t: int)
    ensures Covered(Live(blk) - {t}, blk, end)
  {
    WithinCovered(Live(blk) - {t}, blk, end);
  }

  /** A block other than the prologue makes the last block one. */
  lemma LastIsBehind(blk: Blocks, end: int, t: int, last: int)
    requires Layout(blk, end) && t in blk && t != 0 && last in blk && After(blk, last) == end - 1
    ensures last != 0
  {
    assert BlockFits(blk, end, t) && BlockFits(blk, end, 0);
  }
}

/** Runs that show what the last touch of get_free_block can do, and what sf_free takes for a block. */
module HeapExample {
  import opened HeapWords
  import opened HeapMemory
  import opened HeapTiling
  import opened HeapLists
  import opened HeapSteps
  import opened HeapHeaders
  import opened HeapInvariants
  import opened HeapMoves
  import opened HeapDamage
  import opened HeapGrowth
  import opened HeapTaking
  import opened HeapWalks
  import opened HeapServing
  import opened HeapResizing
  import opened Allocator

  // ----- heaps of one page

  /** With no live block, the page is one free block. */
  lemma OnePageFree(m: Mem, blk: Blocks, lists: Lists)
    requires HeapOk(m, blk, lists) && m.end == PAGE_ROWS && Live(blk) == map[]
    ensures blk == map[0 := Block(2, true, 0), 2 := Block(253, false, 0)]
  {
    hide Linked, TiledBut, Apart, Classed, WildernessLast, FreeListed;
    Parts(m, blk, NONE, lists);
    assert BlockFits(blk, m.end, 0) && 2 in blk && BlockFits(blk, m.end, 2);
    OnlyFree(blk, m.end, 2);
    NextTaken(blk, m.end, 2);
    NoneBetween(blk, m.end, 0);
    NoneBetween(blk, m.end, 2);
    assert After(blk, 2) == 255;
    assert forall r :: r in blk <==> r == 0 || r == 2;
  }

  lemma OnlyFree(blk: Blocks, end: int, r: int)
    requires Layout(blk, end) && r in blk && r != 0 && r !in Live(blk)
    ensures !blk[r].alloc && blk[r].payload == 0
  {
    assert BlockFits(blk, end, r);
  }

  /** The block behind a free one, if any, is live. */
  lemma NextTaken(blk: Blocks, end: int, r: int)
    requires Layout(blk, end) && Coalesced(blk) && r in blk && !blk[r].alloc
    ensures After(blk, r) in blk ==> After(blk, r) in Live(blk)
  {
    assert BlockFits(blk, end, r) && Separated(blk, r);
  }

  lemma NoneBetween(blk: Blocks, end: int, b: int)
    requires Layout(blk, end) && b in blk
    ensures forall r | r in blk :: r <= b || After(blk, b) <= r
    ensures forall r | r in blk :: 0 <= r < end - 1
  {
    forall r | r in blk
      ensures (r <= b || After(blk, b) <= r) && 0 <= r < end - 1
    {
      assert BlockFits(blk, end, r);
      if b < r < After(blk, b) { InteriorRow(blk, end, b, r); }
    }
  }

  /** With the live block 6 up to the epilogue, the rows before it are one free block. */
  lemma OnePageBefore(m: Mem, blk: Blocks, lists: Lists)
    requires HeapOk(m, blk, lists) && m.end == PAGE_ROWS && Live(blk) == map[6 := Block(249, true, 3968)]
    ensures blk == map[0 := Block(2, true, 0), 2 := Block(4, false, 0), 6 := Block(249, true, 3968)]
  {
    hide Linked, TiledBut, Apart, Classed, WildernessLast, FreeListed;
    Parts(m, blk, NONE, lists);
    assert 6 in Live(blk) && 6 in blk && blk[6] == Block(249, true, 3968);
    assert BlockFits(blk, m.end, 0) && 2 in blk && BlockFits(blk, m.end, 2);
    OnlyFree(blk, m.end, 2);
    NoneBetween(blk, m.end, 0);
    NoneBetween(blk, m.end, 2);
    NoneBetween(blk, m.end, 6);
    NextTaken(blk, m.end, 2);
    assert After(blk, 2) == 6;
    assert forall r :: r in blk <==> r == 0 || r == 2 || r == 6;
  }

  lemma OkInPages(m: Mem, blk: Blocks, lists: Lists)
    requires (HeapOk(m, blk, lists) || HeapEmpty(m, blk, lists)) && m.end > 0
    ensures HeapOk(m, blk, lists)
  {
  }

  /** The first request on a heap of one page that fits there is served from it. */
  lemma FirstServed(s0: Snapshot, s: Snapshot, t: Snapshot, b: int, damage: Damage, total: int, payload: Payload)
    requires Obtained(false, s0, s, t, b, damage, total, payload) && s0.blk == map[] && t.m.end == PAGE_ROWS
    requires s0.m.end == 0
    ensures b == 2 && s.blk == map[0 := Block(2, true, 0), 2 := Block(253, false, 0)] && HeapOk(s.m, s.blk, s.lists)
    ensures KeepsPayloads(s0.m, s.m, LastPage(PAGE_ROWS)) && s.m.end == PAGE_ROWS && total <= 253
    ensures t.blk == Taken(s.blk, 2, total, payload) && damage == DamageOf(s.m, s.blk, 2, total, payload)
  {
    hide HeapOk, DamageOf, KeepsPayloads, Taken;
    NothingLive();
    OnePageFree(s.m, s.blk, s.lists);
  }

  lemma NothingLive()
    ensures Live(map[]) == map[]
  {
  }

  lemma OnePage(end: int, total: int, found: bool)
    requires 0 <= end <= PAGE_ROWS && end % PAGE_ROWS == 0 && 0 < total <= 253
    requires GrowthNeeded(map[], 0, end, total, found) && (!found ==> end == PAGE_ROWS)
    ensures found && end == PAGE_ROWS
  {
    assert Tail(map[], 0) == 0;
  }

  // ----- a row whose words say that it has no size

  /** If the word that would be its header gives it no size, the row leads to itself, and no damage is done. */
  lemma NoSizeNoDamage(m: Mem, blk: Blocks, live: Blocks, t: int, g: int)
    requires Shape(m) && Layout(blk, m.end) && PaddingRow(blk, t, g) && live == Live(blk) - {t} && 0 <= g < |m.lo|
    requires Size(m.hi[g], m.base) == 0
    ensures DamageAt(m, blk, live, g) == Unharmed
  {
    hide Layout, WordsSpared, WordsChanged, Touch;
    assert NextAddress(m, g) == 16 * g;
    assert InAllocated(blk, t, g);
    assert IsKind(blk, m.end, g, Inside);
    DamageByKinds(m, blk, live, t, g, g, g, Inside, Inside);
    InsideSpared(m, Touch(m, g), g);
  }

  lemma InsideSpared(m: Mem, u: Mem, g: int)
    requires |m.lo| == |m.hi| == |u.lo| == |u.hi| && 0 <= g < |m.lo|
    ensures WordsSpared(Inside, m.lo[g], m.hi[g], u.lo[g], u.hi[g], m.base)
  {
  }

  /** On a new heap whose memory is zero, a request for 4016 bytes leaves 16 bytes over, and does no damage. */
  method FreshRun(start: Bases) returns (h: Heap, p: int, damage: Damage)
    requires Separate(start)
    ensures fresh(h) && h.Valid() && !h.intended && damage == Unharmed
    ensures p == 48 && h.blk == map[0 := Block(2, true, 0), 2 := Block(253, true, 4016)]
  {
    hide HeapOk, HeapEmpty, Obtained, GrowthNeeded, DamageOf;
    var zeros: seq<Word> := seq(PAGE_ROWS + 1, _ => Data(0));
    h := new Heap(1, start, false, zeros, zeros);
    ghost var s0 := h.Now();
    ghost var s;
    p, damage, s := h.Malloc(4016);
    assert RowsFor(4016) == 252;
    OnePage(h.end, 252, p != NULL);
    FirstServed(s0, s, h.Now(), BlockOf(p), damage, 252, 4016);
    FreshDamage(s0.m, s.m, s.blk, s.lists);
  }

  lemma FreshDamage(m0: Mem, m: Mem, blk: Blocks, lists: Lists)
    requires HeapOk(m, blk, lists) && m.end == PAGE_ROWS
    requires blk == map[0 := Block(2, true, 0), 2 := Block(253, false, 0)]
    requires KeepsPayloads(m0, m, LastPage(PAGE_ROWS)) && |m0.lo| == |m0.hi| == PAGE_ROWS + 1 && m0.hi[254] == Data(0)
    ensures DamageOf(m, blk, 2, 252, 4016) == Unharmed
  {
    hide HeapOk, Bared, DamageAt, Size;
    var i, k := FreeAt(m, blk, lists, 2);
    BaredKeeps(m, blk, lists, i, k, 2, 252, 4016);
    var m2, after := Bared(m, 2, 4016), blk[2 := Block(253, true, 4016)];
    assert 3 in LastPage(PAGE_ROWS) && 3 < 254 < After(LastPage(PAGE_ROWS), 3);
    assert SameBits(m0, m, 254) && SameBits(m, m2, 254);
    ReadByBits(m2.hi[254], Data(0), m2.base);
    ZeroSize(m2.base);
    TakenWholeLayout(m, blk, lists, 2, 4016);
    NoSizeNoDamage(m2, after, Live(blk), 2, 254);
  }

  lemma ZeroSize(base: Bases)
    ensures Size(Data(0), base) == 0
  {
  }

  lemma FreeAt(m: Mem, blk: Blocks, lists: Lists, t: int) returns (i: int, k: int)
    requires HeapOk(m, blk, lists) && t in blk && !blk[t].alloc
    ensures At(lists, i, k, t) && Shape(m)
  {
    hide Linked, TiledBut, Apart, Layout;
    Parts(m, blk, NONE, lists);
    i, k := Position(lists, t);
  }

  lemma TakenWholeLayout(m: Mem, blk: Blocks, lists: Lists, t: int, payload: Payload)
    requires HeapOk(m, blk, lists) && t in blk && t != 0 && !blk[t].alloc
    ensures Layout(blk[t := Block(blk[t].rows, true, payload)], m.end)
    ensures Live(blk[t := Block(blk[t].rows, true, payload)]) - {t} == Live(blk)
  {
    RetagLayout(blk, m.end, t, payload, true);
    var l1, l0 := Live(blk[t := Block(blk[t].rows, true, payload)]) - {t}, Live(blk);
    assert forall r :: r in l1 <==> r in l0;
    assert forall r | r in l0 :: l1[r] == l0[r];
  }

  // ----- a run that changes a live payload

  /** A request that a free block is large enough for is served in the state it is made in. */
  lemma ServedHere(s0: Snapshot, s: Snapshot, t: Snapshot, b: int, damage: Damage, total: int, payload: Payload)
    requires Obtained(false, s0, s, t, b, damage, total, payload) && t.m.end == s0.m.end
    ensures HeapOk(s0.m, s0.blk, s0.lists) && b in s0.blk && !s0.blk[b].alloc && s0.blk[b].rows >= total
    ensures t.blk == Taken(s0.blk, b, total, payload) && damage == DamageOf(s0.m, s0.blk, b, total, payload)
    ensures damage == Unharmed ==> KeepsPayloads(s0.m, t.m, Live(s0.blk))
    ensures damage == PayloadHit ==> HitsOne(s0.m, t.m, Live(s0.blk))
  {
    hide HeapOk, KeepsPayloads, DamageOf, Taken, Live;
  }

  lemma FitsHere(blk: Blocks, end0: int, end: int, total: int, found: bool, r: int)
    requires GrowthNeeded(blk, end0, end, total, found) && r in blk && !blk[r].alloc && blk[r].rows >= total
    ensures found && end == end0
  {
  }

  /** Two of the blocks that a page holds once 48 bytes have been served. */
  ghost predicate PageOfTwo(blk: Blocks) {
    blk == map[0 := Block(2, true, 0), 2 := Block(4, true, 48), 6 := Block(249, false, 0)]
  }

  lemma FirstTaken(blk: Blocks)
    requires blk == map[0 := Block(2, true, 0), 2 := Block(253, false, 0)]
    ensures PageOfTwo(Taken(blk, 2, 4, 48)) && forall m :: DamageOf(m, blk, 2, 4, 48) == Unharmed
  {
  }

  lemma SecondTaken(blk: Blocks, b: int)
    requires PageOfTwo(blk) && b in blk && !blk[b].alloc
    ensures b == 6
    ensures Taken(blk, b, 249, 3968) ==
      map[0 := Block(2, true, 0), 2 := Block(4, true, 48), 6 := Block(249, true, 3968)]
    ensures forall m :: DamageOf(m, blk, b, 249, 3968) == Unharmed
  {
  }

  lemma LiveOfTwo(blk: Blocks)
    requires 2 in blk && blk[2] == Block(4, true, 48) && 0 in blk && 6 in blk && blk.Keys == {0, 2, 6}
    ensures 2 in Live(blk) && Live(blk)[2] == blk[2] && (blk[6].alloc ==> Live(blk) == map[2 := blk[2], 6 := blk[6]])
    ensures !blk[6].alloc ==> Live(blk) == map[2 := blk[2]]
  {
    var live := Live(blk);
    assert forall r :: r in live <==> r in blk && blk[r].alloc && r != 0;
  }

  /** The words that decide: 32 in both halves of row 5, which is 48 bytes' last row, and 1 in row 7. */
  ghost predicate StaleRow(m: Mem) {
    |m.lo| == |m.hi| == PAGE_ROWS + 1 && BitsOf(m.lo[5], m.base) == 32 && BitsOf(m.hi[5], m.base) == 32
  }

  ghost predicate PayloadRow(m: Mem) {
    |m.lo| == |m.hi| == PAGE_ROWS + 1 && BitsOf(m.lo[7], m.base) == 1
  }

  lemma RowOf2Kept(m: Mem, t: Mem, live: Blocks)
    requires StaleRow(m) && KeepsPayloads(m, t, live) && 2 in live && live[2].rows == 4 && |t.hi| == |t.lo|
    ensures StaleRow(t)
  {
    assert 2 < 5 < After(live, 2);
    assert SameBits(m, t, 5);
  }

  /** A heap of one page with 48 bytes and the rest of the page in use. */
  method PrepareHit(start: Bases) returns (h: Heap)
    requires Separate(start)
    ensures fresh(h) && fresh(h.lo) && fresh(h.hi) && fresh(h.headNext) && fresh(h.headPrev)
    ensures h.Valid() && !h.intended && h.end == PAGE_ROWS
    ensures Live(h.blk) == map[2 := Block(4, true, 48), 6 := Block(249, true, 3968)]
    ensures StaleRow(h.M()) && PayloadRow(h.M())
  {
    hide HeapOk, HeapEmpty, Obtained, GrowthNeeded, DamageOf, KeepsPayloads, Live, Taken, BitsOf;
    var zeros: seq<Word> := seq(PAGE_ROWS + 1, _ => Data(0));
    h := new Heap(1, start, false, zeros, zeros);
    ghost var s0, s := h.Now(), h.Now();
    var p, damage;
    p, damage, s := h.Malloc(48);
    assert RowsFor(48) == 4 && RowsFor(3968) == 249;
    OnePage(h.end, 4, p != NULL);
    FirstServed(s0, s, h.Now(), BlockOf(p), damage, 4, 48);
    FirstTaken(s.blk);
    LiveOfTwo(h.blk);
    h.Store(p, 2, Data(32), Data(32));
    DataBits(start);
    ghost var s1 := h.Now();
    assert StaleRow(s1.m);
    p, damage, s := h.Malloc(3968);
    FitsHere(s1.blk, s1.m.end, h.end, 249, p != NULL, 6);
    ServedHere(s1, s, h.Now(), BlockOf(p), damage, 249, 3968);
    SecondTaken(s1.blk, BlockOf(p));
    ghost var m2 := h.M();
    RowOf2Kept(s1.m, m2, Live(s1.blk));
    LiveOfTwo(h.blk);
    h.Store(p, 0, Data(1), Data(1));
    RowOf2Kept(m2, h.M(), Live(h.blk) - {6});
  }

  lemma DataBits(base: Bases)
    ensures BitsOf(Data(32), base) == 32 && BitsOf(Data(1), base) == 1
  {
  }

  /** After the free, both rows are as they were. */
  lemma RowsKept(m: Mem, t: Mem, blk: Blocks)
    requires StaleRow(m) && PayloadRow(m) && |t.hi| == |t.lo|
    requires Live(blk) == map[2 := Block(4, true, 48), 6 := Block(249, true, 3968)]
    requires KeepsPayloads(m, t, Live(blk) - {2}) && KeepsPayloads(m, t, Leftovers(blk, 2))
    ensures StaleRow(t) && PayloadRow(t)
  {
    assert 2 in Live(blk) && blk[2] == Block(4, true, 48);
    assert 3 in Leftovers(blk, 2) && 3 < 5 < After(Leftovers(blk, 2), 3);
    assert SameBits(m, t, 5);
    assert 6 in Live(blk) - {2} && 6 < 7 < After(Live(blk) - {2}, 6);
    assert SameBits(m, t, 7);
  }

  /** The touch of the stale row writes into row 7. */
  lemma StaleTouched(m: Mem)
    requires Shape(m) && StaleRow(m) && PayloadRow(m) && m.end == PAGE_ROWS
    ensures NextAddress(m, 5) == 112 && |Touch(m, 5).lo| == |m.lo| && Touch(m, 5).base == m.base
    ensures BitsOf(Touch(m, 5).lo[7], m.base) in {32, 36}
  {
    hide BitsOf, Load, Put, View, SetPrevAlloc, SetHeader;
    TouchKeepsShape(m, 5);
    Stale32(m.lo[5], m.base);
    Stale32(m.hi[5], m.base);
    Aligned(m, 3, m.hi[5]);
    Aligned(m, 5, SetPrevAlloc(m.hi[5], m.base));
    var m1 := NotePrevious(m, 5, 112, 48);
    if View(m.hi[3], m.base).alloc {
      var a1 := m.(hi := m.hi[5 := SetPrevAlloc(m.hi[5], m.base)]);
      Aligned(a1, 3, m.hi[5]);
      Aligned(a1, 5, a1.hi[3]);
      var a2 := a1.(lo := a1.lo[5 := a1.hi[3]]);
      Aligned(a2, 5, m.hi[5]);
      Aligned(a2, 7, a2.hi[5]);
      assert m1 == a2.(lo := a2.lo[7 := a2.hi[5]]);
    }
    assert BitsOf(m1.hi[5], m.base) in {32, 36} && Shape(m1) && m1.base == m.base;
    Stale36(m1.hi[5], m.base);
    Aligned(m1, 5, m1.hi[5]);
    Aligned(m1, 7, m1.hi[5]);
    var a3 := m1.(lo := m1.lo[7 := m1.hi[5]]);
    Aligned(a3, 7, SetHeader(a3.hi[7], false, m.base));
    assert Touch(m, 5) == NoteFooter(m1, 5, 112, false);
    assert Touch(m, 5).lo == a3.lo;
  }

  lemma Stale32(w: Word, base: Bases)
    requires BitsOf(w, base) == 32
    ensures Size(w, base) == 32 && !View(w, base).alloc && BitsOf(SetPrevAlloc(w, base), base) == 36
  {
    ReadByBits(w, Data(32), base);
  }

  lemma Stale36(w: Word, base: Bases)
    requires BitsOf(w, base) in {32, 36}
    ensures !View(w, base).alloc
  {
    ReadByBits(w, Data(BitsOf(w, base)), base);
  }

  lemma StaleDamage(m: Mem, blk: Blocks, lists: Lists)
    requires HeapOk(m, blk, lists) && m.end == PAGE_ROWS && StaleRow(m) && PayloadRow(m)
    requires blk == map[0 := Block(2, true, 0), 2 := Block(4, false, 0), 6 := Block(249, true, 3968)]
    ensures DamageOf(m, blk, 2, 3, 32) == PayloadHit
  {
    hide HeapOk, Bared, DamageAt, BitsOf, Touch, NextAddress, Live, Layout, IsKind, WordsSpared, KeepsPayloads;
    var i, k := FreeAt(m, blk, lists, 2);
    BaredKeeps(m, blk, lists, i, k, 2, 3, 32);
    var m2, after := Bared(m, 2, 32), blk[2 := Block(4, true, 32)];
    assert SameBits(m, m2, 5);
    SixKept(m, m2, blk);
    StaleTouched(m2);
    TakenWholeLayout(m, blk, lists, 2, 32);
    assert InAllocated(after, 6, 7) && IsKind(after, PAGE_ROWS, 7, Inside) by { BlockKind(after, PAGE_ROWS, 6, 7); }
    DamageByKinds(m2, after, Live(blk), 2, 5, 7, 7, Inside, Inside);
    TouchKeepsShape(m2, 5);
    InsideSpared(m2, Touch(m2, 5), 7);
  }

  lemma SixKept(m: Mem, t: Mem, blk: Blocks)
    requires PayloadRow(m) && KeepsPayloads(m, t, Live(blk)) && 6 in blk && blk[6] == Block(249, true, 3968)
    requires |t.hi| == |t.lo|
    ensures PayloadRow(t)
  {
    assert 6 in Live(blk) && 6 < 7 < After(Live(blk), 6);
    assert SameBits(m, t, 7);
  }

  lemma OnlySixLive()
    ensures map[2 := Block(4, true, 48), 6 := Block(249, true, 3968)] - {2} == map[6 := Block(249, true, 3968)]
  {
  }

  lemma LastTaken(blk: Blocks, b: int)
    requires blk == map[0 := Block(2, true, 0), 2 := Block(4, false, 0), 6 := Block(249, true, 3968)] && b in blk
    requires !blk[b].alloc
    ensures b == 2 && 6 in Taken(blk, b, 3, 32) && Taken(blk, b, 3, 32)[6] == Block(249, true, 3968)
    ensures Live(blk) == map[6 := Block(249, true, 3968)]
  {
    assert forall r :: r in Live(blk) <==> r == 6;
  }

  /** A client gets 48 bytes, stores 32 twice in its last 16 bytes, gets the rest of the page, stores 1 there,
      frees the first payload and asks for 32 bytes.  The touch takes the two words for a header and a footer
      of two rows each, and writes into the payload that is still live. */
  method HitRun(start: Bases) returns (h: Heap, damage: Damage, ghost before: Mem)
    requires Separate(start)
    ensures fresh(h) && h.Valid() && !h.intended && damage == PayloadHit
    ensures 6 in Live(h.blk) && h.blk[6] == Block(249, true, 3968)
    ensures |before.lo| == |h.M().lo| && !KeepsPayloads(before, h.M(), map[6 := h.blk[6]])
  {
    hide HeapOk, HeapEmpty, Obtained, GrowthNeeded, DamageOf, KeepsPayloads, Live, Leftovers, PassesChecks, Taken;
    h := PrepareHit(start);
    ghost var m0, blk0 := h.M(), h.blk;
    assert 2 in Live(h.blk);
    LiveInMemory(m0, h.blk, h.lists, 2);
    var aborted, wild := h.Free(48);
    ghost var s0, s := h.Now(), h.Now();
    RowsKept(m0, s0.m, blk0);
    OnlySixLive();
    OkInPages(s0.m, h.blk, h.lists);
    assert Live(h.blk) == Live(blk0) - {2};
    OnePageBefore(s0.m, h.blk, h.lists);
    var p;
    p, damage, s := h.Malloc(32);
    assert RowsFor(32) == 3;
    FitsHere(s0.blk, s0.m.end, h.end, 3, p != NULL, 2);
    ServedHere(s0, s, h.Now(), BlockOf(p), damage, 3, 32);
    LastTaken(s0.blk, BlockOf(p));
    StaleDamage(s0.m, s0.blk, s0.lists);
    before := s0.m;
  }

  // ----- a pointer that is not live and passes the checks of sf_free

  /** A client gets 48 bytes and stores 8 and 12 in the second 16 of them.  The address behind these passes for
      that of an allocated block, though it lies inside the payload, and the free goes through. */
  method WildRun(start: Bases) returns (h: Heap, aborted: bool, wild: bool)
    requires Separate(start)
    ensures !aborted && wild
  {
    hide HeapOk, HeapEmpty, Obtained, GrowthNeeded, DamageOf, KeepsPayloads, Live, Taken;
    var zeros: seq<Word> := seq(PAGE_ROWS + 1, _ => Data(0));
    h := new Heap(1, start, false, zeros, zeros);
    ghost var s0, s := h.Now(), h.Now();
    var p, damage;
    p, damage, s := h.Malloc(48);
    assert RowsFor(48) == 4;
    OnePage(h.end, 4, p != NULL);
    FirstServed(s0, s, h.Now(), BlockOf(p), damage, 4, 48);
    FirstTaken(s.blk);
    LiveOfTwo(h.blk);
    h.Store(p, 1, Data(8), Data(12));
    WildWords(h.M());
    aborted, wild := h.Free(p + 32);
  }

  lemma WildWords(m: Mem)
    requires Shape(m) && m.end == PAGE_ROWS && |m.lo| == PAGE_ROWS + 1 && m.lo[4] == Data(8) && m.hi[4] == Data(12)
    ensures PassesChecks(m, 4)
  {
  }
}

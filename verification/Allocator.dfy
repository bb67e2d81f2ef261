/** sf_malloc, sf_free and sf_realloc over the heap's memory. */
module Allocator {
  import opened HeapWords
  import opened HeapMemory
  import opened HeapTiling
  import opened HeapLists
  import opened HeapSteps
  import opened HeapBytes
  import opened HeapHeaders
  import opened HeapInvariants
  import opened HeapMoves
  import opened HeapDamage
  import opened HeapTaking
  import opened HeapGrowth
  import opened HeapWalks
  import opened HeapServing
  import opened HeapResizing
  import opened HeapGaps

  datatype Errno = Unset | ENOMEM | EINVAL

  class Heap {
    const lo: array<Word>
    const hi: array<Word>
    const headNext: array<int>
    const headPrev: array<int>
    var end: int
    const base: Bases
    /** Whether get_free_block takes the row behind the block for its successor, as it means to, or the row
        behind the requested size, as it does. */
    const intended: bool
    var errno: Errno

    /** The blocks and free lists that memory describes. */
    ghost var blk: Blocks
    ghost var lists: Lists

    /** An allocator that has not been called, with memory for the given number of pages and a row behind
        them.  Memory holds any words. */
    constructor (pages: nat, start: Bases, intended: bool, low: seq<Word>, high: seq<Word>)
      requires pages * PAGE_ROWS < ROW_LIMIT && Separate(start) && |low| == |high| == pages * PAGE_ROWS + 1
      ensures Valid() && blk == map[] && this.intended == intended
      ensures M() == Mem(low, high, seq(NUM_FREE_LISTS, _ => NULL), seq(NUM_FREE_LISTS, _ => NULL), 0, start)
      ensures fresh(lo) && fresh(hi) && fresh(headNext) && fresh(headPrev)
    {
      lo := new Word[|low|](i requires 0 <= i < |low| => low[i]);
      hi := new Word[|high|](i requires 0 <= i < |high| => high[i]);
      headNext := new int[NUM_FREE_LISTS](_ => NULL);
      headPrev := new int[NUM_FREE_LISTS](_ => NULL);
      end, base, errno := 0, start, Unset;
      this.intended := intended;
      blk, lists := map[], seq(NUM_FREE_LISTS, _ => []);
      new;
      assert lo[..] == low && hi[..] == high;
    }

    ghost function M(): Mem
      reads this`end, lo, hi, headNext, headPrev
    {
      Mem(lo[..], hi[..], headNext[..], headPrev[..], end, base)
    }

    /** The state, as a value. */
    ghost function Now(): Snapshot
      reads this`end, this`blk, this`lists, lo, hi, headNext, headPrev
    {
      Snapshot(M(), blk, lists)
    }

    ghost predicate Wired()
      reads this`end, lo, hi, headNext, headPrev
    {
      lo != hi && headNext != headPrev && Shape(M())
    }

    // ----- links

    method Next(a: int) returns (v: int)
      requires Wired()
      ensures v == NextOf(M(), a)
    {
      if IsHead(a) {
        v := headNext[-1 - a];
      } else if 0 <= a < lo.Length - 1 {
        v := PointerOf(lo[a + 1], base);
      } else {
        v := NULL;
      }
    }

    method Prev(a: int) returns (v: int)
      requires Wired()
      ensures v == PrevOf(M(), a)
    {
      if IsHead(a) {
        v := headPrev[-1 - a];
      } else if 0 <= a < lo.Length - 1 {
        v := PointerOf(hi[a + 1], base);
      } else {
        v := NULL;
      }
    }

    method PutNext(a: int, v: int)
      requires Wired() && Linkable(M(), a)
      modifies lo, headNext
      ensures Wired() && M() == SetNext(old(M()), a, v)
    {
      if IsHead(a) {
        headNext[-1 - a] := v;
      } else {
        lo[a + 1] := Link(v);
      }
    }

    method PutPrev(a: int, v: int)
      requires Wired() && Linkable(M(), a)
      modifies hi, headPrev
      ensures Wired() && M() == SetPrev(old(M()), a, v)
    {
      if IsHead(a) {
        headPrev[-1 - a] := v;
      } else {
        hi[a + 1] := Link(v);
      }
    }

    // ----- loads and stores at byte addresses

    method LaneAt(k: int) returns (w: Word)
      requires Wired() && 0 <= k < 2 * lo.Length
      ensures w == Lane(M(), k)
    {
      w := if k % 2 == 0 then lo[k / 2] else hi[k / 2];
    }

    method PutLaneAt(k: int, w: Word)
      requires Wired() && 0 <= k < 2 * lo.Length
      modifies lo, hi
      ensures Wired() && M() == PutLane(old(M()), k, w)
    {
      if k % 2 == 0 {
        lo[k / 2] := w;
      } else {
        hi[k / 2] := w;
      }
    }

    method LoadAt(a: int) returns (w: Word)
      requires Wired() && InMemory(M(), a)
      ensures w == Load(M(), a)
    {
      hide Lane, Straddled, WordOf, BitsOf;
      var k, o := a / 8, a % 8;
      w := LaneAt(k);
      if o != 0 {
        var v := LaneAt(k + 1);
        w := WordOf(Straddled(BitsOf(w, base), BitsOf(v, base), o));
      }
    }

    method PutAt(a: int, w: Word)
      requires Wired() && InMemory(M(), a)
      modifies lo, hi
      ensures Wired() && M() == Put(old(M()), a, w)
    {
      hide Lane, PutLane, Straddling, WordOf, BitsOf;
      var k, o := a / 8, a % 8;
      if o == 0 {
        PutLaneAt(k, w);
      } else {
        var x := LaneAt(k);
        var y := LaneAt(k + 1);
        var (u, v) := Straddling(BitsOf(x, base), BitsOf(y, base), BitsOf(w, base), o);
        PutLaneAt(k, WordOf(u));
        PutLaneAt(k + 1, WordOf(v));
      }
    }

    // ----- touch_for_heap_update

    method TouchForHeapUpdate(b: int)
      requires Wired()
      modifies lo, hi
      ensures Wired() && M() == Touch(old(M()), b)
    {
      hide NotePrevious, NoteAllocated, NoteFooter, View, Size, Load;
      if !(0 <= b < lo.Length) {
        return;  // a list head, which is not in the heap
      }
      var next := 16 * b + Size(hi[b], base);
      var prev := 16 * b - Size(lo[b], base);
      if next > 16 * end || prev < 0 || prev > 16 * end {
        return;
      }
      UpdatePrevious(b, next, prev);
      var header := LoadAt(16 * b + 8);
      var is_current_alloc := View(header, base).alloc;
      if is_current_alloc {
        UpdateNext(b, next);
      }
      UpdateFooter(b, next, is_current_alloc);
    }

    method UpdatePrevious(b: int, next: int, prev: int)
      requires Wired() && InMemory(M(), 16 * b) && InMemory(M(), next) && InMemory(M(), prev + 8)
      modifies lo, hi
      ensures Wired() && M() == NotePrevious(old(M()), b, next, prev)
    {
      hide View, SetPrevAlloc, Load, Put;
      var p := LoadAt(prev + 8);
      if View(p, base).alloc {
        var h := LoadAt(16 * b + 8);
        PutAt(16 * b + 8, SetPrevAlloc(h, base));
        p := LoadAt(prev + 8);
        PutAt(16 * b, p);
        h := LoadAt(16 * b + 8);
        PutAt(next, h);
      }
    }

    method UpdateNext(b: int, next: int)
      requires Wired() && InMemory(M(), 16 * b) && InMemory(M(), next + 8) && 0 <= next
      modifies lo, hi
      ensures Wired() && M() == NoteAllocated(old(M()), b, next)
    {
      hide View, SetPrevAlloc, Load, Put;
      var h := LoadAt(16 * b + 8);
      PutAt(next, h);
      var x := LoadAt(next + 8);
      PutAt(next + 8, SetPrevAlloc(x, base));
    }

    method UpdateFooter(b: int, next: int, alloc: bool)
      requires Wired() && InMemory(M(), 16 * b) && InMemory(M(), next + 8) && 0 <= next
      modifies lo, hi
      ensures Wired() && M() == NoteFooter(old(M()), b, next, alloc)
    {
      hide View, SetHeader, Load, Put;
      var h := LoadAt(16 * b + 8);
      PutAt(next, h);
      var x := LoadAt(next + 8);
      PutAt(next + 8, SetHeader(x, alloc, base));
    }

    // ----- insert_block and isolate_block

    method InsertBlock(block: int, index: int)
      requires Wired() && 0 <= block < lo.Length - 1 && 0 <= index < NUM_FREE_LISTS
      requires Linkable(M(), NextOf(M(), Head(index))) || NextOf(M(), Head(index)) == NULL
      modifies lo, hi, headNext, headPrev
      ensures Wired() && M() == Insert(old(M()), index, block)
    {
      hide SetNext, SetPrev, NextOf, PrevOf, Touch;
      ghost var m := M();
      var head := Head(index);
      var tmp := Next(head);
      if tmp == NULL || tmp == head {
        PutNext(head, block);
        PutPrev(head, block);
        PutNext(block, head);
        PutPrev(block, head);
      } else {
        PutNext(block, tmp);
        PutPrev(block, head);
        PutNext(head, block);
        PutPrev(tmp, block);
      }
      TouchForHeapUpdate(block);
    }

    /** A block that is in no list is left alone. */
    method IsolateBlock(block: int) returns (isolated: bool)
      requires Wired() && 0 <= block < lo.Length - 1
      requires Linkable(M(), NextOf(M(), block)) || NextOf(M(), block) == NULL
      requires Linkable(M(), PrevOf(M(), block)) || PrevOf(M(), block) == NULL
      modifies lo, hi, headNext, headPrev
      ensures Wired() && (isolated <==> old(NextOf(M(), block) != NULL && PrevOf(M(), block) != NULL))
      ensures M() == if isolated then Isolate(old(M()), block) else old(M())
    {
      hide SetNext, SetPrev, NextOf, PrevOf, Touch;
      var next := Next(block);
      if next == NULL {
        return false;
      }
      var prev := Prev(block);
      if prev == NULL {
        return false;
      }
      PutNext(prev, next);
      PutPrev(next, prev);
      PutNext(block, NULL);
      PutPrev(block, NULL);
      TouchForHeapUpdate(next);
      isolated := true;
    }

    // ----- coalescing

    ghost predicate Ready()
      reads this`end, this`blk, this`lists, lo, hi, headNext, headPrev
    {
      Wired() && Consistent(M(), blk, NONE, lists) && FreeListed(blk, lists)
    }

    /** Whether block is free and one of its neighbors in the heap is. */
    method CanCoalesce(block: int) returns (can: bool)
      requires Ready() && block in blk
      ensures can <==>
        (!blk[block].alloc
         && ((After(blk, block) in blk && !blk[After(blk, block)].alloc) || exists p ::
              Precedes(blk, p, block) && !blk[p].alloc))
    {
      assert BlockFits(blk, end, block) && BlockFits(blk, end, 0) && Tagged(M(), blk, block);
      if hi[block].alloc {
        return false;
      }
      var next := block + hi[block].rows;
      var prev := block - View(lo[block], base).rows;
      ghost var p := TouchFinds(M(), blk, NONE, block);
      assert Tagged(M(), blk, p);
      if next < end {
        if next in blk { assert Tagged(M(), blk, next); }
        if !View(hi[next], base).alloc {
          return true;
        }
      }
      if prev > 0 {
        if !View(hi[prev], base).alloc {
          return true;
        }
      }
      forall q | Precedes(blk, q, block)
        ensures q == p
      {
        PredecessorUnique(blk, end, q, p, block);
      }
      return false;
    }

    /** Merges the free block join into the free block main right before it. */
    method Coalesce(main: int, join: int, ghost live: Blocks) returns (merged: bool)
      requires Ready() && main in blk && join in blk && main != 0 && join == After(blk, main) && Covered(live, blk, end)
      modifies lo, hi, headNext, headPrev, this`blk, this`lists
      ensures merged <==> old(!blk[main].alloc && !blk[join].alloc)
      ensures !merged ==> M() == old(M()) && blk == old(blk) && lists == old(lists)
      ensures Ready() && KeepsPayloads(old(M()), M(), live) && end == old(end)
      ensures merged ==> blk == Merged(old(blk), main, join) && Relisted(old(lists), lists, blk, main, join)
    {
      hide TiledBut, Linked, KeepsPayloads, Layout, Disjoint, Apart, Touch, NextOf, PrevOf, FreeListed, Listed, Merged,
        MainMoved, JoinDropped, Relisted, AllClear, StaleFooter, OthersFree, Covered;
      ghost var m0, blk0, lists0 := M(), blk, lists;
      KeepsReflexive(m0, live);
      Parts(m0, blk, NONE, lists);
      PartsOf(m0, blk, NONE, lists, main);
      PartsOf(m0, blk, NONE, lists, join);
      if hi[main].alloc || hi[join].alloc {
        return false;
      }
      merged := true;
      var rows := hi[main].rows + hi[join].rows;
      MergeStep(m0, blk, lists, main, join, live);
      AllClearOf(blk, end, lists, live);
      MergeableListed(blk, lists, main, join);
      hi[main] := Header(0, rows, false, hi[main].prevAlloc);
      blk := Merged(blk0, main, join);
      MergedBlocks(blk0, main, join);
      assert M() == MergeHeader(m0, main, rows);
      var index := FindAllocationIndex(16 * rows);
      ghost var m1 := M();
      Parts(m1, blk, main, lists);
      RelistMain(main, index, m0, live);
      ghost var lists1 := lists;
      Parts(M(), blk, main, lists);
      MainMovedListed(lists0, lists1, main, index);
      StaleFooterKept(m1, M(), blk, lists0, lists1, main, join);
      OthersFreeAfter(blk0, lists0, lists1, main, join);
      SameListedClear(live, lists0, lists1);
      DropJoined(main, join, index, m0, live);
      JoinDroppedListed(lists1, lists, join);
      MergedFreeListed(blk0, end, lists0, lists, main, join);
      RelistedBy(lists0, lists1, lists, blk, main, join);
    }

    /** The merged block moves to the front of the list for its size. */
    method RelistMain(main: int, index: int, ghost m0: Mem, ghost live: Blocks)
      requires Wired() && Consistent(M(), blk, main, lists) && Listed(lists, main) && 0 <= index < NUM_FREE_LISTS
      requires AllClear(live, lists) && KeepsPayloads(m0, M(), live)
      modifies lo, hi, headNext, headPrev, this`lists
      ensures Wired() && Consistent(M(), blk, main, lists) && KeepsPayloads(m0, M(), live) && end == old(end)
      ensures MainMoved(old(lists), lists, main, index) && lists[index] != [] && lists[index][0] == main
      ensures forall r {:trigger SameRow(old(M()), M(), r)} | r - 1 != main && !Listed(old(lists), r - 1) ::
        SameRow(old(M()), M(), r)
    {
      hide SetNext, SetPrev, NextOf, PrevOf;
      ghost var m1 := M();
      ghost var i, k := Position(lists, main);
      RelistStep(m1, blk, main, lists, i, k, index, live);
      RemovedDisjoint(lists, i, k);
      RemovedMembers(lists, i, k);
      PushedMembers(Removed(lists, i, k), index, main);
      var prev := Prev(main);
      var next := Next(main);
      PutNext(prev, next);
      PutPrev(next, prev);
      ghost var m2 := M();
      assert m2 == Bypass(m1, main);
      RelinkIsPush(m2, index, main);
      next := Next(Head(index));
      PutNext(Head(index), main);
      PutPrev(main, Head(index));
      PutNext(main, next);
      PutPrev(next, main);
      assert M() == Relink(m2, index, main);
      lists := Pushed(Removed(lists, i, k), index, main);
      KeepsTransitive(m0, m1, M(), live);
    }

    /** The joined block leaves its list, and the merged block is completed. */
    method DropJoined(main: int, join: int, index: int, ghost m0: Mem, ghost live: Blocks)
      requires Wired() && Consistent(M(), blk, main, lists) && StaleFooter(M(), blk, lists, main, join)
      requires main in blk && main != 0 && !blk[main].alloc && 0 <= main < join && join !in blk && 0 in blk
      requires Listed(lists, join) && 0 <= index < |lists| && lists[index] != [] && lists[index][0] == main
      requires OthersFree(blk, lists, join)
      requires Covered(live, blk, end) && AllClear(live, lists) && KeepsPayloads(m0, M(), live)
      modifies lo, hi, headNext, headPrev, this`lists
      ensures Wired() && Consistent(M(), blk, NONE, lists) && KeepsPayloads(m0, M(), live) && end == old(end)
      ensures JoinDropped(old(lists), lists, join)
    {
      hide NextOf, PrevOf, Touch, Isolate;
      ghost var m3 := M();
      ghost var i, k := Position(lists, join);
      NextAfterJoin(m3, blk, lists, main, join, index, i, k);
      IsolateStep(m3, blk, main, lists, i, k, live);
      LinkedNotNull(m3, lists, i, k);
      RemovedMembers(lists, i, k);
      var isolated := IsolateBlock(join);
      lists := Removed(lists, i, k);
      ghost var m4 := M();
      KeepsTransitive(m0, m3, m4, live);
      CompletingTouch(m4, blk, lists, main, live);
      TouchForHeapUpdate(main);
      ghost var m5 := M();
      KeepsTransitive(m0, m4, m5, live);
      assert Tagged(m5, blk, main);
      RefreshFooter(m5, blk, lists, main, live);
      lo[main + hi[main].rows] := hi[main];
      KeepsTransitive(m0, m5, M(), live);
    }

    /** The walk that merges every run of free blocks.  w is a block left in the last list that is
        about to be merged with its successor, if any. */
    method DoCoalesce(ghost w: int, ghost live: Blocks)
      requires Ready() && end > 0 && Covered(live, blk, end) && ClassedBut(blk, end, lists, w) && Dangling(blk, w)
      modifies lo, hi, headNext, headPrev, this`blk, this`lists
      ensures Ready() && end == old(end) && KeepsPayloads(old(M()), M(), live) && Covered(live, blk, end)
      ensures Coarser(old(blk), blk) && Coalesced(blk) && Classed(blk, end, lists)
    {
      hide TiledBut, Linked, KeepsPayloads, Disjoint, Apart, Touch, NextOf, PrevOf, ClassedBut, Relisted, Merged,
        Coarser, Covered;
      ghost var m0, blk0, w1 := M(), blk, w;
      var tmp := 0;
      Parts(M(), blk, NONE, lists);
      KeepsReflexive(m0, live);
      CoarserReflexive(blk, end);
      PartsOf(M(), blk, NONE, lists, 0);
      var current_size := hi[0].rows;
      var stop := end - 1;
      assert BlockFits(blk, end, 0);
      if w != NONE { assert BlockFits(blk, end, w); }
      while tmp < stop
        invariant Ready() && end == old(end) && stop == end - 1 && KeepsPayloads(m0, M(), live)
        invariant Covered(live, blk, end)
        invariant tmp in blk && tmp < stop && current_size == blk[tmp].rows
        invariant CoalescedTo(blk, tmp) && Coarser(blk0, blk)
        invariant ClassedBut(blk, end, lists, w1) && Dangling(blk, w1) && (w1 == NONE || tmp <= w1)
        decreases |blk|, end - tmp
      {
        var next := tmp + current_size;
        Parts(M(), blk, NONE, lists);
        assert BlockFits(blk, end, tmp);
        if next >= stop {
          LastIsSeparated(blk, end, tmp, w1);
          return;
        }
        PartsOf(M(), blk, NONE, lists, next);
        var can := CanCoalesce(tmp);
        if can {
          ghost var blk1, lists1, m1 := blk, lists, M();
          var merged := Coalesce(tmp, next, live);
          KeepsTransitive(m0, m1, M(), live);
          if !merged {
            tmp := next;
            current_size := hi[tmp].rows;
            continue;
          }
          MergeCoarser(blk0, blk1, end, tmp, next);
          MergeKeepsClasses(blk1, end, lists1, lists, tmp, next, w1);
          MergeKeepsPrefix(blk1, end, tmp, next);
          MergedBlocks(blk1, tmp, next);
          CoveredMerged(live, blk1, end, tmp, next);
          w1 := if w1 == tmp || w1 == next then NONE else w1;
          PartsOf(M(), blk, NONE, lists, tmp);
          current_size := hi[tmp].rows;
          continue;
        }
        tmp := next;
        current_size := hi[tmp].rows;
        if current_size < MIN_ROWS {
          return;
        }
      }
    }

    // ----- the last block and the epilogue

    /** The headers in memory are those of the blocks. */
    ghost predicate HeadersOk()
      reads this`end, this`blk, lo, hi, headNext, headPrev
    {
      && Layout(blk, end) && EpilogueTagged(M())
      && forall r {:trigger Tagged(M(), blk, r)} | r in blk :: Tagged(M(), blk, r)
    }

    /** The block before the epilogue, found by walking the headers. */
    method FindLastInHeap() returns (last: int)
      requires Wired() && HeadersOk()
      ensures last in blk && After(blk, last) == end - 1
    {
      assert Tagged(M(), blk, 0) && BlockFits(blk, end, 0);
      var tmp := 0;
      last := tmp;
      var current_size := hi[0].rows;
      while tmp < end - 1
        invariant 0 <= tmp <= end - 1 && Boundary(blk, end, tmp)
        invariant tmp in blk ==> current_size == blk[tmp].rows
        invariant last in blk && (tmp > 0 ==> After(blk, last) == tmp)
        decreases end - tmp
      {
        assert BlockFits(blk, end, tmp);
        last := tmp;
        tmp := tmp + current_size;
        if tmp in blk { assert Tagged(M(), blk, tmp); }
        assert hi[tmp].Header?;
        current_size := hi[tmp].rows;
        assert tmp in blk ==> BlockFits(blk, end, tmp);
        if current_size < MIN_ROWS {
          return;
        }
      }
    }

    /** A free block moves to the front of the last list. */
    method PlaceInWilderness(block: int, ghost live: Blocks)
      requires Ready() && block in blk && Covered(live, blk, end)
      modifies lo, hi, headNext, headPrev, this`lists
      ensures Ready() && end == old(end) && KeepsPayloads(old(M()), M(), live)
      ensures if blk[block].alloc then lists == old(lists)
        else MainMoved(old(lists), lists, block, NUM_FREE_LISTS - 1)
    {
      hide NextOf, PrevOf, Isolate, Insert;
      ghost var m0, lists0 := M(), lists;
      assert Tagged(m0, blk, block) && BlockFits(blk, end, block);
      if hi[block].alloc {
        return;
      }
      AllClearOf(blk, end, lists, live);
      ghost var i, k := Position(lists, block);
      WildernessIsolates(m0, blk, lists, i, k);
      IsolateStep(m0, blk, NONE, lists, i, k, live);
      LinkedNotNull(m0, lists, i, k);
      RemovedDisjoint(lists, i, k);
      RemovedMembers(lists, i, k);
      var isolated := IsolateBlock(block);
      lists := Removed(lists, i, k);
      ghost var m1 := M();
      Weaken(m1, blk, block);
      assert Listed(lists0, block);
      InsertStep(m1, blk, block, lists, NUM_FREE_LISTS - 1, live);
      PushedDisjoint(lists, NUM_FREE_LISTS - 1, block);
      PushedMembers(lists, NUM_FREE_LISTS - 1, block);
      InsertBlock(block, NUM_FREE_LISTS - 1);
      lists := Pushed(lists, NUM_FREE_LISTS - 1, block);
      KeepsTransitive(m0, m1, M(), live);
      MainMovedListed(lists0, lists, block, NUM_FREE_LISTS - 1);
    }

    /** The epilogue's previous footer and prev-alloc bit follow the last block.  m is the memory but for the
        epilogue, which may have been overwritten. */
    method FixEpilogue(last: int, ghost m: Mem, ghost live: Blocks)
      requires Wired() && EpilogueFixable(last, m, live)
      modifies lo, hi
      ensures Wired() && Consistent(M(), blk, NONE, lists) && KeepsPayloads(m, M(), live) && end == old(end)
    {
      hide TiledBut, Linked, Layout, Apart, KeepsPayloads, Covered;
      PartsOf(m, blk, NONE, lists, last);
      EpilogueAfter(m, blk, last);
      RefreshFooter(m, blk, lists, last, live);
      var epilogue := end - 1;
      lo[epilogue] := hi[last];
      hi[epilogue] := Header(hi[epilogue].payload, hi[epilogue].rows, hi[epilogue].alloc, hi[last].alloc);
      assert hi[..] == m.hi;
      assert lo[..] == m.lo[epilogue := m.hi[last]];
    }

    ghost predicate EpilogueFixable(last: int, m: Mem, live: Blocks)
      reads this`end, this`blk, this`lists, lo, hi, headNext, headPrev
    {
      && Consistent(m, blk, NONE, lists) && SameButEpilogue(m, M())
      && last in blk && After(blk, last) == end - 1 && Covered(live, blk, end)
    }

    // ----- finding and taking a block

    /** The first block, in list order from list index on, that is large enough. */
    method FindFit(index: int, total: int) returns (tmp: int)
      requires Wired() && Linked(M(), lists) && ListedFree(M(), blk, lists) && 0 <= index < NUM_FREE_LISTS
      ensures if tmp == NULL then forall i | index <= i < NUM_FREE_LISTS :: NoneFits(blk, lists[i], total)
        else FirstFit(blk, lists, index, total, tmp)
    {
      hide NextOf;
      var temp_index := index;
      while temp_index < NUM_FREE_LISTS
        invariant index <= temp_index <= NUM_FREE_LISTS
        invariant forall i | index <= i < temp_index :: NoneFits(blk, lists[i], total)
      {
        var head := Head(temp_index);
        assert NodeLinked(M(), lists, temp_index, -1);
        tmp := Next(head);
        ghost var k := 0;
        HeadAtEnd(M(), lists, temp_index, k);
        while tmp != head
          invariant 0 <= k <= |lists[temp_index]| && tmp == NodeAt(lists, temp_index, k)
          invariant tmp == head <==> k == |lists[temp_index]|
          invariant NoneFits(blk, lists[temp_index][..k], total)
          decreases |lists[temp_index]| - k
        {
          assert NodeLinked(M(), lists, temp_index, k);
          assert tmp in lists[temp_index];
          assert Listed(lists, tmp);
          if !hi[tmp].alloc && hi[tmp].rows >= total {
            assert At(lists, temp_index, k, tmp);
            return;
          }
          assert lists[temp_index][..k + 1] == lists[temp_index][..k] + [tmp];
          tmp := Next(tmp);
          k := k + 1;
          HeadAtEnd(M(), lists, temp_index, k);
        }
        assert lists[temp_index][..k] == lists[temp_index];
        temp_index := temp_index + 1;
      }
      tmp := NULL;
    }

    /** Writes the header of the taken block t when too little is left over for another block. */
    method MarkWhole(t: int, payload: Payload, ghost live: Blocks)
      requires Ready() && t in blk && t != 0 && !blk[t].alloc && Within(live, blk)
      modifies lo, hi, this`blk
      ensures Wired() && Consistent(M(), blk, NONE, lists) && end == old(end) && KeepsPayloads(old(M()), M(), live)
      ensures Within(live, blk) && blk == old(blk)[t := Block(old(blk)[t].rows, true, payload)]
      ensures InsideKept(old(M()), M(), old(blk), t)
      ensures 0 <= t < lo.Length && old(hi[t]).Header? && M() == Touch(Retag(old(M()), t, payload, true), t)
    {
      hide Touch, TiledBut, Linked, Apart, KeepsPayloads, InsideKept;
      ghost var m0, blk0 := M(), blk;
      WithinCovered(live, blk, end);
      RetagStep(m0, blk, lists, t, payload, true, live);
      hi[t] := Header(payload, hi[t].rows, true, hi[t].prevAlloc);
      ghost var m1 := M();
      assert m1 == Retag(m0, t, payload, true);
      blk := blk[t := Block(blk[t].rows, true, payload)];
      CompletingTouch(m1, blk, lists, t, live);
      OneCovered(blk, t, end);
      CompletingTouch(m1, blk, lists, t, map[t := blk[t]]);
      TouchForHeapUpdate(t);
      KeepsTransitive(m0, m1, M(), live);
      RetagKeepsInside(m0, M(), blk0, t, payload);
    }

    /** The headers of the taken block t and of what is left over. */
    method WriteSplit(t: int, total: int, payload: Payload)
      requires Wired() && 0 <= t < t + total < lo.Length && hi[t].Header? && total <= hi[t].rows
      modifies lo, hi
      ensures Wired() && M() == SplitHeaders(old(M()), t, old(hi[t].rows), total, payload)
    {
      var block_size, prev_alloc := hi[t].rows, hi[t].prevAlloc;
      hi[t] := Header(payload, total, true, prev_alloc);
      var split_section := t + total;
      hi[split_section] := Header(0, block_size - total, false, true);
      lo[split_section] := hi[t];
    }

    /** Writes the header of the taken block t and makes what is left over a free block behind it. */
    method MarkSplit(t: int, total: int, payload: Payload, ghost live: Blocks)
      requires Ready() && t in blk && t != 0 && !blk[t].alloc && MIN_ROWS <= total <= blk[t].rows - MIN_ROWS
      requires Within(live, blk)
      modifies lo, hi, headNext, headPrev, this`blk, this`lists
      ensures Wired() && Consistent(M(), blk, NONE, lists) && end == old(end) && KeepsPayloads(old(M()), M(), live)
      ensures Within(live, blk) && blk == SplitBlocks(old(blk), t, total, true, payload)
      ensures lists == Pushed(old(lists), ClassOf(old(blk)[t].rows - total), t + total)
    {
      hide NextOf, PrevOf, Insert, Touch, TiledBut, Linked, KeepsPayloads, Layout, Disjoint, Apart, FreeListed, Listed,
        Pushed, AllClear, Clear, Covered;
      ghost var m0, blk0 := M(), blk;
      Parts(m0, blk, NONE, lists);
      PartsOf(m0, blk, NONE, lists, t);
      WithinCovered(live, blk, end);
      AllClearOf(blk, end, lists, live);
      SplitLayout(blk0, end, t, total, payload);
      WithinTaken(live, blk0, t, total, payload, end);
      WithinCovered(live, SplitBlocks(blk0, t, total, true, payload), end);
      FreeListedIn(blk, lists);
      SplitStep(m0, blk0, lists, t, total, payload, live);
      var block_size, split_section := hi[t].rows, t + total;
      WriteSplit(t, total, payload);
      ghost var m1 := M();
      blk := SplitBlocks(blk0, t, total, true, payload);
      Parts(m1, blk, split_section, lists);
      var index_of_split := FindAllocationIndex(16 * (block_size - total));
      BlockIsClear(blk, end, live, split_section);
      InsertStep(m1, blk, split_section, lists, index_of_split, live);
      InsertBlock(split_section, index_of_split);
      lists := Pushed(lists, index_of_split, split_section);
      ghost var m2 := M();
      QuietTouch(m2, blk, lists, t, live);
      TouchForHeapUpdate(t);
      KeepsTransitive(m0, m1, m2, live);
      KeepsTransitive(m0, m2, M(), live);
    }

    /** Writes the header of the taken block t and, if enough is left over, the free block behind it. */
    method MarkTaken(t: int, total: int, payload: Payload, ghost live: Blocks)
      requires Ready() && t in blk && t != 0 && !blk[t].alloc && MIN_ROWS <= total <= blk[t].rows && Within(live, blk)
      modifies lo, hi, headNext, headPrev, this`blk, this`lists
      ensures Wired() && Consistent(M(), blk, NONE, lists) && end == old(end) && KeepsPayloads(old(M()), M(), live)
      ensures Within(live, blk) && blk == Taken(old(blk), t, total, payload)
      ensures lists == if old(blk)[t].rows - total >= MIN_ROWS
        then Pushed(old(lists), ClassOf(old(blk)[t].rows - total), t + total) else old(lists)
      ensures old(blk)[t].rows - total < MIN_ROWS ==> InsideKept(old(M()), M(), old(blk), t)
      ensures old(blk)[t].rows - total < MIN_ROWS ==>
        0 <= t < lo.Length && old(hi[t]).Header? && M() == Touch(Retag(old(M()), t, payload, true), t)
    {
      hide TiledBut, Linked, KeepsPayloads, Layout, InsideKept;
      PartsOf(M(), blk, NONE, lists, t);
      if hi[t].rows - total >= MIN_ROWS {
        MarkSplit(t, total, payload, live);
      } else {
        MarkWhole(t, payload, live);
      }
    }

    /** Takes the free block t, as get_free_block does once it has found one.  Its last touch goes to the row
        behind the requested size, which is no block when 16 bytes are left over unsplit; the stale words
        there decide on the damage.  The source goes on walking the headers of a broken heap; the model ends
        the call there. */
    method TakeBlock(t: int, total: int, payload: Payload, ghost live: Blocks) returns (damage: Damage)
      requires Ready() && t in blk && t != 0 && !blk[t].alloc && MIN_ROWS <= total <= blk[t].rows && live == Live(blk)
      modifies lo, hi, headNext, headPrev, this`blk, this`lists
      ensures Wired() && end == old(end) && blk == Taken(old(blk), t, total, payload)
      ensures damage == if intended then Unharmed else DamageOf(old(M()), old(blk), t, total, payload)
      ensures damage == HeapBroken ==> 0 <= t < lo.Length - 1 && old(hi[t]).Header?
      ensures damage == HeapBroken ==> M() == Touch(Bared(old(M()), t, payload), t + total)
      ensures damage != HeapBroken ==> Ready()
      ensures damage == Unharmed ==> KeepsPayloads(old(M()), M(), live)
      ensures damage == PayloadHit ==> HitsOne(old(M()), M(), live)
      ensures TakenLists(old(lists), lists, t, total, old(blk)[t].rows)
    {
      hide NextOf, PrevOf, Isolate, Touch, TiledBut, Linked, KeepsPayloads, Layout, Disjoint, Apart, FreeListed, Listed,
        Removed, TakenLists, AllClear, Taken, InsideKept, Live, DamageAt, Retag, Covered, HitsOne;
      ghost var m0, blk0, lists0 := M(), blk, lists;
      Parts(m0, blk, NONE, lists);
      PartsOf(m0, blk, NONE, lists, t);
      MarkTaken(t, total, payload, live);
      ghost var m1, lists1 := M(), lists;
      Parts(m1, blk, NONE, lists1);
      TakenMembers(blk0, end, lists0, lists1, t, total, payload, live);
      WithinCovered(live, blk, end);
      AllClearIn(blk, end, lists1, live);
      ghost var i, k := Position(lists1, t);
      WildernessIsolates(m1, blk, lists1, i, k);
      IsolateStep(m1, blk, NONE, lists1, i, k, live);
      LinkedNotNull(m1, lists1, i, k);
      TakenRows(blk0, t, total, payload);
      TakenOut(blk0, lists0, lists1, t, total, payload, i, k);
      var isolated := IsolateBlock(t);
      lists := Removed(lists1, i, k);
      KeepsTransitive(m0, m1, M(), live);
      TakenLive(blk0, end, t, total, payload);
      TakenWhole(m0, m1, M(), blk0, blk, t, total, payload, live);
      damage := TouchSuccessor(t, total, live, m0);
    }

    /** The touch behind the taken block t, and the epilogue after it. */
    method TouchSuccessor(t: int, total: int, ghost live: Blocks, ghost m0: Mem) returns (damage: Damage)
      requires Ready() && t in blk && blk[t].alloc && t != 0 && MIN_ROWS <= total
      requires blk[t].rows == total || blk[t].rows == total + 1
      requires live == Live(blk) - {t} && KeepsPayloads(m0, M(), live)
      modifies lo, hi
      ensures Wired() && end == old(end) && 0 <= t + total < lo.Length
      ensures damage == if intended || blk[t].rows == total then Unharmed else DamageAt(old(M()), blk, live, t + total)
      ensures damage == HeapBroken ==> M() == Touch(old(M()), t + total)
      ensures damage != HeapBroken ==> Ready()
      ensures damage == Unharmed ==> KeepsPayloads(m0, M(), live)
      ensures damage == PayloadHit ==> HitsOne(m0, M(), live)
    {
      hide TiledBut, Linked, KeepsPayloads, Apart, FreeListed, Disjoint, Layout, Live, DamageAt, HitsOne;
      PartsOf(M(), blk, NONE, lists, t);
      var next := t + if intended then hi[t].rows else total;
      if next == t + hi[t].rows {
        LiveWithin(blk, end, t);
        TouchAfter(t, next, live, m0);
        damage := Unharmed;
      } else {
        damage := TouchPadding(t, next, live, m0);
      }
    }

    method TouchAfter(t: int, next: int, ghost live: Blocks, ghost m0: Mem)
      requires Ready() && t in blk && blk[t].alloc && t != 0 && next == After(blk, t)
      requires Covered(live, blk, end) && KeepsPayloads(m0, M(), live)
      modifies lo, hi
      ensures Ready() && end == old(end) && KeepsPayloads(m0, M(), live)
    {
      hide Touch, TiledBut, Linked, KeepsPayloads, Apart, FreeListed, Disjoint, Layout, Covered, SameButEpilogue;
      ghost var m := M();
      FreeListedIn(blk, lists);
      ghost var g := SuccessorTouched(m, blk, lists, t, live);
      TouchForHeapUpdate(next);
      KeepsTransitive(m0, m, g, live);
      RedoEpilogue(t, g, live);
      KeepsTransitive(m0, g, M(), live);
    }

    /** The epilogue is set anew after a touch behind the block t. */
    method RedoEpilogue(t: int, ghost g: Mem, ghost live: Blocks)
      requires Wired() && Consistent(g, blk, NONE, lists) && SameButEpilogue(g, M()) && Covered(live, blk, end)
      requires t in blk && t != 0
      modifies lo, hi
      ensures Wired() && Consistent(M(), blk, NONE, lists) && KeepsPayloads(g, M(), live) && end == old(end)
    {
      hide TiledBut, Linked, KeepsPayloads, Apart, Layout, Covered;
      Parts(g, blk, NONE, lists);
      SameHeaders(g, M(), blk);
      var last := FindLastInHeap();
      LastIsBehind(blk, end, t, last);
      MarkEpilogue(last, g, live);
    }

    /** What row r is for, found by walking the headers. */
    method KindOf(r: int) returns (kind: Kind)
      requires Wired() && HeadersOk() && 0 <= r <= end
      ensures IsKind(blk, end, r, kind)
    {
      hide IsKind, Layout;
      assert Tagged(M(), blk, 0) && BlockFits(blk, end, 0) by { FirstRow(blk, end); }
      var b := 0;
      while b < end - 1 && b + hi[b].rows <= r
        invariant 0 <= b <= end - 1 && Boundary(blk, end, b) && b <= r
        invariant b in blk ==> hi[b].Header? && hi[b].rows == blk[b].rows && hi[b].alloc == blk[b].alloc
        decreases end - b
      {
        NextBoundary(blk, end, b);
        b := b + hi[b].rows;
        if b in blk { assert Tagged(M(), blk, b); }
      }
      if b == end - 1 {
        EpilogueKind(blk, end, r);
        return if r == b then Epilogue else Other;
      }
      BlockKind(blk, end, b, r);
      return if r == b then Start else if hi[b].alloc then Inside else if r == b + 1 then Links else Other;
    }

    /** The touch of the padding row g behind the payload of t.  What the rows that it writes to are for, and
        their words before and after, tell the damage. */
    method TouchPadding(t: int, g: int, ghost live: Blocks, ghost m0: Mem) returns (damage: Damage)
      requires Ready() && PaddingRow(blk, t, g) && live == Live(blk) - {t} && KeepsPayloads(m0, M(), live)
      modifies lo, hi
      ensures Wired() && end == old(end) && 0 <= g < lo.Length && damage == DamageAt(old(M()), blk, live, g)
      ensures damage == HeapBroken ==> M() == Touch(old(M()), g)
      ensures damage != HeapBroken ==> Ready()
      ensures damage == Unharmed ==> KeepsPayloads(m0, M(), live)
      ensures damage == PayloadHit ==> HitsOne(m0, M(), live)
    {
      hide Touch, TiledBut, Linked, KeepsPayloads, Apart, FreeListed, Disjoint, Layout, Live, WordsSpared, WordsChanged,
        Size, Covered, SameButEpilogue, IsKind, Overwrites, HeapSpared, HitsOne;
      ghost var m := M();
      Parts(m, blk, NONE, lists);
      PartsOf(m, blk, NONE, lists, t);
      PositiveRow(blk, end, t, g);
      LiveWithin(blk, end, t);
      var a, back := 16 * g + Size(hi[g], base), 16 * g - Size(lo[g], base);
      ghost var v := m;
      if a > 16 * end || back < 0 || back > 16 * end {
        NoReach(m, blk, lists, live, t, g);
        TouchForHeapUpdate(g);
        damage := Unharmed;
        SameButEpilogueReflexive(m);
        KeepsReflexive(m, live);
      } else {
        HeadersStand(m, blk);
        var n, k := a / 16, (a + 15) / 16;
        var kn := KindOf(n);
        var kk := KindOf(k);
        var ln, hn, lk, hk := lo[n], hi[n], lo[k], hi[k];
        TouchForHeapUpdate(g);
        var spared := WordsSpared(kn, ln, hn, lo[n], hi[n], base) && WordsSpared(kk, lk, hk, lo[k], hi[k], base);
        var hit := (n > g && WordsChanged(kn, ln, hn, lo[n], hi[n], base)) ||
          (k > g && WordsChanged(kk, lk, hk, lo[k], hi[k], base));
        DamageByKinds(m, blk, live, t, g, n, k, kn, kk);
        if !spared {
          return HeapBroken;
        }
        damage := if hit then PayloadHit else Unharmed;
        SparedIsConsistent(m, blk, lists, t, g);
        KeptExactly(m, live, g);
        if damage == PayloadHit { OneHit(m, blk, live, t, g); }
        v := Mended(m, M());
      }
      ghost var u := M();
      Parts(v, blk, NONE, lists);
      MendedKeeps(v, u, blk, live);
      RedoEpilogue(t, v, live);
      KeepsTransitive(u, v, M(), live);
      if damage == Unharmed {
        KeepsTransitive(m0, m, u, live);
        KeepsTransitive(m0, u, M(), live);
      } else {
        HitStays(m0, m, u, M(), live);
      }
    }

    // ----- growing the heap

    /** Between calls: either the heap has no page yet, or all invariants hold. */
    ghost predicate Valid()
      reads this`end, this`blk, this`lists, lo, hi, headNext, headPrev
    {
      Wired() && (HeapOk(M(), blk, lists) || HeapEmpty(M(), blk, lists))
    }

    /** Valid, with the list heads set up. */
    ghost predicate Started()
      reads this`end, this`blk, this`lists, lo, hi, headNext, headPrev
    {
      Valid() && Linked(M(), lists)
    }

    method InitFreeLists()
      requires Valid()
      modifies headNext, headPrev
      ensures Started() && M().lo == old(M().lo) && M().hi == old(M().hi)
      ensures old(HeapOk(M(), blk, lists)) ==> M() == old(M())
    {
      ghost var m := M();
      if end > 0 { HeadsSet(m, lists); }
      var i := 0;
      while i < NUM_FREE_LISTS
        invariant 0 <= i <= NUM_FREE_LISTS && Wired()
        invariant forall k | 0 <= k < i :: headNext[k] == if m.hn[k] == NULL then Head(k) else m.hn[k]
        invariant forall k | 0 <= k < i :: headPrev[k] == if m.hp[k] == NULL then Head(k) else m.hp[k]
        invariant forall k | i <= k < NUM_FREE_LISTS :: headNext[k] == m.hn[k] && headPrev[k] == m.hp[k]
      {
        if headNext[i] == NULL {
          headNext[i] := Head(i);
        }
        if headPrev[i] == NULL {
          headPrev[i] := Head(i);
        }
        i := i + 1;
      }
      if end > 0 {
        assert headNext[..] == m.hn && headPrev[..] == m.hp;
      } else {
        EmptyLinked(M(), lists);
      }
    }

    /** get_more_memory, and the header of the block that the new rows become. */
    method GetMoreMemory() returns (new_block: int)
      requires Wired() && end + PAGE_ROWS < lo.Length
      modifies this`end, lo, hi
      ensures Wired() && M() == Grow(old(M())) && new_block == NewRow(old(end))
    {
      var first := end == 0;
      new_block := if first then MIN_ROWS else end - 1;
      end := end + PAGE_ROWS;
      if first {
        hi[0] := Header(0, MIN_ROWS, true, false);
      }
      hi[end - 1] := Header(0, 0, true, false);
      hi[new_block] := Header(0, if first then PAGE_ROWS - MIN_ROWS - 1 else PAGE_ROWS, false, false);
      if first {
        lo[new_block] := Header(0, MIN_ROWS, false, false);
      }
    }

    /** Sets the epilogue's previous footer and, after an allocated block, its prev-alloc bit. */
    method MarkEpilogue(last: int, ghost m: Mem, ghost live: Blocks)
      requires Wired() && EpilogueFixable(last, m, live) && last != 0
      modifies lo, hi
      ensures Wired() && Consistent(M(), blk, NONE, lists) && KeepsPayloads(m, M(), live) && end == old(end)
    {
      hide TiledBut, Linked, Layout, Apart, KeepsPayloads, Covered;
      PartsOf(m, blk, NONE, lists, last);
      EpilogueAfter(m, blk, last);
      RefreshFooter(m, blk, lists, last, live);
      var epilogue := end - 1;
      lo[epilogue] := hi[last];
      if last != 0 && hi[last].alloc {
        hi[epilogue] := Header(hi[epilogue].payload, hi[epilogue].rows, hi[epilogue].alloc, true);
      }
      assert hi[..] == m.hi;
      assert lo[..] == m.lo[epilogue := m.hi[last]];
    }

    /** Adds a page and merges it with the free block before it, if any. */
    method AddPage(ghost live: Blocks) returns (grown: bool)
      requires Started() && Within(live, blk)
      modifies this`end, this`blk, this`lists, lo, hi, headNext, headPrev
      ensures grown <==> old(end) + PAGE_ROWS < lo.Length
      ensures !grown ==> M() == old(M()) && blk == old(blk) && lists == old(lists)
      ensures grown ==> Started() && end == old(end) + PAGE_ROWS && KeepsPayloads(old(M()), M(), live)
      ensures grown ==> KeepsPayloads(old(M()), M(), Fallow(old(end), lo.Length))
      ensures grown ==> OnlyTailGrows(old(blk), blk, end)
      ensures grown ==> Live(blk) == Live(old(blk)) && Tail(blk, end) == Tail(old(blk), old(end)) + PageGain(old(end))
    {
      hide Covered, Fallow, KeepsPayloads, Live, TiledBut, Linked, Apart, Layout, Disjoint;
      if end + PAGE_ROWS >= lo.Length {
        return false;
      }
      grown := true;
      ghost var m0, blk0, end0 := M(), blk, end;
      PartsBetween(m0, blk, lists);
      FallowCovered(live, blk, end, lo.Length);
      ghost var kept := live + Fallow(end, lo.Length);
      ghost var w := PlaceNewBlock(kept);
      ghost var m1 := M();
      DoCoalesce(w, kept);
      KeepsTransitive(m0, m1, M(), kept);
      KeepsSubset(m0, M(), kept, live);
      KeepsSubset(m0, M(), kept, Fallow(end0, lo.Length));
      PartsBetween(m0, blk0, old(lists));
      Parts(M(), blk, NONE, lists);
      GrownSettled(blk0, end0, blk, lists);
      GrownLive(blk0, end0, blk);
      GrownOnlyTail(blk0, end0, blk);
    }

    /** The new rows become a free block in the last list. */
    method PlaceNewBlock(ghost live: Blocks) returns (ghost w: int)
      requires Started() && end + PAGE_ROWS < lo.Length
      requires Covered(live, GrownBlocks(blk, end), end + PAGE_ROWS) && NewRow(end) !in live
      modifies this`end, this`blk, this`lists, lo, hi, headNext, headPrev
      ensures Ready() && end == old(end) + PAGE_ROWS && KeepsPayloads(old(M()), M(), live) && Covered(live, blk, end)
      ensures blk == GrownBlocks(old(blk), old(end)) && ClassedBut(blk, end, lists, w) && Dangling(blk, w)
    {
      hide Touch, Insert, TiledBut, Linked, Layout, Apart, KeepsPayloads, FreeListed, Listed, Pushed, AllClear, Clear,
        ClassedBut, Dangling, GrownBlocks, Coalesced, Sized, WildernessLast, Disjoint, Covered;
      ghost var m0, blk0, end0, lists0 := M(), blk, end, lists;
      var new_block := GetMoreMemory();
      ghost var m1 := M();
      w := GrowthStarts(m0, blk0, lists0, live);
      Parts(m1, GrownBlocks(blk0, end0), new_block, lists);
      blk := GrownBlocks(blk0, end0);
      InsertStep(m1, blk, new_block, lists, NUM_FREE_LISTS - 1, live);
      InsertBlock(new_block, NUM_FREE_LISTS - 1);
      lists := Pushed(lists, NUM_FREE_LISTS - 1, new_block);
      ghost var m2 := M();
      KeepsTransitive(m0, m1, m2, live);
      QuietTouch(m2, blk, lists, new_block, live);
      TouchForHeapUpdate(new_block);
      ghost var m3 := M();
      KeepsTransitive(m0, m2, m3, live);
      Parts(m3, blk, NONE, lists);
      SameButEpilogueReflexive(m3);
      RedoEpilogue(new_block, m3, live);
      KeepsTransitive(m0, m3, M(), live);
    }

    // ----- get_free_block, find_next_free_block

    /** Takes a block of at least total rows for the payload; adds pages while there is none. */
    method GetFreeBlock(index: int, payload: Payload, total: int) returns (tmp: int, damage: Damage, ghost s: Snapshot)
      requires Started() && index == ClassOf(total) && 0 < payload && RowsFor(payload) <= total
      modifies this`end, this`blk, this`lists, lo, hi, headNext, headPrev
      ensures Wired() && old(end) <= end && (end - old(end)) % PAGE_ROWS == 0
      ensures GrowthNeeded(old(blk), old(end), end, total, tmp != NULL)
      ensures tmp == NULL ==> Started() && damage == Unharmed && Live(blk) == Live(old(blk))
      ensures tmp == NULL ==> KeepsPayloads(old(M()), M(), Live(old(blk))) && end + PAGE_ROWS >= lo.Length
      ensures tmp != NULL ==> Obtained(intended, old(Now()), s, Now(), tmp, damage, total, payload)
      ensures tmp != NULL && damage != HeapBroken ==>
        Ready() && end > 0 && Classed(blk, end, lists) && Coalesced(blk) && Sized(blk)
      decreases lo.Length - end
    {
      hide Linked, TiledBut, Apart, KeepsPayloads, Tail, Taken, Live, Classed, Sized, WildernessLast, GrowthNeeded,
        Fits, Coalesced, FreeListed, Layout, Disjoint, OnlyTailGrows, TakenLists, ListedFree, FirstFit, Fallow,
        Obtained;
      ghost var m0, blk0, end0, lists0, live := M(), blk, end, lists, Live(blk);
      s := Now();
      SearchStarts(m0, blk, lists);
      tmp := FindFit(index, total);
      if tmp != NULL {
        FirstFitIsBlock(blk, lists, index, total, tmp);
        FitMeansOk(m0, blk, lists, tmp, total);
        damage := TakeFound(tmp, total, payload);
        return;
      }
      NoFit(m0, blk, lists, total);
      damage := Unharmed;
      var grown := AddPage(live);
      if !grown {
        KeepsReflexive(m0, live);
        return;
      }
      ghost var m1, blk1, end1, s1 := M(), blk, end, Now();
      Parts(m1, blk1, NONE, lists);
      tmp, damage, s := GetFreeBlock(index, payload, total);
      GrowthChain(blk0, end0, blk1, end1, end, total, tmp != NULL);
      if tmp == NULL {
        KeepsTransitive(m0, m1, M(), live);
      } else {
        ObtainedFrom(intended, Snapshot(m0, blk0, lists0), s1, s, Now(), tmp, damage, total, payload);
      }
    }

    /** The block that the search has found is taken. */
    method TakeFound(tmp: int, total: int, payload: Payload) returns (damage: Damage)
      requires Wired() && Found(Now(), total, tmp) && 0 < payload && RowsFor(payload) <= total
      modifies lo, hi, headNext, headPrev, this`blk, this`lists
      ensures Wired() && end == old(end)
      ensures Obtained(intended, old(Now()), old(Now()), Now(), tmp, damage, total, payload)
      ensures damage != HeapBroken ==> Ready() && end > 0 && Classed(blk, end, lists) && Coalesced(blk) && Sized(blk)
    {
      hide Linked, TiledBut, Apart, KeepsPayloads, Taken, Live, Classed, Sized, WildernessLast, Coalesced, FreeListed,
        Layout, Disjoint, TakenLists, FirstFit, DamageOf, Searched, Served;
      ghost var m0, blk0, lists0 := M(), blk, lists;
      FirstFitIsBlock(blk, lists, ClassOf(total), total, tmp);
      FitMeansOk(m0, blk, lists, tmp, total);
      SearchedHere(Now(), total, tmp);
      Parts(m0, blk, NONE, lists);
      RowsForIsLeast(payload);
      damage := TakeBlock(tmp, total, payload, Live(blk));
      TakenKeeps(blk0, end, lists0, lists, tmp, total, payload);
    }

    method FindNextFreeBlock(total: int, payload: Payload) returns (block: int, damage: Damage, ghost s: Snapshot)
      requires Valid() && 0 < payload && RowsFor(payload) <= total
      modifies this`end, this`blk, this`lists, lo, hi, headNext, headPrev
      ensures Wired() && GrowthNeeded(old(blk), old(end), end, total, block != NULL)
      ensures old(end) <= end && (end - old(end)) % PAGE_ROWS == 0
      ensures block == NULL ==> damage == Unharmed && Live(blk) == Live(old(blk)) && end + PAGE_ROWS >= lo.Length
      ensures block == NULL ==> KeepsPayloads(old(M()), M(), Live(old(blk)))
      ensures block != NULL ==> Obtained(intended, old(Now()), s, Now(), block, damage, total, payload)
      ensures damage != HeapBroken ==> Valid()
    {
      hide Linked, TiledBut, Apart, KeepsPayloads, Live, Classed, Sized, WildernessLast, GrowthNeeded, Coalesced,
        FreeListed, Layout, Disjoint, Tail, Obtained, Covered, MainMoved, Listed, Found, NextOf, PrevOf;
      ghost var s0, live0 := Now(), Live(blk);
      RowsForIsLeast(payload);
      InitFreeLists();
      KeepsIfSameRows(s0.m, M(), live0);
      ghost var s1 := Now();
      var index := FindAllocationIndex(16 * total);
      block, damage, s := GetFreeBlock(index, payload, total);
      if block == NULL {
        KeepsTransitive(s0.m, s1.m, M(), live0);
        return;
      }
      ObtainedInit(intended, s0, s1, s, Now(), block, damage, total, payload);
      if damage == HeapBroken {
        return;
      }
      ghost var s2 := Now();
      ServedCovered(intended, s0, s, s2, block, damage, total, payload);
      Parts(M(), blk, NONE, lists);
      HeadersStand(M(), blk);
      var last := FindLastInHeap();
      PlaceInWilderness(last, live0);
      ObtainedThen(intended, s0, s, s2, Now(), block, damage, total, payload);
      Parts(M(), blk, NONE, lists);
      WildernessSettled(blk, end, s2.lists, lists, last);
    }

    // ----- the public operations; pointers are byte offsets into the heap

    /** sf_malloc.  s is the state in which the search for a block ended; it settles the damage that the last
        touch of get_free_block does.  A broken heap ends the model's run. */
    method Malloc(size: nat) returns (pp: int, damage: Damage, ghost s: Snapshot)
      requires Valid() && size < 0x8000_0000 - 32
      modifies this`errno, this`end, this`blk, this`lists, lo, hi, headNext, headPrev
      ensures size == 0 ==>
        pp == NULL && M() == old(M()) && blk == old(blk) && lists == old(lists) && errno == old(errno)
      ensures size > 0 ==> GrowthNeeded(old(blk), old(end), end, RowsFor(size), pp != NULL)
      ensures Wired() && old(end) <= end && (end - old(end)) % PAGE_ROWS == 0
      ensures size > 0 && pp == NULL ==> errno == ENOMEM && Live(blk) == Live(old(blk)) && end + PAGE_ROWS >= lo.Length
      ensures pp == NULL ==> damage == Unharmed && KeepsPayloads(old(M()), M(), Live(old(blk)))
      ensures pp != NULL ==> errno == old(errno) && pp % 16 == 0
      ensures pp != NULL ==> Obtained(intended, old(Now()), s, Now(), BlockOf(pp), damage, RowsFor(size), size)
      ensures damage != HeapBroken ==> Valid()
    {
      hide KeepsPayloads, GrowthNeeded, HeapOk, HeapEmpty, Live, Obtained;
      s := Now();
      var total_size := CalculateBlockSize(size);
      if total_size < 16 {
        KeepsReflexive(M(), Live(blk));
        return NULL, Unharmed, s;
      }
      var sfb;
      sfb, damage, s := FindNextFreeBlock(total_size / 16, size);
      if sfb == NULL {
        errno := ENOMEM;
        return NULL, damage, s;
      }
      pp := 16 * (sfb + 1);
    }

    /** The checks of free_allocated_block. */
    method MayFree(block: int) returns (may: bool)
      requires Wired() && 0 <= block < lo.Length
      ensures may <==> PassesChecks(M(), block)
    {
      hide View;
      var header := View(hi[block], base);
      if !header.alloc {
        return false;
      }
      if block < MIN_ROWS || block > end - 1 {
        return false;
      }
      var prev_block_alloc := View(lo[block], base).alloc;
      if (!header.prevAlloc && prev_block_alloc) || (header.prevAlloc && !prev_block_alloc) {
        return false;
      }
      may := true;
    }

    /** A live block goes into the list for its size and is marked free. */
    method ReleaseBlock(b: int, ghost live: Blocks)
      requires Wired() && HeapOk(M(), blk, lists) && b in Live(blk) && Covered(live, blk, end) && b !in live
      modifies lo, hi, headNext, headPrev, this`blk, this`lists
      ensures Ready() && end == old(end) && KeepsPayloads(old(M()), M(), live) && Covered(live, blk, end)
      ensures blk == old(blk)[b := Block(old(blk)[b].rows, false, 0)] && Classed(blk, end, lists)
    {
      hide Touch, Insert, TiledBut, Linked, Layout, Apart, KeepsPayloads, FreeListed, Listed, Pushed, AllClear, Clear,
        Classed, Coalesced, Sized, WildernessLast, Disjoint, Covered;
      ghost var m0, blk0, lists0 := M(), blk, lists;
      Parts(m0, blk, NONE, lists);
      PartsOf(m0, blk, NONE, lists, b);
      ReleaseStarts(m0, blk, lists, b, live);
      var index := FindAllocationIndex(16 * hi[b].rows);
      InsertStep(m0, blk, b, lists, index, live);
      InsertBlock(b, index);
      lists := Pushed(lists, index, b);
      ghost var m1 := M();
      PartsOf(m1, blk, NONE, lists, b);
      RetagStep(m1, blk, lists, b, 0, false, live);
      hi[b] := Header(0, hi[b].rows, false, hi[b].prevAlloc);
      ghost var m2 := M();
      assert m2 == Retag(m1, b, 0, false);
      blk := blk[b := Block(blk[b].rows, false, 0)];
      CompletingTouch(m2, blk, lists, b, live);
      TouchForHeapUpdate(b);
      KeepsTransitive(m0, m1, m2, live);
      KeepsTransitive(m0, m2, M(), live);
      Released(blk0, end, lists0, b);
    }

    /** The same for a row that is no live block: its words are taken for those of one. */
    method ReleaseWild(block: int)
      requires Wired() && Linked(M(), lists) && 0 <= block < lo.Length - 1
      modifies lo, hi, headNext, headPrev
      ensures Wired() && end == old(end) && M() == FreedWild(old(M()), block)
    {
      hide Touch, NextOf, PrevOf, Linked, View, Size, Freed;
      ghost var m := M();
      var header := hi[block];
      var index := FindAllocationIndex(Size(header, base));
      HeadLinkable(m, lists, index, block);
      InsertShape(m, index, block);
      InsertBlock(block, index);
      hi[block] := Freed(header, base);
      TouchForHeapUpdate(block);
    }

    /** Merges free neighbors, moves a free last block to the last list and corrects the epilogue. */
    method Settle(ghost live: Blocks)
      requires Ready() && end > 0 && Covered(live, blk, end) && Classed(blk, end, lists) && Sized(blk)
      modifies lo, hi, headNext, headPrev, this`blk, this`lists
      ensures Valid() && end == old(end) && end > 0 && KeepsPayloads(old(M()), M(), live) && Live(blk) == Live(old(blk))
    {
      hide Linked, TiledBut, Apart, KeepsPayloads, Live, ClassedBut, Sized, WildernessLast, Coalesced, FreeListed,
        Layout, Disjoint, Coarser, MainMoved, Covered;
      ghost var m0, blk0 := M(), blk;
      DoCoalesce(NONE, live);
      CoarserLive(blk0, blk);
      CoarserSized(blk0, blk);
      ghost var m1, lists1 := M(), lists;
      Parts(m1, blk, NONE, lists);
      HeadersStand(m1, blk);
      var last := FindLastInHeap();
      PlaceInWilderness(last, live);
      ghost var m2 := M();
      KeepsTransitive(m0, m1, m2, live);
      Parts(m2, blk, NONE, lists);
      WildernessSettled(blk, end, lists1, lists, last);
      SameButEpilogueReflexive(m2);
      FixEpilogue(last, m2, live);
      KeepsTransitive(m0, m2, M(), live);
    }

    /** sf_free.  A pointer that is not live but passes the checks is wild: what its words describe is listed and
        marked free, and the model ends there, before the walk that merges.  What lies in a freed payload behind
        the links stays as it was. */
    method Free(pp: int) returns (aborted: bool, wild: bool)
      requires Valid() && (pp != NULL && pp % 16 == 0 ==> 0 <= BlockOf(pp) < lo.Length)
      modifies lo, hi, headNext, headPrev, this`blk, this`lists
      ensures aborted <==> pp == NULL || pp % 16 != 0 || !PassesChecks(old(M()), BlockOf(pp))
      ensures wild <==> !aborted && BlockOf(pp) !in Live(old(blk))
      ensures pp != NULL && pp % 16 == 0 && BlockOf(pp) in Live(old(blk)) ==> !aborted
      ensures aborted ==> M() == old(M()) && blk == old(blk) && lists == old(lists)
      ensures wild ==> Wired() && end == old(end) && 0 <= BlockOf(pp) < lo.Length - 1
      ensures wild ==> M() == FreedWild(old(M()), BlockOf(pp))
      ensures !aborted && !wild ==> Valid() && end == old(end) && Live(blk) == Live(old(blk)) - {BlockOf(pp)}
      ensures !aborted && !wild ==> KeepsPayloads(old(M()), M(), Live(blk))
      ensures !aborted && !wild ==> KeepsPayloads(old(M()), M(), Leftovers(old(blk), BlockOf(pp)))
      ensures !aborted && !wild ==> InOneFree(blk, BlockOf(pp), After(old(blk), BlockOf(pp)))
    {
      hide InOneFree, Linked, TiledBut, Apart, KeepsPayloads, Classed, Sized, WildernessLast, Coalesced, FreeListed,
        Layout, Disjoint, PassesChecks, Live, Covered, Leftovers, IsKind;
      if pp == NULL || pp % 16 != 0 {
        return true, false;
      }
      var block := BlockOf(pp);
      ghost var m0, blk0 := M(), blk;
      LivePasses(m0, blk, lists, block);
      var may := MayFree(block);
      if !may {
        return true, false;
      }
      aborted := false;
      wild := IsWild(block);
      if wild {
        InPages(m0, blk, lists, block);
        ReleaseWild(block);
        return;
      }
      ghost var live := Live(blk) - {block};
      ghost var kept := live + Leftovers(blk, block);
      FreedCovered(m0, blk, lists, block);
      Parts(m0, blk, NONE, lists);
      ReleaseBlock(block, kept);
      ghost var m1 := M();
      ReleasedLive(blk0, block);
      ReleasedSized(blk0, block);
      Settle(kept);
      KeepsTransitive(m0, m1, M(), kept);
      FreedKeeps(m0, M(), blk0, block);
      FreedIsFree(m0, blk0, old(lists), M(), blk, lists, block);
    }

    /** Whether no live block starts at row b. */
    method IsWild(b: int) returns (wild: bool)
      requires Valid()
      ensures wild <==> b !in Live(blk)
    {
      hide Linked, TiledBut, Apart, FreeListed, Layout, Disjoint, Live, IsKind;
      if !(0 < b < end) {
        OutsideIsWild(M(), blk, lists, b);
        return true;
      }
      Parts(M(), blk, NONE, lists);
      HeadersStand(M(), blk);
      var kind := KindOf(b);
      KindFacts(blk, end, b, kind);
      if kind == Start { PartsOf(M(), blk, NONE, lists, b); }
      wild := kind != Start || !hi[b].alloc;
    }

    /** can_realloc_without_splinter, for an allocated block. */
    method CanReallocWithoutSplinter(block: int, rsize: nat) returns (can: int)
      requires Wired() && 0 <= block < lo.Length && hi[block].Header? && hi[block].alloc && rsize < 0x8000_0000 - 32
      ensures can == CanRealloc(hi[block].payload, hi[block].rows, rsize)
    {
      if rsize == 0 {
        return 0;
      }
      var payload_size: int, block_size: int := hi[block].payload, hi[block].rows;
      var new_block_size := CalculateBlockSize(rsize);
      if 16 * block_size == new_block_size {
        return 3;
      }
      if !hi[block].alloc {
        return -1;
      }
      if rsize > payload_size {
        return 1;
      }
      if payload_size == rsize {
        return 2;
      }
      if payload_size - rsize < 16 * MIN_ROWS {
        return 3;
      }
      can := 4;
    }

    /** update_payload_size: only the payload size in header and footer changes. */
    method UpdatePayloadSize(b: int, update: Payload, ghost live: Blocks)
      requires Wired() && HeapOk(M(), blk, lists) && b in Live(blk) && 0 < update && RowsFor(update) <= blk[b].rows
      requires live == Live(blk)[b := Block(blk[b].rows, true, update)]
      modifies lo, hi, this`blk
      ensures Wired() && HeapOk(M(), blk, lists) && KeepsPayloads(old(M()), M(), live)
      ensures blk == old(blk)[b := Block(old(blk)[b].rows, true, update)] && Live(blk) == live
    {
      hide TiledBut, Linked, Layout, Apart, KeepsPayloads, FreeListed, Classed, WildernessLast, Coalesced, Sized;
      ghost var m0, blk0 := M(), blk;
      PartsOf(m0, blk, NONE, lists, b);
      RepayStep(m0, blk, lists, b, update, live);
      var block_size := hi[b].rows;
      hi[b] := Header(update, block_size, hi[b].alloc, hi[b].prevAlloc);
      lo[b + block_size] := hi[b];
      blk := blk[b := Block(blk[b].rows, true, update)];
      assert M() == Repay(m0, b, update);
      RepayKeeps(blk0, end, lists, b, update);
    }

    /** realloc_block: the block is cut, and the rows behind it are freed. */
    method ReallocBlock(b: int, rows: nat, update: Payload, ghost live: Blocks)
      requires Wired() && HeapOk(M(), blk, lists) && b in Live(blk)
      requires 0 < update && rows == RowsFor(update) && blk[b].rows - rows >= MIN_ROWS
      requires live == Live(blk)[b := Block(rows, true, update)]
      modifies lo, hi, headNext, headPrev, this`blk, this`lists
      ensures Valid() && end == old(end) && end > 0 && KeepsPayloads(old(M()), M(), live) && Live(blk) == live
    {
      hide TiledBut, Linked, Layout, Apart, KeepsPayloads, FreeListed, ClassedBut, WildernessLast, Coalesced, Sized,
        Listed, Pushed, AllClear, Clear, Insert, Live, SplitBlocks, Disjoint, Covered;
      ghost var m0, blk0, lists0 := M(), blk, lists;
      RowsForIsLeast(update);
      PartsOf(m0, blk, NONE, lists, b);
      Parts(m0, blk, NONE, lists);
      ShrinkStarts(m0, blk, lists, b, rows, update, live);
      var block_size, split_section := hi[b].rows, b + rows;
      WriteSplit(b, rows, update);
      ghost var m1 := M();
      blk := SplitBlocks(blk0, b, rows, true, update);
      FootNew(m1, blk, lists, split_section, live);
      lo[split_section + (block_size - rows)] := hi[split_section];
      ghost var m2 := M();
      KeepsTransitive(m0, m1, m2, live);
      var index := FindAllocationIndex(16 * (block_size - rows));
      InsertStep(m2, blk, split_section, lists, index, live);
      InsertBlock(split_section, index);
      lists := Pushed(lists, index, split_section);
      ghost var m3 := M();
      KeepsTransitive(m0, m2, m3, live);
      ShrinkKeeps(blk0, end, lists0, b, rows, update);
      Settle(live);
      KeepsTransitive(m0, m3, M(), live);
    }

    method PutByteAt(a: int, v: Byte)
      requires Wired() && 0 <= a < 16 * lo.Length
      modifies lo, hi
      ensures Wired() && M() == PutByte(old(M()), a, v)
    {
      hide BitsOf, WithByte;
      if a % 16 < 8 {
        lo[a / 16] := Stored(lo[a / 16], a % 8, v, base);
      } else {
        hi[a / 16] := Stored(hi[a / 16], a % 8, v, base);
      }
    }

    method ByteFrom(a: int) returns (v: Byte)
      requires Wired() && 0 <= a < 16 * lo.Length
      ensures v == ByteAt(M(), a)
    {
      v := ByteOf(BitsOf(if a % 16 < 8 then lo[a / 16] else hi[a / 16], base), a % 8);
    }

    /** memcpy between payloads.  What lies past the heap's memory is not copied. */
    method CopyBytes(to: int, from: int, bytes: nat)
      requires Wired() && HeapOk(M(), blk, lists) && to in Live(blk) && from in Live(blk) && to != from
      requires bytes <= 16 * (blk[to].rows - 1)
      modifies lo, hi
      ensures Wired() && HeapOk(M(), blk, lists) && KeepsPayloads(old(M()), M(), Live(blk) - {to})
      ensures forall n | n <= bytes && n <= 16 * (blk[from].rows - 1) :: PrefixKept(old(M()), M(), from, to, n)
    {
      hide Linked, TiledBut, Apart, KeepsPayloads, Classed, Sized, WildernessLast, Coalesced, FreeListed, Disjoint,
        PutByte, ByteAt, Layout;
      ghost var m := M();
      Parts(m, blk, NONE, lists);
      PartsOf(m, blk, NONE, lists, to);
      PartsOf(m, blk, NONE, lists, from);
      ghost var room := 16 * (blk[from].rows - 1);
      var k := 0;
      while k < bytes
        invariant 0 <= k <= bytes && Wired() && OnlyInside(m, M(), to, After(blk, to))
        invariant PrefixKept(m, M(), from, to, if k <= room then k else room)
      {
        ghost var m1 := M();
        if 16 * (from + 1) + k < 16 * lo.Length {
          var v := ByteFrom(16 * (from + 1) + k);
          PutByteAt(16 * (to + 1) + k, v);
        }
        ByteCopied(m, m1, M(), blk, from, to, k);
        k := k + 1;
      }
      InsideKeeps(m, M(), blk, lists, to);
    }

    /** A store of one byte by the owner of a live payload. */
    method StoreByte(pp: int, off: nat, v: Byte)
      requires Valid() && pp % 16 == 0 && BlockOf(pp) in Live(blk) && off < blk[BlockOf(pp)].payload
      modifies lo, hi
      ensures Valid() && KeepsPayloads(old(M()), M(), Live(blk) - {BlockOf(pp)})
      ensures 0 <= pp + off < 16 * lo.Length && M() == PutByte(old(M()), pp + off, v)
    {
      hide Linked, TiledBut, Apart, KeepsPayloads, Classed, WildernessLast, Coalesced, FreeListed, Disjoint, Layout,
        PutByte;
      ghost var m, b := M(), BlockOf(pp);
      LiveSized(m, blk, lists, b);
      LiveInMemory(m, blk, lists, b);
      PayloadByte(m, b, blk[b].rows, off);
      PutByteAt(pp + off, v);
      PutByteFrame(m, pp + off, v);
      InsideKeeps(m, M(), blk, lists, b);
    }

    /** A store of 16 aligned bytes by the owner of a live payload. */
    method Store(pp: int, row: nat, low: Word, high: Word)
      requires Valid() && pp % 16 == 0 && BlockOf(pp) in Live(blk) && row + 1 < blk[BlockOf(pp)].rows
      modifies lo, hi
      ensures Valid() && KeepsPayloads(old(M()), M(), Live(blk) - {BlockOf(pp)})
      ensures 0 <= pp / 16 + row < lo.Length
      ensures M().lo == old(M()).lo[pp / 16 + row := low] && M().hi == old(M()).hi[pp / 16 + row := high]
    {
      hide Linked, TiledBut, Apart, KeepsPayloads, Classed, Sized, WildernessLast, Coalesced, FreeListed, Disjoint,
        Layout;
      ghost var m, b := M(), BlockOf(pp);
      PartsOf(m, blk, NONE, lists, b);
      lo[pp / 16 + row] := low;
      hi[pp / 16 + row] := high;
      InsideKeeps(m, M(), blk, lists, b);
    }

    /** sf_realloc.  The source reads the header in front of the pointer without checking it; for a pointer
        that is wild, not that of a live payload, the model ends there and promises nothing. */
    method Realloc(pp: int, rsize: nat) returns (p: int, damage: Damage, wild: bool, ghost s: Snapshot)
      requires Valid() && rsize < 0x8000_0000 - 32
      requires pp != NULL ==> 0 <= BlockOf(pp) < lo.Length
      modifies this`errno, this`end, this`blk, this`lists, lo, hi, headNext, headPrev
      ensures wild <==> pp != NULL && (pp % 16 != 0 || BlockOf(pp) !in Live(old(blk)))
      ensures pp == NULL ==> p == NULL && errno == EINVAL && M() == old(M()) && blk == old(blk) && lists == old(lists)
      ensures pp == NULL || p == NULL || p == pp ==> damage == Unharmed
      ensures !wild && damage != HeapBroken ==> Valid()
      ensures pp != NULL && !wild && damage == Unharmed ==> KeepsPayloads(old(M()), M(), Live(old(blk)) - {BlockOf(pp)})
      ensures pp != NULL && !wild && damage == PayloadHit ==>
        MovedWithHit(old(M()), M(), Live(old(blk)), BlockOf(pp), BlockOf(p), old(blk)[BlockOf(pp)].payload)
      ensures pp != NULL && !wild && rsize == 0 ==> p == NULL && errno == old(errno)
      ensures pp != NULL && !wild && rsize == 0 ==> Live(blk) == Live(old(blk)) - {BlockOf(pp)} && end == old(end)
      ensures pp != NULL && !wild && rsize == 0 ==> InOneFree(blk, BlockOf(pp), After(old(blk), BlockOf(pp)))
      ensures pp != NULL && !wild && rsize > 0 && p == NULL ==> errno == ENOMEM && Live(blk) == Live(old(blk))
      ensures pp != NULL && !wild && rsize > 0 && p == NULL ==> KeepsPayloads(old(M()), M(), Live(blk))
      ensures p != NULL && !wild ==> errno == old(errno) && p % 16 == 0
      ensures p != NULL && !wild && damage != HeapBroken ==>
        Resized(Live(old(blk)), Live(blk), BlockOf(pp), BlockOf(p), rsize)
      ensures p != NULL && !wild && damage == Unharmed ==>
        PrefixKept(old(M()), M(), BlockOf(pp), BlockOf(p), Min(old(blk)[BlockOf(pp)].payload, rsize))
      ensures pp != NULL && !wild ==>
        var h := old(blk)[BlockOf(pp)];
        var moves := rsize > h.payload && RowsFor(rsize) != h.rows;
        && (moves ==> p != pp && GrowthNeeded(old(blk), old(end), end, RowsFor(rsize), p != NULL))
        && (moves && p == NULL ==> end + PAGE_ROWS >= lo.Length)
        && (moves && p != NULL ==>
              Searched(old(Now()), s, end, RowsFor(rsize), BlockOf(p))
              && damage == DamageFor(intended, s, BlockOf(p), RowsFor(rsize), rsize)
              && (damage == HeapBroken ==> BrokenBy(s.m, M(), BlockOf(p), RowsFor(rsize), rsize)))
        && (moves && p != NULL && damage != HeapBroken ==>
              MovedInBlocks(s.blk, blk, BlockOf(pp), h.rows, BlockOf(p), RowsFor(rsize)))
        && (!moves && rsize > 0 ==> p == pp && ResizedInPlace(old(Now()), Now(), BlockOf(pp), rsize))
    {
      hide KeepsPayloads, GrowthNeeded, HeapOk, HeapEmpty, Live, PrefixKept, Resized, Searched, PassesChecks, DamageFor,
        BrokenBy, MovedWithHit, InOneFree, MovedInBlocks, CanRealloc, RowsFor, ResizedInPlace;
      s := Now();
      damage, wild := Unharmed, false;
      if pp == NULL {
        errno := EINVAL;
        return NULL, damage, wild, s;
      }
      var sfr := BlockOf(pp);
      wild := IsWild(sfr);
      if wild || pp % 16 != 0 {
        return NULL, damage, true, s;
      }
      LiveInMemory(M(), blk, lists, sfr);
      var can := CanReallocWithoutSplinter(sfr, rsize);
      LiveSized(M(), blk, lists, sfr);
      CanReallocRows(blk[sfr].payload, blk[sfr].rows, rsize);
      CanReallocNone(blk[sfr].payload, blk[sfr].rows, rsize);
      if can == 0 {
        LivePasses(M(), blk, lists, sfr);
        var aborted, unknown := Free(pp);
        return NULL, damage, wild, s;
      }
      if can == 1 {
        p, damage, s := ReallocByMove(pp, rsize);
        return;
      }
      p := pp;
      ghost var m0, live0 := M(), Live(blk);
      if can == 2 {
        KeepsReflexive(m0, live0);
        StaysPut(m0, m0, blk, lists, live0, sfr, rsize);
        SizedInPlace(old(Now()), Now(), sfr, rsize, live0);
        return;
      }
      var rows := if can == 3 then hi[sfr].rows else RowsFor(rsize);
      ghost var live := live0[sfr := Block(rows, true, rsize)];
      if can == 3 {
        UpdatePayloadSize(sfr, rsize, live);
      } else {
        ReallocBlock(sfr, rows, rsize, live);
      }
      StaysPut(m0, M(), old(blk), old(lists), live, sfr, rsize);
      SizedInPlace(old(Now()), Now(), sfr, rsize, live);
    }

    /** A larger payload moves to a new block. */
    method ReallocByMove(pp: int, rsize: nat) returns (p: int, damage: Damage, ghost s: Snapshot)
      requires Valid() && 0 < rsize < 0x8000_0000 - 32 && pp % 16 == 0 && BlockOf(pp) in Live(blk)
      requires blk[BlockOf(pp)].payload < rsize && 0 <= BlockOf(pp) < lo.Length
      modifies this`errno, this`end, this`blk, this`lists, lo, hi, headNext, headPrev
      ensures damage != HeapBroken ==> Valid()
      ensures damage == Unharmed ==> KeepsPayloads(old(M()), M(), Live(old(blk)) - {BlockOf(pp)})
      ensures damage == PayloadHit ==>
        MovedWithHit(old(M()), M(), Live(old(blk)), BlockOf(pp), BlockOf(p), old(blk)[BlockOf(pp)].payload)
      ensures p == NULL ==>
        damage == Unharmed && errno == ENOMEM && Live(blk) == Live(old(blk)) && end + PAGE_ROWS >= lo.Length
      ensures p == NULL ==> KeepsPayloads(old(M()), M(), Live(blk))
      ensures p != NULL ==> errno == old(errno) && p % 16 == 0 && p != pp
      ensures GrowthNeeded(old(blk), old(end), end, RowsFor(rsize), p != NULL)
      ensures p != NULL ==> Searched(old(Now()), s, end, RowsFor(rsize), BlockOf(p))
      ensures p != NULL ==> damage == DamageFor(intended, s, BlockOf(p), RowsFor(rsize), rsize)
      ensures damage == HeapBroken ==> BrokenBy(s.m, M(), BlockOf(p), RowsFor(rsize), rsize)
      ensures p != NULL && damage != HeapBroken ==> Resized(Live(old(blk)), Live(blk), BlockOf(pp), BlockOf(p), rsize)
      ensures p != NULL && damage == Unharmed ==>
        PrefixKept(old(M()), M(), BlockOf(pp), BlockOf(p), old(blk)[BlockOf(pp)].payload)
      ensures p != NULL && damage != HeapBroken ==>
        MovedInBlocks(s.blk, blk, BlockOf(pp), old(blk)[BlockOf(pp)].rows, BlockOf(p), RowsFor(rsize))
    {
      hide KeepsPayloads, GrowthNeeded, HeapOk, HeapEmpty, Live, PrefixKept, Served, Searched, Taken, DamageFor,
        BrokenBy, HitsOne, MovedWithHit, InOneFree, MovedInBlocks, CutToSize, Obtained;
      LiveInMemory(M(), blk, lists, BlockOf(pp));
      ghost var m0, blk0, live0, b := M(), blk, Live(blk), BlockOf(pp);
      p, damage, s := Malloc(rsize);
      if p == NULL {
        KeepsSubset(m0, M(), live0, live0 - {b});
        return;
      }
      ObtainedParts(intended, old(Now()), s, Now(), BlockOf(p), damage, RowsFor(rsize), rsize);
      ObtainedCuts(intended, old(Now()), s, Now(), BlockOf(p), damage, RowsFor(rsize), rsize);
      ServedNew(blk0, blk, BlockOf(p), rsize, b);
      if damage == HeapBroken {
        return;
      }
      ghost var m1, blk1 := M(), blk;
      LiveInMemory(m1, blk, lists, b);
      LiveInMemory(m1, blk, lists, BlockOf(p));
      LiveSized(m0, blk0, old(lists), b);
      CopyBytes(BlockOf(p), BlockOf(pp), rsize);
      ghost var m2, lists2 := M(), lists;
      LivePasses(m2, blk, lists, b);
      LiveInMemory(m2, blk, lists, b);
      var aborted, wild := Free(pp);
      ghost var m3, n := M(), blk0[b].payload;
      if damage == Unharmed {
        MoveKeeps(m0, m1, m2, m3, live0, Live(blk1), Live(blk), b, BlockOf(p), n);
      } else {
        MoveKeepsRest(m0, m1, m2, m3, live0, Live(blk1), Live(blk), b, BlockOf(p), n);
      }
      MovedCuts(s.blk, m2, blk1, lists2, m3, blk, lists, b, BlockOf(p), RowsFor(rsize));
    }
  }
}

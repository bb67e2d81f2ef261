/** Blocks tile the heap: what the headers, footers and prev-alloc bits in memory say about them. */
module HeapTiling {
  import opened HeapWords
  import opened HeapMemory

  datatype Block = Block(rows: int, alloc: bool, payload: Payload)

  type Blocks = map<int, Block>

  /** The row after block r. */
  ghost function After(blk: Blocks, r: int): int
    requires r in blk
  {
    r + blk[r].rows
  }

  /** n is where a block or the epilogue starts. */
  ghost predicate Boundary(blk: Blocks, end: int, n: int) {
    n in blk || n == end - 1
  }

  /** The prologue and the blocks after it cover the rows up to the epilogue, without overlap. */
  ghost predicate Layout(blk: Blocks, end: int) {
    && 0 in blk && blk[0] == Block(MIN_ROWS, true, 0)
    && (forall r {:trigger BlockFits(blk, end, r)} | r in blk :: BlockFits(blk, end, r))
    && (forall r, q {:trigger r in blk, q in blk} | r in blk && q in blk && r < q :: After(blk, r) <= q)
  }

  ghost predicate BlockFits(blk: Blocks, end: int, r: int)
    requires r in blk
  {
    && 0 <= r && MIN_ROWS <= blk[r].rows && After(blk, r) <= end - 1 && Boundary(blk, end, After(blk, r))
    && (!blk[r].alloc ==> blk[r].payload == 0)
  }

  /** The header of block r. */
  ghost predicate Tagged(m: Mem, blk: Blocks, r: int)
    requires r in blk
  {
    && 0 <= r < |m.hi| && m.hi[r].Header?
    && m.hi[r].rows == blk[r].rows && m.hi[r].alloc == blk[r].alloc && m.hi[r].payload == blk[r].payload
  }

  ghost predicate EpilogueTagged(m: Mem) {
    1 <= m.end <= |m.hi| && m.hi[m.end - 1].Header?
    && m.hi[m.end - 1].rows == 0 && m.hi[m.end - 1].payload == 0 && m.hi[m.end - 1].alloc
  }

  /** The footer of block r and the prev-alloc bit after it agree with the block on size and alloc. */
  ghost predicate Footed(m: Mem, blk: Blocks, r: int)
    requires r in blk
  {
    var n := After(blk, r);
    && 0 <= n < |m.lo| == |m.hi| && m.lo[n].Header? && m.hi[n].Header?
    && m.lo[n].rows == blk[r].rows && m.lo[n].alloc == blk[r].alloc && m.hi[n].prevAlloc == blk[r].alloc
  }

  /** The footer of block r before the block x that is being set up: right about the size, and at
      most silent about r being allocated. */
  ghost predicate HalfFooted(m: Mem, blk: Blocks, r: int)
    requires r in blk
  {
    var n := After(blk, r);
    && 0 <= n < |m.lo| == |m.hi| && m.lo[n].Header? && m.hi[n].Header?
    && m.lo[n].rows == blk[r].rows && (!blk[r].alloc ==> !m.lo[n].alloc && !m.hi[n].prevAlloc)
  }

  /** Memory describes the blocks, except that block x (if any) has only its header in place: its
      footer, the prev-alloc bit after it and what it knows of its predecessor may be stale. */
  ghost predicate TiledBut(m: Mem, blk: Blocks, x: int) {
    && Shape(m) && Layout(blk, m.end) && EpilogueTagged(m)
    && (forall r {:trigger Tagged(m, blk, r)} | r in blk :: Tagged(m, blk, r))
    && (forall r {:trigger Footed(m, blk, r)} | r in blk && r != x && After(blk, r) != x :: Footed(m, blk, r))
    && (forall r {:trigger HalfFooted(m, blk, r)} | r in blk && r != x && After(blk, r) == x :: HalfFooted(m, blk, r))
  }

  const NONE: int := -1

  /** Memory describes the blocks: headers, footers and prev-alloc bits are all in place. */
  ghost predicate Tiled(m: Mem, blk: Blocks) {
    TiledBut(m, blk, NONE)
  }

  ghost predicate Precedes(blk: Blocks, p: int, n: int) {
    p in blk && After(blk, p) == n
  }

  /** Every boundary but the first row ends a block. */
  lemma Predecessor(blk: Blocks, end: int, n: int) returns (p: int)
    requires Layout(blk, end) && Boundary(blk, end, n) && n != 0
    ensures Precedes(blk, p, n)
  {
    assert BlockFits(blk, end, 0);
    if n in blk { assert BlockFits(blk, end, n); }
    p := 0;
    while After(blk, p) != n
      invariant p in blk && p < n
      decreases n - p
    {
      assert BlockFits(blk, end, p);
      p := After(blk, p);
    }
  }

  lemma PredecessorUnique(blk: Blocks, end: int, p: int, q: int, n: int)
    requires Layout(blk, end) && Precedes(blk, p, n) && Precedes(blk, q, n)
    ensures p == q
  {
    assert BlockFits(blk, end, p) && BlockFits(blk, end, q);
  }

  lemma AfterInjective(blk: Blocks, end: int, p: int, q: int)
    requires Layout(blk, end) && p in blk && q in blk
    ensures After(blk, p) == After(blk, q) ==> p == q
  {
    assert BlockFits(blk, end, p) && BlockFits(blk, end, q);
  }

  /** No block or epilogue starts inside a block. */
  lemma InteriorRow(blk: Blocks, end: int, r: int, k: int)
    requires Layout(blk, end) && r in blk && r < k < After(blk, r)
    ensures !Boundary(blk, end, k) && 0 < k < end
  {
    assert BlockFits(blk, end, r);
  }

  /** What the rest of a block's setup can rely on: the addresses that touch computes. */
  lemma TouchFinds(m: Mem, blk: Blocks, x: int, b: int) returns (p: int)
    requires TiledBut(m, blk, x) && b in blk && b != 0
    requires x == b || x !in blk || After(blk, x) != b
    ensures Precedes(blk, p, b) && p != b && 0 <= p
    ensures PlainTouch(m, b) && m.hi[b].rows == blk[b].rows && m.lo[b].rows == blk[p].rows
    ensures p == b - m.lo[b].rows && m.hi[p].Header? && m.hi[p].alloc == blk[p].alloc
  {
    p := Predecessor(blk, m.end, b);
    assert BlockFits(blk, m.end, b) && BlockFits(blk, m.end, p);
    assert Tagged(m, blk, b) && Tagged(m, blk, p);
    if After(blk, b) in blk { assert Tagged(m, blk, After(blk, b)); }
    if b == x {
      assert HalfFooted(m, blk, p);
    } else {
      assert Footed(m, blk, p);
    }
  }

  /** t agrees with m outside the words a touch of b may write. */
  ghost predicate TouchFrame(m: Mem, t: Mem, b: int, n: int) {
    && |t.lo| == |m.lo| && |t.hi| == |m.hi| && t.hn == m.hn && t.hp == m.hp && t.end == m.end && t.base == m.base
    && (forall k {:trigger t.lo[k]} | 0 <= k < |m.lo| && k != b && k != n :: t.lo[k] == m.lo[k])
    && (forall k {:trigger t.hi[k]} | 0 <= k < |m.hi| && k != b && k != n :: t.hi[k] == m.hi[k])
  }

  /** The four words that touch writes. */
  ghost predicate TouchWords(m: Mem, t: Mem, b: int, n: int, p: int)
    requires Shape(m) && 0 <= b < |m.lo| && 0 <= n < |m.lo| && 0 <= p < |m.lo|
    requires |t.lo| == |m.lo| && |t.hi| == |m.hi|
  {
    && m.hi[b].Header? && m.hi[n].Header? && m.hi[p].Header?
    && var h, prev := m.hi[b], m.hi[p].alloc;
    && t.hi[b] == (if prev then h.(prevAlloc := true) else h)
    && t.lo[b] == (if prev then m.hi[p] else m.lo[b])
    && t.lo[n] == t.hi[b]
    && t.hi[n] == m.hi[n].(prevAlloc := h.alloc)
  }

  lemma TouchEffect(m: Mem, b: int)
    requires Shape(m) && PlainTouch(m, b)
    ensures
      var t := Touch(m, b);
      var n := b + m.hi[b].rows;
      && Shape(t) && TouchFrame(m, t, b, n) && TouchWords(m, t, b, n, b - m.lo[b].rows)
  {
    hide Touch;
    TouchWrites(m, b);
  }

  /** Touching the block that is being set up completes it. */
  lemma TouchCompletes(m: Mem, blk: Blocks, b: int)
    requires TiledBut(m, blk, b) && b in blk && b != 0
    ensures Tiled(Touch(m, b), blk) && TouchFrame(m, Touch(m, b), b, After(blk, b))
  {
    hide Touch, View;
    var p := TouchFinds(m, blk, b, b);
    assert BlockFits(blk, m.end, b) && BlockFits(blk, m.end, p);
    TouchEffect(m, b);
    CompletesTags(m, Touch(m, b), blk, b, p);
    CompletesFeet(m, Touch(m, b), blk, b, p);
  }

  lemma CompletesTags(m: Mem, t: Mem, blk: Blocks, b: int, p: int)
    requires TiledBut(m, blk, b) && b in blk && b != 0 && Precedes(blk, p, b) && 0 <= p < b < After(blk, b) < |m.lo|
    requires Shape(t) && TouchFrame(m, t, b, After(blk, b)) && TouchWords(m, t, b, After(blk, b), p)
    ensures EpilogueTagged(t) && forall r | r in blk :: Tagged(t, blk, r)
  {
    hide Layout;
    var n := After(blk, b);
    assert Tagged(m, blk, b);
    if n in blk { assert Tagged(m, blk, n); }
    forall r | r in blk
      ensures Tagged(t, blk, r)
    {
      assert Tagged(m, blk, r);
    }
  }

  lemma CompletesFeet(m: Mem, t: Mem, blk: Blocks, b: int, p: int)
    requires TiledBut(m, blk, b) && b in blk && b != 0 && Precedes(blk, p, b) && 0 <= p < b < After(blk, b) < |m.lo|
    requires Shape(t) && TouchFrame(m, t, b, After(blk, b)) && TouchWords(m, t, b, After(blk, b), p)
    ensures forall r | r in blk :: Footed(t, blk, r)
  {
    var n := After(blk, b);
    assert Tagged(m, blk, b) && Tagged(m, blk, p) && HalfFooted(m, blk, p);
    forall r | r in blk
      ensures Footed(t, blk, r)
    {
      assert BlockFits(blk, m.end, r);
      if r != p && After(blk, r) == b {
        PredecessorUnique(blk, m.end, r, p, b);
      }
      if r != b && After(blk, r) == n {
        PredecessorUnique(blk, m.end, r, b, n);
      }
      if r != p && r != b {
        assert Footed(m, blk, r);
      }
    }
  }

  /** What a touch of another block needs to know when it follows the block that is being set up: the
      stale footer still leads to a free header. */
  ghost predicate StaleFooterFree(m: Mem, b: int) {
    && 0 <= b < |m.lo| == |m.hi| && m.lo[b].Header? && 0 < m.lo[b].rows <= b
    && m.hi[b - m.lo[b].rows].Header? && !m.hi[b - m.lo[b].rows].alloc
  }

  /** Touching any other block changes no header and leaves every footer in agreement. */
  lemma TouchIsQuiet(m: Mem, blk: Blocks, x: int, b: int)
    requires TiledBut(m, blk, x) && b in blk && b != 0 && b != x
    requires x in blk && After(blk, x) == b ==> StaleFooterFree(m, b)
    requires After(blk, b) == x ==> !blk[b].alloc
    ensures
      var t := Touch(m, b);
      && TiledBut(t, blk, x) && TouchFrame(m, t, b, After(blk, b)) && t.hi == m.hi
      && (x in blk && After(blk, x) == b ==> t.lo[b] == m.lo[b])
  {
    hide Touch, View;
    assert BlockFits(blk, m.end, b) && Tagged(m, blk, b);
    var t := Touch(m, b);
    var n := After(blk, b);
    if n in blk { assert Tagged(m, blk, n); }
    if x in blk && After(blk, x) == b {
      TouchEffect(m, b);
      QuietAfterStale(m, t, blk, x, b);
    } else {
      var p := TouchFinds(m, blk, x, b);
      TouchEffect(m, b);
      QuietElsewhere(m, t, blk, x, b, p);
    }
  }

  lemma QuietAfterStale(m: Mem, t: Mem, blk: Blocks, x: int, b: int)
    requires TiledBut(m, blk, x) && b in blk && b != 0 && b != x && x in blk && After(blk, x) == b
    requires StaleFooterFree(m, b)
    requires 0 <= b < After(blk, b) < |m.lo| && Shape(t)
    requires TouchFrame(m, t, b, After(blk, b)) && TouchWords(m, t, b, After(blk, b), b - m.lo[b].rows)
    ensures TiledBut(t, blk, x) && t.hi == m.hi && t.lo[b] == m.lo[b]
  {
    var n := After(blk, b);
    if n in blk { assert Tagged(m, blk, n); }
    assert Tagged(m, blk, b) && BlockFits(blk, m.end, x) && Footed(m, blk, b);
    assert t.hi == m.hi;
    QuietFeet(m, t, blk, x, b);
  }

  lemma QuietElsewhere(m: Mem, t: Mem, blk: Blocks, x: int, b: int, p: int)
    requires TiledBut(m, blk, x) && b in blk && b != 0 && b != x && Precedes(blk, p, b) && p != x
    requires After(blk, b) == x ==> !blk[b].alloc
    requires 0 <= p < b < After(blk, b) < |m.lo| && Shape(t)
    requires TouchFrame(m, t, b, After(blk, b)) && TouchWords(m, t, b, After(blk, b), p)
    ensures TiledBut(t, blk, x) && t.hi == m.hi
  {
    var n := After(blk, b);
    if n in blk { assert Tagged(m, blk, n); }
    assert Tagged(m, blk, b) && Tagged(m, blk, p);
    assert Footed(m, blk, p);
    assert n != x ==> Footed(m, blk, b);
    assert n == x ==> HalfFooted(m, blk, b);
    assert t.hi == m.hi;
    QuietFeet(m, t, blk, x, b);
  }

  /** The headers are the same and the two footers that may differ still agree with them. */
  lemma QuietFeet(m: Mem, t: Mem, blk: Blocks, x: int, b: int)
    requires TiledBut(m, blk, x) && b in blk && 0 <= b < After(blk, b) < |m.lo| && Shape(t)
    requires TouchFrame(m, t, b, After(blk, b)) && t.hi == m.hi
    requires t.lo[After(blk, b)] == m.hi[b]
    requires (x in blk && After(blk, x) == b) ||
      (t.lo[b].Header? && m.lo[b].Header? && t.lo[b].rows == m.lo[b].rows && t.lo[b].alloc == m.lo[b].alloc)
    ensures TiledBut(t, blk, x)
  {
    var n := After(blk, b);
    assert Tagged(m, blk, b);
    forall r | r in blk
      ensures Tagged(t, blk, r)
    {
      assert Tagged(m, blk, r);
    }
    forall r | r in blk && r != x
      ensures After(blk, r) != x ==> Footed(t, blk, r)
      ensures After(blk, r) == x ==> HalfFooted(t, blk, r)
    {
      assert BlockFits(blk, m.end, r);
      if After(blk, r) == n {
        PredecessorUnique(blk, m.end, r, b, n);
      }
      if x in blk && After(blk, r) == b == After(blk, x) {
        PredecessorUnique(blk, m.end, r, x, b);
      }
      if After(blk, r) != x {
        assert Footed(m, blk, r);
      } else {
        assert HalfFooted(m, blk, r);
      }
    }
  }
}

/** What a touch does whose address is no block: it reads the words of a row as a header and a previous
    footer, whatever they are, and writes where they lead. */
module HeapDamage {
  import opened HeapWords
  import opened HeapMemory
  import opened HeapTiling
  import opened HeapLists
  import opened HeapSteps
  import opened HeapHeaders
  import opened HeapInvariants
  import opened HeapMoves

  // ----- which rows it writes to

  lemma PutFrame(m: Mem, a: int, w: Word)
    requires InMemory(m, a)
    ensures forall r {:trigger SameRow(m, Put(m, a, w), r)} | r != a / 16 && r != (a + 7) / 16 ::
      SameRow(m, Put(m, a, w), r)
  {
    hide BitsOf, WordOf, Straddling;
    assert a % 8 != 0 ==> a / 8 / 2 == a / 16 && (a / 8 + 1) / 2 == (a + 7) / 16;
    assert a / 8 / 2 == a / 16;
  }

  /** The row that the address behind g, as the words of row g have it, lies in. */
  function Target(m: Mem, g: int): int
    requires Shape(m) && 0 <= g < |m.lo|
  {
    NextAddress(m, g) / 16
  }

  /** Rows that a touch of g does not write to. */
  ghost predicate Bystander(m: Mem, g: int, r: int)
    requires Shape(m) && 0 <= g < |m.lo|
  {
    r != g && r != Target(m, g) && r != (NextAddress(m, g) + 15) / 16
  }

  ghost predicate Nearby(m: Mem, u: Mem, g: int)
    requires Shape(m) && 0 <= g < |m.lo|
  {
    && |u.lo| == |m.lo| && |u.hi| == |m.hi| && u.hn == m.hn && u.hp == m.hp && u.end == m.end && u.base == m.base
    && forall r {:trigger SameRow(m, u, r)} | Bystander(m, g, r) :: SameRow(m, u, r)
  }

  /** One store at row g or behind it keeps to these rows. */
  lemma PutNearby(m: Mem, u: Mem, g: int, a: int, w: Word)
    requires Shape(m) && 0 <= g < |m.lo| && Nearby(m, u, g) && InMemory(u, a)
    requires a == 16 * g || a == 16 * g + 8 || a == NextAddress(m, g) || a == NextAddress(m, g) + 8
    ensures Nearby(m, Put(u, a, w), g)
  {
    hide Put, NextAddress;
    PutFrame(u, a, w);
    Edges(NextAddress(m, g), m, g);
    var v := Put(u, a, w);
    forall r | Bystander(m, g, r)
      ensures SameRow(m, v, r)
    {
      assert SameRow(m, u, r);
      assert SameRow(u, v, r);
    }
  }

  /** A size that is not a multiple of 16 has at most 3 bytes over. */
  lemma Edges(x: nat, m: Mem, g: int)
    requires Shape(m) && 0 <= g < |m.lo| && x == NextAddress(m, g)
    ensures (x + 7) / 16 == x / 16 && (x + 8) / 16 == x / 16 && (x + 15) / 16 in {x / 16, x / 16 + 1}
    ensures x % 16 < 4 && x / 16 >= g && (16 * g + 7) / 16 == g == (16 * g + 15) / 16 == (16 * g + 8) / 16
  {
    var v := View(m.hi[g], m.base);
    assert x == 16 * (g + v.rows) + LowBits(m.hi[g], m.base);
  }

  /** A touch of row g writes to row g and to the row or two that the size in it leads to. */
  lemma TouchNearby(m: Mem, g: int)
    requires Shape(m) && 0 <= g < |m.lo|
    ensures Nearby(m, Touch(m, g), g) && Shape(Touch(m, g))
  {
    hide Put, Load, SetPrevAlloc, SetHeader, View, NextAddress, PrevAddress, Bystander;
    TouchKeepsShape(m, g);
    if TouchReaches(m, g) {
      var next, prev := NextAddress(m, g), PrevAddress(m, g);
      NextInMemory(m, g);
      var m1 := m;
      if View(Load(m, prev + 8), m.base).alloc {
        var a1 := Put(m, 16 * g + 8, SetPrevAlloc(Load(m, 16 * g + 8), m.base));
        PutNearby(m, m, g, 16 * g + 8, SetPrevAlloc(Load(m, 16 * g + 8), m.base));
        var a2 := Put(a1, 16 * g, Load(a1, prev + 8));
        PutNearby(m, a1, g, 16 * g, Load(a1, prev + 8));
        PutNearby(m, a2, g, next, Load(a2, 16 * g + 8));
        m1 := Put(a2, next, Load(a2, 16 * g + 8));
      }
      var m2 := m1;
      if View(Load(m1, 16 * g + 8), m.base).alloc {
        PutNearby(m, m1, g, next, Load(m1, 16 * g + 8));
        var a1 := Put(m1, next, Load(m1, 16 * g + 8));
        PutNearby(m, a1, g, next + 8, SetPrevAlloc(Load(a1, next + 8), m.base));
        m2 := Put(a1, next + 8, SetPrevAlloc(Load(a1, next + 8), m.base));
      }
      PutNearby(m, m2, g, next, Load(m2, 16 * g + 8));
      var a1 := Put(m2, next, Load(m2, 16 * g + 8));
      PutNearby(m, a1, g, next + 8, SetHeader(Load(a1, next + 8), View(Load(m1, 16 * g + 8), m.base).alloc, m.base));
    }
  }

  lemma NextInMemory(m: Mem, g: int)
    requires Shape(m) && TouchReaches(m, g)
    ensures InMemory(m, 16 * g) && InMemory(m, 16 * g + 8) && InMemory(m, NextAddress(m, g))
    ensures InMemory(m, NextAddress(m, g) + 8)
    ensures InMemory(m, PrevAddress(m, g) + 8) && PrevAddress(m, g) >= 0
  {
  }

  // ----- what that breaks

  /** u is v but for what is rewritten at the end of a call: the epilogue's previous footer, and its
      prev-alloc bit, which may have been cleared. */
  ghost predicate SameButEpilogue(v: Mem, u: Mem) {
    && |u.lo| == |v.lo| && |u.hi| == |v.hi| == |v.lo| && u.hn == v.hn && u.hp == v.hp && u.end == v.end
    && u.base == v.base
    && 1 <= v.end <= |v.lo| && u.lo == v.lo[v.end - 1 := u.lo[v.end - 1]] && u.hi == v.hi[v.end - 1 := u.hi[v.end - 1]]
    && v.hi[v.end - 1].Header?
    && (u.hi[v.end - 1] == v.hi[v.end - 1] || u.hi[v.end - 1] == v.hi[v.end - 1].(prevAlloc := false))
  }

  lemma SameButEpilogueReflexive(m: Mem)
    requires Shape(m) && EpilogueTagged(m)
    ensures SameButEpilogue(m, m)
  {
    assert m.lo == m.lo[m.end - 1 := m.lo[m.end - 1]] && m.hi == m.hi[m.end - 1 := m.hi[m.end - 1]];
  }

  /** Row r of u still says about the heap what it said in m: headers and footers of blocks, the epilogue's
      header, and the links of free blocks. */
  ghost predicate RowSpared(m: Mem, u: Mem, blk: Blocks, r: int)
    requires Shape(m) && Shape(u) && |u.lo| == |m.lo|
  {
    && (r in blk ==> 0 <= r < |m.lo| && u.hi[r] == m.hi[r] && (r == 0 || SameFooter(m.lo[r], u.lo[r])))
    && (r == m.end - 1 && 0 <= r ==> m.hi[r].Header? && (u.hi[r] == m.hi[r] || u.hi[r] == m.hi[r].(prevAlloc := false)))
    && (r - 1 in blk && !blk[r - 1].alloc ==>
         NextOf(u, r - 1) == NextOf(m, r - 1) && PrevOf(u, r - 1) == PrevOf(m, r - 1))
  }

  predicate SameFooter(w: Word, v: Word) {
    w.Header? && v.Header? && v.rows == w.rows && v.alloc == w.alloc
  }

  /** The rows that the touch of g may write to still describe the heap. */
  ghost predicate HeapSpared(m: Mem, blk: Blocks, g: int)
    requires Shape(m) && 0 <= g < |m.lo|
  {
    TouchNearby(m, g);
    && RowSpared(m, Touch(m, g), blk, Target(m, g))
    && RowSpared(m, Touch(m, g), blk, (NextAddress(m, g) + 15) / 16)
  }

  /** g is the last row of the allocated block t, behind its payload. */
  ghost predicate PaddingRow(blk: Blocks, t: int, g: int) {
    t in blk && t != 0 && blk[t].alloc && t + 1 < g == After(blk, t) - 1
  }

  /** u with the epilogue of m. */
  ghost function Mended(m: Mem, u: Mem): Mem
    requires Shape(m) && Shape(u) && |u.lo| == |m.lo| && 1 <= m.end
  {
    u.(lo := u.lo[m.end - 1 := m.lo[m.end - 1]], hi := u.hi[m.end - 1 := m.hi[m.end - 1]])
  }

  /** When the rows written to are spared, memory is that of a consistent heap, but for the epilogue. */
  lemma SparedIsConsistent(m: Mem, blk: Blocks, lists: Lists, t: int, g: int)
    requires Consistent(m, blk, NONE, lists) && FreeListed(blk, lists) && PaddingRow(blk, t, g) && 0 <= g < |m.lo|
    requires HeapSpared(m, blk, g)
    ensures Shape(Touch(m, g)) && |Touch(m, g).lo| == |m.lo| && 1 <= m.end
    ensures
      var v := Mended(m, Touch(m, g));
      Consistent(v, blk, NONE, lists) && SameButEpilogue(v, Touch(m, g))
  {
    hide Touch, NextAddress, NextOf, PrevOf, TiledBut, Linked, Apart, Layout, FreeListed, Nearby, Target;
    Parts(m, blk, NONE, lists);
    TouchNearby(m, g);
    var u := Touch(m, g);
    SameFrame(m, u, g);
    var v := Mended(m, u);
    forall r {:trigger RowSpared(m, u, blk, r)} | r in blk || r == m.end - 1 || (r - 1 in blk && !blk[r - 1].alloc)
      ensures RowSpared(m, u, blk, r)
    {
      SparedRow(m, u, blk, lists, t, g, r);
    }
    assert RowSpared(m, u, blk, m.end - 1);
    assert u.lo == v.lo[m.end - 1 := u.lo[m.end - 1]] && u.hi == v.hi[m.end - 1 := u.hi[m.end - 1]];
    SparedTiling(m, u, v, blk, lists);
    SparedLinks(m, u, v, blk, lists);
  }

  lemma SameFrame(m: Mem, u: Mem, g: int)
    requires Shape(m) && 0 <= g < |m.lo| && Nearby(m, u, g)
    ensures |u.lo| == |m.lo| && |u.hi| == |m.hi| && u.hn == m.hn && u.hp == m.hp && u.end == m.end && u.base == m.base
  {
  }

  lemma SparedTiling(m: Mem, u: Mem, v: Mem, blk: Blocks, lists: Lists)
    requires Tiled(m, blk) && Shape(u) && |u.lo| == |m.lo| && u.end == m.end && u.base == m.base && v == Mended(m, u)
    requires forall r {:trigger RowSpared(m, u, blk, r)} | r in blk || r == m.end - 1 :: RowSpared(m, u, blk, r)
    ensures Tiled(v, blk)
  {
    var e := m.end - 1;
    assert RowSpared(m, u, blk, e);
    forall r | r in blk
      ensures Tagged(v, blk, r) && Footed(v, blk, r)
    {
      assert Tagged(m, blk, r) && Footed(m, blk, r) && BlockFits(blk, m.end, r);
      assert RowSpared(m, u, blk, r);
      var n := After(blk, r);
      if n in blk {
        assert RowSpared(m, u, blk, n) && BlockFits(blk, m.end, n);
      }
    }
  }

  lemma SparedLinks(m: Mem, u: Mem, v: Mem, blk: Blocks, lists: Lists)
    requires Tiled(m, blk) && Linked(m, lists) && Apart(blk, m.end, lists) && FreeListed(blk, lists)
    requires Shape(u) && |u.lo| == |m.lo| && u.end == m.end && u.base == m.base && u.hn == m.hn && u.hp == m.hp
    requires v == Mended(m, u)
    requires forall r {:trigger RowSpared(m, u, blk, r)} | r - 1 in blk && !blk[r - 1].alloc :: RowSpared(m, u, blk, r)
    ensures Linked(v, lists)
  {
    forall i, k | 0 <= i < |lists| && -1 <= k < |lists[i]|
      ensures NodeLinked(v, lists, i, k)
    {
      assert NodeLinked(m, lists, i, k);
      if k >= 0 {
        var a := NodeAt(lists, i, k);
        assert a in lists[i];
        assert Listed(lists, a);
        assert LinkRowInside(blk, m.end, a);
        assert RowSpared(m, u, blk, a + 1);
      }
    }
  }

  /** Rows that the touch leaves alone are spared, and so is g, which is none of the heap's. */
  lemma SparedRow(m: Mem, u: Mem, blk: Blocks, lists: Lists, t: int, g: int, r: int)
    requires Consistent(m, blk, NONE, lists) && PaddingRow(blk, t, g) && 0 <= g < |m.lo|
    requires Shape(u) && |u.lo| == |m.lo| && u.end == m.end && u.base == m.base && Nearby(m, u, g)
    requires r == Target(m, g) || r == (NextAddress(m, g) + 15) / 16 ==> RowSpared(m, u, blk, r)
    ensures r in blk || r == m.end - 1 || (r - 1 in blk && !blk[r - 1].alloc) ==> RowSpared(m, u, blk, r)
  {
    hide NextAddress;
    InteriorRow(blk, m.end, t, g);
    InteriorRow(blk, m.end, t, g - 1);
    if Bystander(m, g, r) {
      assert SameRow(m, u, r);
      if r in blk {
        assert Tagged(m, blk, r) && BlockFits(blk, m.end, r);
        FooterBefore(m, blk, r);
      }
    }
  }

  /** The previous footer of a block is a header word. */
  lemma FooterBefore(m: Mem, blk: Blocks, r: int)
    requires Tiled(m, blk) && r in blk
    ensures r != 0 ==> 0 <= r < |m.lo| && m.lo[r].Header?
  {
    if r != 0 {
      var p := Predecessor(blk, m.end, r);
      assert BlockFits(blk, m.end, p) && Footed(m, blk, p);
    }
  }

  /** The other way round: a heap that is consistent up to its epilogue has spared the rows. */
  lemma ConsistentIsSpared(m: Mem, v: Mem, blk: Blocks, lists: Lists, t: int, g: int)
    requires Consistent(m, blk, NONE, lists) && FreeListed(blk, lists) && PaddingRow(blk, t, g) && 0 <= g < |m.lo|
    requires Consistent(v, blk, NONE, lists) && SameButEpilogue(v, Touch(m, g))
    ensures HeapSpared(m, blk, g)
  {
    hide Touch, NextAddress, Nearby;
    TouchNearby(m, g);
    var u := Touch(m, g);
    SameFrame(m, u, g);
    Edges(NextAddress(m, g), m, g);
    forall r {:trigger RowSpared(m, u, blk, r)} | r > 0
      ensures RowSpared(m, u, blk, r)
    {
      hide Layout;
      SparedBoundary(m, u, v, blk, r);
      SparedLink(m, u, v, blk, lists, r);
    }
  }

  lemma SparedBoundary(m: Mem, u: Mem, v: Mem, blk: Blocks, r: int)
    requires Tiled(m, blk) && Tiled(v, blk) && SameButEpilogue(v, u) && v.end == m.end && |v.lo| == |m.lo| && r > 0
    ensures r in blk ==> 0 <= r < |m.lo| && u.hi[r] == m.hi[r] && (r == 0 || SameFooter(m.lo[r], u.lo[r]))
    ensures r == m.end - 1 && 0 <= r ==>
      m.hi[r].Header? && (u.hi[r] == m.hi[r] || u.hi[r] == m.hi[r].(prevAlloc := false))
  {
    if r in blk || r == m.end - 1 {
      assert r in blk ==> BlockFits(blk, m.end, r) && Tagged(m, blk, r) && Tagged(v, blk, r);
      var p := Predecessor(blk, m.end, r);
      assert BlockFits(blk, m.end, p) && Footed(m, blk, p) && Footed(v, blk, p);
    }
  }

  lemma SparedLink(m: Mem, u: Mem, v: Mem, blk: Blocks, lists: Lists, r: int)
    requires Consistent(m, blk, NONE, lists) && Consistent(v, blk, NONE, lists) && FreeListed(blk, lists)
    requires Shape(u) && SameButEpilogue(v, u) && v.end == m.end && |v.lo| == |m.lo|
    ensures r - 1 in blk && !blk[r - 1].alloc ==>
      NextOf(u, r - 1) == NextOf(m, r - 1) && PrevOf(u, r - 1) == PrevOf(m, r - 1)
  {
    if r - 1 in blk && !blk[r - 1].alloc {
      var i, k := Position(lists, r - 1);
      assert NodeLinked(m, lists, i, k) && NodeLinked(v, lists, i, k);
      assert LinkRowInside(blk, m.end, r - 1);
    }
  }

  // ----- damage to payloads

  /** The touch of g changes bits in row r of a live payload. */
  ghost predicate Overwrites(m: Mem, live: Blocks, g: int, q: int, r: int)
    requires Shape(m) && 0 <= g < |m.lo|
  {
    q in live && q < r < After(live, q) && !Bystander(m, g, r) && !SameBits(m, Touch(m, g), r)
  }

  /** Payloads are kept exactly if no bit changes in the rows that the touch leads to. */
  lemma KeptExactly(m: Mem, live: Blocks, g: int)
    requires Shape(m) && 0 <= g < |m.lo|
    ensures KeepsPayloads(m, Touch(m, g), live) <==> !exists q, r :: Overwrites(m, live, g, q, r)
  {
    hide Touch, NextAddress, Target, BitsOf, Bystander;
    TouchNearby(m, g);
    var u := Touch(m, g);
    SameFrame(m, u, g);
    if !exists q, r :: Overwrites(m, live, g, q, r) {
      forall q, r | q in live && q < r < After(live, q)
        ensures SameBits(m, u, r)
      {
        assert Bystander(m, g, r) ==> SameRow(m, u, r);
        assert !Overwrites(m, live, g, q, r);
      }
    }
  }

  /** The payload of q changes, and no other. */
  ghost predicate HitsOnly(m: Mem, t: Mem, live: Blocks, q: int) {
    q in live && KeepsPayloads(m, t, live - {q}) && !KeepsPayloads(m, t, live)
  }

  ghost predicate HitsOne(m: Mem, t: Mem, live: Blocks) {
    exists q :: HitsOnly(m, t, live, q)
  }

  /** The rows that a touch of padding leads to are next to each other, so it changes one payload at most. */
  lemma OneHit(m: Mem, blk: Blocks, live: Blocks, t: int, g: int)
    requires Shape(m) && Layout(blk, m.end) && PaddingRow(blk, t, g) && live == Live(blk) - {t} && 0 <= g < |m.lo|
    requires exists q, r :: Overwrites(m, live, g, q, r)
    ensures HitsOne(m, Touch(m, g), live)
  {
    hide Touch, NextAddress, Layout, BitsOf, Bystander;
    var q, r :| Overwrites(m, live, g, q, r);
    TouchNearby(m, g);
    var u := Touch(m, g);
    SameFrame(m, u, g);
    KeptExactly(m, live, g);
    OverwritesWhere(m, blk, live, t, g, q, r);
    Edges(NextAddress(m, g), m, g);
    var rest := live - {q};
    forall p, o | p in rest && p < o < After(rest, p)
      ensures SameBits(m, u, o)
    {
      if Overwrites(m, live, g, p, o) {
        OverwritesWhere(m, blk, live, t, g, p, o);
        NotBoth(blk, m.end, p, q, o, r);
      } else {
        assert Bystander(m, g, o) ==> SameRow(m, u, o);
      }
    }
    assert HitsOnly(m, u, live, q);
  }

  lemma NotBoth(blk: Blocks, end: int, p: int, q: int, o: int, r: int)
    requires Layout(blk, end) && InAllocated(blk, p, o) && InAllocated(blk, q, r) && -1 <= o - r <= 1
    ensures p == q
  {
    InteriorRow(blk, end, p, o);
    InteriorRow(blk, end, q, r);
    if p != q {
      if o >= r { InteriorOfOne(blk, end, q, p, r); } else { InteriorOfOne(blk, end, p, q, o); }
    }
  }

  // ----- the damage a call does

  /** What the touch behind a taken block does: nothing that matters, a change to a live payload, or a
      change to what headers, footers and links say. */
  datatype Damage = Unharmed | PayloadHit | HeapBroken

  /** The damage that a touch of the padding row g does. */
  ghost function DamageAt(m: Mem, blk: Blocks, live: Blocks, g: int): Damage
    requires Shape(m) && 0 <= g < |m.lo|
  {
    if !HeapSpared(m, blk, g) then HeapBroken
    else if exists q, r :: Overwrites(m, live, g, q, r) then PayloadHit
    else Unharmed
  }

  /** Memory once t has been taken whole and isolated, before the last touch. */
  ghost function Bared(m: Mem, t: int, payload: Payload): (m2: Mem)
    requires Shape(m) && 0 <= t < |m.lo| - 1 && m.hi[t].Header?
    ensures Shape(m2) && |m2.lo| == |m.lo|
  {
    TouchKeepsShape(Retag(m, t, payload, true), t);
    var m1 := Touch(Retag(m, t, payload, true), t);
    if Linkable(m1, NextOf(m1, t)) && Linkable(m1, PrevOf(m1, t)) then
      IsolateKeepsShape(m1, t);
      Isolate(m1, t)
    else
      m1
  }

  lemma IsolateKeepsShape(m: Mem, t: int)
    requires Shape(m) && 0 <= t < |m.lo| - 1 && Linkable(m, NextOf(m, t)) && Linkable(m, PrevOf(m, t))
    ensures Shape(Isolate(m, t)) && |Isolate(m, t).lo| == |m.lo|
  {
    hide Touch, Bypass, NextOf, PrevOf;
    BypassShape(m, t);
    TouchKeepsShape(ClearLinks(Bypass(m, t), t), NextOf(m, t));
  }

  /** The damage that taking t for total rows does, from the heap as it is before: none unless 16 bytes are
      left over unsplit, and then what the words of the row left over lead to. */
  ghost function DamageOf(m: Mem, blk: Blocks, t: int, total: int, payload: Payload): Damage {
    if Shape(m) && t in blk && blk[t].rows == total + 1 && 0 <= t < t + total < |m.lo| && m.hi[t].Header? then
      DamageAt(Bared(m, t, payload), blk[t := Block(blk[t].rows, true, payload)], Live(blk), t + total)
    else Unharmed
  }

  // ----- what a row is for

  datatype Kind = Start | Links | Inside | Epilogue | Other

  /** Where a block starts, the link row of a free block, inside an allocated block, the epilogue, or none of these. */
  ghost predicate IsKind(blk: Blocks, end: int, r: int, kind: Kind) {
    match kind
    case Start => r in blk
    case Links => r - 1 in blk && !blk[r - 1].alloc && !Boundary(blk, end, r)
    case Inside => exists q :: InAllocated(blk, q, r)
    case Epilogue => r == end - 1
    case Other => !Boundary(blk, end, r) && !(r - 1 in blk && !blk[r - 1].alloc) && !exists q :: InAllocated(blk, q, r)
  }

  ghost predicate InAllocated(blk: Blocks, q: int, r: int) {
    q in blk && blk[q].alloc && q < r < After(blk, q)
  }

  lemma KindFacts(blk: Blocks, end: int, r: int, kind: Kind)
    requires Layout(blk, end) && IsKind(blk, end, r, kind)
    ensures kind == Start <==> r in blk
    ensures kind == Epilogue <==> r == end - 1
    ensures kind == Links <==> r - 1 in blk && !blk[r - 1].alloc
    ensures kind == Inside <==> exists q :: InAllocated(blk, q, r)
  {
    assert r in blk ==> BlockFits(blk, end, r);
    assert r - 1 in blk ==> BlockFits(blk, end, r - 1);
    if q :| InAllocated(blk, q, r) {
      InteriorRow(blk, end, q, r);
      if r - 1 > q { InteriorRow(blk, end, q, r - 1); }
    }
  }

  /** Whether new words in row r, for the old ones low and high, still say what they have to. */
  predicate WordsSpared(kind: Kind, low: Word, high: Word, low1: Word, high1: Word, base: Bases) {
    match kind
    case Start => high1 == high && SameFooter(low, low1)
    case Links => PointerOf(low1, base) == PointerOf(low, base) && PointerOf(high1, base) == PointerOf(high, base)
    case Epilogue => high.Header? && (high1 == high || high1 == high.(prevAlloc := false))
    case _ => true
  }

  /** Whether new words in row r change an allocated block's bits. */
  predicate WordsChanged(kind: Kind, low: Word, high: Word, low1: Word, high1: Word, base: Bases) {
    kind == Inside && (BitsOf(low1, base) != BitsOf(low, base) || BitsOf(high1, base) != BitsOf(high, base))
  }

  lemma SparedByKind(m: Mem, u: Mem, blk: Blocks, r: int, kind: Kind)
    requires Shape(m) && Shape(u) && |u.lo| == |m.lo| && u.end == m.end && u.base == m.base && 0 < r < |m.lo|
    requires Layout(blk, m.end) && IsKind(blk, m.end, r, kind)
    ensures RowSpared(m, u, blk, r) <==> WordsSpared(kind, m.lo[r], m.hi[r], u.lo[r], u.hi[r], m.base)
  {
    hide Layout, IsKind;
    KindFacts(blk, m.end, r, kind);
    FreeLinkRow(blk, m.end, r);
  }

  lemma FreeLinkRow(blk: Blocks, end: int, r: int)
    requires Layout(blk, end)
    ensures r - 1 in blk ==> r !in blk && r != end - 1 && r - 1 >= 0
  {
    assert r - 1 in blk ==> BlockFits(blk, end, r - 1);
  }

  /** A touch that does not reach changes nothing, so it does no damage. */
  lemma NoReach(m: Mem, blk: Blocks, lists: Lists, live: Blocks, t: int, g: int)
    requires Consistent(m, blk, NONE, lists) && PaddingRow(blk, t, g) && 0 <= g < |m.lo| && !TouchReaches(m, g)
    ensures Touch(m, g) == m && DamageAt(m, blk, live, g) == Unharmed
  {
    hide NextAddress, Layout;
    forall r {:trigger RowSpared(m, m, blk, r)} | r > 0
      ensures RowSpared(m, m, blk, r)
    {
      if r in blk {
        assert Tagged(m, blk, r);
        FooterBefore(m, blk, r);
      }
    }
    Edges(NextAddress(m, g), m, g);
    PositiveRow(blk, m.end, t, g);
  }

  lemma PositiveRow(blk: Blocks, end: int, t: int, g: int)
    requires Layout(blk, end) && PaddingRow(blk, t, g)
    ensures t > 0 && g > 2 && g < end - 1
  {
    assert BlockFits(blk, end, t);
  }

  /** The rows and kinds decide the damage. */
  lemma DamageByKinds(m: Mem, blk: Blocks, live: Blocks, t: int, g: int, n: int, k: int, kn: Kind, kk: Kind)
    requires Shape(m) && Layout(blk, m.end) && PaddingRow(blk, t, g) && live == Live(blk) - {t}
    requires 0 <= g < |m.lo| && n == Target(m, g) && k == (NextAddress(m, g) + 15) / 16 && n < |m.lo| && k < |m.lo|
    requires IsKind(blk, m.end, n, kn) && IsKind(blk, m.end, k, kk)
    ensures Shape(Touch(m, g)) && |Touch(m, g).lo| == |m.lo| && g <= n <= k
    ensures
      var u := Touch(m, g);
      var spared := WordsSpared(kn, m.lo[n], m.hi[n], u.lo[n], u.hi[n], m.base)
        && WordsSpared(kk, m.lo[k], m.hi[k], u.lo[k], u.hi[k], m.base);
      var hit := (n > g && WordsChanged(kn, m.lo[n], m.hi[n], u.lo[n], u.hi[n], m.base))
        || (k > g && WordsChanged(kk, m.lo[k], m.hi[k], u.lo[k], u.hi[k], m.base));
      DamageAt(m, blk, live, g) == if !spared then HeapBroken else if hit then PayloadHit else Unharmed
  {
    hide Touch, NextAddress, Layout, WordsSpared, RowSpared, BitsOf, IsKind;
    TouchNearby(m, g);
    var u := Touch(m, g);
    SameFrame(m, u, g);
    Edges(NextAddress(m, g), m, g);
    PositiveRow(blk, m.end, t, g);
    SparedByKind(m, u, blk, n, kn);
    SparedByKind(m, u, blk, k, kk);
    HitByKind(m, blk, live, t, g, n, kn);
    HitByKind(m, blk, live, t, g, k, kk);
    if q, r :| Overwrites(m, live, g, q, r) {
      OverwritesWhere(m, blk, live, t, g, q, r);
    }
  }

  lemma OverwritesWhere(m: Mem, blk: Blocks, live: Blocks, t: int, g: int, q: int, r: int)
    requires Shape(m) && Layout(blk, m.end) && PaddingRow(blk, t, g) && live == Live(blk) - {t} && 0 <= g < |m.lo|
    requires Overwrites(m, live, g, q, r)
    ensures r != g && (r == Target(m, g) || r == (NextAddress(m, g) + 15) / 16)
  {
    hide Touch, NextAddress, Layout, BitsOf;
    assert After(live, q) == After(blk, q);
    InteriorOfOne(blk, m.end, t, q, g);
  }

  lemma HitByKind(m: Mem, blk: Blocks, live: Blocks, t: int, g: int, r: int, kind: Kind)
    requires Shape(m) && Layout(blk, m.end) && PaddingRow(blk, t, g) && live == Live(blk) - {t} && 0 <= g <= r < |m.lo|
    requires IsKind(blk, m.end, r, kind) && !Bystander(m, g, r)
    requires Shape(Touch(m, g)) && |Touch(m, g).lo| == |m.lo| && Touch(m, g).base == m.base
    ensures
      var u := Touch(m, g);
      r > g && WordsChanged(kind, m.lo[r], m.hi[r], u.lo[r], u.hi[r], m.base) <==>
        exists q :: Overwrites(m, live, g, q, r)
  {
    hide Touch, NextAddress, Layout, BitsOf, IsKind, Bystander;
    KindFacts(blk, m.end, r, kind);
    var u := Touch(m, g);
    if r > g && kind == Inside && !SameBits(m, u, r) {
      var q :| InAllocated(blk, q, r);
      InsideBehind(blk, m.end, t, g, q, r);
      assert q in live && After(live, q) == After(blk, q);
      assert Overwrites(m, live, g, q, r);
    }
    if q :| Overwrites(m, live, g, q, r) {
      assert InAllocated(blk, q, r);
      if r == g { InteriorOfOne(blk, m.end, t, q, g); }
    }
  }

  lemma InsideBehind(blk: Blocks, end: int, t: int, g: int, q: int, r: int)
    requires Layout(blk, end) && PaddingRow(blk, t, g) && r > g && InAllocated(blk, q, r)
    ensures q != t && q != 0
  {
    PositiveRow(blk, end, t, g);
    assert BlockFits(blk, end, 0);
  }

  /** Memory is that of a consistent heap once the epilogue has been rewritten. */
  ghost predicate Repairable(u: Mem, blk: Blocks, lists: Lists) {
    exists v {:trigger SameButEpilogue(v, u)} :: Consistent(v, blk, NONE, lists) && SameButEpilogue(v, u)
  }

  /** What the damage means: the heap is broken exactly if memory describes it no more, and a payload is hit
      exactly if one of its bits has changed. */
  lemma DamageExactly(m: Mem, blk: Blocks, lists: Lists, live: Blocks, t: int, g: int)
    requires Consistent(m, blk, NONE, lists) && FreeListed(blk, lists) && PaddingRow(blk, t, g)
    ensures 0 <= g < |m.lo|
    ensures DamageAt(m, blk, live, g) == HeapBroken <==> !Repairable(Touch(m, g), blk, lists)
    ensures DamageAt(m, blk, live, g) == Unharmed <==>
      Repairable(Touch(m, g), blk, lists) && KeepsPayloads(m, Touch(m, g), live)
  {
    hide Touch, TiledBut, Linked, Apart, FreeListed, HeapSpared, KeepsPayloads, SameButEpilogue, Overwrites, Layout,
      Mended;
    Parts(m, blk, NONE, lists);
    PartsOf(m, blk, NONE, lists, t);
    KeptExactly(m, live, g);
    var u := Touch(m, g);
    if HeapSpared(m, blk, g) {
      SparedIsConsistent(m, blk, lists, t, g);
      assert SameButEpilogue(Mended(m, u), u);
    }
    if v :| Consistent(v, blk, NONE, lists) && SameButEpilogue(v, u) {
      ConsistentIsSpared(m, v, blk, lists, t, g);
    }
  }

  lemma FirstRow(blk: Blocks, end: int)
    requires Layout(blk, end)
    ensures 0 in blk && BlockFits(blk, end, 0) && 0 < end - 1
  {
    assert BlockFits(blk, end, 0);
  }

  lemma NextBoundary(blk: Blocks, end: int, b: int)
    requires Layout(blk, end) && Boundary(blk, end, b) && b < end - 1
    ensures b in blk && Boundary(blk, end, After(blk, b)) && b < After(blk, b) <= end - 1
  {
    assert BlockFits(blk, end, b);
  }

  lemma EpilogueKind(blk: Blocks, end: int, r: int)
    requires Layout(blk, end) && end - 1 <= r <= end
    ensures IsKind(blk, end, r, if r == end - 1 then Epilogue else Other)
  {
    forall q | q in blk
      ensures !InAllocated(blk, q, end) && q != end && q != end - 1
    {
      assert BlockFits(blk, end, q);
    }
  }

  lemma BlockKind(blk: Blocks, end: int, b: int, r: int)
    requires Layout(blk, end) && b in blk && b <= r < After(blk, b)
    ensures IsKind(blk, end, r,
      if r == b then Start else if blk[b].alloc then Inside else if r == b + 1 then Links else Other)
  {
    if r > b {
      InteriorRow(blk, end, b, r);
      if r > b + 1 { InteriorRow(blk, end, b, r - 1); }
      assert blk[b].alloc ==> InAllocated(blk, b, r);
      forall q | InAllocated(blk, q, r)
        ensures q == b
      {
        if q < b { InteriorRow(blk, end, q, b); } else if q > b { InteriorRow(blk, end, b, q); }
      }
    }
  }
}

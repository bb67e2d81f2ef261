/** The memory the allocator works in, and its primitive writes: list links and the touch that makes
    a block's neighbors agree with its header. */
module HeapMemory {
  import opened HeapWords

  /** Row r holds the words lo[r] and hi[r].  Where a block starts these are prev_footer and header;
      in the next row of a free block, the next and prev links; elsewhere, payload.  hn and hp are
      the links of the list heads, end is sf_mem_end and base says where row 0 and the heads lie in the
      machine's memory.  Memory goes on behind the heap: row end is there, but is not the heap's. */
  datatype Mem = Mem(lo: seq<Word>, hi: seq<Word>, hn: seq<int>, hp: seq<int>, end: int, base: Bases)

  predicate Shape(m: Mem) {
    && |m.lo| == |m.hi| <= ROW_LIMIT && 0 <= m.end < |m.lo|
    && |m.hn| == NUM_FREE_LISTS && |m.hp| == NUM_FREE_LISTS
  }

  /** a is a list head or the address of a block whose link row is in memory. */
  predicate Linkable(m: Mem, a: int) {
    IsHead(a) || 0 <= a < |m.lo| - 1
  }

  function NextOf(m: Mem, a: int): int
    requires Shape(m)
  {
    if IsHead(a) then m.hn[-1 - a]
    else if 0 <= a < |m.lo| - 1 then PointerOf(m.lo[a + 1], m.base)
    else NULL
  }

  function PrevOf(m: Mem, a: int): int
    requires Shape(m)
  {
    if IsHead(a) then m.hp[-1 - a]
    else if 0 <= a < |m.lo| - 1 then PointerOf(m.hi[a + 1], m.base)
    else NULL
  }

  function SetNext(m: Mem, a: int, v: int): Mem
    requires Shape(m) && Linkable(m, a)
  {
    if IsHead(a) then m.(hn := m.hn[-1 - a := v]) else m.(lo := m.lo[a + 1 := Link(v)])
  }

  function SetPrev(m: Mem, a: int, v: int): Mem
    requires Shape(m) && Linkable(m, a)
  {
    if IsHead(a) then m.(hp := m.hp[-1 - a := v]) else m.(hi := m.hi[a + 1 := Link(v)])
  }

  // ----- loads and stores at byte addresses

  /** The eight bytes at byte address a lie in memory. */
  predicate InMemory(m: Mem, a: int) {
    |m.hi| == |m.lo| && 0 <= a <= 16 * |m.lo| - 8
  }

  /** Word k of memory, two to a row. */
  function Lane(m: Mem, k: int): Word
    requires |m.hi| == |m.lo| && 0 <= k < 2 * |m.lo|
  {
    if k % 2 == 0 then m.lo[k / 2] else m.hi[k / 2]
  }

  function PutLane(m: Mem, k: int, w: Word): (t: Mem)
    requires |m.hi| == |m.lo| && 0 <= k < 2 * |m.lo|
    ensures |t.lo| == |m.lo| && |t.hi| == |m.hi| && t.hn == m.hn && t.hp == m.hp && t.end == m.end && t.base == m.base
  {
    if k % 2 == 0 then m.(lo := m.lo[k / 2 := w]) else m.(hi := m.hi[k / 2 := w])
  }

  /** The word at byte address a, which need not be aligned. */
  function Load(m: Mem, a: int): Word
    requires InMemory(m, a)
  {
    var k, o := a / 8, a % 8;
    if o == 0 then Lane(m, k) else WordOf(Straddled(BitsOf(Lane(m, k), m.base), BitsOf(Lane(m, k + 1), m.base), o))
  }

  function Put(m: Mem, a: int, w: Word): (t: Mem)
    requires InMemory(m, a)
    ensures |t.lo| == |m.lo| && |t.hi| == |m.hi| && t.hn == m.hn && t.hp == m.hp && t.end == m.end && t.base == m.base
  {
    var k, o := a / 8, a % 8;
    if o == 0 then PutLane(m, k, w)
    else
      var (u, v) := Straddling(BitsOf(Lane(m, k), m.base), BitsOf(Lane(m, k + 1), m.base), BitsOf(w, m.base), o);
      PutLane(PutLane(m, k, WordOf(u)), k + 1, WordOf(v))
  }

  /** Aligned addresses are the words of rows. */
  lemma Aligned(m: Mem, r: int, w: Word)
    requires |m.hi| == |m.lo| && 0 <= r < |m.lo|
    ensures Load(m, 16 * r) == m.lo[r] && Load(m, 16 * r + 8) == m.hi[r]
    ensures Put(m, 16 * r, w) == m.(lo := m.lo[r := w]) && Put(m, 16 * r + 8, w) == m.(hi := m.hi[r := w])
  {
    hide WordOf, Straddled, Straddling, BitsOf;
    Lanes(r);
  }

  lemma Lanes(r: nat)
    ensures 16 * r / 8 == 2 * r && 16 * r % 8 == 0 && 2 * r % 2 == 0 && 2 * r / 2 == r
    ensures (16 * r + 8) / 8 == 2 * r + 1 && (16 * r + 8) % 8 == 0 && (2 * r + 1) % 2 == 1 && (2 * r + 1) / 2 == r
  {
  }

  // ----- touch_for_heap_update

  /** The byte address behind the block at b, by its header. */
  function NextAddress(m: Mem, b: int): nat
    requires Shape(m) && 0 <= b < |m.lo|
  {
    16 * b + Size(m.hi[b], m.base)
  }

  /** The byte address of the block before b, by the previous footer. */
  function PrevAddress(m: Mem, b: int): int
    requires Shape(m) && 0 <= b < |m.lo|
  {
    16 * b - Size(m.lo[b], m.base)
  }

  /** The addresses that the header and the previous footer lead to lie inside the heap or at its end. */
  predicate TouchReaches(m: Mem, b: int)
    requires Shape(m)
  {
    0 <= b < |m.lo| && NextAddress(m, b) <= 16 * m.end && 0 <= PrevAddress(m, b) <= 16 * m.end
  }

  /** The previous block is allocated: note that in the header and the previous footer of b. */
  function NotePrevious(m: Mem, b: int, next: int, prev: int): (t: Mem)
    requires InMemory(m, 16 * b) && InMemory(m, next) && InMemory(m, prev + 8)
    ensures |t.lo| == |m.lo| && |t.hi| == |m.hi| && t.hn == m.hn && t.hp == m.hp && t.end == m.end && t.base == m.base
  {
    if View(Load(m, prev + 8), m.base).alloc then
      var m1 := Put(m, 16 * b + 8, SetPrevAlloc(Load(m, 16 * b + 8), m.base));
      var m2 := Put(m1, 16 * b, Load(m1, prev + 8));
      Put(m2, next, Load(m2, 16 * b + 8))
    else m
  }

  /** The block b is allocated: note that in the next header. */
  function NoteAllocated(m: Mem, b: int, next: int): (t: Mem)
    requires InMemory(m, 16 * b) && InMemory(m, next + 8) && 0 <= next
    ensures |t.lo| == |m.lo| && |t.hi| == |m.hi| && t.hn == m.hn && t.hp == m.hp && t.end == m.end && t.base == m.base
  {
    var m1 := Put(m, next, Load(m, 16 * b + 8));
    Put(m1, next + 8, SetPrevAlloc(Load(m1, next + 8), m.base))
  }

  /** The footer of b, and the prev-alloc bit after it. */
  function NoteFooter(m: Mem, b: int, next: int, alloc: bool): (t: Mem)
    requires InMemory(m, 16 * b) && InMemory(m, next + 8) && 0 <= next
    ensures |t.lo| == |m.lo| && |t.hi| == |m.hi| && t.hn == m.hn && t.hp == m.hp && t.end == m.end && t.base == m.base
  {
    var m1 := Put(m, next, Load(m, 16 * b + 8));
    Put(m1, next + 8, SetHeader(Load(m1, next + 8), alloc, m.base))
  }

  /** touch_for_heap_update, write by write.  A list head is outside the heap and left alone. */
  function Touch(m: Mem, b: int): Mem
    requires Shape(m)
  {
    if !TouchReaches(m, b) then m
    else
      var next := NextAddress(m, b);
      var m1 := NotePrevious(m, b, next, PrevAddress(m, b));
      var alloc := View(Load(m1, 16 * b + 8), m.base).alloc;
      var m2 := if alloc then NoteAllocated(m1, b, next) else m1;
      NoteFooter(m2, b, next, alloc)
  }

  /** The words that touch reads are headers, and the block is not its own neighbor. */
  predicate PlainTouch(m: Mem, b: int)
    requires Shape(m)
  {
    && TouchReaches(m, b) && m.hi[b].Header? && m.lo[b].Header? && m.hi[b].rows > 0 && m.lo[b].rows > 0
    && m.hi[b + m.hi[b].rows].Header? && m.hi[b - m.lo[b].rows].Header?
  }

  /** What touch writes then. */
  lemma TouchWrites(m: Mem, b: int)
    requires Shape(m) && PlainTouch(m, b)
    ensures
      var h, n, x := m.hi[b], b + m.hi[b].rows, m.hi[b + m.hi[b].rows];
      var p := m.hi[b - m.lo[b].rows];
      var hb := if p.alloc then h.(prevAlloc := true) else h;
      Touch(m, b) == m.(lo := m.lo[b := if p.alloc then p else m.lo[b]][n := hb],
                        hi := m.hi[b := hb][n := x.(prevAlloc := h.alloc)])
  {
    hide Load, Put;
    var h, n, x, pr := m.hi[b], b + m.hi[b].rows, m.hi[b + m.hi[b].rows], b - m.lo[b].rows;
    Aligned(m, pr, h);
    Aligned(m, b, SetPrevAlloc(h, m.base));
    var p := m.hi[pr];
    var m1 := m;
    if p.alloc {
      var a1 := m.(hi := m.hi[b := h.(prevAlloc := true)]);
      Aligned(a1, pr, h);
      Aligned(a1, b, p);
      var a2 := a1.(lo := a1.lo[b := p]);
      Aligned(a2, b, h);
      Aligned(a2, n, a2.hi[b]);
      m1 := a2.(lo := a2.lo[n := a2.hi[b]]);
    }
    assert m1 == NotePrevious(m, b, 16 * n, 16 * pr);
    Aligned(m1, b, h);
    var m2 := m1;
    if h.alloc {
      Aligned(m1, n, m1.hi[b]);
      var a1 := m1.(lo := m1.lo[n := m1.hi[b]]);
      Aligned(a1, n, x.(prevAlloc := true));
      m2 := a1.(hi := a1.hi[n := x.(prevAlloc := true)]);
      assert m2 == NoteAllocated(m1, b, 16 * n);
    }
    Aligned(m2, b, h);
    Aligned(m2, n, m2.hi[b]);
    var a3 := m2.(lo := m2.lo[n := m2.hi[b]]);
    Aligned(a3, n, x.(prevAlloc := h.alloc));
    var t := Touch(m, b);
    assert m.lo[b := m.lo[b]] == m.lo && m.hi[b := m.hi[b]] == m.hi;
    assert t.lo == m.lo[b := if p.alloc then p else m.lo[b]][n := m2.hi[b]];
  }

  lemma TouchKeepsShape(m: Mem, b: int)
    requires Shape(m)
    ensures
      var t := Touch(m, b);
      Shape(t) && |t.lo| == |m.lo| && t.hn == m.hn && t.hp == m.hp && t.end == m.end && t.base == m.base
  {
  }

  // ----- list primitives

  /** The link writes of insert_block: b goes to the front of list i. */
  function PushFront(m: Mem, i: int, b: int): Mem
    requires Shape(m) && 0 <= i < NUM_FREE_LISTS && 0 <= b < |m.lo| - 1
    requires Linkable(m, NextOf(m, Head(i))) || NextOf(m, Head(i)) == NULL
  {
    var head := Head(i);
    var tmp := NextOf(m, head);
    if tmp == NULL || tmp == head then
      SetPrev(SetNext(SetPrev(SetNext(m, head, b), head, b), b, head), b, head)
    else
      SetPrev(SetNext(SetPrev(SetNext(m, b, tmp), b, head), head, b), tmp, b)
  }

  /** The link writes of isolate_block between the neighbors of b. */
  function Bypass(m: Mem, b: int): Mem
    requires Shape(m) && Linkable(m, NextOf(m, b)) && Linkable(m, PrevOf(m, b))
  {
    var next := NextOf(m, b);
    var prev := PrevOf(m, b);
    SetPrev(SetNext(m, prev, next), next, prev)
  }

  /** b's own links are cleared. */
  function ClearLinks(m: Mem, b: int): Mem
    requires Shape(m) && 0 <= b < |m.lo| - 1
  {
    SetPrev(SetNext(m, b, NULL), b, NULL)
  }
}

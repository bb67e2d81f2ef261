/** Whole runs of the allocator: any interleaving of malloc, free, realloc and stores behaves like a
    collection of independent cells, one for each pointer that is held. */
module HeapClients {
  import opened HeapWords
  import opened HeapMemory
  import opened HeapTiling
  import opened HeapSteps
  import opened HeapBytes
  import opened HeapDamage
  import opened HeapInvariants
  import opened HeapTaking
  import opened HeapServing
  import opened HeapResizing
  import opened HeapGaps
  import opened Allocator

  /** One call; pointers are named by the position of the call that returned them first. */
  datatype Request =
    | Allocate(size: nat)
    | Release(key: nat)
    | Resize(key: nat, size: nat)
    | Write(key: nat, off: nat, value: Byte)

  predicate Representable(r: Request) {
    (r.Allocate? || r.Resize?) ==> r.size < 0x8000_0000 - 32
  }

  /** What the holder of a pointer knows: the size it asked for and the bytes it stored. */
  datatype Cell = Cell(size: nat, bytes: map<nat, Byte>)

  type Cells = map<nat, Cell>

  /** The first n bytes. */
  function Prefix(bytes: map<nat, Byte>, n: nat): map<nat, Byte> {
    map k | k in bytes && k < n :: bytes[k]
  }

  /** What a call means for the cells; ok says that it returned a pointer. */
  function Step(cells: Cells, key: nat, r: Request, ok: bool): Cells {
    match r
    case Allocate(size) => if ok then cells[key := Cell(size, map[])] else cells
    case Release(k) => cells - {k}
    case Resize(k, size) =>
      if k !in cells then cells
      else if size == 0 then cells - {k}
      else if ok then cells[k := Cell(size, Prefix(cells[k].bytes, Min(cells[k].size, size)))]
      else cells
    case Write(k, off, value) =>
      if k in cells && off < cells[k].size then cells[k := Cell(cells[k].size, cells[k].bytes[off := value])]
      else cells
  }

  /** The cells when the bytes of cell k are no longer certain. */
  function Forget(cells: Cells, k: nat): Cells {
    if k in cells then cells[k := Cell(cells[k].size, map[])] else cells
  }

  /** How a call ended: whether it returned a pointer, the damage it did, and the cell that it hit, if any. */
  datatype Outcome = Outcome(ok: bool, damage: Damage, hit: nat)

  /** What a call means for the cells when the heap is not broken. */
  function StepOut(cells: Cells, key: nat, r: Request, o: Outcome): Cells {
    if o.damage == Unharmed then Step(cells, key, r, o.ok) else Forget(Step(cells, key, r, o.ok), o.hit)
  }

  /** The cells after the first n calls of a run. */
  function CellsAfter(script: seq<Request>, outcomes: seq<Outcome>, n: nat): Cells
    requires n <= |script| && n <= |outcomes|
  {
    if n == 0 then map[] else StepOut(CellsAfter(script, outcomes, n - 1), n - 1, script[n - 1], outcomes[n - 1])
  }

  /** The sizes that the holders know. */
  function SizesOf(cells: Cells): map<nat, nat> {
    map k | k in cells :: cells[k].size
  }

  /** Byte off of the payload at pointer p. */
  ghost predicate ByteHolds(m: Mem, p: int, off: nat, value: Byte) {
    |m.hi| == |m.lo| && 0 <= p + off < 16 * |m.lo| && ByteAt(m, p + off) == value
  }

  /** Pointer p holds the cell. */
  ghost predicate HoldsCell(m: Mem, live: Blocks, p: int, c: Cell) {
    && p % 16 == 0 && BlockOf(p) in live && live[BlockOf(p)].payload == c.size
    && forall off {:trigger off in c.bytes} | off in c.bytes ::
         InPayload(m, BlockOf(p), live[BlockOf(p)].rows, off) && ByteHolds(m, p, off, c.bytes[off])
  }

  /** The live blocks are those of the pointers held, one each, and they hold the cells. */
  ghost predicate Holds(m: Mem, live: Blocks, ptrs: map<nat, int>, cells: Cells) {
    && ptrs.Keys == cells.Keys
    && (forall k {:trigger ptrs[k]} | k in ptrs :: HoldsCell(m, live, ptrs[k], cells[k]))
    && (forall j, k {:trigger ptrs[j], ptrs[k]} | j in ptrs && k in ptrs && j != k :: ptrs[j] != ptrs[k])
    && (forall b {:trigger b in live} | b in live :: exists k :: k in ptrs && BlockOf(ptrs[k]) == b)
  }

  lemma CellKept(m: Mem, t: Mem, live: Blocks, live1: Blocks, p: int, c: Cell)
    requires HoldsCell(m, live, p, c) && BlockOf(p) in live1 && live1[BlockOf(p)] == live[BlockOf(p)]
    requires KeepsPayloads(m, t, live1)
    ensures HoldsCell(t, live1, p, c)
  {
    hide KeepsPayloads, ByteAt;
    var b := BlockOf(p);
    forall off | off in c.bytes
      ensures InPayload(t, b, live1[b].rows, off) && ByteHolds(t, p, off, c.bytes[off])
    {
      KeptByte(m, t, live1, b, off);
    }
  }

  lemma CellsApart(m: Mem, live: Blocks, p: int, q: int, c: Cell, d: Cell)
    requires HoldsCell(m, live, p, c) && HoldsCell(m, live, q, d)
    ensures BlockOf(p) in live && BlockOf(q) in live && p % 16 == 0 && (BlockOf(p) == BlockOf(q) <==> p == q)
  {
  }

  lemma AllocateKeeps(m: Mem, t: Mem, before: Blocks, after: Blocks, ptrs: map<nat, int>, cells: Cells, key: nat,
      pp: int, size: Payload)
    requires Holds(m, Live(before), ptrs, cells) && key !in cells && pp % 16 == 0
    requires Served(before, after, BlockOf(pp), RowsFor(size), size) && KeepsPayloads(m, t, Live(before))
    ensures Holds(t, Live(after), ptrs[key := pp], cells[key := Cell(size, map[])])
  {
    hide Live, HoldsCell, KeepsPayloads, BlockOf;
    var live, live1, ptrs1, cells1 := Live(before), Live(after), ptrs[key := pp], cells[key := Cell(size, map[])];
    assert BlockOf(pp) in live1 && live1[BlockOf(pp)] == after[BlockOf(pp)];
    NewCell(t, live1, pp, size);
    forall k | k in ptrs
      ensures HoldsCell(t, live1, ptrs[k], cells[k]) && ptrs[k] != pp
    {
      CellsApart(m, live, ptrs[k], ptrs[k], cells[k], cells[k]);
      CellKept(m, t, live, live, ptrs[k], cells[k]);
      CellMoved(t, live, live1, ptrs[k], cells[k]);
    }
    forall b | b in live1
      ensures exists k :: k in ptrs1 && BlockOf(ptrs1[k]) == b
    {
      if b != BlockOf(pp) {
        var k :| k in ptrs && BlockOf(ptrs[k]) == b;
        assert k in ptrs1 && BlockOf(ptrs1[k]) == b;
      } else {
        assert key in ptrs1 && BlockOf(ptrs1[key]) == b;
      }
    }
  }

  lemma NewCell(m: Mem, live: Blocks, p: int, size: nat)
    requires p % 16 == 0 && BlockOf(p) in live && live[BlockOf(p)].payload == size
    ensures HoldsCell(m, live, p, Cell(size, map[]))
  {
  }

  lemma CellMoved(m: Mem, live: Blocks, live1: Blocks, p: int, c: Cell)
    requires HoldsCell(m, live, p, c) && BlockOf(p) in live1 && live1[BlockOf(p)] == live[BlockOf(p)]
    ensures HoldsCell(m, live1, p, c)
  {
  }

  lemma ReleaseKeeps(m: Mem, t: Mem, live: Blocks, ptrs: map<nat, int>, cells: Cells, k: nat)
    requires Holds(m, live, ptrs, cells) && k in ptrs && KeepsPayloads(m, t, live - {BlockOf(ptrs[k])})
    ensures Holds(t, live - {BlockOf(ptrs[k])}, ptrs - {k}, cells - {k})
  {
    hide HoldsCell, KeepsPayloads, BlockOf;
    var b := BlockOf(ptrs[k]);
    var live1, ptrs1, cells1 := live - {b}, ptrs - {k}, cells - {k};
    forall j | j in ptrs1
      ensures HoldsCell(t, live1, ptrs1[j], cells1[j])
    {
      assert ptrs[j] != ptrs[k];
      CellsApart(m, live, ptrs[j], ptrs[k], cells[j], cells[k]);
      CellKept(m, t, live, live1, ptrs[j], cells[j]);
    }
    forall c | c in live1
      ensures exists j :: j in ptrs1 && BlockOf(ptrs1[j]) == c
    {
      var j :| j in ptrs && BlockOf(ptrs[j]) == c;
      assert j in ptrs1 && BlockOf(ptrs1[j]) == c;
    }
  }

  /** The cell whose pointer has been resized. */
  lemma ResizedCell(m: Mem, t: Mem, live: Blocks, live1: Blocks, pp: int, p: int, c: Cell, rsize: Payload)
    requires HoldsCell(m, live, pp, c) && p % 16 == 0 && Resized(live, live1, BlockOf(pp), BlockOf(p), rsize)
    requires 0 <= BlockOf(p) && After(live1, BlockOf(p)) <= |t.lo| == |t.hi|
    requires PrefixKept(m, t, BlockOf(pp), BlockOf(p), Min(c.size, rsize))
    ensures HoldsCell(t, live1, p, Cell(rsize, Prefix(c.bytes, Min(c.size, rsize))))
  {
    hide ByteAt, RowsFor;
    var b, q, n := BlockOf(pp), BlockOf(p), Min(c.size, rsize);
    BytesFit(rsize);
    forall off | off in c.bytes && off < n
      ensures InPayload(t, q, live1[q].rows, off) && ByteHolds(t, p, off, c.bytes[off])
    {
      assert ByteHolds(m, pp, off, c.bytes[off]);
      assert ByteMoved(m, t, b, q, off);
    }
  }

  /** A cell whose pointer has not been resized. */
  lemma OtherCell(m: Mem, t: Mem, live: Blocks, live1: Blocks, rest: Blocks, ptrs: map<nat, int>, cells: Cells, k: nat,
      p: int, rsize: Payload, j: nat)
    requires Holds(m, live, ptrs, cells) && k in ptrs && j in ptrs && j != k && p % 16 == 0
    requires Resized(live, live1, BlockOf(ptrs[k]), BlockOf(p), rsize) && KeepsPayloads(m, t, rest)
    ensures BlockOf(ptrs[j]) in live && BlockOf(ptrs[j]) in live1 && live1[BlockOf(ptrs[j])] == live[BlockOf(ptrs[j])]
    ensures ptrs[j] != p && ptrs[j] % 16 == 0 && ptrs[j] != ptrs[k] && BlockOf(ptrs[j]) != BlockOf(ptrs[k])
    ensures BlockOf(ptrs[j]) in rest && rest[BlockOf(ptrs[j])] == live[BlockOf(ptrs[j])] ==>
      HoldsCell(t, live1, ptrs[j], cells[j])
  {
    hide KeepsPayloads, HoldsCell, BlockOf;
    assert ptrs[j] != ptrs[k];
    CellsApart(m, live, ptrs[j], ptrs[k], cells[j], cells[k]);
    if BlockOf(ptrs[j]) in rest && rest[BlockOf(ptrs[j])] == live[BlockOf(ptrs[j])] {
      CellKept(m, t, live, rest, ptrs[j], cells[j]);
      CellMoved(t, rest, live1, ptrs[j], cells[j]);
    }
  }

  lemma ResizeKeeps(m: Mem, t: Mem, live: Blocks, live1: Blocks, ptrs: map<nat, int>, cells: Cells, k: nat, p: int,
      rsize: Payload)
    requires Holds(m, live, ptrs, cells) && k in ptrs && p % 16 == 0
    requires 0 <= BlockOf(p) && BlockOf(p) in live1 && After(live1, BlockOf(p)) <= |t.lo| == |t.hi|
    requires Resized(live, live1, BlockOf(ptrs[k]), BlockOf(p), rsize)
    requires KeepsPayloads(m, t, live - {BlockOf(ptrs[k])})
    requires PrefixKept(m, t, BlockOf(ptrs[k]), BlockOf(p), Min(cells[k].size, rsize))
    ensures Holds(t, live1, ptrs[k := p], cells[k := Cell(rsize, Prefix(cells[k].bytes, Min(cells[k].size, rsize)))])
  {
    hide PrefixKept, KeepsPayloads, HoldsCell, BlockOf;
    ResizedCell(m, t, live, live1, ptrs[k], p, cells[k], rsize);
    forall j | j in ptrs && j != k
      ensures HoldsCell(t, live1, ptrs[j], cells[j]) && ptrs[j] != p
    {
      OtherCell(m, t, live, live1, live - {BlockOf(ptrs[k])}, ptrs, cells, k, p, rsize, j);
    }
    ResizeCovers(live, live1, ptrs, ptrs[k := p], k, p, rsize);
  }

  lemma ResizeCovers(live: Blocks, live1: Blocks, ptrs: map<nat, int>, ptrs1: map<nat, int>, k: nat, p: int,
      rsize: Payload)
    requires forall b {:trigger b in live} | b in live :: exists j :: j in ptrs && BlockOf(ptrs[j]) == b
    requires k in ptrs && ptrs1 == ptrs[k := p] && Resized(live, live1, BlockOf(ptrs[k]), BlockOf(p), rsize)
    ensures forall b {:trigger b in live1} | b in live1 :: exists j :: j in ptrs1 && BlockOf(ptrs1[j]) == b
  {
    hide BlockOf;
    forall c | c in live1
      ensures exists j :: j in ptrs1 && BlockOf(ptrs1[j]) == c
    {
      if c == BlockOf(p) {
        assert k in ptrs1 && BlockOf(ptrs1[k]) == c;
      } else {
        var j :| j in ptrs && BlockOf(ptrs[j]) == c;
        assert j in ptrs1 && BlockOf(ptrs1[j]) == c;
      }
    }
  }

  // ----- a call that changes a live payload

  /** Without its bytes, a cell is held whatever memory holds. */
  lemma SizeKept(m: Mem, t: Mem, live: Blocks, live1: Blocks, p: int, c: Cell)
    requires HoldsCell(m, live, p, c) && BlockOf(p) in live1 && live1[BlockOf(p)] == live[BlockOf(p)]
    ensures HoldsCell(t, live1, p, Cell(c.size, map[]))
  {
  }

  /** Some pointer is that of block q. */
  lemma HolderOf(m: Mem, live: Blocks, ptrs: map<nat, int>, cells: Cells, q: int) returns (k: nat)
    requires Holds(m, live, ptrs, cells) && q in live
    ensures k in ptrs && k in cells && BlockOf(ptrs[k]) == q
  {
    k :| k in ptrs && BlockOf(ptrs[k]) == q;
  }

  /** When only the payload of q changes, only its holder has to forget. */
  lemma HitKeeps(m: Mem, t: Mem, live: Blocks, ptrs: map<nat, int>, cells: Cells) returns (hit: nat)
    requires Holds(m, live, ptrs, cells) && HitsOne(m, t, live)
    ensures hit in ptrs && hit in cells && Holds(t, live, ptrs, Forget(cells, hit))
  {
    hide KeepsPayloads, HoldsCell, BlockOf;
    var q :| HitsOnly(m, t, live, q);
    hit := HolderOf(m, live, ptrs, cells, q);
    forall j | j in ptrs
      ensures HoldsCell(t, live, ptrs[j], Forget(cells, hit)[j])
    {
      if j == hit {
        CellsApart(m, live, ptrs[j], ptrs[j], cells[j], cells[j]);
        SizeKept(m, t, live, live, ptrs[j], cells[j]);
      } else {
        assert ptrs[j] != ptrs[hit];
        CellsApart(m, live, ptrs[j], ptrs[hit], cells[j], cells[hit]);
        CellKept(m, t, live, live - {q}, ptrs[j], cells[j]);
        CellMoved(t, live - {q}, live, ptrs[j], cells[j]);
      }
    }
  }

  lemma AllocateHits(m: Mem, t: Mem, before: Blocks, after: Blocks, ptrs: map<nat, int>, cells: Cells, key: nat,
      pp: int, size: Payload) returns (hit: nat)
    requires Holds(m, Live(before), ptrs, cells) && key !in cells && pp % 16 == 0
    requires Served(before, after, BlockOf(pp), RowsFor(size), size) && HitsOne(m, t, Live(before))
    ensures Holds(t, Live(after), ptrs[key := pp], Forget(cells[key := Cell(size, map[])], hit))
  {
    hide Holds, Live, KeepsPayloads, HitsOne, Served;
    hit := HitKeeps(m, t, Live(before), ptrs, cells);
    KeepsReflexive(t, Live(before));
    AllocateKeeps(t, t, before, after, ptrs, Forget(cells, hit), key, pp, size);
    assert Forget(cells, hit)[key := Cell(size, map[])] == Forget(cells[key := Cell(size, map[])], hit);
  }

  lemma ResizeHits(m: Mem, t: Mem, live: Blocks, live1: Blocks, ptrs: map<nat, int>, cells: Cells, k: nat, p: int,
      rsize: Payload) returns (hit: nat)
    requires Holds(m, live, ptrs, cells) && k in ptrs && p % 16 == 0 && rsize > 0
    requires 0 <= BlockOf(p) && BlockOf(p) in live1 && After(live1, BlockOf(p)) <= |t.lo| == |t.hi|
    requires Resized(live, live1, BlockOf(ptrs[k]), BlockOf(p), rsize)
    requires MovedWithHit(m, t, live, BlockOf(ptrs[k]), BlockOf(p), Min(cells[k].size, rsize))
    ensures Holds(t, live1, ptrs[k := p], Forget(Step(cells, 0, Resize(k, rsize), true), hit))
  {
    hide PrefixKept, KeepsPayloads, HoldsCell, BlockOf, Step, Forget, Resized;
    var b, n := BlockOf(ptrs[k]), Min(cells[k].size, rsize);
    var q :| MovedBut(m, t, live, b, BlockOf(p), n, q);
    hit := HolderOf(m, live, ptrs, cells, q);
    var cells1 := Forget(Step(cells, 0, Resize(k, rsize), true), hit);
    ResizedCells(cells, k, rsize, hit);
    HitCell(m, t, live, live1, ptrs, cells, k, p, rsize, q, hit);
    forall j | j in ptrs && j != k
      ensures HoldsCell(t, live1, ptrs[j], cells1[j]) && ptrs[j] != p
    {
      HitOther(m, t, live, live1, ptrs, cells, k, p, rsize, q, hit, j);
    }
    ResizeCovers(live, live1, ptrs, ptrs[k := p], k, p, rsize);
  }

  lemma ResizedCells(cells: Cells, k: nat, rsize: Payload, hit: nat)
    requires k in cells && rsize > 0
    ensures
      var cells1 := Forget(Step(cells, 0, Resize(k, rsize), true), hit);
      && cells1.Keys == cells.Keys
      && cells1[k] == (if hit == k then Cell(rsize, map[])
                       else Cell(rsize, Prefix(cells[k].bytes, Min(cells[k].size, rsize))))
      && forall j | j in cells && j != k :: cells1[j] == if j == hit then Cell(cells[j].size, map[]) else cells[j]
  {
  }

  /** The cell that has been resized, and perhaps hit. */
  lemma HitCell(m: Mem, t: Mem, live: Blocks, live1: Blocks, ptrs: map<nat, int>, cells: Cells, k: nat, p: int,
      rsize: Payload, q: int, hit: nat)
    requires Holds(m, live, ptrs, cells) && k in ptrs && k in cells && hit in ptrs && BlockOf(ptrs[hit]) == q
    requires p % 16 == 0 && Resized(live, live1, BlockOf(ptrs[k]), BlockOf(p), rsize)
    requires 0 <= BlockOf(p) && After(live1, BlockOf(p)) <= |t.lo| == |t.hi|
    requires MovedBut(m, t, live, BlockOf(ptrs[k]), BlockOf(p), Min(cells[k].size, rsize), q)
    ensures hit == k ==> HoldsCell(t, live1, p, Cell(rsize, map[]))
    ensures hit != k ==> HoldsCell(t, live1, p, Cell(rsize, Prefix(cells[k].bytes, Min(cells[k].size, rsize))))
  {
    hide PrefixKept, KeepsPayloads, HoldsCell, BlockOf;
    NewCell(t, live1, p, rsize);
    if hit != k {
      assert ptrs[hit] != ptrs[k];
      CellsApart(m, live, ptrs[hit], ptrs[k], cells[hit], cells[k]);
      ResizedCell(m, t, live, live1, ptrs[k], p, cells[k], rsize);
    }
  }

  lemma HitOther(m: Mem, t: Mem, live: Blocks, live1: Blocks, ptrs: map<nat, int>, cells: Cells, k: nat, p: int,
      rsize: Payload, q: int, hit: nat, j: nat)
    requires Holds(m, live, ptrs, cells) && k in ptrs && hit in ptrs && BlockOf(ptrs[hit]) == q
    requires j in ptrs && j in cells && j != k
    requires p % 16 == 0 && Resized(live, live1, BlockOf(ptrs[k]), BlockOf(p), rsize)
    requires KeepsPayloads(m, t, live - {BlockOf(ptrs[k])} - {q})
    ensures HoldsCell(t, live1, ptrs[j], if j == hit then Cell(cells[j].size, map[]) else cells[j]) && ptrs[j] != p
  {
    hide KeepsPayloads, HoldsCell, BlockOf;
    OtherCell(m, t, live, live1, live - {BlockOf(ptrs[k])} - {q}, ptrs, cells, k, p, rsize, j);
    if j == hit {
      SizeKept(m, t, live, live1, ptrs[j], cells[j]);
    } else {
      assert ptrs[j] != ptrs[hit];
      CellsApart(m, live, ptrs[j], ptrs[hit], cells[j], cells[hit]);
    }
  }

  // ----- stores

  /** The cell that has been written to. */
  lemma WrittenCell(m: Mem, live: Blocks, p: int, c: Cell, off: nat, value: Byte)
    requires HoldsCell(m, live, p, c) && InPayload(m, BlockOf(p), live[BlockOf(p)].rows, off)
    ensures 0 <= p + off < 16 * |m.lo|
    ensures HoldsCell(PutByte(m, p + off, value), live, p, Cell(c.size, c.bytes[off := value]))
  {
    hide PutByte, ByteAt;
    PayloadByte(m, BlockOf(p), live[BlockOf(p)].rows, off);
    var t, bytes := PutByte(m, p + off, value), c.bytes[off := value];
    forall o | o in bytes
      ensures InPayload(t, BlockOf(p), live[BlockOf(p)].rows, o) && ByteHolds(t, p, o, bytes[o])
    {
      PayloadByte(m, BlockOf(p), live[BlockOf(p)].rows, o);
      PutByteReads(m, p + off, value, p + o);
      assert o == off || ByteHolds(m, p, o, c.bytes[o]);
    }
  }

  lemma WriteKeeps(m: Mem, t: Mem, live: Blocks, ptrs: map<nat, int>, cells: Cells, k: nat, off: nat, value: Byte)
    requires Holds(m, live, ptrs, cells) && k in ptrs && BlockOf(ptrs[k]) in live
    requires InPayload(m, BlockOf(ptrs[k]), live[BlockOf(ptrs[k])].rows, off)
    requires KeepsPayloads(m, t, live - {BlockOf(ptrs[k])}) && 0 <= ptrs[k] + off < 16 * |m.lo|
    requires t == PutByte(m, ptrs[k] + off, value)
    ensures Holds(t, live, ptrs, cells[k := Cell(cells[k].size, cells[k].bytes[off := value])])
  {
    hide KeepsPayloads, HoldsCell, BlockOf, PutByte, InPayload;
    WrittenCell(m, live, ptrs[k], cells[k], off, value);
    forall j | j in ptrs && j != k
      ensures HoldsCell(t, live, ptrs[j], cells[j])
    {
      assert ptrs[j] != ptrs[k];
      CellsApart(m, live, ptrs[j], ptrs[k], cells[j], cells[k]);
      CellKept(m, t, live, live - {BlockOf(ptrs[k])}, ptrs[j], cells[j]);
      CellMoved(t, live - {BlockOf(ptrs[k])}, live, ptrs[j], cells[j]);
    }
  }

  lemma NothingKeeps(m: Mem, t: Mem, live: Blocks, ptrs: map<nat, int>, cells: Cells)
    requires Holds(m, live, ptrs, cells) && KeepsPayloads(m, t, live)
    ensures Holds(t, live, ptrs, cells)
  {
    forall k | k in ptrs
      ensures HoldsCell(t, live, ptrs[k], cells[k])
    {
      CellKept(m, t, live, live, ptrs[k], cells[k]);
    }
  }

  /** Pointers that are held are 16-aligned, and their payloads lie in the heap, apart from each other. */
  lemma HeldApart(m: Mem, blk: Blocks, lists: seq<seq<int>>, ptrs: map<nat, int>, cells: Cells, j: nat, k: nat)
    requires HeapOk(m, blk, lists) && Holds(m, Live(blk), ptrs, cells) && j in ptrs && k in ptrs && j != k
    ensures ptrs[k] % 16 == 0 && 0 <= ptrs[k] && ptrs[k] + cells[k].size <= 16 * m.end
    ensures ptrs[j] + cells[j].size <= ptrs[k] || ptrs[k] + cells[k].size <= ptrs[j]
  {
    assert HoldsCell(m, Live(blk), ptrs[j], cells[j]) && HoldsCell(m, Live(blk), ptrs[k], cells[k]);
    PayloadsSafe(m, blk, lists, BlockOf(ptrs[j]), BlockOf(ptrs[k]));
    PayloadsSafe(m, blk, lists, BlockOf(ptrs[k]), BlockOf(ptrs[j]));
  }

  // ----- runs

  lemma HeldIsLive(m: Mem, blk: Blocks, lists: seq<seq<int>>, ptrs: map<nat, int>, cells: Cells, k: nat)
    requires (HeapOk(m, blk, lists) || HeapEmpty(m, blk, lists)) && Holds(m, Live(blk), ptrs, cells) && k in ptrs
    ensures k in cells && HeapOk(m, blk, lists)
    ensures var p := ptrs[k]; p % 16 == 0 && p != NULL && BlockOf(p) in Live(blk) && PassesChecks(m, BlockOf(p))
    ensures var b := BlockOf(ptrs[k]); 0 <= b < After(blk, b) <= |m.lo| == |m.hi| && blk[b].payload == cells[k].size
    ensures cells[k].size <= 16 * (blk[BlockOf(ptrs[k])].rows - 1)
  {
    assert HoldsCell(m, Live(blk), ptrs[k], cells[k]);
    LiveInMemory(m, blk, lists, BlockOf(ptrs[k]));
    LivePasses(m, blk, lists, BlockOf(ptrs[k]));
    LiveSized(m, blk, lists, BlockOf(ptrs[k]));
  }

  /** What one call did: the states before and after it, the state in which its search for a block ended, the
      pointers held before, the pointer returned and the damage done. */
  datatype Event = Event(before: Snapshot, search: Snapshot, after: Snapshot, held: map<nat, int>,
    p: int, damage: Damage)

  /** No free block was large enough, and the heap has grown as far as it can. */
  ghost predicate OutOfMemory(s: Snapshot, t: Snapshot, total: int) {
    GrowthNeeded(s.blk, s.m.end, t.m.end, total, false) && t.m.end + PAGE_ROWS >= |t.m.lo|
  }

  /** The event is that of serving the request. */
  ghost predicate Serves(intended: bool, e: Event, r: Request) {
    match r
    case Allocate(size) =>
      if size == 0 then e.p == NULL && e.after == e.before && e.damage == Unharmed
      else if e.p == NULL then OutOfMemory(e.before, e.after, RowsFor(size)) && e.damage == Unharmed
      else
        && size < PAYLOAD_LIMIT
        && Obtained(intended, e.before, e.search, e.after, BlockOf(e.p), e.damage, RowsFor(size), size)
        && CutToSize(e.search.blk, e.after.blk, BlockOf(e.p), RowsFor(size))
    case Release(k) =>
      e.damage == Unharmed && if k in e.held then Frees(e, BlockOf(e.held[k])) else e.after == e.before
    case Resize(k, size) =>
      if k !in e.held then e.after == e.before && e.damage == Unharmed
      else size < PAYLOAD_LIMIT && Resizes(intended, e, BlockOf(e.held[k]), size)
    case Write(_, _, _) => e.damage == Unharmed && e.after.blk == e.before.blk
  }

  /** Block b is no longer live, and its rows lie in one free block. */
  ghost predicate Frees(e: Event, b: int) {
    && b in e.before.blk && e.after.m.end == e.before.m.end && Live(e.after.blk) == Live(e.before.blk) - {b}
    && InOneFree(e.after.blk, b, After(e.before.blk, b))
  }

  /** The payload of block b gets another size: nothing is left of it, it moves, or it stays where it is. */
  ghost predicate Resizes(intended: bool, e: Event, b: int, size: Payload) {
    && b in e.before.blk
    && if size == 0 then Frees(e, b) && e.damage == Unharmed
       else if Moves(e.before.blk[b], size) then
         if e.p == NULL then OutOfMemory(e.before, e.after, RowsFor(size)) && e.damage == Unharmed
         else
           && Searched(e.before, e.search, e.after.m.end, RowsFor(size), BlockOf(e.p))
           && e.damage == DamageFor(intended, e.search, BlockOf(e.p), RowsFor(size), size)
           && (e.damage != HeapBroken ==>
                 MovedInBlocks(e.search.blk, e.after.blk, b, e.before.blk[b].rows, BlockOf(e.p), RowsFor(size)))
       else e.damage == Unharmed && BlockOf(e.p) == b && ResizedInPlace(e.before, e.after, b, size)
  }

  /** A payload that grows moves, unless its block has just the rows for the new size. */
  predicate Moves(b: Block, size: nat) {
    size > b.payload && RowsFor(size) != b.rows
  }

  /** One call.  A client uses only pointers that it holds, and stores only inside its payloads. */
  method Perform(h: Heap, ptrs: map<nat, int>, sizes: map<nat, nat>, ghost cells: Cells, key: nat, r: Request)
    returns (after: map<nat, int>, sizes1: map<nat, nat>, broken: bool, ghost o: Outcome, ghost e: Event)
    requires h.Valid() && Holds(h.M(), Live(h.blk), ptrs, cells) && sizes == SizesOf(cells)
    requires key !in cells && Representable(r)
    modifies h`errno, h`end, h`blk, h`lists, h.lo, h.hi, h.headNext, h.headPrev
    ensures e.before == old(h.Now()) && e.after == h.Now() && e.held == ptrs
    ensures o.ok == (e.p != NULL) && o.damage == e.damage && (broken <==> o.damage == HeapBroken)
    ensures Serves(h.intended, e, r) && (h.intended ==> o.damage == Unharmed)
    ensures !broken ==> h.Valid() && Holds(h.M(), Live(h.blk), after, StepOut(cells, key, r, o))
    ensures !broken ==> sizes1 == SizesOf(StepOut(cells, key, r, o))
  {
    hide Holds, Live, KeepsPayloads, HeapOk, HeapEmpty, Obtained, Searched, GrowthNeeded, Resized, PrefixKept,
      PassesChecks, Step, DamageFor, Moves, CutToSize, InOneFree, Resizes, Frees;
    ghost var s0, live := h.Now(), Live(h.blk);
    o, e := Outcome(false, Unharmed, 0), Event(s0, s0, s0, ptrs, NULL, Unharmed);
    after, sizes1, broken := ptrs, sizes, false;
    HeldKeys(s0.m, live, ptrs, cells);
    match r
    case Allocate(size) =>
      after, broken, o, e := PerformAllocate(h, ptrs, cells, key, size);
      if after != ptrs {
        sizes1 := sizes[key := size];
      }
      AllocateSizes(cells, key, size, o);
    case Release(k) =>
      after := PerformRelease(h, ptrs, cells, key, k);
      sizes1 := sizes - {k};
      ReleaseSizes(cells, key, k, o);
      e := e.(after := h.Now());
    case Resize(k, size) =>
      if k in ptrs {
        var ok;
        after, ok, broken, o, e := PerformResize(h, ptrs, cells, key, k, size);
        sizes1 := if size == 0 then sizes - {k} else if ok then sizes[k := size] else sizes;
        ResizeSizes(cells, key, k, size, o);
      } else {
        StepUnheld(cells, key, r, false);
      }
    case Write(k, off, value) =>
      if k in ptrs && off < sizes[k] {
        PerformWrite(h, ptrs, cells, key, k, off, value);
      } else {
        StepUnwritten(cells, key, k, off, value);
      }
      WriteSizes(cells, key, k, off, value, o);
      e := e.(after := h.Now());
  }

  lemma AllocateSizes(cells: Cells, key: nat, size: nat, o: Outcome)
    ensures SizesOf(StepOut(cells, key, Allocate(size), o)) ==
      if o.ok then SizesOf(cells)[key := size] else SizesOf(cells)
  {
  }

  lemma ReleaseSizes(cells: Cells, key: nat, k: nat, o: Outcome)
    ensures SizesOf(StepOut(cells, key, Release(k), o)) == SizesOf(cells) - {k}
  {
  }

  lemma ResizeSizes(cells: Cells, key: nat, k: nat, size: nat, o: Outcome)
    requires k in cells
    ensures SizesOf(StepOut(cells, key, Resize(k, size), o)) ==
      if size == 0 then SizesOf(cells) - {k} else if o.ok then SizesOf(cells)[k := size] else SizesOf(cells)
  {
  }

  lemma WriteSizes(cells: Cells, key: nat, k: nat, off: nat, value: Byte, o: Outcome)
    ensures SizesOf(StepOut(cells, key, Write(k, off, value), o)) == SizesOf(cells)
  {
  }

  lemma StepUnwritten(cells: Cells, key: nat, k: nat, off: nat, value: Byte)
    requires k in cells ==> off >= cells[k].size
    ensures Step(cells, key, Write(k, off, value), false) == cells
  {
  }

  lemma StepUnheld(cells: Cells, key: nat, r: Request, ok: bool)
    requires r.Release? || r.Resize? || r.Write? ==> r.key !in cells
    requires !r.Allocate?
    ensures Step(cells, key, r, ok) == cells
  {
    assert cells - {r.key} == cells;
  }

  method PerformAllocate(h: Heap, ptrs: map<nat, int>, ghost cells: Cells, key: nat, size: nat)
    returns (after: map<nat, int>, broken: bool, ghost o: Outcome, ghost e: Event)
    requires h.Valid() && Holds(h.M(), Live(h.blk), ptrs, cells) && key !in cells && size < 0x8000_0000 - 32
    modifies h`errno, h`end, h`blk, h`lists, h.lo, h.hi, h.headNext, h.headPrev
    ensures e.before == old(h.Now()) && e.after == h.Now() && e.held == ptrs
    ensures o.ok == (e.p != NULL) && o.damage == e.damage && (broken <==> o.damage == HeapBroken)
    ensures o.ok <==> after != ptrs
    ensures Serves(h.intended, e, Allocate(size)) && (h.intended ==> o.damage == Unharmed)
    ensures !broken ==> h.Valid() && Holds(h.M(), Live(h.blk), after, StepOut(cells, key, Allocate(size), o))
  {
    hide Holds, Live, KeepsPayloads, HeapOk, HeapEmpty, Obtained, GrowthNeeded, HitsOne;
    ghost var s0, live := h.Now(), Live(h.blk);
    after := ptrs;
    HeldKeys(s0.m, live, ptrs, cells);
    var pp, damage;
    ghost var s;
    pp, damage, s := h.Malloc(size);
    broken := damage == HeapBroken;
    o, e := Outcome(pp != NULL, damage, 0), Event(s0, s, h.Now(), ptrs, pp, damage);
    if pp != NULL {
      ObtainedAs(h.intended, s0, s, e.after, BlockOf(pp), damage, RowsFor(size), size);
      ObtainedCuts(h.intended, s0, s, e.after, BlockOf(pp), damage, RowsFor(size), size);
      after := ptrs[key := pp];
      assert key in after && key !in ptrs;
      if damage == Unharmed {
        AllocateKeeps(s0.m, h.M(), s0.blk, h.blk, ptrs, cells, key, pp, size);
      } else if damage == PayloadHit {
        ghost var hit := AllocateHits(s0.m, h.M(), s0.blk, h.blk, ptrs, cells, key, pp, size);
        o := o.(hit := hit);
      }
    } else {
      NothingKeeps(s0.m, h.M(), live, ptrs, cells);
    }
  }

  lemma ObtainedAs(intended: bool, s0: Snapshot, s: Snapshot, t: Snapshot, b: int, damage: Damage, total: int,
      payload: Payload)
    requires Obtained(intended, s0, s, t, b, damage, total, payload)
    ensures Served(s0.blk, t.blk, b, total, payload)
    ensures damage == Unharmed ==> KeepsPayloads(s0.m, t.m, Live(s0.blk))
    ensures damage == PayloadHit ==> HitsOne(s0.m, t.m, Live(s0.blk))
    ensures intended ==> damage == Unharmed
  {
  }

  method PerformRelease(h: Heap, ptrs: map<nat, int>, ghost cells: Cells, key: nat, k: nat)
    returns (after: map<nat, int>)
    requires h.Valid() && Holds(h.M(), Live(h.blk), ptrs, cells)
    modifies h`end, h`blk, h`lists, h.lo, h.hi, h.headNext, h.headPrev
    ensures h.Valid() && Holds(h.M(), Live(h.blk), after, Step(cells, key, Release(k), false))
    ensures k in ptrs ==> Frees(Event(old(h.Now()), old(h.Now()), h.Now(), ptrs, NULL, Unharmed), BlockOf(ptrs[k]))
    ensures k !in ptrs ==> h.Now() == old(h.Now())
  {
    hide Holds, Live, KeepsPayloads, HeapOk, HeapEmpty, PassesChecks, Leftovers, InOneFree;
    ghost var s0, live := h.Now(), Live(h.blk);
    after := ptrs;
    HeldKeys(s0.m, live, ptrs, cells);
    if k in ptrs {
      HeldIsLive(s0.m, s0.blk, s0.lists, ptrs, cells, k);
      var aborted, wild := h.Free(ptrs[k]);
      after := ptrs - {k};
      ReleaseKeeps(s0.m, h.M(), live, ptrs, cells, k);
    } else {
      StepUnheld(cells, key, Release(k), false);
    }
  }

  method PerformResize(h: Heap, ptrs: map<nat, int>, ghost cells: Cells, key: nat, k: nat, size: nat)
    returns (after: map<nat, int>, ok: bool, broken: bool, ghost o: Outcome, ghost e: Event)
    requires h.Valid() && Holds(h.M(), Live(h.blk), ptrs, cells) && k in ptrs && size < 0x8000_0000 - 32
    modifies h`errno, h`end, h`blk, h`lists, h.lo, h.hi, h.headNext, h.headPrev
    ensures e.before == old(h.Now()) && e.after == h.Now() && e.held == ptrs
    ensures ok == o.ok == (e.p != NULL) && o.damage == e.damage && (broken <==> o.damage == HeapBroken)
    ensures Serves(h.intended, e, Resize(k, size)) && (h.intended ==> o.damage == Unharmed)
    ensures !broken ==> h.Valid() && Holds(h.M(), Live(h.blk), after, StepOut(cells, key, Resize(k, size), o))
  {
    hide Holds, Live, KeepsPayloads, HeapOk, HeapEmpty, Searched, GrowthNeeded, Resized, PrefixKept, PassesChecks,
      DamageFor, MovedWithHit, InOneFree, MovedInBlocks, ResizedInPlace, RowsFor;
    ghost var s0, live := h.Now(), Live(h.blk);
    HeldKeys(s0.m, live, ptrs, cells);
    HeldIsLive(s0.m, s0.blk, s0.lists, ptrs, cells, k);
    var pp, wild, damage;
    ghost var s;
    pp, damage, wild, s := h.Realloc(ptrs[k], size);
    ok, broken, after := pp != NULL, damage == HeapBroken, ptrs;
    o, e := Outcome(ok, damage, 0), Event(s0, s, h.Now(), ptrs, pp, damage);
    IntendedFor(s, BlockOf(pp), RowsFor(size), size);
    if broken {
      return;
    }
    if size == 0 {
      after := ptrs - {k};
      ReleaseKeeps(s0.m, h.M(), live, ptrs, cells, k);
    } else if ok {
      ResizedInMemory(h.M(), live, h.blk, h.lists, BlockOf(ptrs[k]), BlockOf(pp), size);
      after := ptrs[k := pp];
      if damage == Unharmed {
        ResizeKeeps(s0.m, h.M(), live, Live(h.blk), ptrs, cells, k, pp, size);
      } else {
        ghost var hit := ResizeHits(s0.m, h.M(), live, Live(h.blk), ptrs, cells, k, pp, size);
        o := o.(hit := hit);
      }
    } else {
      NothingKeeps(s0.m, h.M(), live, ptrs, cells);
    }
  }

  lemma ResizedInMemory(m: Mem, live: Blocks, blk: Blocks, lists: seq<seq<int>>, b: int, q: int, rsize: Payload)
    requires (HeapOk(m, blk, lists) || HeapEmpty(m, blk, lists)) && Resized(live, Live(blk), b, q, rsize)
    ensures q in Live(blk) && 0 <= q && After(Live(blk), q) <= |m.lo| == |m.hi|
  {
    LiveInMemory(m, blk, lists, q);
  }

  lemma IntendedFor(s: Snapshot, b: int, total: int, payload: Payload)
    ensures DamageFor(true, s, b, total, payload) == Unharmed
  {
  }

  method PerformWrite(h: Heap, ptrs: map<nat, int>, ghost cells: Cells, key: nat, k: nat, off: nat, value: Byte)
    requires h.Valid() && Holds(h.M(), Live(h.blk), ptrs, cells) && k in ptrs && k in cells && off < cells[k].size
    modifies h.lo, h.hi
    ensures h.Valid() && Holds(h.M(), Live(h.blk), ptrs, Step(cells, key, Write(k, off, value), false))
  {
    hide Holds, Live, KeepsPayloads, HeapOk, HeapEmpty, PassesChecks, PutByte;
    ghost var s0, live := h.Now(), Live(h.blk);
    HeldIsLive(s0.m, s0.blk, s0.lists, ptrs, cells, k);
    h.StoreByte(ptrs[k], off, value);
    WriteKeeps(s0.m, h.M(), live, ptrs, cells, k, off, value);
  }

  lemma HeldKeys(m: Mem, live: Blocks, ptrs: map<nat, int>, cells: Cells)
    requires Holds(m, live, ptrs, cells)
    ensures ptrs.Keys == cells.Keys
  {
  }

  lemma {:induction false} CellsBelow(script: seq<Request>, outcomes: seq<Outcome>, n: nat)
    requires n <= |script| && n <= |outcomes|
    ensures forall k | k in CellsAfter(script, outcomes, n) :: k < n
  {
    if n > 0 { CellsBelow(script, outcomes, n - 1); }
  }

  lemma {:induction false} CellsOfPrefix(script: seq<Request>, outcomes: seq<Outcome>, o: Outcome, n: nat)
    requires n <= |script| && n <= |outcomes|
    ensures CellsAfter(script, outcomes + [o], n) == CellsAfter(script, outcomes, n)
  {
    hide StepOut;
    if n > 0 { CellsOfPrefix(script, outcomes, o, n - 1); }
  }

  /** The events are those of serving the requests in order, from state s to state t. */
  ghost predicate Trace(intended: bool, events: seq<Event>, script: seq<Request>, s: Snapshot, t: Snapshot) {
    && |events| <= |script|
    && (if events == [] then t == s else events[0].before == s && events[|events| - 1].after == t)
    && (forall i {:trigger events[i]} | 0 <= i < |events| :: Serves(intended, events[i], script[i]))
    && (forall i {:trigger events[i]} | 0 < i < |events| :: events[i].before == events[i - 1].after)
  }

  lemma TraceStep(intended: bool, events: seq<Event>, script: seq<Request>, s: Snapshot, t: Snapshot, e: Event)
    requires Trace(intended, events, script, s, t) && |events| < |script|
    requires e.before == t && Serves(intended, e, script[|events|])
    ensures Trace(intended, events + [e], script, s, e.after)
  {
    hide Serves;
  }

  /** Any run of calls from a heap without live blocks, up to the first call that breaks the heap, if any.  The
      events say what each call did.  The pointers held hold exactly the cells that the calls and their outcomes
      describe; a call that hits a payload makes the bytes of one cell uncertain, and of no other.  With the
      successor that get_free_block means to touch, no call does damage. */
  method Run(h: Heap, script: seq<Request>)
    returns (ptrs: map<nat, int>, broken: bool, ghost outcomes: seq<Outcome>, ghost events: seq<Event>)
    requires h.Valid() && Live(h.blk) == map[] && forall i | 0 <= i < |script| :: Representable(script[i])
    modifies h`errno, h`end, h`blk, h`lists, h.lo, h.hi, h.headNext, h.headPrev
    ensures Trace(h.intended, events, script, old(h.Now()), h.Now()) && |events| == |outcomes|
    ensures forall i | 0 <= i < |outcomes| ::
      outcomes[i].ok == (events[i].p != NULL) && outcomes[i].damage == events[i].damage
    ensures forall i | 0 <= i < |outcomes| :: outcomes[i].damage == HeapBroken <==> broken && i == |outcomes| - 1
    ensures broken ==> |outcomes| > 0
    ensures !broken ==> |outcomes| == |script| && h.Valid()
    ensures !broken ==> Holds(h.M(), Live(h.blk), ptrs, CellsAfter(script, outcomes, |script|))
    ensures h.intended ==> !broken && forall i | 0 <= i < |outcomes| :: outcomes[i].damage == Unharmed
  {
    hide Live, HeapOk, HeapEmpty, Step, HoldsCell, Serves, Trace;
    ptrs, broken, outcomes, events := map[], false, [], [];
    ghost var s := h.Now();
    ghost var cells: Cells := map[];
    var sizes, key := map[], 0;
    TraceStart(h.intended, script, s);
    while key < |script|
      invariant key == |outcomes| == |events| <= |script| && h.Valid() && !broken
      invariant cells == CellsAfter(script, outcomes, |outcomes|) && sizes == SizesOf(cells)
      invariant Holds(h.M(), Live(h.blk), ptrs, cells) && Trace(h.intended, events, script, s, h.Now())
      invariant forall i | 0 <= i < |outcomes| ::
        outcomes[i].ok == (events[i].p != NULL) && outcomes[i].damage == events[i].damage
      invariant forall i | 0 <= i < |outcomes| ::
        outcomes[i].damage != HeapBroken && (h.intended ==> outcomes[i].damage == Unharmed)
      decreases |script| - key
    {
      ghost var o, e;
      CellsBelow(script, outcomes, key);
      ghost var t := h.Now();
      ptrs, sizes, broken, o, e := Perform(h, ptrs, sizes, cells, key, script[key]);
      TraceStep(h.intended, events, script, s, t, e);
      CellsOfPrefix(script, outcomes, o, key);
      cells := StepOut(cells, key, script[key], o);
      events, outcomes := events + [e], outcomes + [o];
      if broken {
        return;
      }
      key := key + 1;
    }
  }

  lemma TraceStart(intended: bool, script: seq<Request>, s: Snapshot)
    ensures Trace(intended, [], script, s, s)
  {
  }
}

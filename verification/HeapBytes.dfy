/** Single bytes of memory, lowest byte of a word first. */
module HeapBytes {
  import opened HeapWords
  import opened HeapMemory
  import opened HeapTiling
  import opened HeapSteps

  type Byte = x: int | 0 <= x < 256 witness 0

  /** Byte j of x. */
  function ByteOf(x: nat, j: nat): Byte {
    if j == 0 then x % 256 else ByteOf(x / 256, j - 1)
  }

  /** x with v for its byte j. */
  function WithByte(x: nat, j: nat, v: Byte): nat {
    if j == 0 then x / 256 * 256 + v else x % 256 + 256 * WithByte(x / 256, j - 1, v)
  }

  lemma {:induction false} WithByteReads(x: nat, j: nat, v: Byte, i: nat)
    ensures ByteOf(WithByte(x, j, v), i) == if i == j then v else ByteOf(x, i)
    decreases i
  {
    LowestByte(x, v);
    if j > 0 {
      LowestOf(x % 256, WithByte(x / 256, j - 1, v));
      if i > 0 { WithByteReads(x / 256, j - 1, v, i - 1); }
    }
  }

  lemma LowestByte(x: nat, v: Byte)
    ensures (x / 256 * 256 + v) % 256 == v && (x / 256 * 256 + v) / 256 == x / 256
  {
    LowestOf(v, x / 256);
  }

  lemma LowestOf(low: Byte, y: nat)
    ensures (low + 256 * y) % 256 == low && (low + 256 * y) / 256 == y
  {
  }

  lemma {:induction false} WithByteFits(x: nat, j: nat, v: Byte, n: nat)
    requires x < Bytes(n) && j < n
    ensures WithByte(x, j, v) < Bytes(n)
  {
    assert Bytes(n) == 256 * Bytes(n - 1);
    assert x / 256 < Bytes(n - 1);
    if j > 0 { WithByteFits(x / 256, j - 1, v, n - 1); }
  }

  lemma EightBytes()
    ensures Bytes(8) == WORD_LIMIT
  {
    assert Bytes(2) == 256 * Bytes(1) && Bytes(4) == 256 * Bytes(3) && Bytes(6) == 256 * Bytes(5);
    assert Bytes(8) == 256 * Bytes(7);
  }

  /** A word with one byte stored in it. */
  function Stored(w: Word, j: nat, v: Byte, base: Bases): (d: Word)
    requires j < 8
    ensures d.Data? && d.bits == WithByte(BitsOf(w, base), j, v)
  {
    EightBytes();
    WithByteFits(BitsOf(w, base), j, v, 8);
    Data(WithByte(BitsOf(w, base), j, v))
  }

  /** The word that byte address a lies in. */
  function HalfAt(m: Mem, a: int): Word
    requires |m.hi| == |m.lo| && 0 <= a < 16 * |m.lo|
  {
    if a % 16 < 8 then m.lo[a / 16] else m.hi[a / 16]
  }

  /** The byte at address a. */
  function ByteAt(m: Mem, a: int): Byte
    requires |m.hi| == |m.lo| && 0 <= a < 16 * |m.lo|
  {
    ByteOf(BitsOf(HalfAt(m, a), m.base), a % 8)
  }

  function PutByte(m: Mem, a: int, v: Byte): (t: Mem)
    requires |m.hi| == |m.lo| && 0 <= a < 16 * |m.lo|
    ensures |t.lo| == |m.lo| && |t.hi| == |m.hi| && t.hn == m.hn && t.hp == m.hp && t.end == m.end && t.base == m.base
  {
    var w := Stored(HalfAt(m, a), a % 8, v, m.base);
    if a % 16 < 8 then m.(lo := m.lo[a / 16 := w]) else m.(hi := m.hi[a / 16 := w])
  }

  /** A store of one byte changes this byte and no other. */
  lemma PutByteReads(m: Mem, a: int, v: Byte, c: int)
    requires |m.hi| == |m.lo| && 0 <= a < 16 * |m.lo| && 0 <= c < 16 * |m.lo|
    ensures ByteAt(PutByte(m, a, v), c) == if c == a then v else ByteAt(m, c)
  {
    hide ByteOf, WithByte;
    WithByteReads(BitsOf(HalfAt(m, a), m.base), a % 8, v, c % 8);
    SamePlace(a, c);
  }

  lemma SamePlace(a: nat, c: nat)
    ensures a == c <==> a / 16 == c / 16 && (a % 16 < 8 <==> c % 16 < 8) && a % 8 == c % 8
  {
  }

  lemma PutByteFrame(m: Mem, a: int, v: Byte)
    requires |m.hi| == |m.lo| && 0 <= a < 16 * |m.lo|
    ensures forall r {:trigger SameRow(m, PutByte(m, a, v), r)} | r != a / 16 :: SameRow(m, PutByte(m, a, v), r)
  {
    hide Stored;
  }

  /** A row with the same bits has the same bytes. */
  lemma SameBytes(m: Mem, t: Mem, a: int)
    requires |m.hi| == |m.lo| == |t.lo| == |t.hi| && 0 <= a < 16 * |m.lo| && SameBits(m, t, a / 16)
    ensures ByteAt(t, a) == ByteAt(m, a)
  {
    hide ByteOf;
  }

  lemma SameRowBytes(m: Mem, t: Mem, a: int)
    requires |m.hi| == |m.lo| == |t.lo| == |t.hi| && m.base == t.base && 0 <= a < 16 * |m.lo| && SameRow(m, t, a / 16)
    ensures ByteAt(t, a) == ByteAt(m, a)
  {
    hide ByteOf;
  }

  // ----- bytes of payloads

  /** Byte k of the payload of block b is in memory, in the block. */
  predicate InPayload(m: Mem, b: int, rows: int, k: int) {
    |m.hi| == |m.lo| && 0 <= b && b + rows <= |m.lo| && 0 <= k < 16 * (rows - 1)
  }

  lemma PayloadByte(m: Mem, b: int, rows: int, k: int)
    requires InPayload(m, b, rows, k)
    ensures 0 <= 16 * (b + 1) + k < 16 * |m.lo| && b < (16 * (b + 1) + k) / 16 < b + rows
  {
  }

  lemma KeptByte(m: Mem, t: Mem, live: Blocks, b: int, k: int)
    requires KeepsPayloads(m, t, live) && b in live && InPayload(m, b, live[b].rows, k)
    ensures |t.hi| == |t.lo| == |m.lo| && 0 <= 16 * (b + 1) + k < 16 * |m.lo|
    ensures ByteAt(t, 16 * (b + 1) + k) == ByteAt(m, 16 * (b + 1) + k)
  {
    hide ByteAt, SameBits;
    PayloadByte(m, b, live[b].rows, k);
    var a := 16 * (b + 1) + k;
    assert b < a / 16 < After(live, b);
    assert SameBits(m, t, a / 16);
    SameBytes(m, t, a);
  }

  /** Byte k of the payload of block b in m is that of block q in t. */
  ghost predicate ByteMoved(m: Mem, t: Mem, b: int, q: int, k: int) {
    && |m.hi| == |m.lo| && |t.hi| == |t.lo| && 0 <= 16 * (b + 1) + k < 16 * |m.lo|
    && 0 <= 16 * (q + 1) + k < 16 * |t.lo|
    && ByteAt(t, 16 * (q + 1) + k) == ByteAt(m, 16 * (b + 1) + k)
  }

  /** The first n payload bytes of block q in t are those of block b in m. */
  ghost predicate PrefixKept(m: Mem, t: Mem, b: int, q: int, n: int) {
    forall k {:trigger ByteMoved(m, t, b, q, k)} | 0 <= k < n :: ByteMoved(m, t, b, q, k)
  }

  lemma PrefixOfKept(m: Mem, t: Mem, live: Blocks, b: int, n: int)
    requires KeepsPayloads(m, t, live) && b in live && n <= 16 * (live[b].rows - 1)
    requires 0 <= b && After(live, b) <= |m.lo| == |m.hi|
    ensures PrefixKept(m, t, b, b, n)
  {
    hide KeepsPayloads, ByteAt;
    forall k | 0 <= k < n
      ensures ByteMoved(m, t, b, b, k)
    {
      KeptByte(m, t, live, b, k);
    }
  }

  /** What is kept before and after moving makes no difference to what has moved. */
  lemma PrefixCarried(m0: Mem, m1: Mem, m2: Mem, m3: Mem, before: Blocks, after: Blocks, b: int, q: int, n: int)
    requires KeepsPayloads(m0, m1, before) && KeepsPayloads(m2, m3, after) && PrefixKept(m1, m2, b, q, n)
    requires b in before && q in after && n <= 16 * (before[b].rows - 1) && n <= 16 * (after[q].rows - 1)
    requires 0 <= b && After(before, b) <= |m0.lo| == |m0.hi| && 0 <= q && After(after, q) <= |m2.lo| == |m2.hi|
    ensures PrefixKept(m0, m3, b, q, n)
  {
    hide KeepsPayloads, ByteAt;
    forall k | 0 <= k < n
      ensures ByteMoved(m0, m3, b, q, k)
    {
      assert ByteMoved(m1, m2, b, q, k);
      KeptByte(m0, m1, before, b, k);
      KeptByte(m2, m3, after, q, k);
    }
  }
}

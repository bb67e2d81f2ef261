/** Header words, block sizes and free list classes of the memory allocator.  Addresses and block
    sizes are counted in rows of 16 bytes; payload sizes in bytes. */
module HeapWords {

  const NUM_FREE_LISTS: int := 10
  const MIN_ROWS: int := 2          // 32 bytes, sizeof(sf_block)
  const PAGE_ROWS: int := 256       // 4096 bytes
  const ROW_LIMIT: int := 0x100_0000  // block sizes have 28 bits, 4 of them implicitly zero
  const PAYLOAD_LIMIT: int := 0x1_0000_0000

  const WORD_LIMIT: int := 0x1_0000_0000_0000_0000

  // ----- addresses

  const NULL: int := -100

  /** The address of a list head; heads lie outside the heap. */
  function Head(i: int): int {
    -1 - i
  }

  predicate IsHead(a: int) {
    -NUM_FREE_LISTS <= a < 0
  }

  /** Where the heap and the array of list heads start in the machine's memory. */
  datatype Bases = Bases(heap: nat, heads: nat)

  /** Neither is at address 0, both are aligned, and they do not overlap. */
  predicate Separate(base: Bases) {
    && 0 < base.heap && base.heap % 16 == 0 && base.heap + 16 * ROW_LIMIT <= WORD_LIMIT
    && 0 < base.heads && base.heads % 8 == 0 && base.heads + 32 * NUM_FREE_LISTS <= WORD_LIMIT
    && (base.heap + 16 * ROW_LIMIT <= base.heads || base.heads + 32 * NUM_FREE_LISTS <= base.heap)
  }

  // ----- the words of memory

  type Bits = x: int | 0 <= x < WORD_LIMIT witness 0

  /** A payload size, in bytes, and a block size, in rows, as a header can hold them. */
  type Payload = x: int | 0 <= x < PAYLOAD_LIMIT witness 0
  type Rows = x: int | 0 <= x < ROW_LIMIT witness 0

  /** One 64-bit word of memory: a header or footer with its fields, a pointer, or other bits. */
  datatype Word =
    | Header(payload: Payload, rows: Rows, alloc: bool, prevAlloc: bool)
    | Link(to: int)
    | Data(bits: Bits)

  function Wrap(x: nat): Bits {
    x % WORD_LIMIT
  }

  /** The machine address that a link stands for. */
  function PointerBits(to: int, base: Bases): nat {
    if to == NULL then 0
    else if IsHead(to) then base.heads + 32 * (-1 - to)
    else if to >= 0 then base.heap + 16 * to
    else 0
  }

  function BitsOf(w: Word, base: Bases): Bits {
    match w
    case Header(payload, rows, alloc, prevAlloc) => Compose(payload, rows, alloc, prevAlloc)
    case Link(to) => Wrap(PointerBits(to, base))
    case Data(bits) => bits
  }

  const WILD: int := -200

  /** The block or list head that a word points at, when it is followed as a link. */
  function PointerOf(w: Word, base: Bases): int {
    match w
    case Link(to) => to
    case _ =>
      var b := BitsOf(w, base);
      if b == 0 then NULL
      else if base.heap <= b < base.heap + 16 * ROW_LIMIT && (b - base.heap) % 16 == 0 then (b - base.heap) / 16
      else if base.heads <= b < base.heads + 32 * NUM_FREE_LISTS && (b - base.heads) % 32 == 0 then
        Head((b - base.heads) / 32)
      else WILD
  }

  /** Following a link's bits leads where the link does. */
  lemma LinkRoundTrip(to: int, base: Bases)
    requires Separate(base) && (to == NULL || IsHead(to) || 0 <= to < ROW_LIMIT)
    ensures PointerOf(Data(BitsOf(Link(to), base)), base) == to
  {
    var b := PointerBits(to, base);
    assert 0 <= b < WORD_LIMIT && Wrap(b) == b;
    if IsHead(to) {
      assert b - base.heads == 32 * (-1 - to);
    } else if to >= 0 {
      assert b - base.heap == 16 * to;
    }
  }

  // ----- the header word

  function Bit(b: bool): nat {
    if b then 1 else 0
  }

  /** The bits that set_header composes. */
  function Compose(payload: Payload, rows: Rows, alloc: bool, prevAlloc: bool): Bits {
    payload * PAYLOAD_LIMIT + rows * 16 + 8 * Bit(alloc) + 4 * Bit(prevAlloc)
  }

  /** The fields that the shifts and masks take out of a word. */
  function Decompose(bits: Bits): (h: Word)
    ensures h.Header?
  {
    Header(bits / PAYLOAD_LIMIT, (bits / 16) % ROW_LIMIT, (bits / 8) % 2 == 1, (bits / 4) % 2 == 1)
  }

  /** Fields within their widths do not overlap: every mask reads back what set_header put in. */
  lemma FieldsRoundTrip(payload: Payload, rows: Rows, alloc: bool, prevAlloc: bool)
    ensures Decompose(Compose(payload, rows, alloc, prevAlloc)) == Header(payload, rows, alloc, prevAlloc)
  {
    FieldsOf(payload, rows, Bit(alloc), Bit(prevAlloc), Compose(payload, rows, alloc, prevAlloc));
  }

  lemma FieldsOf(payload: Payload, rows: Rows, a: nat, p: nat, bits: nat)
    requires a <= 1 && p <= 1 && bits == payload * PAYLOAD_LIMIT + rows * 16 + 8 * a + 4 * p
    ensures bits / PAYLOAD_LIMIT == payload && (bits / 16) % ROW_LIMIT == rows
    ensures (bits / 8) % 2 == a && (bits / 4) % 2 == p
  {
    var upper := payload * 0x1000_0000 + rows;
    var flags := 2 * (2 * upper + a) + p;
    assert bits == 4 * flags && 4 * flags == 16 * upper + (8 * a + 4 * p);
    PayloadField(payload, rows * 16 + 8 * a + 4 * p, bits);
    RowsField(16 * payload, rows, 8 * a + 4 * p, bits);
    LowFlags(upper, a, p);
  }

  lemma LowFlags(upper: nat, a: nat, p: nat)
    requires a <= 1 && p <= 1
    ensures
      var bits := 4 * (2 * (2 * upper + a) + p);
      (bits / 8) % 2 == a && (bits / 4) % 2 == p
  {
    var bits := 4 * (2 * (2 * upper + a) + p);
    FlagBit(2 * upper, a, 4 * p, bits);
    FlagBit4(4 * upper + 2 * a, p, bits);
  }

  lemma NoLowBits(payload: Payload, rows: Rows, alloc: bool, prevAlloc: bool)
    ensures Compose(payload, rows, alloc, prevAlloc) % 4 == 0
  {
    var bits := Compose(payload, rows, alloc, prevAlloc);
    assert bits == 4 * (payload * 0x4000_0000 + rows * 4 + 2 * Bit(alloc) + Bit(prevAlloc));
  }

  lemma PayloadField(q: nat, r: nat, bits: nat)
    requires r < PAYLOAD_LIMIT && bits == q * PAYLOAD_LIMIT + r
    ensures bits / PAYLOAD_LIMIT == q
  {
  }

  lemma RowsField(q: nat, rows: nat, low: nat, bits: nat)
    requires rows < ROW_LIMIT && low < 16 && bits == (q * ROW_LIMIT + rows) * 16 + low
    ensures (bits / 16) % ROW_LIMIT == rows
  {
    assert bits / 16 == q * ROW_LIMIT + rows;
  }

  lemma FlagBit(even: nat, b: nat, low: nat, bits: nat)
    requires even % 2 == 0 && b < 2 && low < 8 && bits == 8 * (even + b) + low
    ensures (bits / 8) % 2 == b
  {
    assert bits / 8 == even + b;
  }

  lemma FlagBit4(even: nat, b: nat, bits: nat)
    requires even % 2 == 0 && b < 2 && bits == 4 * (even + b)
    ensures (bits / 4) % 2 == b
  {
    assert bits / 4 == even + b;
  }

  /** How the allocator reads a word as a header. */
  function View(w: Word, base: Bases): (h: Word)
    ensures h.Header? && (w.Header? ==> h == w)
  {
    if w.Header? then w else Decompose(BitsOf(w, base))
  }

  /** The two low bits, which the mask for the block size does not clear. */
  function LowBits(w: Word, base: Bases): (l: nat)
    ensures l < 4
  {
    if w.Header? then 0 else BitsOf(w, base) % 4
  }

  /** The block size in bytes that the mask takes out of a word. */
  function Size(w: Word, base: Bases): nat {
    16 * View(w, base).rows + LowBits(w, base)
  }

  /** Only the bits of a word decide how it is read. */
  lemma ReadByBits(w: Word, v: Word, base: Bases)
    requires BitsOf(w, base) == BitsOf(v, base)
    ensures View(w, base) == View(v, base) && LowBits(w, base) == LowBits(v, base) && Size(w, base) == Size(v, base)
  {
    hide Compose, Decompose;
    if w.Header? {
      FieldsRoundTrip(w.payload, w.rows, w.alloc, w.prevAlloc);
      NoLowBits(w.payload, w.rows, w.alloc, w.prevAlloc);
    }
    if v.Header? {
      FieldsRoundTrip(v.payload, v.rows, v.alloc, v.prevAlloc);
      NoLowBits(v.payload, v.rows, v.alloc, v.prevAlloc);
    }
  }

  /** w | 0x4. */
  function SetPrevAlloc(w: Word, base: Bases): (h: Word)
    ensures w.Header? ==> h == w.(prevAlloc := true)
  {
    if w.Header? then w.(prevAlloc := true)
    else
      var b := BitsOf(w, base);
      Data(if (b / 4) % 2 == 1 then b else Wrap(b + 4))
  }

  /** set_header with the payload size, block size and alloc bit read from w. */
  function SetHeader(w: Word, prevAlloc: bool, base: Bases): (h: Word)
    ensures w.Header? ==> h == w.(prevAlloc := prevAlloc)
  {
    var v := View(w, base);
    if LowBits(w, base) == 0 then Header(v.payload, v.rows, v.alloc, prevAlloc)
    else Data(Wrap(Compose(v.payload, v.rows, v.alloc, prevAlloc) + LowBits(w, base)))
  }

  /** The word with these bits, as a header if only header fields are set. */
  function WordOf(bits: Bits): Word {
    var h := Decompose(bits);
    if Compose(h.payload, h.rows, h.alloc, h.prevAlloc) == bits then h else Data(bits)
  }

  /** 256 to the power o. */
  function Bytes(o: nat): (p: nat)
    ensures p > 0
  {
    if o == 0 then 1 else 256 * Bytes(o - 1)
  }

  /** The bytes of x from byte o on, and those below it. */
  function Above(x: nat, o: nat): nat {
    if o == 0 then x else Above(x / 256, o - 1)
  }

  function Below(x: nat, o: nat): nat {
    if o == 0 then 0 else x % 256 + 256 * Below(x / 256, o - 1)
  }

  /** low below and high from place p on. */
  function Combined(low: nat, high: nat, p: nat): Bits {
    Wrap(low + high * p)
  }

  /** The eight bytes that start o bytes into the first of two adjacent words. */
  function Straddled(a: Bits, c: Bits, o: nat): Bits
    requires 0 < o < 8
  {
    Combined(Above(a, o), Below(c, o), Bytes(8 - o))
  }

  /** The two words after v has been written o bytes into the first. */
  function Straddling(a: Bits, c: Bits, v: Bits, o: nat): (Bits, Bits)
    requires 0 < o < 8
  {
    (Combined(Below(a, o), Below(v, 8 - o), Bytes(o)), Combined(Above(v, 8 - o), Above(c, o), Bytes(o)))
  }

  // ----- block sizes

  function Max(a: int, b: int): int {
    if a >= b then a else b
  }

  /** calculate_block_size for sizes that fit its int arithmetic, in bytes. */
  method CalculateBlockSize(size: nat) returns (total_size: int)
    requires size < 0x8000_0000 - 32
    ensures size == 0 ==> total_size == 0
    ensures size > 0 ==> total_size == 16 * RowsFor(size)
  {
    if size == 0 {
      return 0;
    }
    var size_to_use := size;
    if size < 16 {
      size_to_use := 16;
    }
    total_size := size_to_use + 8 + 8;
    var added_size := if total_size % 16 == 0 then 0 else 16 - total_size % 16;
    total_size := total_size + added_size;
  }

  /** The rows of a block for a payload of the given size. */
  function RowsFor(size: nat): (rows: nat) {
    (Max(size, 16) + 16 + 15) / 16
  }

  /** The block is the smallest multiple of 16 bytes that holds the payload, a header and a footer,
      with room for two links. */
  lemma RowsForIsLeast(size: nat)
    ensures RowsFor(size) >= MIN_ROWS
    ensures 16 * RowsFor(size) >= Max(size, 16) + 16
    ensures forall rows | 16 * rows >= Max(size, 16) + 16 :: rows >= RowsFor(size)
  {
    forall rows | 16 * rows >= Max(size, 16) + 16
      ensures rows >= RowsFor(size)
    {
    }
  }

  /** A payload shrunk by 32 bytes or more leaves a block of at least the minimum size to split off. */
  lemma ShrinkLeavesBlock(payload: nat, rsize: nat, rows: int)
    requires rows >= RowsFor(payload) && payload - rsize >= 16 * MIN_ROWS && rsize > 0
    ensures rows - RowsFor(rsize) >= MIN_ROWS
  {
  }

  // ----- free list classes

  function Fibber(n: nat, a: nat, b: nat): nat {
    if n == 0 then a else if n == 1 then b else Fibber(n - 1, b, a + b)
  }

  function Fib(n: nat): nat {
    Fibber(n, 1, 2)
  }

  lemma FibValues()
    ensures Fib(0) == 1 && Fib(1) == 2 && Fib(2) == 3 && Fib(3) == 5 && Fib(4) == 8
    ensures Fib(5) == 13 && Fib(6) == 21 && Fib(7) == 34 && Fib(8) == 55 && Fib(9) == 89
  {
    assert Fibber(9, 1, 2) == Fibber(8, 2, 3) == Fibber(7, 3, 5) == Fibber(6, 5, 8) == Fibber(5, 8, 13);
    assert Fibber(5, 8, 13) == Fibber(4, 13, 21) == Fibber(3, 21, 34) == Fibber(2, 34, 55) == Fibber(1, 55, 89);
    assert Fibber(8, 1, 2) == Fibber(7, 2, 3) == Fibber(6, 3, 5) == Fibber(5, 5, 8) == Fibber(4, 8, 13);
    assert Fibber(4, 8, 13) == Fibber(3, 13, 21) == Fibber(2, 21, 34);
    assert Fibber(7, 1, 2) == Fibber(6, 2, 3) == Fibber(5, 3, 5) == Fibber(4, 5, 8) == Fibber(3, 8, 13);
    assert Fibber(6, 1, 2) == Fibber(5, 2, 3) == Fibber(4, 3, 5) == Fibber(3, 5, 8) == Fibber(2, 8, 13);
    assert Fibber(5, 1, 2) == Fibber(4, 2, 3) == Fibber(3, 3, 5) == Fibber(2, 5, 8);
    assert Fibber(4, 1, 2) == Fibber(3, 2, 3) == Fibber(2, 3, 5);
    assert Fibber(3, 1, 2) == Fibber(2, 2, 3);
  }

  /** The largest block of list i in rows; the last list has no bound. */
  function ClassBound(i: int): int {
    match i
    case 0 => 2
    case 1 => 4
    case 2 => 6
    case 3 => 10
    case 4 => 16
    case 5 => 26
    case 6 => 42
    case 7 => 68
    case 8 => 110
    case _ => ROW_LIMIT
  }

  /** The list for a block: the first whose bound covers it, or the last. */
  function ClassOf(rows: int): (i: int)
    ensures 0 <= i < NUM_FREE_LISTS
    ensures rows <= ROW_LIMIT ==> rows <= ClassBound(i)
    ensures i > 0 ==> ClassBound(i - 1) < rows
  {
    if rows <= 2 then 0 else if rows <= 4 then 1 else if rows <= 6 then 2 else if rows <= 10 then 3
    else if rows <= 16 then 4 else if rows <= 26 then 5 else if rows <= 42 then 6 else if rows <= 68 then 7
    else if rows <= 110 then 8 else 9
  }

  lemma ClassMonotone(a: int, b: int)
    requires a <= b
    ensures ClassOf(a) <= ClassOf(b)
  {
  }

  /** find_between_fibonacci: the class of a size of n bytes, with the Fibonacci numbers around it. */
  method FindBetweenFibonacci(n: int, limit: int) returns (i: int, left: int, right: int)
    requires limit >= 0
    ensures n < 0 ==> i == -1
    ensures n == 0 ==> i == 0
    ensures n > 0 ==> 0 <= i <= limit + 1 && (n <= 32 * Fib(i) || i == limit + 1)
    ensures n > 0 ==> forall k | 0 <= k < i :: 32 * Fib(k) < n
    ensures n == 0 ==> left == 0 && right == 0
    ensures n > 0 && 32 * Fib(i) >= n ==>
      left == (if i == 0 then 0 else if i == 1 then 1 else Fib(i - 2)) && right == (if i == 0 then 1 else Fib(i - 1))
    ensures n > 0 && 32 * Fib(i) < n ==> left == -1 && right == -1
  {
    left, right := 0, 0;
    if n < 0 {
      return -1, left, right;
    }
    if n == 0 {
      return 0, 0, 0;
    }
    left, right := 0, 1;
    i := 0;
    var temp := Fib(i);
    while temp > -1 && temp * 32 < n
      invariant 0 <= i <= limit + 1 && temp == Fib(i)
      invariant left == (if i == 0 then 0 else if i == 1 then 1 else Fib(i - 2))
      invariant right == (if i == 0 then 1 else Fib(i - 1))
      invariant forall k | 0 <= k < i :: 32 * Fib(k) < n
      decreases limit + 2 - i
    {
      if i > limit {
        left, right := -1, -1;
        break;
      }
      left := right;
      right := temp;
      i := i + 1;
      temp := Fib(i);
    }
  }

  /** The list index for a block of the given number of bytes. */
  method FindAllocationIndex(bytes: nat) returns (index: int)
    ensures index == ClassOf((bytes + 15) / 16)
    ensures forall rows {:trigger ClassOf(rows)} | bytes == 16 * rows :: index == ClassOf(rows)
  {
    var left, right;
    index, left, right := FindBetweenFibonacci(bytes, NUM_FREE_LISTS - 2);
    FibValues();
    if index > 0 {
      assert 32 * Fib(index - 1) < bytes;
    }
  }
}

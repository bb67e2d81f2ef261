/** The quicksort that orders a table of students, with a partition that sends ties alternately up
    and down. */
module Quicksort {
  import opened Ordering

  // ----- the state of a partition: s is the range before, t now; p == s[m] is the pivot; entries
  // before l and from h on have been compared with it

  ghost predicate Dividing<T>(compare: (T, T) -> int, s: seq<T>, t: seq<T>, m: int, l: int, h: int, alt: int,
      tie: int) {
    && 0 <= l <= h <= |s| == |t| && (alt == 1 || alt == -1)
    && 0 <= m < |s| && compare(s[m], s[m]) == 0 && multiset(t) == multiset(s)
    && (forall k {:trigger t[k]} | 0 <= k < l :: compare(t[k], s[m]) <= 0)
    && (forall k {:trigger t[k]} | h <= k < |t| :: compare(t[k], s[m]) >= 0)
    && (h == |s| ==> alt == 1 && s[m] in t[l..])
    && (l == 0 ==> RotatedBy(t, s, h) && OneTie(compare, s, m, h, alt, tie))
    && (l > 0 ==> !StrictMin(compare, s, m))
  }

  /** s after its entries from n on and its first have been moved to the high end. */
  ghost predicate RotatedBy<T>(t: seq<T>, s: seq<T>, n: int) {
    && |t| == |s| && 0 <= n <= |s|
    && (n == |s| ==> t == s)
    && (n < |s| ==> forall k {:trigger t[k]} | 0 <= k < |s| ::
          t[k] == if k >= n then (if k + 1 < |s| then s[k + 1] else s[0]) else if k == 0 then s[n] else s[k])
  }

  /** The entries that have been compared when n are left and none has gone to the low end. */
  ghost predicate Examined(n: int, size: int, k: int) {
    0 <= k < size && n < size && (k == 0 || k > n)
  }

  /** The entry compared next. */
  ghost function Upcoming(n: int, size: int): int {
    if n == size then 0 else n
  }

  /** Everything examined comes after the pivot, except one tie if the next tie is to go low. */
  ghost predicate OneTie<T>(compare: (T, T) -> int, s: seq<T>, m: int, n: int, alt: int, tie: int)
    requires 0 <= m < |s|
  {
    && (forall k {:trigger Examined(n, |s|, k)} | Examined(n, |s|, k) && !(alt == -1 && k == tie) ::
         compare(s[k], s[m]) > 0)
    && (alt == -1 ==> Examined(n, |s|, tie) && compare(s[tie], s[m]) == 0)
  }

  lemma ToHighEnd<T>(compare: (T, T) -> int, s: seq<T>, t: seq<T>, m: int, l: int, h: int, alt: int, tie: int)
    returns (t1: seq<T>, alt1: int, tie1: int)
    requires Dividing(compare, s, t, m, l, h, alt, tie) && l < h
    requires compare(t[l], s[m]) > 0 || (compare(t[l], s[m]) == 0 && alt == 1)
    ensures t1 == Swapped(t, l, h - 1) && alt1 == if compare(t[l], s[m]) == 0 then -alt else alt
    ensures Dividing(compare, s, t1, m, l, h - 1, alt1, tie1)
  {
    hide RotatedBy, OneTie, StrictMin;
    t1 := Swapped(t, l, h - 1);
    var ties := compare(t[l], s[m]) == 0;
    alt1 := if ties then -alt else alt;
    tie1 := if ties then Upcoming(h, |s|) else tie;
    if l == 0 {
      RotateOn(t, s, h);
      TieOn(compare, s, m, h, alt, tie);
    }
  }

  ghost function Swapped<T>(t: seq<T>, i: int, j: int): seq<T>
    requires 0 <= i <= j < |t|
  {
    t[j := t[i]][i := t[j]]
  }

  lemma RotateOn<T>(t: seq<T>, s: seq<T>, h: int)
    requires RotatedBy(t, s, h) && 0 < h
    ensures t[0] == s[Upcoming(h, |s|)] && RotatedBy(Swapped(t, 0, h - 1), s, h - 1)
  {
  }

  lemma TieOn<T>(compare: (T, T) -> int, s: seq<T>, m: int, h: int, alt: int, tie: int)
    requires 0 <= m < |s| && 0 < h <= |s| && OneTie(compare, s, m, h, alt, tie) && (alt == 1 || alt == -1)
    ensures
      var e := Upcoming(h, |s|);
      && (compare(s[e], s[m]) > 0 ==> OneTie(compare, s, m, h - 1, alt, tie))
      && (compare(s[e], s[m]) == 0 && alt == 1 ==> OneTie(compare, s, m, h - 1, -1, e))
  {
    var e := Upcoming(h, |s|);
    assert forall k {:trigger Examined(h - 1, |s|, k)} :: Examined(h - 1, |s|, k) <==> k == e || Examined(h, |s|, k);
  }

  lemma ToLowEnd<T>(compare: (T, T) -> int, s: seq<T>, t: seq<T>, m: int, l: int, h: int, alt: int, tie: int)
      returns (alt1: int)
    requires Dividing(compare, s, t, m, l, h, alt, tie) && l < h
    requires compare(t[l], s[m]) < 0 || (compare(t[l], s[m]) == 0 && alt == -1)
    ensures alt1 == if compare(t[l], s[m]) == 0 then -alt else alt
    ensures Dividing(compare, s, t, m, l + 1, h, alt1, tie)
  {
    alt1 := if compare(t[l], s[m]) == 0 then -alt else alt;
    if l == 0 {
      var e := Upcoming(h, |s|);
      assert t[0] == s[e];
      var k := if e != m then e else tie;
      assert k != m && compare(s[k], s[m]) <= 0;
    }
    if h == |s| {
      assert t[l..] == [t[l]] + t[l + 1..];
    }
  }

  lemma Undivided<T>(compare: (T, T) -> int, a: seq<T>, low: int, high: int)
    requires 0 <= low < high <= |a| && compare(a[Mid(low, high)], a[Mid(low, high)]) == 0
    ensures Halfway(compare, a, a, low, high, low, high, 1, -1)
  {
    assert a[low..high][Half(low, high)] == a[Mid(low, high)];
  }

  lemma Divided<T>(compare: (T, T) -> int, s: seq<T>, t: seq<T>, m: int, l: int, alt: int, tie: int)
    requires Dividing(compare, s, t, m, l, l, alt, tie)
    ensures l < |s| == |t| && multiset(t) == multiset(s) && NoneAfter(compare, t[..l], s[m])
    ensures NoneBefore(compare, t[l..], s[m])
    ensures l == 0 <==> StrictMin(compare, s, m)
    ensures l == 0 ==> t == s[1..] + [s[0]]
  {
    if l == 0 {
      assert forall k {:trigger s[k]} | 0 <= k < |s| :: Examined(0, |s|, k);
      assert s[m] == s[tie];
    }
  }

  /** The middle of a range, and how far it is from low. */
  function Mid(low: int, high: int): (m: int)
    ensures low < high ==> low <= m < high && m == low + Half(low, high)
  {
    (low + high) / 2
  }

  function Half(low: int, high: int): (m: int)
    ensures low < high ==> 0 <= m < high - low
  {
    (high - low) / 2
  }

  /** Only the range from low to high may differ. */
  ghost predicate SameOutside<T>(a: seq<T>, b: seq<T>, low: int, high: int) {
    |a| == |b| && forall k {:trigger b[k]} | 0 <= k < |a| && !(low <= k < high) :: b[k] == a[k]
  }

  lemma SameRange<T>(a: seq<T>, b: seq<T>, low: int, high: int, from: int, to: int)
    requires SameOutside(a, b, low, high) && 0 <= from <= to <= |a| && (to <= low || high <= from)
    ensures b[from..to] == a[from..to]
  {
  }

  lemma SameOutsideChain<T>(a: seq<T>, b: seq<T>, c: seq<T>, low: int, high: int, from: int, to: int)
    requires SameOutside(a, b, low, high) && SameOutside(b, c, from, to) && low <= from && to <= high
    ensures SameOutside(a, c, low, high)
  {
  }

  lemma SplitRange<T>(a: seq<T>, low: int, middle: int, high: int)
    requires 0 <= low <= middle <= high <= |a|
    ensures a[low..high] == a[low..middle] + a[middle..high]
  {
  }

  /** b is a with the range divided at middle. */
  ghost predicate DividedAt<T>(compare: (T, T) -> int, a: seq<T>, b: seq<T>, low: int, middle: int, high: int) {
    && 0 <= low <= middle < high <= |a| && SameOutside(a, b, low, high)
    && multiset(b[low..high]) == multiset(a[low..high])
    && NoneAfter(compare, b[low..middle], a[Mid(low, high)]) && NoneBefore(compare, b[middle..high], a[Mid(low, high)])
    && (middle == low <==> StrictMin(compare, a[low..high], Half(low, high)))
    && (middle == low ==> b[low..high] == a[low + 1..high] + [a[low]])
  }

  lemma SwappedRange<T>(a: seq<T>, l: int, h: int, low: int, high: int)
    requires 0 <= low <= l <= h < high <= |a|
    ensures SameOutside(a, Swapped(a, l, h), low, high)
    ensures Swapped(a, l, h)[low..high] == Swapped(a[low..high], l - low, h - low)
  {
  }

  /** The entry at l goes to the high end. */
  method PutHigh<T>(stab: array<T>, low: int, high: int, l: int, h: int, ghost compare: (T, T) -> int, ghost a: seq<T>,
                    ghost alt: int, ghost tie: int)
    returns (ghost tie1: int)
    requires 0 <= low <= l < h <= high <= stab.Length == |a| && low < high
    requires Halfway(compare, a, stab[..], low, high, l, h, alt, tie)
    requires var c := compare(stab[l], a[Mid(low, high)]); c > 0 || (c == 0 && alt == 1)
    modifies stab
    ensures Halfway(compare, a, stab[..], low, high, l, h - 1,
                    if compare(old(stab[l]), a[Mid(low, high)]) == 0 then -alt else alt, tie1)
  {
    hide *;
    ghost var b := stab[..];
    tie1 := HalfwayHigh(compare, a, b, low, high, l, h, alt, tie);
    var temp := stab[h - 1];
    stab[h - 1] := stab[l];
    stab[l] := temp;
    SwappedIs(b, stab[..], l, h - 1);
  }

  lemma SwappedIs<T>(a: seq<T>, b: seq<T>, i: int, j: int)
    requires 0 <= i <= j < |a| && b == a[j := a[i]][i := a[j]]
    ensures b == Swapped(a, i, j)
  {
  }

  /** The range is divided around its middle entry.  Both parts are smaller than the range unless that
      entry is the strict minimum; then the range is only rotated one place to the left. */
  method Partition<T>(stab: array<T>, low: int, high: int, compare: (T, T) -> int) returns (l: int)
    requires 0 <= low < high <= stab.Length
    requires compare(stab[Mid(low, high)], stab[Mid(low, high)]) == 0
    modifies stab
    ensures DividedAt(compare, old(stab[..]), stab[..], low, l, high)
  {
    ghost var a := stab[..];
    Undivided(compare, a, low, high);
    hide *;
    var pivot := stab[Mid(low, high)];
    l := low;
    var h, alt := high, 1;
    ghost var tie := -1;
    while l < h
      invariant low <= l <= h <= high
      invariant Halfway(compare, a, stab[..], low, high, l, h, alt, tie)
      decreases h - l
    {
      var high_end;
      high_end, alt, tie := Place(stab, low, high, l, h, compare, pivot, a, alt, tie);
      if high_end {
        h := h - 1;
      } else {
        l := l + 1;
      }
    }
    HalfwayDone(compare, a, stab[..], low, high, l, alt, tie);
  }

  /** Compares the entry at l with the pivot and puts it on the high or the low end. */
  method Place<T>(stab: array<T>, low: int, high: int, l: int, h: int, compare: (T, T) -> int, pivot: T,
                  ghost a: seq<T>, alt: int, ghost tie: int)
    returns (high_end: bool, alt1: int, ghost tie1: int)
    requires 0 <= low <= l < h <= high <= stab.Length == |a| && pivot == a[Mid(low, high)]
    requires Halfway(compare, a, stab[..], low, high, l, h, alt, tie)
    modifies stab
    ensures high_end ==> Halfway(compare, a, stab[..], low, high, l, h - 1, alt1, tie1)
    ensures !high_end ==> Halfway(compare, a, stab[..], low, high, l + 1, h, alt1, tie1)
  {
    AltIs(compare, a, stab[..], low, high, l, h, alt, tie);
    hide *;
    var c := compare(stab[l], pivot);
    alt1, tie1 := alt, tie;
    if c == 0 {
      c := alt;
      alt1 := -alt;
    }
    high_end := c > 0;
    if high_end {
      tie1 := PutHigh(stab, low, high, l, h, compare, a, alt, tie);
    } else {
      HalfwayLow(compare, a, stab[..], low, high, l, h, alt, tie);
    }
  }

  lemma AltIs<T>(compare: (T, T) -> int, a: seq<T>, b: seq<T>, low: int, high: int, l: int, h: int, alt: int, tie: int)
    requires Halfway(compare, a, b, low, high, l, h, alt, tie)
    ensures alt == 1 || alt == -1
  {
  }

  /** The partition of a is at b. */
  ghost predicate Halfway<T>(compare: (T, T) -> int, a: seq<T>, b: seq<T>, low: int, high: int, l: int, h: int,
      alt: int, tie: int) {
    && 0 <= low <= l <= h <= high <= |a| == |b| && SameOutside(a, b, low, high)
    && Dividing(compare, a[low..high], b[low..high], Half(low, high), l - low, h - low, alt, tie)
  }

  lemma HalfwayHigh<T>(compare: (T, T) -> int, a: seq<T>, b: seq<T>, low: int, high: int, l: int, h: int,
      alt: int, tie: int)
    returns (tie1: int)
    requires Halfway(compare, a, b, low, high, l, h, alt, tie) && l < h
    requires var c := compare(b[l], a[Mid(low, high)]); c > 0 || (c == 0 && alt == 1)
    ensures Halfway(compare, a, Swapped(b, l, h - 1), low, high, l, h - 1,
                    if compare(b[l], a[Mid(low, high)]) == 0 then -alt else alt, tie1)
  {
    hide Dividing, Swapped, SameOutside;
    var m, t, alt1 := Half(low, high), b[low..high], 0;
    assert t[l - low] == b[l] && a[low..high][m] == a[Mid(low, high)];
    t, alt1, tie1 := ToHighEnd(compare, a[low..high], t, m, l - low, h - low, alt, tie);
    SwappedRange(b, l, h - 1, low, high);
    SameOutsideChain(a, b, Swapped(b, l, h - 1), low, high, low, high);
  }

  lemma HalfwayLow<T>(compare: (T, T) -> int, a: seq<T>, b: seq<T>, low: int, high: int, l: int, h: int,
      alt: int, tie: int)
    requires Halfway(compare, a, b, low, high, l, h, alt, tie) && l < h
    requires var c := compare(b[l], a[Mid(low, high)]); c < 0 || (c == 0 && alt == -1)
    ensures Halfway(compare, a, b, low, high, l + 1, h,
      if compare(b[l], a[Mid(low, high)]) == 0 then -alt else alt, tie)
  {
    hide Dividing, SameOutside;
    var m, t := Half(low, high), b[low..high];
    assert t[l - low] == b[l] && a[low..high][m] == a[Mid(low, high)];
    var alt1 := ToLowEnd(compare, a[low..high], t, m, l - low, h - low, alt, tie);
  }

  lemma HalfwayDone<T>(compare: (T, T) -> int, a: seq<T>, b: seq<T>, low: int, high: int, l: int, alt: int, tie: int)
    requires Halfway(compare, a, b, low, high, l, l, alt, tie)
    ensures DividedAt(compare, a, b, low, l, high)
  {
    hide Dividing, SameOutside, StrictMin, NoneAfter, NoneBefore;
    var m := Half(low, high);
    Divided(compare, a[low..high], b[low..high], m, l - low, alt, tie);
    SubRange(b, low, l, high);
    assert a[low..high][m] == a[Mid(low, high)];
    assert a[low..high][1..] + [a[low..high][0]] == a[low + 1..high] + [a[low]];
  }

  lemma SubRange<T>(a: seq<T>, low: int, l: int, high: int)
    requires 0 <= low <= l <= high <= |a|
    ensures a[low..high][..l - low] == a[low..l] && a[low..high][l - low..] == a[l..high]
  {
  }

  /** 1 for a range whose middle entry is its strict minimum, otherwise 0. */
  ghost function Rank<T>(compare: (T, T) -> int, s: seq<T>): nat {
    if StrictMin(compare, s, |s| / 2) then 1 else 0
  }

  /** Sorts the range.  A range whose middle entry is the strict minimum is sorted again after one
      rotation, and then that entry is no longer in the middle. */
  method SortTable<T>(stab: array<T>, low: int, high: int, compare: (T, T) -> int, ghost S: set<T>)
    requires 0 <= low <= high <= stab.Length
    requires TotalPreorder(compare, S) && Within(stab[..][low..high], S)
    modifies stab
    ensures SameOutside(old(stab[..]), stab[..], low, high)
    ensures multiset(stab[..][low..high]) == multiset(old(stab[..])[low..high])
    ensures Sorted(compare, stab[..][low..high])
    decreases high - low, Rank(compare, stab[..][low..high])
  {
    ghost var a := stab[..];
    if low == high {
      SmallIsSorted(compare, a, low, high);
      return;
    }
    PivotTies(compare, S, a, low, high);
    hide *;
    var middle := Partition(stab, low, high, compare);
    ghost var b := stab[..];
    if low + 1 == high {
      SmallIsSorted(compare, b, low, high);
      return;
    }
    PartsReady(compare, S, a, b, low, middle, high);
    SortTable(stab, low, middle, compare, S);
    ghost var c := stab[..];
    SameRange(b, c, low, middle, middle, high);
    SortTable(stab, middle, high, compare, S);
    PartsSorted(compare, S, a, b, c, stab[..], low, middle, high);
  }

  lemma SmallIsSorted<T>(compare: (T, T) -> int, a: seq<T>, low: int, high: int)
    requires 0 <= low <= high <= |a| && high <= low + 1
    ensures Sorted(compare, a[low..high]) && SameOutside(a, a, low, high)
  {
  }

  lemma PivotTies<T>(compare: (T, T) -> int, S: set<T>, a: seq<T>, low: int, high: int)
    requires 0 <= low < high <= |a| && TotalPreorder(compare, S) && Within(a[low..high], S)
    ensures compare(a[Mid(low, high)], a[Mid(low, high)]) == 0
  {
    assert a[Mid(low, high)] in a[low..high];
  }

  /** The second recursive call sorts less, or a range that is not to be rotated again. */
  lemma PartsReady<T>(compare: (T, T) -> int, S: set<T>, a: seq<T>, b: seq<T>, low: int, middle: int, high: int)
    requires DividedAt(compare, a, b, low, middle, high) && low + 1 < high
    requires TotalPreorder(compare, S) && Within(a[low..high], S)
    ensures Within(b[low..middle], S) && Within(b[middle..high], S)
    ensures middle == low ==> Rank(compare, b[middle..high]) < Rank(compare, a[low..high])
  {
    SplitRange(b, low, middle, high);
    SameElementsWithin(a[low..high], b[low..high], S);
    SplitWithin(b[low..high], b[low..middle], b[middle..high], S);
    if middle == low {
      ghost var s := a[low..high];
      RotatedMinMoves(compare, S, s, Half(low, high));
      assert b[low..high] == s[1..] + [s[0]];
    }
  }

  lemma PartsSorted<T>(compare: (T, T) -> int, S: set<T>, a: seq<T>, b: seq<T>, c: seq<T>, d: seq<T>,
                       low: int, middle: int, high: int)
    requires |a| == |b| == |c| == |d|
    requires DividedAt(compare, a, b, low, middle, high) && TotalPreorder(compare, S) && Within(a[low..high], S)
    requires Within(b[low..middle], S) && Within(b[middle..high], S)
    requires SameOutside(b, c, low, middle) && multiset(c[low..middle]) == multiset(b[low..middle])
    requires SameOutside(c, d, middle, high) && multiset(d[middle..high]) == multiset(c[middle..high])
    requires Sorted(compare, c[low..middle]) && Sorted(compare, d[middle..high])
    ensures SameOutside(a, d, low, high) && multiset(d[low..high]) == multiset(a[low..high])
    ensures Sorted(compare, d[low..high])
  {
    hide TotalPreorder, Sorted, NoneAfter, NoneBefore, StrictMin, SameOutside;
    SameRange(b, c, low, middle, middle, high);
    SameRange(c, d, middle, high, low, middle);
    SameOutsideChain(a, b, c, low, high, low, middle);
    SameOutsideChain(a, c, d, low, high, middle, high);
    SplitRange(b, low, middle, high);
    SplitRange(d, low, middle, high);
    var p := a[Mid(low, high)];
    assert p == a[low..high][Mid(low, high) - low] && p in a[low..high] && p in S;
    SortedJoin(compare, S, b[low..middle], b[middle..high], d[low..middle], d[middle..high], p);
  }
}

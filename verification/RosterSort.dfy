/** Sorting rosters by a comparison function, and finding students entered twice. */
module RosterSort {
  import opened Gradebook
  import opened Ordering
  import opened Quicksort

  // ----- the comparison functions

  function CompareName(s1: Student, s2: Student): int {
    var c := StrCmp(s1.surname, s2.surname);
    if c != 0 then c else StrCmp(s1.name, s2.name)
  }

  function CompareId(s1: Student, s2: Student): int {
    StrCmp(s1.id, s2.id)
  }

  function CompareScore(s1: Student, s2: Student): int {
    if s1.composite > s2.composite then -1 else if s1.composite < s2.composite then 1 else 0
  }

  /** What checkfordups takes for the identity of a student. */
  function KeyOf(s: Student): (string, string) {
    (s.surname, s.name)
  }

  lemma NameOrders(S: set<Student>)
    ensures TotalPreorder(CompareName, S)
    ensures forall x, y | x in S && y in S :: CompareName(x, y) == 0 <==> KeyOf(x) == KeyOf(y)
  {
    forall x, y | x in S && y in S
      ensures CompareName(x, y) < 0 <==> CompareName(y, x) > 0
      ensures CompareName(x, y) == 0 <==> KeyOf(x) == KeyOf(y)
    {
      StrCmpSign(x.surname, y.surname);
      StrCmpSign(y.surname, x.surname);
      StrCmpSign(x.name, y.name);
      StrCmpZero(x.surname, y.surname);
      StrCmpZero(x.name, y.name);
    }
    forall x, y, z | x in S && y in S && z in S && CompareName(x, y) <= 0 && CompareName(y, z) <= 0
      ensures CompareName(x, z) <= 0
    {
      NameTransitive(x, y, z);
    }
  }

  lemma NameTransitive(x: Student, y: Student, z: Student)
    requires CompareName(x, y) <= 0 && CompareName(y, z) <= 0
    ensures CompareName(x, z) <= 0
  {
    StrCmpTransitive(x.surname, y.surname, z.surname);
    if StrCmp(x.surname, z.surname) == 0 { StrCmpTransitive(x.name, y.name, z.name); }
  }

  lemma IdOrders(S: set<Student>)
    ensures TotalPreorder(CompareId, S)
  {
    forall x, y | x in S && y in S
      ensures CompareId(x, y) < 0 <==> CompareId(y, x) > 0
      ensures x == y ==> CompareId(x, y) == 0
    {
      StrCmpSign(x.id, y.id);
      StrCmpZero(x.id, y.id);
    }
    forall x, y, z | x in S && y in S && z in S && CompareId(x, y) <= 0 && CompareId(y, z) <= 0
      ensures CompareId(x, z) <= 0
    {
      StrCmpTransitive(x.id, y.id, z.id);
    }
  }

  lemma ScoreOrders(S: set<Student>)
    ensures TotalPreorder(CompareScore, S)
  {
  }

  // ----- sortroster

  method SetLink(s: Student, link: Link, n: Student?)
    modifies s`next, s`cnext
    ensures LinkOf(s, link) == n
    ensures link == Next ==> s.cnext == old(s.cnext)
    ensures link == CNext ==> s.next == old(s.next)
  {
    match link
    case Next => s.next := n;
    case CNext => s.cnext := n;
  }

  ghost function Members(xs: seq<Student>): set<Student> {
    set x | x in xs
  }

  /** Only the chosen link of the students in xs may differ. */
  twostate predicate OtherLinkSame(xs: seq<Student>, link: Link)
    reads xs
  {
    forall k {:trigger xs[k]} | 0 <= k < |xs| ::
      if link == Next then xs[k].cnext == old(xs[k].cnext) else xs[k].next == old(xs[k].next)
  }

  method CountStudents(s: Student?, link: Link, ghost xs: seq<Student>) returns (count: nat)
    requires ChainOf(s, xs, link)
    ensures count == |xs| && (count == 0 <==> s == null)
  {
    var sp := s;
    count := 0;
    while sp != null
      invariant count <= |xs| && sp == Nth(xs, count)
      decreases |xs| - count
    {
      assert sp == xs[count];
      count := count + 1;
      sp := LinkOf(sp, link);
    }
  }

  ghost function Reversed<T>(s: seq<T>): (r: seq<T>)
    ensures |r| == |s| && multiset(r) == multiset(s)
  {
    if s == [] then [] else
      assert s == s[..|s| - 1] + [s[|s| - 1]];
      [s[|s| - 1]] + Reversed(s[..|s| - 1])
  }

  /** The table is filled from its end. */
  method FillTable(stab: array<Student>, s: Student?, link: Link, ghost xs: seq<Student>)
    requires ChainOf(s, xs, link) && stab.Length == |xs|
    modifies stab
    ensures stab[..] == Reversed(xs)
  {
    hide Nth, ChainOf, LinkOf, Reversed;
    StudentAt(s, xs, link, 0);
    NoneReversed(xs);
    var sp := s;
    var i := stab.Length;
    while i > 0
      invariant 0 <= i <= stab.Length && sp == Nth(xs, stab.Length - i) && ChainOf(s, xs, link)
      invariant stab[i..] == Reversed(xs[..stab.Length - i])
    {
      ghost var n := stab.Length - i;
      StudentAt(s, xs, link, n);
      OneMoreReversed(xs, n);
      i := i - 1;
      stab[i] := sp;
      assert stab[i..] == [sp] + stab[i + 1..];
      sp := LinkOf(sp, link);
    }
    assert xs[..stab.Length] == xs;
  }

  lemma NoneReversed<T>(s: seq<T>)
    ensures Reversed(s[..0]) == []
  {
  }

  lemma OneMoreReversed<T>(s: seq<T>, n: nat)
    requires n < |s|
    ensures Reversed(s[..n + 1]) == [s[n]] + Reversed(s[..n])
  {
    assert s[..n + 1][..n] == s[..n];
  }

  lemma StudentAt(s: Student?, xs: seq<Student>, link: Link, k: nat)
    requires ChainOf(s, xs, link)
    ensures Nth(xs, 0) == s
    ensures k < |xs| ==> Nth(xs, k) == xs[k] && LinkOf(xs[k], link) == Nth(xs, k + 1)
  {
  }

  lemma PermutedDistinct(xs: seq<Student>, ys: seq<Student>)
    requires multiset(ys) == multiset(xs) && forall i, j | 0 <= i < j < |xs| :: xs[i] != xs[j]
    ensures forall i, j | 0 <= i < j < |ys| :: ys[i] != ys[j]
  {
    forall i, j | 0 <= i < j < |ys|
      ensures ys[i] != ys[j]
    {
      OnceIfDistinct(xs, ys[i]);
      TwiceIfRepeated(ys, i, j);
    }
  }

  lemma {:induction false} OnceIfDistinct(xs: seq<Student>, x: Student)
    requires forall i, j | 0 <= i < j < |xs| :: xs[i] != xs[j]
    ensures multiset(xs)[x] <= 1
  {
    if xs != [] {
      assert xs == [xs[0]] + xs[1..];
      OnceIfDistinct(xs[1..], x);
      if x == xs[0] { assert x !in xs[1..]; }
    }
  }

  lemma TwiceIfRepeated(ys: seq<Student>, i: int, j: int)
    requires 0 <= i < j < |ys|
    ensures ys[i] == ys[j] ==> multiset(ys)[ys[i]] >= 2
  {
    assert ys == ys[..j] + [ys[j]] + ys[j + 1..];
    assert ys[i] in ys[..j];
  }

  /** The students of the table are linked in its order. */
  method Relink(stab: array<Student>, link: Link, ghost ys: seq<Student>, ghost xs: seq<Student>)
    requires ys == stab[..] && ys != [] && (forall i, j | 0 <= i < j < |ys| :: ys[i] != ys[j])
    requires forall k {:trigger ys[k]} | 0 <= k < |ys| :: ys[k] in xs
    modifies xs`next, xs`cnext
    ensures ChainOf(ys[0], ys, link) && OtherLinkSame(xs, link)
  {
    var sp := stab[0];
    assert sp == ys[0];
    var i := 1;
    while i < stab.Length
      invariant 1 <= i <= stab.Length && sp == ys[i - 1] && sp in xs
      invariant forall k {:trigger ys[k]} | 0 <= k < i - 1 :: LinkOf(ys[k], link) == ys[k + 1]
      invariant OtherLinkSame(xs, link)
    {
      SetLink(sp, link, stab[i]);
      sp := stab[i];
      assert sp == ys[i];
      i := i + 1;
    }
    SetLink(sp, link, null);
  }

  /** A new table of the roster's students, sorted. */
  method SortedTable(s: Student, count: nat, link: Link, compare: (Student, Student) -> int, ghost xs: seq<Student>)
    returns (stab: array<Student>)
    requires ChainOf(s, xs, link) && TotalPreorder(compare, Members(xs)) && count == |xs| > 0
    ensures fresh(stab) && stab.Length == count && multiset(stab[..]) == multiset(xs) && Sorted(compare, stab[..])
  {
    hide TotalPreorder, Sorted, ChainOf;
    stab := new Student[count](_ => s);
    FillTable(stab, s, link, xs);
    ghost var a := stab[..];
    assert a[0..count] == a;
    ReversedWithin(xs);
    SortTable(stab, 0, count, compare, Members(xs));
    ghost var b := stab[..];
    assert b[0..count] == b;
  }

  lemma ReversedWithin(xs: seq<Student>)
    ensures Within(Reversed(xs), Members(xs))
  {
    SameElements(xs, Reversed(xs));
  }

  /** The roster's students in the order of compare, in a chain of the same kind. */
  method SortRoster(s: Student?, link: Link, compare: (Student, Student) -> int, ghost xs: seq<Student>)
    returns (r: Student?, ghost ys: seq<Student>)
    requires ChainOf(s, xs, link) && TotalPreorder(compare, Members(xs))
    modifies xs`next, xs`cnext
    ensures ChainOf(r, ys, link) && multiset(ys) == multiset(xs) && Sorted(compare, ys)
    ensures OtherLinkSame(xs, link)
  {
    hide TotalPreorder, Sorted, ChainOf;
    var count := CountStudents(s, link, xs);
    ys := xs;
    if count == 0 {
      NoneSorted(compare, ys, link);
      return null, ys;
    }
    var stab := SortedTable(s, count, link, compare, xs);
    ys := stab[..];
    SameElements(xs, ys);
    AllDistinct(s, xs, link);
    PermutedDistinct(xs, ys);
    Relink(stab, link, ys, xs);
    r := stab[0];
  }

  lemma NoneSorted(compare: (Student, Student) -> int, xs: seq<Student>, link: Link)
    requires xs == []
    ensures Sorted(compare, xs) && ChainOf(null, xs, link)
  {
  }

  lemma AllDistinct(s: Student?, xs: seq<Student>, link: Link)
    requires ChainOf(s, xs, link)
    ensures forall i, j | 0 <= i < j < |xs| :: xs[i] != xs[j]
  {
    forall i, j | 0 <= i < j < |xs|
      ensures xs[i] != xs[j]
    {
      ChainDistinct(s, xs, link, i, j);
    }
  }

  // ----- checkfordups

  ghost function Keys(xs: seq<Student>): seq<(string, string)> {
    seq(|xs|, i requires 0 <= i < |xs| => KeyOf(xs[i]))
  }

  /** The keys at which the next student has the same one. */
  ghost function Repeats(keys: seq<(string, string)>): seq<(string, string)> {
    if |keys| < 2 then []
    else (if keys[0] == keys[1] then [keys[0]] else []) + Repeats(keys[1..])
  }

  ghost function Names(keys: seq<(string, string)>): set<(string, string)> {
    set k | k in keys
  }

  /** The warnings of checkfordups. */
  method CheckForDups(s: Student?, ghost xs: seq<Student>) returns (warnings: seq<(string, string)>)
    requires ChainOf(s, xs, CNext)
    ensures warnings == Repeats(Keys(xs))
  {
    var sp := s;
    warnings := [];
    ghost var n := 0;
    assert Keys(xs)[0..] == Keys(xs);
    hide CompareName, Keys, Repeats;
    while sp != null && sp.cnext != null
      invariant 0 <= n <= |xs| && sp == Nth(xs, n) && WarnedTo(xs, n, warnings)
      decreases |xs| - n
    {
      assert LinkOf(xs[n], CNext) == Nth(xs, n + 1);
      NextRepeat(xs, n, warnings);
      if CompareName(sp, sp.cnext) == 0 {
        warnings := warnings + [KeyOf(sp)];
      }
      sp := sp.cnext;
      n := n + 1;
    }
    assert sp != null ==> LinkOf(xs[n], CNext) == Nth(xs, n + 1);
    NoRepeat(xs, n, warnings);
  }

  /** The warnings are those due before student n. */
  ghost predicate WarnedTo(xs: seq<Student>, n: int, warnings: seq<(string, string)>) {
    0 <= n <= |xs| && warnings + Repeats(Keys(xs)[n..]) == Repeats(Keys(xs))
  }

  lemma NextRepeat(xs: seq<Student>, n: nat, warnings: seq<(string, string)>)
    requires n + 1 < |xs| && WarnedTo(xs, n, warnings)
    ensures WarnedTo(xs, n + 1, if CompareName(xs[n], xs[n + 1]) == 0 then warnings + [KeyOf(xs[n])] else warnings)
  {
    NameOrders({xs[n], xs[n + 1]});
    var rest := Repeats(Keys(xs)[n + 1..]);
    assert Keys(xs)[n..][1..] == Keys(xs)[n + 1..];
    assert warnings + ([KeyOf(xs[n])] + rest) == warnings + [KeyOf(xs[n])] + rest;
    assert [] + rest == rest;
  }

  lemma NoRepeat(xs: seq<Student>, n: nat, warnings: seq<(string, string)>)
    requires n <= |xs| <= n + 1 && WarnedTo(xs, n, warnings)
    ensures warnings == Repeats(Keys(xs))
  {
    assert Repeats(Keys(xs)[n..]) == [];
  }

  /** After sorting by name, every name is warned of once less often than it occurs. */
  lemma {:induction false} WarnsOfRepeats(xs: seq<Student>)
    requires Sorted(CompareName, xs)
    ensures multiset(Repeats(Keys(xs))) + multiset(Names(Keys(xs))) == multiset(Keys(xs))
  {
    if xs == [] {
    } else {
      var keys, rest := Keys(xs), Keys(xs[1..]);
      assert keys == [keys[0]] + rest && keys[1..] == rest;
      WarnsOfRepeats(xs[1..]);
      if |xs| > 1 {
        SortedNeighbors(xs);
        assert rest[0] == keys[1];
      }
      OneMoreKey(keys, rest);
    }
  }

  lemma OneMoreKey(keys: seq<(string, string)>, rest: seq<(string, string)>)
    requires keys != [] && rest == keys[1..]
    requires rest != [] && keys[0] != rest[0] ==> keys[0] !in rest
    requires multiset(Repeats(rest)) + multiset(Names(rest)) == multiset(rest)
    ensures multiset(Repeats(keys)) + multiset(Names(keys)) == multiset(keys)
  {
    var k, again := keys[0], keys[0] in rest;
    assert keys == [k] + rest && Names(keys) == {k} + Names(rest);
    assert again ==> k == rest[0];
    assert [] + Repeats(rest) == Repeats(rest);
    assert Repeats(keys) == if again then [k] + Repeats(rest) else Repeats(rest);
    OneMore(k, rest, Repeats(rest), Names(rest));
  }

  lemma OneMore<T>(k: T, rest: seq<T>, again: seq<T>, once: set<T>)
    requires multiset(again) + multiset(once) == multiset(rest) && forall x :: x in once <==> x in rest
    ensures multiset(if k in rest then [k] + again else again) + multiset({k} + once) == multiset([k] + rest)
  {
    assert multiset([k] + rest) == multiset{k} + multiset(rest);
    if k in rest {
      assert multiset([k] + again) == multiset{k} + multiset(again);
      assert {k} + once == once;
    } else {
      assert multiset({k} + once) == multiset{k} + multiset(once);
    }
  }

  /** A name that does not occur next does not occur later. */
  lemma SortedNeighbors(xs: seq<Student>)
    requires Sorted(CompareName, xs) && |xs| > 1
    ensures KeyOf(xs[0]) != KeyOf(xs[1]) ==> KeyOf(xs[0]) !in Keys(xs[1..])
  {
    NameOrders(Members(xs));
    forall j | 0 <= j < |xs| - 1
      ensures KeyOf(xs[0]) == Keys(xs[1..])[j] ==> KeyOf(xs[0]) == KeyOf(xs[1])
    {
      var x, y, z := xs[0], xs[1], xs[j + 1];
      assert CompareName(x, y) <= 0 && (j > 0 ==> CompareName(y, z) <= 0) && CompareName(y, y) == 0;
      if KeyOf(x) == KeyOf(z) {
        assert CompareName(z, x) == 0;
        assert CompareName(y, x) <= 0;
      }
    }
  }

  /** There are as many warnings as there are students beyond one for each name. */
  lemma WarningCount(xs: seq<Student>)
    requires Sorted(CompareName, xs)
    ensures |Repeats(Keys(xs))| == |xs| - |Names(Keys(xs))|
  {
    WarnsOfRepeats(xs);
    var w, n := multiset(Repeats(Keys(xs))), multiset(Names(Keys(xs)));
    assert |w + n| == |w| + |n|;
  }
}

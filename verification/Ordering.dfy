/** Comparison functions in the manner of strcmp, and what it takes for one to order a table. */
module Ordering {

  /** strcmp: the sign says which string comes first; a string ends before any character. */
  function StrCmp(s: string, t: string): int {
    if s == "" then (if t == "" then 0 else -1)
    else if t == "" then 1
    else if s[0] != t[0] then s[0] as int - t[0] as int
    else StrCmp(s[1..], t[1..])
  }

  lemma {:induction false} StrCmpZero(s: string, t: string)
    ensures StrCmp(s, t) == 0 <==> s == t
  {
    if s != "" && t != "" {
      StrCmpZero(s[1..], t[1..]);
      assert s == [s[0]] + s[1..] && t == [t[0]] + t[1..];
    }
  }

  lemma {:induction false} StrCmpSign(s: string, t: string)
    ensures StrCmp(s, t) < 0 <==> StrCmp(t, s) > 0
  {
    if s != "" && t != "" { StrCmpSign(s[1..], t[1..]); }
  }

  lemma {:induction false} StrCmpTransitive(s: string, t: string, u: string)
    requires StrCmp(s, t) <= 0 && StrCmp(t, u) <= 0
    ensures StrCmp(s, u) <= 0
    ensures StrCmp(s, u) == 0 ==> StrCmp(s, t) == 0 && StrCmp(t, u) == 0
  {
    if s != "" && t != "" && u != "" && s[0] == t[0] == u[0] { StrCmpTransitive(s[1..], t[1..], u[1..]); }
  }

  // ----- orders on the entries of a table

  /** compare orders the elements of S totally, though different elements may compare equal. */
  ghost predicate TotalPreorder<T>(compare: (T, T) -> int, S: set<T>) {
    && (forall x {:trigger compare(x, x)} | x in S :: compare(x, x) == 0)
    && (forall x, y {:trigger compare(x, y)} | x in S && y in S :: compare(x, y) < 0 <==> compare(y, x) > 0)
    && (forall x, y, z {:trigger compare(x, y), compare(y, z)} |
          x in S && y in S && z in S && compare(x, y) <= 0 && compare(y, z) <= 0 :: compare(x, z) <= 0)
  }

  ghost predicate Sorted<T>(compare: (T, T) -> int, s: seq<T>) {
    forall i, j {:trigger compare(s[i], s[j])} | 0 <= i < j < |s| :: compare(s[i], s[j]) <= 0
  }

  /** Nothing in s comes after p. */
  ghost predicate NoneAfter<T>(compare: (T, T) -> int, s: seq<T>, p: T) {
    forall x {:trigger compare(x, p)} | x in s :: compare(x, p) <= 0
  }

  /** Nothing in s comes before p. */
  ghost predicate NoneBefore<T>(compare: (T, T) -> int, s: seq<T>, p: T) {
    forall x {:trigger compare(x, p)} | x in s :: compare(x, p) >= 0
  }

  /** Entry m comes strictly before every other. */
  ghost predicate StrictMin<T>(compare: (T, T) -> int, s: seq<T>, m: int) {
    0 <= m < |s| && forall k {:trigger s[k]} | 0 <= k < |s| && k != m :: compare(s[k], s[m]) > 0
  }

  lemma SameElements<T>(s: seq<T>, t: seq<T>)
    requires multiset(s) == multiset(t)
    ensures forall x :: x in s <==> x in t
  {
    assert forall x :: x in s <==> x in multiset(s);
    assert forall x :: x in t <==> x in multiset(t);
  }

  /** All entries of s are in S. */
  ghost predicate Within<T>(s: seq<T>, S: set<T>) {
    forall x {:trigger x in s} | x in s :: x in S
  }

  lemma SameElementsWithin<T>(s: seq<T>, t: seq<T>, S: set<T>)
    requires multiset(s) == multiset(t) && Within(s, S)
    ensures Within(t, S)
  {
    SameElements(s, t);
  }

  lemma SplitWithin<T>(s: seq<T>, t: seq<T>, u: seq<T>, S: set<T>)
    requires s == t + u && Within(s, S)
    ensures Within(t, S) && Within(u, S)
  {
    assert forall x | x in t :: x in s;
    assert forall x | x in u :: x in s;
  }

  /** Sorted parts around a pivot make a sorted whole. */
  lemma SortedJoin<T>(compare: (T, T) -> int, S: set<T>, t0: seq<T>, t1: seq<T>, u0: seq<T>, u1: seq<T>, p: T)
    requires TotalPreorder(compare, S) && p in S && Within(t0, S) && Within(t1, S)
    requires NoneAfter(compare, t0, p) && NoneBefore(compare, t1, p)
    requires multiset(u0) == multiset(t0) && multiset(u1) == multiset(t1) && Sorted(compare, u0) && Sorted(compare, u1)
    ensures Sorted(compare, u0 + u1) && multiset(u0 + u1) == multiset(t0 + t1)
  {
    SameElements(t0, u0);
    SameElements(t1, u1);
    var u := u0 + u1;
    forall i, j | 0 <= i < j < |u|
      ensures compare(u[i], u[j]) <= 0
    {
      if i < |u0| <= j {
        assert u[i] in t0 && u[j] in t1;
        assert compare(u[i], p) <= 0 && compare(u[j], p) >= 0;
        assert compare(p, u[j]) <= 0;
      }
    }
  }

  /** When the strict minimum in the middle is rotated one place to the left, the new middle is none. */
  lemma RotatedMinMoves<T>(compare: (T, T) -> int, S: set<T>, s: seq<T>, m: int)
    requires TotalPreorder(compare, S) && Within(s, S)
    requires StrictMin(compare, s, m) && 0 < m
    ensures !StrictMin(compare, s[1..] + [s[0]], m)
  {
    var t := s[1..] + [s[0]];
    assert t[m - 1] == s[m];
    var k := if m + 1 < |s| then m + 1 else 0;
    assert t[m] == s[k];
    assert s[k] in s && s[m] in s && s[k] in S && s[m] in S;
    assert compare(s[k], s[m]) > 0;
    assert compare(s[m], s[k]) < 0;
  }
}

/** What the three orders of a sorted roster mean for the students in it. */
module SortedRosters {
  import opened Gradebook
  import opened Ordering
  import opened RosterSort

  /** s and t differ first at place k, where s ends or has the lower character. */
  predicate DiffersAt(s: string, t: string, k: nat) {
    k <= |s| && k < |t| && s[..k] == t[..k] && (k == |s| || s[k] < t[k])
  }

  ghost predicate Precedes(s: string, t: string) {
    exists k: nat :: DiffersAt(s, t, k)
  }

  lemma {:induction false} StrCmpPrecedes(s: string, t: string)
    ensures StrCmp(s, t) < 0 <==> Precedes(s, t)
  {
    if s == "" && t != "" {
      assert DiffersAt(s, t, 0);
    } else if s != "" && t != "" && s[0] < t[0] {
      assert DiffersAt(s, t, 0);
    } else if s != "" && t != "" && s[0] == t[0] {
      StrCmpPrecedes(s[1..], t[1..]);
      LaterPlace(s, t);
    }
  }

  lemma LaterPlace(s: string, t: string)
    requires s != "" && t != "" && s[0] == t[0]
    ensures Precedes(s[1..], t[1..]) <==> Precedes(s, t)
  {
    if k: nat :| DiffersAt(s[1..], t[1..], k) {
      assert s[..k + 1] == [s[0]] + s[1..][..k] && t[..k + 1] == [t[0]] + t[1..][..k];
      assert DiffersAt(s, t, k + 1);
    }
    if k: nat :| DiffersAt(s, t, k) {
      assert s[1..][..k - 1] == s[..k][1..] && t[1..][..k - 1] == t[..k][1..];
      assert DiffersAt(s[1..], t[1..], k - 1);
    }
  }

  /** Surnames decide, and names among equal surnames. */
  ghost predicate NamedBefore(x: Student, y: Student) {
    Precedes(x.surname, y.surname) || (x.surname == y.surname && (Precedes(x.name, y.name) || x.name == y.name))
  }

  lemma NameBefore(x: Student, y: Student)
    ensures CompareName(x, y) <= 0 <==> NamedBefore(x, y)
  {
    StrCmpPrecedes(x.surname, y.surname);
    StrCmpPrecedes(x.name, y.name);
    StrCmpZero(x.surname, y.surname);
    StrCmpZero(x.name, y.name);
  }

  /** A roster sorted by name: every student is named before all that follow. */
  lemma SortedByName(ys: seq<Student>)
    ensures Sorted(CompareName, ys) <==>
      forall i, j {:trigger ys[i], ys[j]} | 0 <= i < j < |ys| :: NamedBefore(ys[i], ys[j])
  {
    hide CompareName, NamedBefore;
    forall i, j | 0 <= i < j < |ys|
      ensures CompareName(ys[i], ys[j]) <= 0 <==> NamedBefore(ys[i], ys[j])
    {
      NameBefore(ys[i], ys[j]);
    }
    SortedIs(CompareName, ys);
  }

  lemma SortedIs(compare: (Student, Student) -> int, ys: seq<Student>)
    ensures Sorted(compare, ys) <==>
      forall i, j {:trigger ys[i], ys[j]} | 0 <= i < j < |ys| :: compare(ys[i], ys[j]) <= 0
  {
  }

  /** A roster sorted by id: no id precedes one before it. */
  lemma SortedById(ys: seq<Student>)
    ensures Sorted(CompareId, ys) <==>
      forall i, j {:trigger ys[i], ys[j]} | 0 <= i < j < |ys| :: Precedes(ys[i].id, ys[j].id) || ys[i].id == ys[j].id
  {
    hide Precedes;
    forall i, j | 0 <= i < j < |ys|
      ensures CompareId(ys[i], ys[j]) <= 0 <==> Precedes(ys[i].id, ys[j].id) || ys[i].id == ys[j].id
    {
      StrCmpPrecedes(ys[i].id, ys[j].id);
      StrCmpZero(ys[i].id, ys[j].id);
    }
    SortedIs(CompareId, ys);
  }

  /** A roster sorted by score: composites never rise. */
  lemma SortedByScore(ys: seq<Student>)
    ensures Sorted(CompareScore, ys) <==>
      forall i, j {:trigger ys[i], ys[j]} | 0 <= i < j < |ys| :: ys[i].composite >= ys[j].composite
  {
    SortedIs(CompareScore, ys);
  }
}

/** The ten circular free lists: what the link words in memory say, and how insertion at the front and
    removal change it. */
module HeapLists {
  import opened HeapWords
  import opened HeapMemory

  /** The blocks of each list, from the head's next on. */
  type Lists = seq<seq<int>>

  /** Entry k of list i; the head stands before the first and after the last entry. */
  ghost function NodeAt(lists: Lists, i: int, k: int): int
    requires 0 <= i < |lists| && -1 <= k <= |lists[i]|
  {
    if 0 <= k < |lists[i]| then lists[i][k] else Head(i)
  }

  ghost predicate NoDuplicates(s: seq<int>) {
    forall k, l {:trigger s[k], s[l]} | 0 <= k < l < |s| :: s[k] != s[l]
  }

  /** The links of entry k of list i; k = -1 is the head. */
  ghost predicate NodeLinked(m: Mem, lists: Lists, i: int, k: int)
    requires Shape(m) && 0 <= i < |lists| && -1 <= k < |lists[i]|
  {
    var a := NodeAt(lists, i, k);
    && Linkable(m, a) && (k >= 0 ==> a >= 0)
    && NextOf(m, a) == NodeAt(lists, i, k + 1)
    && PrevOf(m, a) == NodeAt(lists, i, if k == -1 then |lists[i]| - 1 else k - 1)
  }

  /** No block is in two places. */
  ghost predicate Disjoint(lists: Lists) {
    && (forall i {:trigger lists[i]} | 0 <= i < |lists| :: NoDuplicates(lists[i]))
    && (forall i, j, a {:trigger a in lists[i], a in lists[j]} |
          0 <= i < j < |lists| && a in lists[i] :: a !in lists[j])
  }

  /** The links in memory form the ten circular doubly linked lists. */
  ghost predicate Linked(m: Mem, lists: Lists) {
    && Shape(m) && |lists| == NUM_FREE_LISTS && Disjoint(lists)
    && (forall i, k {:trigger NodeLinked(m, lists, i, k)} | 0 <= i < |lists| && -1 <= k < |lists[i]| ::
          NodeLinked(m, lists, i, k))
  }

  // ----- what a link write changes

  lemma SetNextReads(m: Mem, a: int, v: int)
    requires Shape(m) && Linkable(m, a)
    ensures
      var t := SetNext(m, a, v);
      && Shape(t) && |t.lo| == |m.lo|
      && (forall x {:trigger NextOf(t, x)} | Linkable(m, x) :: NextOf(t, x) == if x == a then v else NextOf(m, x))
      && (forall x {:trigger PrevOf(t, x)} :: PrevOf(t, x) == PrevOf(m, x))
  {
  }

  lemma SetPrevReads(m: Mem, a: int, v: int)
    requires Shape(m) && Linkable(m, a)
    ensures
      var t := SetPrev(m, a, v);
      && Shape(t) && |t.lo| == |m.lo|
      && (forall x {:trigger PrevOf(t, x)} | Linkable(m, x) :: PrevOf(t, x) == if x == a then v else PrevOf(m, x))
      && (forall x {:trigger NextOf(t, x)} :: NextOf(t, x) == NextOf(m, x))
  {
  }

  lemma PushReads(m: Mem, i: int, b: int)
    requires Shape(m) && 0 <= i < NUM_FREE_LISTS && 0 <= b < |m.lo| - 1
    requires Linkable(m, NextOf(m, Head(i))) && (NextOf(m, Head(i)) == Head(i) ==> PrevOf(m, Head(i)) == Head(i))
    requires NextOf(m, Head(i)) != b
    ensures
      var t := PushFront(m, i, b);
      var first := NextOf(m, Head(i));
      && Shape(t) && |t.lo| == |m.lo|
      && (forall x {:trigger NextOf(t, x)} | Linkable(m, x) ::
            NextOf(t, x) == if x == b then first else if x == Head(i) then b else NextOf(m, x))
      && (forall x {:trigger PrevOf(t, x)} | Linkable(m, x) ::
            PrevOf(t, x) == if x == b then Head(i) else if x == first then b else PrevOf(m, x))
  {
    hide NextOf, PrevOf, SetNext, SetPrev;
    var head, tmp := Head(i), NextOf(m, Head(i));
    if tmp == NULL || tmp == head {
      SetNextReads(m, head, b);
      var m1 := SetNext(m, head, b);
      SetPrevReads(m1, head, b);
      var m2 := SetPrev(m1, head, b);
      SetNextReads(m2, b, head);
      var m3 := SetNext(m2, b, head);
      SetPrevReads(m3, b, head);
    } else {
      SetNextReads(m, b, tmp);
      var m1 := SetNext(m, b, tmp);
      SetPrevReads(m1, b, head);
      var m2 := SetPrev(m1, b, head);
      SetNextReads(m2, head, b);
      var m3 := SetNext(m2, head, b);
      SetPrevReads(m3, tmp, b);
    }
  }

  lemma BypassReads(m: Mem, b: int)
    requires Shape(m) && Linkable(m, NextOf(m, b)) && Linkable(m, PrevOf(m, b))
    ensures
      var t := Bypass(m, b);
      && Shape(t) && |t.lo| == |m.lo|
      && (forall x {:trigger NextOf(t, x)} | Linkable(m, x) ::
            NextOf(t, x) == if x == PrevOf(m, b) then NextOf(m, b) else NextOf(m, x))
      && (forall x {:trigger PrevOf(t, x)} | Linkable(m, x) ::
            PrevOf(t, x) == if x == NextOf(m, b) then PrevOf(m, b) else PrevOf(m, x))
  {
    hide NextOf, PrevOf, SetNext, SetPrev;
    var next, prev := NextOf(m, b), PrevOf(m, b);
    SetNextReads(m, prev, next);
    var m1 := SetNext(m, prev, next);
    SetPrevReads(m1, next, prev);
  }

  lemma ClearReads(m: Mem, b: int)
    requires Shape(m) && 0 <= b < |m.lo| - 1
    ensures
      var t := ClearLinks(m, b);
      && Shape(t) && |t.lo| == |m.lo|
      && (forall x {:trigger NextOf(t, x)} | Linkable(m, x) && x != b :: NextOf(t, x) == NextOf(m, x))
      && (forall x {:trigger PrevOf(t, x)} | Linkable(m, x) && x != b :: PrevOf(t, x) == PrevOf(m, x))
  {
    hide NextOf, PrevOf, SetNext, SetPrev;
    SetNextReads(m, b, NULL);
    var m1 := SetNext(m, b, NULL);
    SetPrevReads(m1, b, NULL);
  }

  // ----- insertion and removal

  ghost function Pushed(lists: Lists, i: int, b: int): Lists
    requires 0 <= i < |lists|
  {
    lists[i := [b] + lists[i]]
  }

  ghost function Without(s: seq<int>, k: int): seq<int>
    requires 0 <= k < |s|
  {
    s[..k] + s[k + 1..]
  }

  ghost function Removed(lists: Lists, i: int, k: int): Lists
    requires 0 <= i < |lists| && 0 <= k < |lists[i]|
  {
    lists[i := Without(lists[i], k)]
  }

  /** b is in one of the lists. */
  ghost predicate Listed(lists: Lists, b: int) {
    exists i :: 0 <= i < |lists| && b in lists[i]
  }

  lemma PushLinks(m: Mem, lists: Lists, i: int, b: int)
    requires Linked(m, lists) && 0 <= i < NUM_FREE_LISTS && 0 <= b < |m.lo| - 1 && !Listed(lists, b)
    ensures Linkable(m, NextOf(m, Head(i))) && Linked(PushFront(m, i, b), Pushed(lists, i, b))
  {
    hide PushFront, NextOf, PrevOf;
    assert NodeLinked(m, lists, i, -1);
    if lists[i] != [] {
      assert NodeLinked(m, lists, i, 0);
    }
    PushReads(m, i, b);
    var t := PushFront(m, i, b);
    var after := Pushed(lists, i, b);
    PushedDisjoint(lists, i, b);
    forall j, k | 0 <= j < |after| && -1 <= k < |after[j]|
      ensures NodeLinked(t, after, j, k)
    {
      PushedNode(m, t, lists, i, b, j, k);
    }
  }

  lemma PushedNode(m: Mem, t: Mem, lists: Lists, i: int, b: int, j: int, k: int)
    requires Linked(m, lists) && 0 <= i < NUM_FREE_LISTS && 0 <= b < |m.lo| - 1 && !Listed(lists, b)
    requires Shape(t) && |t.lo| == |m.lo|
    requires forall x {:trigger NextOf(t, x)} | Linkable(m, x) ::
      NextOf(t, x) == if x == b then NodeAt(lists, i, 0) else if x == Head(i) then b else NextOf(m, x)
    requires forall x {:trigger PrevOf(t, x)} | Linkable(m, x) ::
      PrevOf(t, x) == if x == b then Head(i) else if x == NodeAt(lists, i, 0) then b else PrevOf(m, x)
    requires 0 <= j < |lists| && -1 <= k < |Pushed(lists, i, b)[j]|
    ensures NodeLinked(t, Pushed(lists, i, b), j, k)
  {
    hide NextOf, PrevOf;
    var after := Pushed(lists, i, b);
    if j == i && k == 0 {
      assert NodeAt(after, i, 0) == b && NodeAt(after, i, 1) == NodeAt(lists, i, 0);
      assert Linkable(m, b) && NextOf(t, b) == NodeAt(lists, i, 0) && PrevOf(t, b) == Head(i);
    } else {
      var was := if j == i && k > 0 then k - 1 else k;
      var first := if lists[i] == [] then -1 else 0;
      assert NodeLinked(m, lists, j, was);
      NodeInjective(m, lists, i, -1, j, was);
      NodeInjective(m, lists, i, first, j, was);
      var x := NodeAt(lists, j, was);
      assert x != b by {
        if was >= 0 { assert x in lists[j]; }
      }
      assert NodeAt(after, j, k) == x;
      assert NextOf(t, x) == NodeAt(after, j, k + 1);
      assert PrevOf(t, x) == NodeAt(after, j, if k == -1 then |after[j]| - 1 else k - 1);
    }
  }

  lemma PushedDisjoint(lists: Lists, i: int, b: int)
    requires Disjoint(lists) && 0 <= i < |lists| && !Listed(lists, b)
    ensures Disjoint(Pushed(lists, i, b))
    ensures forall a :: Listed(Pushed(lists, i, b), a) <==> a == b || Listed(lists, a)
  {
    var after := Pushed(lists, i, b);
    assert forall a :: a in after[i] <==> a == b || a in lists[i];
    forall a
      ensures Listed(after, a) <==> a == b || Listed(lists, a)
    {
      if a == b {
        assert a in after[i];
      } else if Listed(lists, a) {
        var j :| 0 <= j < |lists| && a in lists[j];
        assert a in after[j];
      }
    }
  }

  /** The neighbors of a list entry can be linked to each other, which removes it. */
  lemma BypassLinks(m: Mem, lists: Lists, i: int, k: int)
    requires Linked(m, lists) && 0 <= i < |lists| && 0 <= k < |lists[i]|
    ensures
      var b := lists[i][k];
      && 0 <= b < |m.lo| - 1 && Linkable(m, NextOf(m, b)) && Linkable(m, PrevOf(m, b))
      && NextOf(m, b) == NodeAt(lists, i, k + 1) && PrevOf(m, b) == NodeAt(lists, i, k - 1)
      && Linked(Bypass(m, b), Removed(lists, i, k))
  {
    hide Bypass, NextOf, PrevOf;
    var b := lists[i][k];
    assert NodeLinked(m, lists, i, k);
    assert NodeLinked(m, lists, i, k - 1);
    assert NodeLinked(m, lists, i, if k + 1 < |lists[i]| then k + 1 else -1);
    BypassReads(m, b);
    var t := Bypass(m, b);
    var after := Removed(lists, i, k);
    RemovedDisjoint(lists, i, k);
    forall j, l | 0 <= j < |after| && -1 <= l < |after[j]|
      ensures NodeLinked(t, after, j, l)
    {
      RemovedNode(m, t, lists, i, k, j, l);
    }
  }

  /** A block in no list may have its link words overwritten. */
  lemma ClearKeepsLinks(m: Mem, lists: Lists, b: int)
    requires Linked(m, lists) && 0 <= b < |m.lo| - 1 && !Listed(lists, b)
    ensures Linked(ClearLinks(m, b), lists)
  {
    hide ClearLinks, NextOf, PrevOf;
    ClearReads(m, b);
    var t := ClearLinks(m, b);
    forall j, l | 0 <= j < |lists| && -1 <= l < |lists[j]|
      ensures NodeLinked(t, lists, j, l)
    {
      assert NodeLinked(m, lists, j, l);
      if l >= 0 { assert NodeAt(lists, j, l) in lists[j]; }
    }
  }

  lemma RemovedNode(m: Mem, t: Mem, lists: Lists, i: int, k: int, j: int, l: int)
    requires Linked(m, lists) && 0 <= i < |lists| && 0 <= k < |lists[i]| && 0 <= j < |lists|
    requires -1 <= l < |Removed(lists, i, k)[j]| && Shape(t) && |t.lo| == |m.lo|
    requires forall x {:trigger NextOf(t, x)} | Linkable(m, x) ::
      NextOf(t, x) == if x == NodeAt(lists, i, k - 1) then NodeAt(lists, i, k + 1) else NextOf(m, x)
    requires forall x {:trigger PrevOf(t, x)} | Linkable(m, x) ::
      PrevOf(t, x) == if x == NodeAt(lists, i, k + 1) then NodeAt(lists, i, k - 1) else PrevOf(m, x)
    ensures NodeLinked(t, Removed(lists, i, k), j, l)
  {
    hide NextOf, PrevOf;
    var was := if j == i && l >= k then l + 1 else l;
    assert NodeLinked(m, lists, j, was);
    assert NodeLinked(m, lists, i, k);
    var next := if k + 1 < |lists[i]| then k + 1 else -1;
    assert NodeLinked(m, lists, i, k - 1) && NodeLinked(m, lists, i, next);
    NodeInjective(m, lists, i, k, j, was);
    NodeInjective(m, lists, i, k - 1, j, was);
    NodeInjective(m, lists, i, next, j, was);
    var after := Removed(lists, i, k);
    var x := NodeAt(lists, j, was);
    assert NodeAt(after, j, l) == x;
    assert NodeAt(after, j, l + 1) ==
      if j == i && was == k - 1 then NodeAt(lists, i, k + 1) else NodeAt(lists, j, was + 1);
    assert NextOf(t, x) == NodeAt(after, j, l + 1);
    assert PrevOf(t, x) == NodeAt(after, j, if l == -1 then |after[j]| - 1 else l - 1);
  }

  lemma NodeInjective(m: Mem, lists: Lists, i: int, k: int, j: int, l: int)
    requires Linked(m, lists) && 0 <= i < |lists| && 0 <= j < |lists| && -1 <= k < |lists[i]| && -1 <= l < |lists[j]|
    ensures NodeAt(lists, i, k) == NodeAt(lists, j, l) ==> i == j && k == l
  {
    assert NodeLinked(m, lists, i, k) && NodeLinked(m, lists, j, l);
    assert NoDuplicates(lists[i]) && NoDuplicates(lists[j]);
    if k >= 0 && l >= 0 {
      assert lists[i][k] in lists[i] && lists[j][l] in lists[j];
    }
  }

  lemma RemovedDisjoint(lists: Lists, i: int, k: int)
    requires Disjoint(lists) && 0 <= i < |lists| && 0 <= k < |lists[i]|
    ensures Disjoint(Removed(lists, i, k))
    ensures forall a :: Listed(Removed(lists, i, k), a) <==> a != lists[i][k] && Listed(lists, a)
  {
    var after := Removed(lists, i, k);
    var b := lists[i][k];
    assert NoDuplicates(lists[i]);
    WithoutMembers(lists[i], k);
    forall a
      ensures Listed(after, a) <==> a != b && Listed(lists, a)
    {
      if Listed(lists, a) && a != b {
        var j :| 0 <= j < |lists| && a in lists[j];
        assert a in after[j];
      }
      if Listed(after, a) {
        var j :| 0 <= j < |after| && a in after[j];
        assert a in lists[j];
        assert b in lists[i];
      }
    }
  }

  lemma WithoutMembers(s: seq<int>, k: int)
    requires NoDuplicates(s) && 0 <= k < |s|
    ensures NoDuplicates(Without(s, k))
    ensures forall a :: a in Without(s, k) <==> a in s && a != s[k]
  {
    var t := Without(s, k);
    forall a | a in s && a != s[k]
      ensures a in t
    {
      var l :| 0 <= l < |s| && s[l] == a;
      assert t[if l < k then l else l - 1] == a;
    }
  }
}

/** What one iteration of neighbor joining does to the distance matrix, the active map, the
    neighbor links and the emitted edges, and what the scan for the least Q value finds. */
module JoiningModel {
  import opened RealSums
  import opened TreeMetrics
  import opened QCriterion
  import opened CherryReduction

  const MAX_TAXA: int := 100
  const MAX_NODES: int := 2 * MAX_TAXA - 2

  /** A null neighbor pointer. */
  const NULL: int := -1

  datatype Edge = Edge(first: int, second: int, length: real)

  /** distances, active_node_map up to num_active_nodes, num_all_nodes, the neighbors of every NODE,
      and the edges emitted so far. */
  datatype State = State(dist: seq<seq<real>>, active: seq<int>, all: int, links: seq<seq<int>>, edges: seq<Edge>)

  ghost predicate Shape(s: State) {
    && |s.dist| == MAX_NODES && (forall i | 0 <= i < MAX_NODES :: |s.dist[i]| == MAX_NODES)
    && |s.links| == MAX_NODES && (forall i | 0 <= i < MAX_NODES :: |s.links[i]| == 3)
    && 0 <= s.all <= MAX_NODES
  }

  /** The active map is injective into the existing nodes, entry k is at least k, and every join
      trades two active nodes for one while creating one node. */
  ghost predicate Mapped(s: State, taxa: int) {
    && Shape(s)
    && 2 <= taxa <= MAX_TAXA && 2 <= |s.active| && s.all + |s.active| == 2 * taxa
    && s.active[0] != 1 && (forall k | 0 <= k < |s.active| :: k <= s.active[k] < s.all)
    && (forall k, l | 0 <= k < l < |s.active| :: s.active[k] != s.active[l])
  }

  ghost function At(dist: seq<seq<real>>, i: int, j: int): real {
    if 0 <= i < |dist| && 0 <= j < |dist[i]| then dist[i][j] else 0.0
  }

  ghost function Entries(dist: seq<seq<real>>): Matrix {
    (i, j) => At(dist, i, j)
  }

  ghost function D(s: State): Matrix {
    Entries(s.dist)
  }

  ghost function Active(s: State): set<int> {
    set x | x in s.active
  }

  lemma {:induction false} DistinctSize(a: seq<int>)
    requires forall k, l | 0 <= k < l < |a| :: a[k] != a[l]
    ensures |set x | x in a| == |a|
  {
    if a != [] {
      var rest := a[..|a| - 1];
      DistinctSize(rest);
      assert (set x | x in a) == (set x | x in rest) + {a[|a| - 1]};
      assert a[|a| - 1] !in rest;
    }
  }

  lemma ActiveFacts(s: State, taxa: int)
    requires Mapped(s, taxa)
    ensures |Active(s)| == |s.active| && Below(Active(s), s.all)
  {
    DistinctSize(s.active);
  }

  // ----- the scan for the least Q value

  /** min_q, min_row, min_col, chosen_active_node1 and chosen_active_node2. */
  datatype Best = Best(q: real, row: int, col: int, i: int, j: int)

  ghost function QOf(s: State, i: int, j: int): real {
    Q(D(s), Active(s), if s.all >= 0 then s.all else 0, i, j)
  }

  /** The first position of c in the active map, or its length. */
  ghost function Slot(a: seq<int>, c: int): (k: int)
    ensures 0 <= k <= |a| && (k < |a| <==> c in a)
    ensures k < |a| ==> a[k] == c
  {
    if a == [] then 0 else if a[0] == c then 0 else 1 + Slot(a[1..], c)
  }

  /** The result of scanning on from row r, column c with the best pair b so far.  Row r + 1 starts
      at column r + 2. */
  ghost function Scan(s: State, r: int, c: int, b: Best): Best
    requires 0 <= r && 0 <= c
    decreases |s.active| - r, s.all - c
  {
    if r >= |s.active| then b
    else if c >= s.all then Scan(s, r + 1, r + 2, b)
    else if c in s.active && c != s.active[r] && QOf(s, s.active[r], c) < b.q then
      Scan(s, r, c + 1, Best(QOf(s, s.active[r], c), s.active[r], c, r, Slot(s.active, c)))
    else Scan(s, r, c + 1, b)
  }

  /** The scan is seeded with the distance of nodes 0 and 1. */
  ghost function Seed(s: State): Best {
    Best(At(s.dist, 0, 1), 0, 1, 0, 1)
  }

  ghost function Choose(s: State): Best {
    Scan(s, 0, 0, Seed(s))
  }

  /** b names two distinct active nodes, with their map entries and their Q value. */
  ghost predicate Pairs(s: State, b: Best) {
    && 0 <= b.i < |s.active| && 0 <= b.j < |s.active|
    && s.active[b.i] == b.row && s.active[b.j] == b.col && b.row != b.col
    && b.q == QOf(s, b.row, b.col)
  }

  /** Row i, column c is visited by a scan going on from row r, column c0. */
  ghost predicate Visited(s: State, r: int, c0: int, i: int, c: int) {
    0 <= i < |s.active| && 0 <= c < s.all && ((i == r && c0 <= c) || (i > r && i + 1 <= c))
  }

  lemma {:induction false} ScanIsLeast(s: State, r: int, c: int, b: Best)
    requires 0 <= r && 0 <= c
    ensures
      var res := Scan(s, r, c, b);
      && (res == b || (Pairs(s, res) && res.q < b.q))
      && (forall i, k {:trigger Visited(s, r, c, i, k)} | Visited(s, r, c, i, k) && k in s.active && k != s.active[i]
            :: res.q <= QOf(s, s.active[i], k))
    decreases |s.active| - r, s.all - c
  {
    var res := Scan(s, r, c, b);
    if r >= |s.active| {
    } else if c >= s.all {
      ScanIsLeast(s, r + 1, r + 2, b);
      forall i, k | Visited(s, r, c, i, k) && k in s.active && k != s.active[i]
        ensures res.q <= QOf(s, s.active[i], k)
      {
        assert Visited(s, r + 1, r + 2, i, k);
      }
    } else {
      var better := c in s.active && c != s.active[r] && QOf(s, s.active[r], c) < b.q;
      var next := if better then Best(QOf(s, s.active[r], c), s.active[r], c, r, Slot(s.active, c)) else b;
      ScanIsLeast(s, r, c + 1, next);
      forall i, k | Visited(s, r, c, i, k) && k in s.active && k != s.active[i]
        ensures res.q <= QOf(s, s.active[i], k)
      {
        if !(i == r && k == c) {
          assert Visited(s, r, c + 1, i, k);
        }
      }
    }
  }

  /** Among visited pairs of the same Q the scan keeps the one that it visits first. */
  lemma {:induction false} ScanIsFirst(s: State, r: int, c: int, b: Best)
    requires 0 <= r && 0 <= c
    ensures
      var res := Scan(s, r, c, b);
      res == b ||
      (&& res.q < b.q && Visited(s, r, c, res.i, res.col)
       && forall i, k {:trigger Visited(s, r, c, i, k)} | Visited(s, r, c, i, k) && k in s.active && k != s.active[i]
          && (i < res.i || (i == res.i && k < res.col)) :: res.q < QOf(s, s.active[i], k))
    decreases |s.active| - r, s.all - c
  {
    hide QOf, Slot;
    var res := Scan(s, r, c, b);
    if r >= |s.active| {
    } else if c >= s.all {
      ScanIsFirst(s, r + 1, r + 2, b);
      assert forall i, k {:trigger Visited(s, r, c, i, k)} ::
          Visited(s, r, c, i, k) <==> Visited(s, r + 1, r + 2, i, k);
    } else {
      var better := c in s.active && c != s.active[r] && QOf(s, s.active[r], c) < b.q;
      var next := if better then Best(QOf(s, s.active[r], c), s.active[r], c, r, Slot(s.active, c)) else b;
      ScanIsFirst(s, r, c + 1, next);
      assert forall i, k {:trigger Visited(s, r, c, i, k)} ::
          Visited(s, r, c, i, k) <==> Visited(s, r, c + 1, i, k) || (i == r && k == c);
    }
  }

  lemma QSymmetric(s: State, i: int, j: int)
    requires Symmetric(D(s), Active(s)) && i in s.active && j in s.active
    ensures QOf(s, i, j) == QOf(s, j, i)
  {
    assert D(s)(i, j) == D(s)(j, i);
  }

  /** Starting columns past the row's index misses no unordered pair of active nodes. */
  lemma EveryPairVisited(s: State, taxa: int, x: int, y: int)
    requires Mapped(s, taxa) && x in s.active && y in s.active && x != y
    ensures exists i, j | 0 <= i < |s.active| && {s.active[i], j} == {x, y} && j in s.active ::
      Visited(s, 0, 0, i, j)
  {
    var i :| 0 <= i < |s.active| && s.active[i] == x;
    var j :| 0 <= j < |s.active| && s.active[j] == y;
    if i < j {
      assert Visited(s, 0, 0, i, y);
    } else {
      assert Visited(s, 0, 0, j, x);
    }
  }

  /** Some pair of active nodes has a Q value below the seed. */
  ghost predicate Beaten(s: State) {
    exists i, j :: i in s.active && j in s.active && i != j && QOf(s, i, j) < At(s.dist, 0, 1)
  }

  lemma ChosenBound(s: State, taxa: int, x: int, y: int)
    requires Mapped(s, taxa) && Symmetric(D(s), Active(s)) && x in s.active && y in s.active && x != y
    ensures Choose(s).q <= QOf(s, x, y)
  {
    ScanIsLeast(s, 0, 0, Seed(s));
    EveryPairVisited(s, taxa, x, y);
    var i, j :| 0 <= i < |s.active| && {s.active[i], j} == {x, y} && j in s.active && Visited(s, 0, 0, i, j);
    assert s.active[i] in {x, y} && j in {x, y} && x in {s.active[i], j} && y in {s.active[i], j};
    QSymmetric(s, x, y);
  }

  /** The chosen pair is a distinct active pair of least Q, found at its own map entries. */
  ghost predicate ChoosesLeast(s: State) {
    var b := Choose(s);
    && 0 <= b.i < |s.active| && 0 <= b.j < |s.active|
    && s.active[b.i] == b.row && s.active[b.j] == b.col
    && LeastQ(D(s), Active(s), if s.all >= 0 then s.all else 0, b.row, b.col)
  }

  /** The chosen pair is a distinct active pair, found at its own map entries. */
  ghost predicate ChoosesActive(s: State) {
    var b := Choose(s);
    && 0 <= b.i < |s.active| && 0 <= b.j < |s.active|
    && s.active[b.i] == b.row && s.active[b.j] == b.col && b.row != b.col
  }

  /** The seed is beaten, or its pair 0, 1 is still mapped to entries 0, 1. */
  ghost predicate SeedHarmless(s: State) {
    Beaten(s) || (|s.active| >= 2 && s.active[0] == 0 && s.active[1] == 1)
  }

  lemma HarmlessChoosesActive(s: State, taxa: int)
    requires Mapped(s, taxa) && Symmetric(D(s), Active(s))
    ensures SeedHarmless(s) <==> ChoosesActive(s)
    ensures !SeedHarmless(s) ==> Choose(s) == Seed(s)
  {
    ScanIsLeast(s, 0, 0, Seed(s));
    if Beaten(s) {
      var i, j :| i in s.active && j in s.active && i != j && QOf(s, i, j) < At(s.dist, 0, 1);
      ChosenBound(s, taxa, i, j);
    } else {
      UnbeatenKeepsSeed(s);
    }
  }

  /** When the seeded scan joins the right pair: exactly when a Q value beats the seed, or the
      seed's own pair 0, 1 is still mapped to entries 0, 1 and happens to be of least Q. */
  lemma ChoosesLeastExactly(s: State, taxa: int)
    requires Mapped(s, taxa) && Symmetric(D(s), Active(s))
    ensures ChoosesLeast(s) <==>
      Beaten(s) || (s.active[0] == 0 && s.active[1] == 1 && LeastQ(D(s), Active(s), s.all, 0, 1))
  {
    if Beaten(s) {
      BeatenChoosesLeast(s, taxa);
    } else {
      UnbeatenKeepsSeed(s);
    }
  }

  lemma BeatenChoosesLeast(s: State, taxa: int)
    requires Mapped(s, taxa) && Symmetric(D(s), Active(s)) && Beaten(s)
    ensures ChoosesLeast(s)
  {
    var i, j :| i in s.active && j in s.active && i != j && QOf(s, i, j) < At(s.dist, 0, 1);
    ChosenBound(s, taxa, i, j);
    ScanIsLeast(s, 0, 0, Seed(s));
    forall x, y | x in s.active && y in s.active && x != y
      ensures Choose(s).q <= QOf(s, x, y)
    {
      ChosenBound(s, taxa, x, y);
    }
    BoundIsLeast(s, Choose(s));
  }

  lemma BoundIsLeast(s: State, b: Best)
    requires Pairs(s, b)
    requires forall x, y {:trigger QOf(s, x, y)} | x in s.active && y in s.active && x != y :: b.q <= QOf(s, x, y)
    ensures LeastQ(D(s), Active(s), if s.all >= 0 then s.all else 0, b.row, b.col)
  {
    forall x, y | x in Active(s) && y in Active(s) && x != y
      ensures QOf(s, b.row, b.col) <= QOf(s, x, y)
    {
    }
  }

  lemma UnbeatenKeepsSeed(s: State)
    requires !Beaten(s)
    ensures Choose(s) == Seed(s)
  {
    ScanIsLeast(s, 0, 0, Seed(s));
  }

  /** A positive total distance and a nonnegative seed make some Q value beat the seed. */
  lemma PositiveTotalBeatsSeed(s: State, taxa: int)
    requires Mapped(s, taxa) && Symmetric(D(s), Active(s))
    requires Total(D(s), Active(s), s.all) > 0.0 && At(s.dist, 0, 1) >= 0.0
    ensures Beaten(s) && ChoosesLeast(s)
  {
    ActiveFacts(s, taxa);
    var i := s.active[0];
    var j := NegativeQExists(D(s), Active(s), s.all, i);
    assert QOf(s, i, j) < At(s.dist, 0, 1);
    ChoosesLeastExactly(s, taxa);
  }

  // ----- one iteration

  /** The entry of row_sums, which is zero for a node that is no longer active. */
  ghost function SumOf(s: State, i: int): real {
    if i in s.active then RowSum(D(s), Active(s), if s.all >= 0 then s.all else 0, i) else 0.0
  }

  /** The distance of the new node from the active node k, when f and g are joined. */
  ghost function NewDistance(s: State, f: int, g: int, k: int): real
    requires |s.active| > 2
  {
    var m := (|s.active| - 2) as real;
    if k == f then (At(s.dist, f, g) + (SumOf(s, f) - SumOf(s, g)) / m) / 2.0
    else if k == g then (At(s.dist, f, g) + (SumOf(s, g) - SumOf(s, f)) / m) / 2.0
    else JoinDistance(D(s), f, g, k)
  }

  /** The matrix with row and column s.all filled in at the active nodes. */
  ghost function Extend(s: State, f: int, g: int): (e: seq<seq<real>>)
    requires Shape(s) && |s.active| > 2
    ensures |e| == MAX_NODES && forall i | 0 <= i < MAX_NODES :: |e[i]| == MAX_NODES
  {
    seq(MAX_NODES, i requires 0 <= i < MAX_NODES => seq(MAX_NODES, j requires 0 <= j < MAX_NODES =>
      if i == s.all && j in s.active && j < s.all then NewDistance(s, f, g, j)
      else if j == s.all && i in s.active && i < s.all then NewDistance(s, f, g, i)
      else s.dist[i][j]))
  }

  /** u takes the entry of the first node, the last entry moves to the second's. */
  ghost function Reactivate(a: seq<int>, i: int, j: int, u: int): seq<int>
    requires 0 <= i < |a| && 0 <= j < |a|
  {
    var b := a[i := u];
    b[j := b[|a| - 1]][..|a| - 1]
  }

  ghost function Relink(links: seq<seq<int>>, u: int, f: int, g: int): (l: seq<seq<int>>)
    requires |links| == MAX_NODES && forall i | 0 <= i < MAX_NODES :: |links[i]| == 3
    requires 0 <= u < MAX_NODES && 0 <= f < MAX_NODES && 0 <= g < MAX_NODES
    ensures |l| == MAX_NODES && forall i | 0 <= i < MAX_NODES :: |l[i]| == 3
  {
    var l1 := links[u := [links[u][0], f, g]];
    var l2 := l1[f := l1[f][0 := u]];
    l2[g := l2[g][0 := u]]
  }

  lemma ChosenInRange(s: State, taxa: int)
    requires Mapped(s, taxa)
    ensures InRange(s, Choose(s))
  {
    ScanIsLeast(s, 0, 0, Seed(s));
    assert s.active[1] < s.all;
  }

  /** b names two map entries and two existing nodes. */
  ghost predicate InRange(s: State, b: Best) {
    && 0 <= b.i < |s.active| && 0 <= b.j < |s.active| && b.i != b.j
    && 0 <= b.row < s.all && 0 <= b.col < s.all && b.row != b.col
  }

  /** One iteration, joining the pair b. */
  ghost function Join(s: State, b: Best): State
    requires Shape(s) && s.all < MAX_NODES && |s.active| > 2 && InRange(s, b)
  {
    var e := Extend(s, b.row, b.col);
    State(e, Reactivate(s.active, b.i, b.j, s.all), s.all + 1, Relink(s.links, s.all, b.row, b.col),
          s.edges + [Edge(b.row, s.all, e[b.row][s.all]), Edge(b.col, s.all, e[b.col][s.all])])
  }

  ghost function Step(s: State, taxa: int): State
    requires Mapped(s, taxa) && |s.active| > 2
  {
    ChosenInRange(s, taxa);
    Join(s, Choose(s))
  }

  /** The active map stays injective, in range and at or above the diagonal: no join ever creates
      more than 2 * taxa - 2 nodes. */
  lemma StepKeepsMap(s: State, taxa: int)
    requires Mapped(s, taxa) && |s.active| > 2
    ensures Mapped(Step(s, taxa), taxa)
    ensures
      var b := Choose(s);
      && 0 <= b.i < |s.active| && 0 <= b.j < |s.active|
      && Active(Step(s, taxa)) == Active(s) - {s.active[b.i], s.active[b.j]} + {s.all}
  {
    hide Extend, Choose, Relink;
    ChosenInRange(s, taxa);
    var b := Choose(s);
    assert s.active[|s.active| - 1] < s.all;
    ReactivatedMap(s.active, b.i, b.j, s.all);
    ReactivatedSet(s.active, b.i, b.j, s.all);
  }

  lemma ReactivatedMap(a: seq<int>, i: int, j: int, u: int)
    requires 0 <= i < |a| && 0 <= j < |a| && i != j && |a| <= u
    requires |a| > 2 && a[0] != 1 && forall k | 0 <= k < |a| :: k <= a[k] < u
    requires forall k, l | 0 <= k < l < |a| :: a[k] != a[l]
    ensures
      var c := Reactivate(a, i, j, u);
      && c[0] != 1 && (forall k | 0 <= k < |c| :: k <= c[k] <= u)
      && (forall k, l | 0 <= k < l < |c| :: c[k] != c[l])
  {
  }

  lemma ReactivatedSet(a: seq<int>, i: int, j: int, u: int)
    requires 0 <= i < |a| && 0 <= j < |a| && i != j && u !in a
    requires forall k, l | 0 <= k < l < |a| :: a[k] != a[l]
    ensures (set x | x in Reactivate(a, i, j, u)) == (set x | x in a) - {a[i], a[j]} + {u}
  {
    var c := Reactivate(a, i, j, u);
    var n := |a| - 1;
    forall x | x in (set x | x in a) - {a[i], a[j]} + {u}
      ensures x in c
    {
      if x == u {
        assert c[if i == n then j else i] == u;
      } else {
        var k :| 0 <= k < |a| && a[k] == x;
        assert c[if k == n then j else k] == x;
      }
    }
  }

  /** The last edge, between the two nodes that are left. */
  ghost function Close(s: State, taxa: int): State
    requires Mapped(s, taxa) && |s.active| == 2
  {
    var x, y := s.active[0], s.active[1];
    var l1 := s.links[x := s.links[x][0 := y]];
    s.(links := l1[y := l1[y][0 := x]], edges := s.edges + [Edge(y, x, s.dist[x][y])])
  }

  ghost function Run(s: State, taxa: int): State
    requires Mapped(s, taxa)
    decreases |s.active|
  {
    if |s.active| == 2 then Close(s, taxa)
    else
      StepKeepsMap(s, taxa);
      Run(Step(s, taxa), taxa)
  }

  /** In every iteration some Q value beats the seed. */
  ghost predicate SeedAlwaysBeaten(s: State, taxa: int)
    requires Mapped(s, taxa)
    decreases |s.active|
  {
    |s.active| == 2 || (Beaten(s) && (StepKeepsMap(s, taxa); SeedAlwaysBeaten(Step(s, taxa), taxa)))
  }

  /** In every iteration the seed does no harm. */
  ghost predicate SeedAlwaysHarmless(s: State, taxa: int)
    requires Mapped(s, taxa)
    decreases |s.active|
  {
    |s.active| == 2 || (SeedHarmless(s) && (StepKeepsMap(s, taxa); SeedAlwaysHarmless(Step(s, taxa), taxa)))
  }

  lemma {:induction false} BeatenIsHarmless(s: State, taxa: int)
    requires Mapped(s, taxa) && SeedAlwaysBeaten(s, taxa)
    ensures SeedAlwaysHarmless(s, taxa)
    decreases |s.active|
  {
    if |s.active| > 2 {
      StepKeepsMap(s, taxa);
      BeatenIsHarmless(Step(s, taxa), taxa);
    }
  }
}

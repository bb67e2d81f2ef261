/** The Q criterion of neighbor joining: why a pair of least Q exists below zero, and why it is a
    cherry when the distances come from a tree. */
module QCriterion {
  import opened RealSums
  import opened TreeMetrics

  /** S(i): the sum of the distances from i to the active nodes. */
  ghost function RowSum(d: Matrix, a: set<int>, n: nat, i: int): real {
    SumOver(a, n, c => d(i, c))
  }

  lemma RowSumEmpty(d: Matrix, a: set<int>, i: int)
    ensures RowSum(d, a, 0, i) == 0.0
  {
  }

  lemma RowSumNext(d: Matrix, a: set<int>, n: nat, i: int)
    ensures RowSum(d, a, n + 1, i) == RowSum(d, a, n, i) + (if n in a then d(i, n) else 0.0)
  {
  }

  ghost function Q(d: Matrix, a: set<int>, n: nat, i: int, j: int): real {
    (|a| - 2) as real * d(i, j) - RowSum(d, a, n, i) - RowSum(d, a, n, j)
  }

  /** The sum of all distances between active nodes, each pair counted in both directions. */
  ghost function Total(d: Matrix, a: set<int>, n: nat): real {
    SumOver(a, n, i => RowSum(d, a, n, i))
  }

  ghost predicate Below(a: set<int>, n: nat) {
    forall c | c in a :: 0 <= c < n
  }

  ghost predicate LeastQ(d: Matrix, a: set<int>, n: nat, f: int, g: int) {
    && f in a && g in a && f != g
    && forall i, j {:trigger Q(d, a, n, i, j)} | i in a && j in a && i != j :: Q(d, a, n, f, g) <= Q(d, a, n, i, j)
  }

  // ----- a negative Q value exists

  lemma QRowTotal(d: Matrix, a: set<int>, n: nat, i: int, m: real)
    requires Below(a, n) && m == (|a| - 2) as real
    ensures SumOver(a, n, j => Q(d, a, n, i, j))
         == m * RowSum(d, a, n, i) + (-RowSum(d, a, n, i)) * (|a| as real) - Total(d, a, n)
  {
    hide SumOver;
    var ri := RowSum(d, a, n, i);
    var scaled := (j: int) => m * d(i, j);
    var minusRow := (j: int) => -1.0 * RowSum(d, a, n, j);
    var part := (j: int) => m * d(i, j) - ri;
    SumScales(a, n, m, j => d(i, j), scaled);
    SumScales(a, n, -1.0, j => RowSum(d, a, n, j), minusRow);
    SumConstant(a, n, -ri, j => -ri);
    SumAdds(a, n, scaled, j => -ri, part);
    SumAdds(a, n, part, minusRow, j => Q(d, a, n, i, j));
  }

  /** The Q values of one node against all others add up to minus the total distance. */
  lemma QSumOfOneNode(d: Matrix, a: set<int>, n: nat, i: int)
    requires Below(a, n) && Symmetric(d, a) && i in a
    ensures SumOver(a - {i}, n, j => Q(d, a, n, i, j)) == -Total(d, a, n)
  {
    var m := (|a| - 2) as real;
    var ri := RowSum(d, a, n, i);
    QRowTotal(d, a, n, i, m);
    Collect(m, |a| as real, ri);
    SumExtract(a, n, i, j => Q(d, a, n, i, j));
    assert Q(d, a, n, i, i) == -2.0 * ri;
  }

  lemma Collect(m: real, size: real, r: real)
    requires m == size - 2.0
    ensures m * r + (-r) * size == -2.0 * r
  {
    assert (m - size) * r == -2.0 * r;
  }

  /** With a positive total distance every active node has a partner of negative Q. */
  lemma NegativeQExists(d: Matrix, a: set<int>, n: nat, i: int) returns (j: int)
    requires Below(a, n) && Symmetric(d, a) && i in a && Total(d, a, n) > 0.0
    ensures j in a && j != i && Q(d, a, n, i, j) < 0.0
  {
    QSumOfOneNode(d, a, n, i);
    var q := (j: int) => Q(d, a, n, i, j);
    if forall j | j in a && j != i :: q(j) >= 0.0 {
      var zero := (j: int) => 0.0;
      SumMonotone(a - {i}, n, zero, q);
      SumConstantZero(a - {i}, n, zero);
      assert false;
    }
    j :| j in a && j != i && q(j) < 0.0;
  }

  /** Positive distances between two or more nodes have a positive total. */
  lemma PositiveTotal(d: Matrix, a: set<int>, n: nat, x: int, y: int)
    requires Below(a, n) && Symmetric(d, a) && Positive(d, a) && x in a && y in a && x != y
    ensures Total(d, a, n) > 0.0
  {
    forall i | i in a
      ensures RowSum(d, a, n, i) > 0.0
    {
      SumPositive(a, n, if i == x then y else x, c => d(i, c));
    }
    SumPositive(a, n, x, i => RowSum(d, a, n, i));
  }

  // ----- a pair of least Q in a tree metric is a cherry

  /** Minus twice the distance from k to the path between i and j. */
  ghost function Excess(d: Matrix, i: int, j: int): int -> real {
    (k: int) => d(i, j) - d(i, k) - d(j, k)
  }

  lemma QAsExcess(d: Matrix, a: set<int>, n: nat, i: int, j: int)
    requires Below(a, n)
    ensures Q(d, a, n, i, j) == SumOver(a, n, Excess(d, i, j)) - 2.0 * d(i, j)
  {
    hide SumOver;
    var dij := (k: int) => d(i, j);
    var ri := (k: int) => d(i, k);
    var rj := (k: int) => d(j, k);
    var minusI := (k: int) => -1.0 * d(i, k);
    var minusJ := (k: int) => -1.0 * d(j, k);
    var first := (k: int) => d(i, j) - d(i, k);
    SumConstant(a, n, d(i, j), dij);
    SumScales(a, n, -1.0, ri, minusI);
    SumScales(a, n, -1.0, rj, minusJ);
    SumAdds(a, n, dij, minusI, first);
    SumAdds(a, n, first, minusJ, Excess(d, i, j));
    assert Q(d, a, n, i, j) == (|a| as real) * d(i, j) - 2.0 * d(i, j) - RowSum(d, a, n, i) - RowSum(d, a, n, j);
  }

  /** The gain in choosing the pair x, y over i, j, term by term. */
  lemma QDifference(d: Matrix, a: set<int>, n: nat, i: int, j: int, x: int, y: int) returns (gain: int -> real)
    requires Below(a, n)
    ensures gain == (k => Excess(d, i, j)(k) - Excess(d, x, y)(k))
    ensures forall k :: gain(k) == d(x, k) + d(y, k) - d(x, y) - d(i, k) - d(j, k) + d(i, j)
    ensures Q(d, a, n, i, j) - Q(d, a, n, x, y) == SumOver(a, n, gain) - 2.0 * d(i, j) + 2.0 * d(x, y)
  {
    gain := k => Excess(d, i, j)(k) - Excess(d, x, y)(k);
    QAsExcess(d, a, n, i, j);
    QAsExcess(d, a, n, x, y);
    SumAdds(a, n, gain, Excess(d, x, y), Excess(d, i, j));
  }

  /** Where k hangs off the path from i to j, measured from i (twice, up to a constant). */
  ghost function Position(d: Matrix, i: int, j: int, k: int): real {
    d(i, k) - d(j, k)
  }

  /** The nodes other than i and j that hang off the path nearest to i. */
  ghost predicate NearestGroup(d: Matrix, a: set<int>, i: int, j: int, t: set<int>, x0: real) {
    && t <= a - {i, j}
    && (forall k | k in t :: Position(d, i, j, k) == x0)
    && (forall k | k in a - {i, j} && k !in t :: Position(d, i, j, k) > x0)
  }

  /** A node p hanging nearer to i than k: the path from p to k runs along the path from i to j. */
  lemma FartherNode(d: Matrix, a: set<int>, i: int, j: int, p: int, k: int)
    requires Additive(d, a) && {i, j, p, k} <= a && Distinct(i, j, p, k)
    requires Position(d, i, j, p) < Position(d, i, j, k)
    ensures d(p, k) == d(i, k) + d(p, j) - d(i, j)
  {
    assert Resolved(d, i, p, j, k);
  }

  /** A lone nearest node pairs better with i than j does. */
  lemma LoneNeighbor(d: Matrix, a: set<int>, n: nat, i: int, j: int, p: int, far: int)
    requires Below(a, n) && Additive(d, a) && i in a && j in a && i != j
    requires p in a && NearestGroup(d, a, i, j, {p}, Position(d, i, j, p))
    requires far in a - {i, j, p}
    ensures Q(d, a, n, i, p) < Q(d, a, n, i, j)
  {
    var gain := QDifference(d, a, n, i, j, i, p);
    SumExtract(a, n, i, gain);
    SumExtract(a - {i}, n, j, gain);
    SumExtract(a - {i} - {j}, n, p, gain);
    var rest := a - {i} - {j} - {p};
    forall k | k in rest
      ensures gain(k) > 0.0
    {
      FartherNode(d, a, i, j, p, k);
    }
    SumPositive(rest, n, far, gain);
    assert gain(i) + gain(j) + gain(p) == 2.0 * d(i, j) - 2.0 * d(i, p);
  }

  /** Twice the depth, seen from i, at which the paths to p and r part. */
  ghost function Depth(d: Matrix, i: int, p: int, r: int): real {
    d(i, p) + d(i, r) - d(p, r)
  }

  ghost predicate DeepestPair(d: Matrix, t: set<int>, i: int, p: int, r: int) {
    && p in t && r in t && p != r
    && forall x, y {:trigger Depth(d, i, x, y)} | x in t && y in t && x != y :: Depth(d, i, x, y) <= Depth(d, i, p, r)
  }

  lemma Member<T>(t: set<T>) returns (x: T)
    requires t != {}
    ensures x in t
  {
    x :| x in t;
  }

  lemma FindDeepestPair(d: Matrix, t: set<int>, i: int) returns (p: int, r: int)
    requires |t| >= 2
    ensures DeepestPair(d, t, i, p, r)
  {
    var pairs := set x, y | x in t && y in t && x != y :: (x, y);
    var x := Member(t);
    assert |t - {x}| >= 1;
    var y := Member(t - {x});
    assert (x, y) in pairs;
    var best := ArgMax(pairs, (z: (int, int)) => Depth(d, i, z.0, z.1));
    p, r := best.0, best.1;
    forall u, v | u in t && v in t && u != v
      ensures Depth(d, i, u, v) <= Depth(d, i, p, r)
    {
      assert (u, v) in pairs;
    }
  }

  /** What one node contributes when the deepest pair p, r of the nearest group replaces i, j. */
  lemma GroupGain(d: Matrix, a: set<int>, i: int, j: int, t: set<int>, p: int, r: int, k: int)
    requires Additive(d, a) && i in a && j in a && i != j && k in a - {i, j, p, r}
    requires p in t && NearestGroup(d, a, i, j, t, Position(d, i, j, p))
    requires DeepestPair(d, t, i, p, r)
    ensures
      var bound := d(i, r) - d(p, r) - d(i, j) + d(p, j);
      var gain := d(p, k) + d(r, k) - d(p, r) - d(i, k) - d(j, k) + d(i, j);
      gain >= if k in t then -bound else bound
  {
    if k in t {
      assert Depth(d, i, p, k) <= Depth(d, i, p, r);
      assert Depth(d, i, r, k) <= Depth(d, i, p, r);
    } else {
      FartherNode(d, a, i, j, p, k);
      FartherNode(d, a, i, j, r, k);
    }
  }

  /** Two or more nearest nodes, making up less than half: their deepest pair is better than i, j. */
  lemma CloseGroup(d: Matrix, a: set<int>, n: nat, i: int, j: int, t: set<int>, p: int, r: int)
    requires Below(a, n) && Additive(d, a) && i in a && j in a && i != j
    requires p in t && NearestGroup(d, a, i, j, t, Position(d, i, j, p))
    requires DeepestPair(d, t, i, p, r)
    requires 2 * |t| <= |a| - 2
    ensures Q(d, a, n, p, r) < Q(d, a, n, i, j)
  {
    var gain := QDifference(d, a, n, i, j, p, r);
    CloseGroupRest(d, a, n, i, j, t, p, r, gain);
    ExtractFour(a, n, i, j, p, r, gain);
    assert gain(i) + gain(j) + gain(p) + gain(r) == 2.0 * d(i, j) - 2.0 * d(p, r);
  }

  lemma ExtractFour(a: set<int>, n: nat, i: int, j: int, p: int, r: int, f: int -> real)
    requires Below(a, n) && {i, j, p, r} <= a && Distinct(i, j, p, r)
    ensures SumOver(a, n, f) == f(i) + f(j) + f(p) + f(r) + SumOver(a - {i} - {j} - {p} - {r}, n, f)
  {
    SumExtract(a, n, i, f);
    SumExtract(a - {i}, n, j, f);
    SumExtract(a - {i} - {j}, n, p, f);
    SumExtract(a - {i} - {j} - {p}, n, r, f);
  }

  lemma CloseGroupRest(d: Matrix, a: set<int>, n: nat, i: int, j: int, t: set<int>, p: int, r: int, gain: int -> real)
    requires Below(a, n) && Additive(d, a) && i in a && j in a && i != j
    requires p in t && NearestGroup(d, a, i, j, t, Position(d, i, j, p))
    requires DeepestPair(d, t, i, p, r)
    requires 2 * |t| <= |a| - 2
    requires forall k :: gain(k) == d(p, k) + d(r, k) - d(p, r) - d(i, k) - d(j, k) + d(i, j)
    ensures SumOver(a - {i} - {j} - {p} - {r}, n, gain) > 0.0
  {
    var bound := d(i, r) - d(p, r) - d(i, j) + d(p, j);
    assert bound > 0.0 by {
      assert Resolved(d, i, j, p, r);
    }
    forall k | k in a - {i, j, p, r}
      ensures gain(k) >= if k in t then -bound else bound
    {
      GroupGain(d, a, i, j, t, p, r, k);
    }
    MinorityLoses(a, n, i, j, t, p, r, bound, gain);
  }

  lemma MinorityLoses(a: set<int>, n: nat, i: int, j: int, t: set<int>, p: int, r: int, bound: real, gain: int -> real)
    requires Below(a, n) && i in a && j in a && i != j && p in t && r in t && p != r && t <= a - {i, j}
    requires 2 * |t| <= |a| - 2 && bound > 0.0
    requires forall k | k in a - {i, j, p, r} :: gain(k) >= if k in t then -bound else bound
    ensures SumOver(a - {i} - {j} - {p} - {r}, n, gain) > 0.0
  {
    var rest := a - {i} - {j} - {p} - {r};
    forall k | k in rest
      ensures 0 <= k < n && gain(k) >= if k in t then -bound else bound
    {
      assert k in a - {i, j, p, r};
    }
    SumTwoSided(rest, t, n, bound, gain);
    CountRest(a, i, j, t, p, r);
    MarginParts(bound, |rest - t|, |rest * t|);
  }

  lemma CountRest(a: set<int>, i: int, j: int, t: set<int>, p: int, r: int)
    requires i in a && j in a && i != j && p in t && r in t && p != r && t <= a - {i, j}
    ensures
      var rest := a - {i} - {j} - {p} - {r};
      |rest * t| == |t| - 2 && |rest - t| == |a| - 2 - |t|
  {
    var rest := a - {i} - {j} - {p} - {r};
    assert rest * t == t - {p} - {r};
    assert rest - t == a - {i} - {j} - t;
  }

  /** i and j are not a cherry and the nodes nearest to i are no majority: some pair has a smaller Q. */
  lemma NearSideBeats(d: Matrix, a: set<int>, n: nat, i: int, j: int, t: set<int>, x0: real, far: int)
    returns (p: int, r: int)
    requires Below(a, n) && Additive(d, a) && i in a && j in a && i != j
    requires t != {} && NearestGroup(d, a, i, j, t, x0) && 2 * |t| <= |a| - 2
    requires far in a - {i, j} && far !in t
    ensures p in a && r in a && p != r && Q(d, a, n, p, r) < Q(d, a, n, i, j)
  {
    if |t| == 1 {
      p := i;
      r := Member(t);
      assert |t - {r}| == 0;
      assert t == {r};
      LoneNeighbor(d, a, n, i, j, r, far);
    } else {
      p, r := FindDeepestPair(d, t, i);
      CloseGroup(d, a, n, i, j, t, p, r);
    }
  }

  /** Nodes at the same place of the path i, j hang off it together. */
  lemma SamePositionSplits(d: Matrix, a: set<int>, i: int, j: int, k: int, l: int)
    requires Additive(d, a) && {i, j, k, l} <= a && Distinct(i, j, k, l)
    ensures Split(d, i, j, k, l) <==> Position(d, i, j, k) == Position(d, i, j, l)
  {
    assert Resolved(d, i, j, k, l);
  }

  /** The nodes hanging at one place of the path. */
  ghost function GroupAt(d: Matrix, a: set<int>, f: int, g: int, x: real): set<int> {
    set k | k in a - {f, g} && Position(d, f, g, k) == x
  }

  lemma GroupsDisjoint(d: Matrix, a: set<int>, f: int, g: int, x: real, y: real)
    requires f in a && g in a && f != g && x != y
    ensures |GroupAt(d, a, f, g, x)| + |GroupAt(d, a, f, g, y)| <= |a| - 2
  {
    var s, t := GroupAt(d, a, f, g, x), GroupAt(d, a, f, g, y);
    assert s !! t;
    assert |s + t| == |s| + |t|;
    SubsetSize(s + t, a - {f, g});
    assert a - {f, g} == a - {f} - {g};
  }

  lemma ExtremeGroups(d: Matrix, a: set<int>, f: int, g: int, near: int, far: int)
    requires {near, far} <= a - {f, g}
    requires forall k | k in a - {f, g} ::
      Position(d, f, g, near) <= Position(d, f, g, k) <= Position(d, f, g, far)
    ensures NearestGroup(d, a, f, g, GroupAt(d, a, f, g, Position(d, f, g, near)), Position(d, f, g, near))
    ensures NearestGroup(d, a, g, f, GroupAt(d, a, f, g, Position(d, f, g, far)), -Position(d, f, g, far))
  {
  }

  /** The first and the last place of the path where something hangs. */
  lemma Extremes(d: Matrix, others: set<int>, f: int, g: int, u: int, v: int) returns (near: int, far: int)
    requires u in others && v in others && Position(d, f, g, u) != Position(d, f, g, v)
    ensures near in others && far in others && Position(d, f, g, near) < Position(d, f, g, far)
    ensures forall k | k in others ::
      Position(d, f, g, near) <= Position(d, f, g, k) <= Position(d, f, g, far)
  {
    var position := (k: int) => Position(d, f, g, k);
    far := ArgMax(others, position);
    near := ArgMax(others, k => -position(k));
    forall k | k in others
      ensures Position(d, f, g, near) <= Position(d, f, g, k) <= Position(d, f, g, far)
    {
      assert position(k) <= position(far) && -position(k) <= -position(near);
    }
  }

  /** A pair that is not a cherry is beaten by another pair. */
  lemma NonCherryIsBeaten(d: Matrix, a: set<int>, n: nat, f: int, g: int) returns (p: int, r: int)
    requires Below(a, n) && Additive(d, a) && f in a && g in a && f != g && !Cherry(d, a, f, g)
    ensures p in a && r in a && p != r && Q(d, a, n, p, r) < Q(d, a, n, f, g)
  {
    var u, v :| u in a && v in a && Distinct(f, g, u, v) && !Split(d, f, g, u, v);
    SamePositionSplits(d, a, f, g, u, v);
    var near, far := Extremes(d, a - {f, g}, f, g, u, v);
    var first, last := Position(d, f, g, near), Position(d, f, g, far);
    ExtremeGroups(d, a, f, g, near, far);
    GroupsDisjoint(d, a, f, g, first, last);
    var nearGroup, farGroup := GroupAt(d, a, f, g, first), GroupAt(d, a, f, g, last);
    assert near in nearGroup && far in farGroup;
    if |nearGroup| <= |farGroup| {
      p, r := NearSideBeats(d, a, n, f, g, nearGroup, first, far);
    } else {
      p, r := NearSideBeats(d, a, n, g, f, farGroup, -last, near);
      assert Q(d, a, n, g, f) == Q(d, a, n, f, g);
    }
  }

  /** In a tree metric, a pair of least Q is a cherry. */
  lemma LeastQIsCherry(d: Matrix, a: set<int>, n: nat, f: int, g: int)
    requires Below(a, n) && Additive(d, a) && LeastQ(d, a, n, f, g)
    ensures Cherry(d, a, f, g)
  {
    if !Cherry(d, a, f, g) {
      var p, r := NonCherryIsBeaten(d, a, n, f, g);
      assert false;
    }
  }

  lemma {:induction false} SubsetSize(s: set<int>, t: set<int>)
    requires s <= t
    ensures |s| <= |t|
  {
    assert t == s + (t - s);
    assert |t| == |s| + |t - s|;
  }
}

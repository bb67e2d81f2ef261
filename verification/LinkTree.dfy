/** The neighbor links as a graph: paths, their lengths, and why links that point to higher-numbered
    parents form an unrooted binary tree. */
module LinkTree {
  import opened JoiningModel

  ghost predicate Adjacent(links: seq<seq<int>>, x: int, y: int) {
    0 <= x < |links| && 0 <= y < |links| && y in links[x]
  }

  ghost predicate Hop(links: seq<seq<int>>, p: seq<int>, k: int) {
    0 <= k < |p| - 1 && Adjacent(links, p[k], p[k + 1])
  }

  /** A simple path from x to y. */
  ghost predicate IsPath(links: seq<seq<int>>, p: seq<int>, x: int, y: int) {
    && p != [] && p[0] == x && p[|p| - 1] == y
    && (forall k {:trigger Hop(links, p, k)} | 0 <= k < |p| - 1 :: Hop(links, p, k))
    && (forall k, l | 0 <= k < l < |p| :: p[k] != p[l])
  }

  ghost function Length(dist: seq<seq<real>>, p: seq<int>): real {
    if |p| <= 1 then 0.0 else At(dist, p[0], p[1]) + Length(dist, p[1..])
  }

  /** The neighbor links of the nodes 0 .. 2 * taxa - 3: leaves have one neighbor, internal nodes
      three distinct ones, links go both ways, and every two nodes are joined by exactly one
      simple path. */
  ghost predicate UnrootedBinaryTree(links: seq<seq<int>>, taxa: int) {
    && (forall v {:trigger Degree(links, v, taxa)} | 0 <= v < 2 * taxa - 2 :: Degree(links, v, taxa))
    && (forall x, y {:trigger Adjacent(links, x, y)} |
          0 <= x < 2 * taxa - 2 && 0 <= y < 2 * taxa - 2 && Adjacent(links, x, y) :: x != y && Adjacent(links, y, x))
    && (forall x, y | 0 <= x < 2 * taxa - 2 && 0 <= y < 2 * taxa - 2 ::
          JoinedOnce(links, x, y))
  }

  /** Exactly one simple path leads from x to y. */
  ghost predicate JoinedOnce(links: seq<seq<int>>, x: int, y: int) {
    exists p :: IsPath(links, p, x, y) && forall q | IsPath(links, q, x, y) :: q == p
  }

  ghost predicate Degree(links: seq<seq<int>>, v: int, taxa: int)
  {
    && 0 <= v < |links| && |links[v]| == 3
    && 0 <= links[v][0] < 2 * taxa - 2
    && if v < taxa then links[v][1] == NULL && links[v][2] == NULL
       else
         && 0 <= links[v][1] < 2 * taxa - 2 && 0 <= links[v][2] < 2 * taxa - 2
         && links[v][0] != links[v][1] && links[v][0] != links[v][2] && links[v][1] != links[v][2]
  }

  // ----- links that point upward

  /** Every node but the last has a higher-numbered node in neighbors[0]; the last and the node r
      point at each other; children are lower-numbered and point back. */
  ghost predicate Upward(links: seq<seq<int>>, taxa: int, r: int) {
    var m := 2 * taxa - 2;
    && 2 <= taxa && m <= |links| && (forall v | 0 <= v < m :: |links[v]| == 3)
    && 0 <= r < m - 1 && links[m - 1][0] == r && links[r][0] == m - 1
    && (forall v {:trigger links[v]} | 0 <= v < m - 1 :: HasParent(links, taxa, r, v))
    && (forall v {:trigger links[v]} | 0 <= v < m :: HasChildren(links, taxa, r, v))
  }

  ghost predicate HasParent(links: seq<seq<int>>, taxa: int, r: int, v: int)
    requires 0 <= v < 2 * taxa - 3 && 2 * taxa - 2 <= |links| && forall w | 0 <= w < 2 * taxa - 2 :: |links[w]| == 3
  {
    var p := links[v][0];
    v < p < 2 * taxa - 2 && (v == r || v == links[p][1] || v == links[p][2])
  }

  ghost predicate HasChildren(links: seq<seq<int>>, taxa: int, r: int, v: int)
    requires 0 <= v < 2 * taxa - 2 <= |links| && forall w | 0 <= w < 2 * taxa - 2 :: |links[w]| == 3
  {
    var c1, c2 := links[v][1], links[v][2];
    if v < taxa then c1 == NULL && c2 == NULL
    else
      && 0 <= c1 < v && 0 <= c2 < v && c1 != c2 && c1 != r && c2 != r
      && links[c1][0] == v && links[c2][0] == v
  }

  /** A neighbor is the parent or a child. */
  lemma NeighborCases(links: seq<seq<int>>, taxa: int, r: int, x: int, y: int)
    requires Upward(links, taxa, r) && 0 <= x < 2 * taxa - 2 && 0 <= y < 2 * taxa - 2
    ensures Adjacent(links, x, y) <==> (x < y && links[x][0] == y) || (y < x && links[y][0] == x)
  {
    assert HasChildren(links, taxa, r, x) && HasChildren(links, taxa, r, y);
    if x < 2 * taxa - 3 { assert HasParent(links, taxa, r, x); }
    if y < 2 * taxa - 3 { assert HasParent(links, taxa, r, y); }
    InThree(links[x], y);
  }

  lemma InThree(s: seq<int>, y: int)
    requires |s| == 3
    ensures y in s <==> y == s[0] || y == s[1] || y == s[2]
  {
  }

  /** A simple path that starts by going down to a child only goes down. */
  lemma {:induction false} DownwardPath(links: seq<seq<int>>, taxa: int, r: int, p: seq<int>, x: int, y: int)
    requires Upward(links, taxa, r) && IsPath(links, p, x, y) && |p| >= 2 && p[1] < p[0]
    requires forall k | 0 <= k < |p| :: 0 <= p[k] < 2 * taxa - 2
    ensures y < x
  {
    if |p| > 2 {
      assert Hop(links, p, 0) && Hop(links, p, 1);
      NeighborCases(links, taxa, r, p[0], p[1]);
      NeighborCases(links, taxa, r, p[1], p[2]);
      assert p[0] != p[2];
      SubPath(links, p, x, y, 1, |p|);
      DownwardPath(links, taxa, r, p[1..], p[1], y);
    }
  }

  lemma SubPath(links: seq<seq<int>>, p: seq<int>, x: int, y: int, a: int, b: int)
    requires IsPath(links, p, x, y) && 0 <= a < b <= |p|
    ensures IsPath(links, p[a..b], p[a], p[b - 1])
    ensures b == |p| ==> p[a..b] == p[a..]
  {
    var q := p[a..b];
    forall k | 0 <= k < |q| - 1
      ensures Hop(links, q, k)
    {
      assert q[k] == p[a + k] && q[k + 1] == p[a + k + 1];
      assert Hop(links, p, a + k);
    }
  }

  lemma ReversePath(links: seq<seq<int>>, taxa: int, r: int, p: seq<int>, x: int, y: int) returns (q: seq<int>)
    requires Upward(links, taxa, r) && IsPath(links, p, x, y)
    requires forall k | 0 <= k < |p| :: 0 <= p[k] < 2 * taxa - 2
    ensures IsPath(links, q, y, x) && |q| == |p| && forall k | 0 <= k < |p| :: q[k] == p[|p| - 1 - k]
  {
    q := seq(|p|, k requires 0 <= k < |p| => p[|p| - 1 - k]);
    forall k | 0 <= k < |q| - 1
      ensures Hop(links, q, k)
    {
      var j := |p| - 2 - k;
      assert Hop(links, p, j);
      NeighborCases(links, taxa, r, p[j], p[j + 1]);
      NeighborCases(links, taxa, r, p[j + 1], p[j]);
    }
  }

  /** From the lower of two nodes a simple path to the other goes up first. */
  lemma FirstStepUp(links: seq<seq<int>>, taxa: int, r: int, p: seq<int>, x: int, y: int)
    requires Upward(links, taxa, r) && IsPath(links, p, x, y) && x < y
    requires forall k | 0 <= k < |p| :: 0 <= p[k] < 2 * taxa - 2
    ensures |p| >= 2 && p[1] == links[x][0]
  {
    assert |p| >= 2;
    assert Hop(links, p, 0);
    NeighborCases(links, taxa, r, p[0], p[1]);
    if p[1] < p[0] {
      DownwardPath(links, taxa, r, p, x, y);
    }
  }

  lemma PathInRange(links: seq<seq<int>>, taxa: int, r: int, p: seq<int>, x: int, y: int)
    requires Upward(links, taxa, r) && IsPath(links, p, x, y) && 0 <= x < 2 * taxa - 2
    ensures forall k | 0 <= k < |p| :: 0 <= p[k] < 2 * taxa - 2
  {
    var k := 0;
    while k < |p| - 1
      invariant 0 <= k < |p|
      invariant forall l | 0 <= l <= k :: 0 <= p[l] < 2 * taxa - 2
    {
      assert Hop(links, p, k);
      var v := p[k];
      assert HasChildren(links, taxa, r, v);
      if v < 2 * taxa - 3 { assert HasParent(links, taxa, r, v); }
      assert p[k + 1] in links[v];
      assert p[k + 1] == links[v][0] || p[k + 1] == links[v][1] || p[k + 1] == links[v][2];
      k := k + 1;
    }
  }

  /** Two simple paths between the same nodes are the same path. */
  lemma {:induction false} PathUnique(links: seq<seq<int>>, taxa: int, r: int, p: seq<int>, q: seq<int>, x: int, y: int)
    requires Upward(links, taxa, r) && 0 <= x < 2 * taxa - 2 && IsPath(links, p, x, y) && IsPath(links, q, x, y)
    ensures p == q
    decreases |p|
  {
    hide Upward, IsPath;
    PathInRange(links, taxa, r, p, x, y);
    PathInRange(links, taxa, r, q, x, y);
    PathEnds(links, p, x, y);
    PathEnds(links, q, x, y);
    if x == y {
    } else if x < y {
      FirstStepUp(links, taxa, r, p, x, y);
      FirstStepUp(links, taxa, r, q, x, y);
      SubPath(links, p, x, y, 1, |p|);
      SubPath(links, q, x, y, 1, |q|);
      PathUnique(links, taxa, r, p[1..], q[1..], p[1], y);
      assert p == [x] + p[1..] && q == [x] + q[1..];
    } else {
      LastStepDown(links, taxa, r, p, x, y);
      LastStepDown(links, taxa, r, q, x, y);
      var np, nq := |p| - 1, |q| - 1;
      SubPath(links, p, x, y, 0, np);
      SubPath(links, q, x, y, 0, nq);
      PathUnique(links, taxa, r, p[..np], q[..nq], x, p[np - 1]);
      assert p == p[..np] + [y] && q == q[..nq] + [y];
    }
  }

  lemma PathEnds(links: seq<seq<int>>, p: seq<int>, x: int, y: int)
    requires IsPath(links, p, x, y)
    ensures p != [] && p[0] == x && p[|p| - 1] == y && (x == y ==> p == [x])
  {
  }

  lemma LastStepDown(links: seq<seq<int>>, taxa: int, r: int, p: seq<int>, x: int, y: int)
    requires Upward(links, taxa, r) && IsPath(links, p, x, y) && y < x
    requires forall k | 0 <= k < |p| :: 0 <= p[k] < 2 * taxa - 2
    ensures |p| >= 2 && p[|p| - 2] == links[y][0]
  {
    var q := ReversePath(links, taxa, r, p, x, y);
    FirstStepUp(links, taxa, r, q, y, x);
  }

  // ----- every two nodes are connected

  /** The path from v up to the last node. */
  lemma {:induction false} PathUp(links: seq<seq<int>>, taxa: int, r: int, x: int, y: int) returns (p: seq<int>)
    requires Upward(links, taxa, r) && 0 <= x < 2 * taxa - 2 && 0 <= y < 2 * taxa - 2
    ensures IsPath(links, p, x, y)
    ensures forall k | 0 <= k < |p| :: (if x < y then x else y) <= p[k]
    decreases 2 * (2 * taxa) - x - y
  {
    if x == y {
      p := [x];
    } else if x < y {
      var z := links[x][0];
      assert HasParent(links, taxa, r, x);
      var q := PathUp(links, taxa, r, z, y);
      p := [x] + q;
      NeighborCases(links, taxa, r, x, z);
      Prepend(links, q, z, y, x);
    } else {
      var z := links[y][0];
      assert HasParent(links, taxa, r, y);
      var q := PathUp(links, taxa, r, x, z);
      p := q + [y];
      NeighborCases(links, taxa, r, z, y);
      Append(links, q, x, z, y);
    }
  }

  lemma Prepend(links: seq<seq<int>>, q: seq<int>, z: int, y: int, x: int)
    requires IsPath(links, q, z, y) && x !in q && Adjacent(links, x, z)
    ensures IsPath(links, [x] + q, x, y)
  {
    var p := [x] + q;
    forall k | 0 <= k < |p| - 1
      ensures Hop(links, p, k)
    {
      if k > 0 {
        assert Hop(links, q, k - 1);
      }
    }
  }

  lemma Append(links: seq<seq<int>>, q: seq<int>, x: int, z: int, y: int)
    requires IsPath(links, q, x, z) && y !in q && Adjacent(links, z, y)
    ensures IsPath(links, q + [y], x, y)
  {
    var p := q + [y];
    forall k | 0 <= k < |p| - 1
      ensures Hop(links, p, k)
    {
      if k < |q| - 1 {
        assert Hop(links, q, k);
      }
    }
  }

  /** Links that point upward form an unrooted binary tree. */
  lemma UpwardIsTree(links: seq<seq<int>>, taxa: int, r: int)
    requires Upward(links, taxa, r)
    ensures UnrootedBinaryTree(links, taxa)
  {
    var m := 2 * taxa - 2;
    forall v | 0 <= v < m
      ensures Degree(links, v, taxa)
    {
      assert HasChildren(links, taxa, r, v);
      if v < m - 1 { assert HasParent(links, taxa, r, v); }
    }
    forall x, y | 0 <= x < m && 0 <= y < m && Adjacent(links, x, y)
      ensures x != y && Adjacent(links, y, x)
    {
      NeighborCases(links, taxa, r, x, y);
      NeighborCases(links, taxa, r, y, x);
    }
    forall x, y | 0 <= x < m && 0 <= y < m
      ensures JoinedOnce(links, x, y)
    {
      var p := PathUp(links, taxa, r, x, y);
      forall q | IsPath(links, q, x, y)
        ensures q == p
      {
        PathUnique(links, taxa, r, q, p, x, y);
      }
    }
  }
}

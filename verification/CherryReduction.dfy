/** Joining a cherry: the new node's distances are its path distances and the rest stays additive. */
module CherryReduction {
  import opened RealSums
  import opened TreeMetrics
  import opened QCriterion

  /** The estimated length of the edge from f to the node joining f and g. */
  ghost function EdgeLength(d: Matrix, a: set<int>, n: nat, f: int, g: int): real
    requires |a| > 2
  {
    (d(f, g) + (RowSum(d, a, n, f) - RowSum(d, a, n, g)) / (|a| - 2) as real) / 2.0
  }

  /** The estimated distance from the node joining f and g to another active node. */
  ghost function JoinDistance(d: Matrix, f: int, g: int, k: int): real {
    (d(f, k) + d(g, k) - d(f, g)) / 2.0
  }

  /** e agrees with d away from f and g, and places u by the joining formula. */
  ghost predicate Joined(d: Matrix, a: set<int>, f: int, g: int, u: int, e: Matrix) {
    && u !in a
    && e(u, u) == 0.0
    && (forall x, y {:trigger e(x, y)} | x in a - {f, g} && y in a - {f, g} :: e(x, y) == d(x, y))
    && (forall k {:trigger e(u, k)} {:trigger e(k, u)} | k in a - {f, g} ::
          e(u, k) == JoinDistance(d, f, g, k) && e(k, u) == e(u, k))
  }

  /** In a cherry, f is farther than g from every other node by the same amount. */
  lemma ConstantOffset(d: Matrix, a: set<int>, f: int, g: int, k: int, l: int)
    requires Cherry(d, a, f, g) && Symmetric(d, a) && k in a - {f, g} && l in a - {f, g}
    ensures d(f, k) - d(g, k) == d(f, l) - d(g, l)
  {
    if k != l {
      assert Split(d, f, g, k, l);
    }
  }

  /** The difference of the row sums is that offset, taken once for every other node. */
  lemma RowSumOffset(d: Matrix, a: set<int>, n: nat, f: int, g: int, k: int)
    requires Below(a, n) && Cherry(d, a, f, g) && Symmetric(d, a) && k in a - {f, g}
    ensures RowSum(d, a, n, f) - RowSum(d, a, n, g) == (d(f, k) - d(g, k)) * ((|a| - 2) as real)
  {
    var diff := RowDifference(d, a, n, f, g);
    forall c | c in a - {f, g}
      ensures diff(c) == d(f, k) - d(g, k)
    {
      ConstantOffset(d, a, f, g, c, k);
    }
    SumOfOffsets(a, n, f, g, d(f, k) - d(g, k), diff);
  }

  lemma RowDifference(d: Matrix, a: set<int>, n: nat, f: int, g: int) returns (diff: int -> real)
    ensures forall c :: diff(c) == d(f, c) - d(g, c)
    ensures SumOver(a, n, diff) == RowSum(d, a, n, f) - RowSum(d, a, n, g)
  {
    diff := c => d(f, c) - d(g, c);
    SumAdds(a, n, diff, c => d(g, c), c => d(f, c));
  }

  lemma SumOfOffsets(a: set<int>, n: nat, f: int, g: int, offset: real, diff: int -> real)
    requires Below(a, n) && f in a && g in a && f != g && diff(f) + diff(g) == 0.0
    requires forall c | c in a - {f, g} :: diff(c) == offset
    ensures SumOver(a, n, diff) == offset * ((|a| - 2) as real)
  {
    SumExtract(a, n, f, diff);
    SumExtract(a - {f}, n, g, diff);
    SumConstant(a - {f} - {g}, n, offset, diff);
    assert |a - {f} - {g}| == |a| - 2;
  }

  /** The edge formulas give exactly the two edges of the cherry. */
  lemma CherryEdges(d: Matrix, a: set<int>, n: nat, f: int, g: int, k: int)
    requires Below(a, n) && Additive(d, a) && Cherry(d, a, f, g) && k in a - {f, g} && |a| > 2
    ensures EdgeLength(d, a, n, f, g) > 0.0 && EdgeLength(d, a, n, g, f) > 0.0
    ensures EdgeLength(d, a, n, f, g) + EdgeLength(d, a, n, g, f) == d(f, g)
    ensures d(f, k) == EdgeLength(d, a, n, f, g) + JoinDistance(d, f, g, k)
    ensures d(g, k) == EdgeLength(d, a, n, g, f) + JoinDistance(d, f, g, k)
  {
    RowSumOffset(d, a, n, f, g, k);
    var offset := d(f, k) - d(g, k);
    var m := (|a| - 2) as real;
    Quotient(offset, m, RowSum(d, a, n, f) - RowSum(d, a, n, g));
    Quotient(-offset, m, RowSum(d, a, n, g) - RowSum(d, a, n, f));
    assert StrictTriangle(d, f, k, g);
    assert StrictTriangle(d, g, k, f);
  }

  lemma Quotient(x: real, m: real, p: real)
    requires m > 0.0 && (p == x * m || p == -((-x) * m))
    ensures p / m == x
  {
  }

  /** Joining a cherry of a tree metric leaves a tree metric. */
  lemma ReductionIsAdditive(d: Matrix, a: set<int>, f: int, g: int, u: int, e: Matrix)
    requires Additive(d, a) && Cherry(d, a, f, g) && Joined(d, a, f, g, u, e)
    ensures Additive(e, a - {f, g} + {u})
  {
    var b := a - {f, g};
    forall i, j | i in b + {u} && j in b + {u}
      ensures e(i, j) == e(j, i) && (i == j ==> e(i, j) == 0.0) && (i != j ==> e(i, j) > 0.0)
    {
      if i == u && j != u {
        assert StrictTriangle(d, f, g, j);
      } else if j == u && i != u {
        assert StrictTriangle(d, f, g, i);
      }
    }
    forall i, j, k | i in b + {u} && j in b + {u} && k in b + {u} && i != j && i != k && j != k
      ensures StrictTriangle(e, i, j, k)
    {
      ReducedTriangle(d, a, f, g, u, e, i, j, k);
    }
    forall i, j, k, l | i in b + {u} && j in b + {u} && k in b + {u} && l in b + {u} && Distinct(i, j, k, l)
      ensures Resolved(e, i, j, k, l)
    {
      if l == u {
        ReducedQuartet(d, a, f, g, u, e, i, j, k);
      } else if k == u {
        ReducedQuartet(d, a, f, g, u, e, i, j, l);
      } else if j == u {
        ReducedQuartet(d, a, f, g, u, e, i, k, l);
      } else if i == u {
        ReducedQuartet(d, a, f, g, u, e, j, k, l);
      } else {
        assert Resolved(d, i, j, k, l);
      }
    }
  }

  lemma ReducedTriangle(d: Matrix, a: set<int>, f: int, g: int, u: int, e: Matrix, i: int, j: int, k: int)
    requires Additive(d, a) && Cherry(d, a, f, g) && Joined(d, a, f, g, u, e)
    requires {i, j, k} <= a - {f, g} + {u} && i != j && i != k && j != k
    ensures StrictTriangle(e, i, j, k)
  {
    if i == u {
      assert StrictTriangle(d, f, j, k) && StrictTriangle(d, g, j, k);
    } else if j == u {
      assert StrictTriangle(d, i, f, k) && StrictTriangle(d, i, g, k);
    } else if k == u {
      assert Split(d, f, g, i, j);
    } else {
      assert StrictTriangle(d, i, j, k);
    }
  }

  /** Seen from three other nodes, u sits where f does, at a constant smaller distance. */
  lemma ReducedQuartet(d: Matrix, a: set<int>, f: int, g: int, u: int, e: Matrix, x: int, y: int, z: int)
    requires Additive(d, a) && Cherry(d, a, f, g) && Joined(d, a, f, g, u, e)
    requires {x, y, z} <= a - {f, g} && x != y && x != z && y != z
    ensures Resolved(e, u, x, y, z) && Resolved(e, x, u, y, z) && Resolved(e, x, y, u, z) && Resolved(e, x, y, z, u)
  {
    ConstantOffset(d, a, f, g, x, y);
    ConstantOffset(d, a, f, g, x, z);
    assert Resolved(d, f, x, y, z);
    SymmetricOnFour(d, a, e, u, x, y, z);
    assert Resolved(e, u, x, y, z);
    MoveFirst(e, u, x, y, z);
  }

  ghost predicate Mirrored(e: Matrix, w: int, x: int, y: int, z: int) {
    && e(w, x) == e(x, w) && e(w, y) == e(y, w) && e(w, z) == e(z, w)
    && e(x, y) == e(y, x) && e(x, z) == e(z, x) && e(y, z) == e(z, y)
  }

  lemma SymmetricOnFour(d: Matrix, a: set<int>, e: Matrix, u: int, x: int, y: int, z: int)
    requires Symmetric(d, a) && {x, y, z} <= a
    requires e(x, y) == d(x, y) && e(y, x) == d(y, x) && e(x, z) == d(x, z) && e(z, x) == d(z, x)
    requires e(y, z) == d(y, z) && e(z, y) == d(z, y)
    requires e(u, x) == e(x, u) && e(u, y) == e(y, u) && e(u, z) == e(z, u)
    ensures Mirrored(e, u, x, y, z)
  {
  }

  lemma MoveFirst(e: Matrix, w: int, x: int, y: int, z: int)
    requires Mirrored(e, w, x, y, z) && Resolved(e, w, x, y, z)
    ensures Resolved(e, x, w, y, z) && Resolved(e, x, y, w, z) && Resolved(e, x, y, z, w)
  {
  }
}

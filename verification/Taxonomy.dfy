/** The neighbor joining program over its global arrays. */
module Taxonomy {
  import opened RealSums
  import opened TreeMetrics
  import opened QCriterion
  import opened CherryReduction
  import opened JoiningModel
  import opened LinkTree
  import opened JoiningRuns
  import opened JoiningLengths

  ghost function MatrixOf<T>(a: array2<T>): (m: seq<seq<T>>)
    reads a
    ensures |m| == a.Length0 && forall i | 0 <= i < |m| :: |m[i]| == a.Length1
    ensures forall i, j {:trigger m[i][j]} | 0 <= i < a.Length0 && 0 <= j < a.Length1 :: m[i][j] == a[i, j]
  {
    seq(a.Length0, i requires 0 <= i < a.Length0 reads a =>
      seq(a.Length1, j requires 0 <= j < a.Length1 reads a => a[i, j]))
  }

  lemma SameMatrix<T>(m: seq<seq<T>>, n: seq<seq<T>>, width: int)
    requires |m| == |n| && forall i | 0 <= i < |m| :: |m[i]| == width && |n[i]| == width
    requires forall i, j {:trigger m[i][j]} {:trigger n[i][j]} | 0 <= i < |m| && 0 <= j < width :: m[i][j] == n[i][j]
    ensures m == n
  {
    forall i | 0 <= i < |m|
      ensures m[i] == n[i]
    {
    }
  }

  /** Entry i, j when the row and column of the new node are filled in up to col. */
  ghost function Partial(s: State, f: int, g: int, col: int, i: int, j: int): real
    requires Shape(s) && |s.active| > 2 && 0 <= i < MAX_NODES && 0 <= j < MAX_NODES
  {
    if i == s.all && j in s.active && j < col then NewDistance(s, f, g, j)
    else if j == s.all && i in s.active && i < col then NewDistance(s, f, g, i)
    else s.dist[i][j]
  }

  lemma PartialComplete(s: State, f: int, g: int, m: seq<seq<real>>)
    requires Shape(s) && |s.active| > 2
    requires |m| == MAX_NODES && forall i | 0 <= i < MAX_NODES :: |m[i]| == MAX_NODES
    requires forall i, j {:trigger m[i][j]} | 0 <= i < MAX_NODES && 0 <= j < MAX_NODES ::
      m[i][j] == Partial(s, f, g, s.all, i, j)
    ensures m == Extend(s, f, g)
  {
    SameMatrix(m, Extend(s, f, g), MAX_NODES);
  }

  lemma ActiveIs(s: State, v: int)
    ensures v in Active(s) <==> v in s.active
  {
  }

  lemma ScanStep(s: State, row: int, col: int, b: Best)
    requires 0 <= row < |s.active| && 0 <= col < s.all
    ensures Scan(s, row, col, b) == Scan(s, row, col + 1, Better(s, row, col, b))
  {
  }

  /** The best pair after looking at one more column. */
  ghost function Better(s: State, row: int, col: int, b: Best): Best
    requires 0 <= row < |s.active|
  {
    if col in s.active && col != s.active[row] && QOf(s, s.active[row], col) < b.q then
      Best(QOf(s, s.active[row], col), s.active[row], col, row, Slot(s.active, col))
    else b
  }

  lemma ScanRowEnd(s: State, row: int, col: int, b: Best)
    requires 0 <= row < |s.active| && col >= s.all && 0 <= col
    ensures Scan(s, row, col, b) == Scan(s, row + 1, row + 2, b)
  {
  }

  lemma PartialStart(s: State, f: int, g: int)
    requires Shape(s) && |s.active| > 2 && forall k | 0 <= k < |s.active| :: 0 <= s.active[k]
    ensures forall i, j {:trigger Partial(s, f, g, 0, i, j)} | 0 <= i < MAX_NODES && 0 <= j < MAX_NODES ::
      Partial(s, f, g, 0, i, j) == s.dist[i][j]
  {
  }

  lemma PartialInside(s: State, f: int, g: int, col: int)
    requires Shape(s) && |s.active| > 2
    ensures forall i, j {:trigger Partial(s, f, g, col, i, j)} | 0 <= i < s.all && 0 <= j < s.all ::
      Partial(s, f, g, col, i, j) == s.dist[i][j]
  {
  }

  lemma PartialStep(s: State, f: int, g: int, col: int, i: int, j: int)
    requires Shape(s) && |s.active| > 2 && 0 <= i < MAX_NODES && 0 <= j < MAX_NODES && 0 <= col < s.all
    ensures Partial(s, f, g, col + 1, i, j) ==
      if col in s.active && ((i == s.all && j == col) || (i == col && j == s.all)) then NewDistance(s, f, g, col)
      else Partial(s, f, g, col, i, j)
  {
  }

  lemma MappedWithLinks(s: State, links: seq<seq<int>>, taxa: int)
    requires Mapped(s, taxa) && |links| == MAX_NODES && forall i | 0 <= i < MAX_NODES :: |links[i]| == 3
    ensures Mapped(s.(links := links), taxa)
  {
  }

  lemma RunUnfolds(s: State, t: State, taxa: int)
    requires Mapped(s, taxa) && |s.active| > 2 && t == Step(s, taxa)
    ensures Mapped(t, taxa) && |t.active| == |s.active| - 1 && Run(s, taxa) == Run(t, taxa)
  {
    StepKeepsMap(s, taxa);
  }

  /** The edges determined meanwhile are printed exactly if there is an output stream. */
  ghost predicate Prints(print_edges: bool, emitted: seq<Edge>, out: seq<Edge>, emitted': seq<Edge>, out': seq<Edge>) {
    exists more: seq<Edge> :: emitted' == emitted + more && out' == out + if print_edges then more else []
  }

  lemma PrintsMore(print_edges: bool, emitted: seq<Edge>, out: seq<Edge>, more: seq<Edge>)
    ensures Prints(print_edges, emitted, out, emitted + more, out + if print_edges then more else [])
  {
  }

  lemma PrintsThenPrints(print_edges: bool, e0: seq<Edge>, o0: seq<Edge>, e1: seq<Edge>, o1: seq<Edge>, e2: seq<Edge>,
      o2: seq<Edge>)
    requires Prints(print_edges, e0, o0, e1, o1) && Prints(print_edges, e1, o1, e2, o2)
    ensures Prints(print_edges, e0, o0, e2, o2)
  {
    var m1 :| e1 == e0 + m1 && o1 == o0 + if print_edges then m1 else [];
    var m2 :| e2 == e1 + m2 && o2 == o1 + if print_edges then m2 else [];
    assert e2 == e0 + (m1 + m2) && o2 == o0 + if print_edges then m1 + m2 else [];
  }

  class Philo {
    var num_taxa: int
    var num_all_nodes: int
    var num_active_nodes: int
    const distances: array2<real>
    const row_sums: array<real>
    const active_node_map: array<int>
    /** neighbors[v, k] is the node that nodes[v].neighbors[k] points at, or NULL. */
    const neighbors: array2<int>
    /** The edges printed to the output stream. */
    var out: seq<Edge>
    /** The edges the joins have determined, printed or not. */
    ghost var emitted: seq<Edge>

    constructor (taxa: int, input: seq<seq<real>>)
      requires 2 <= taxa <= MAX_TAXA && |input| == taxa && forall i | 0 <= i < taxa :: |input[i]| == taxa
      ensures Valid() && num_taxa == taxa && Initial(Abs(), taxa) && out == []
      ensures forall i, j | 0 <= i < taxa && 0 <= j < taxa :: Abs().dist[i][j] == input[i][j]
      ensures fresh(distances) && fresh(row_sums) && fresh(active_node_map) && fresh(neighbors)
    {
      hide Mapped, Initial, MatrixOf;
      num_taxa, num_all_nodes, num_active_nodes := taxa, taxa, taxa;
      distances := new real[MAX_NODES, MAX_NODES]((i, j) =>
        if 0 <= i < |input| && 0 <= j < |input[i]| then input[i][j] else 0.0);
      row_sums := new real[MAX_NODES](i => 0.0);
      active_node_map := new int[MAX_NODES](i => if i < taxa then i else 0);
      neighbors := new int[MAX_NODES, 3]((i, j) => NULL);
      out, emitted := [], [];
      new;
      assert active_node_map[..taxa] == seq(taxa, k => k);
      SameMatrix(MatrixOf(neighbors), seq(MAX_NODES, _ => [NULL, NULL, NULL]), 3);
      InitialMapped(Abs(), taxa);
    }

    ghost function Abs(): State
      reads this, distances, active_node_map, neighbors
    {
      State(MatrixOf(distances),
            if 0 <= num_active_nodes <= active_node_map.Length then active_node_map[..num_active_nodes] else [],
            num_all_nodes, MatrixOf(neighbors), emitted)
    }

    ghost predicate Valid()
      reads this, distances, active_node_map, neighbors
    {
      && distances.Length0 == MAX_NODES && distances.Length1 == MAX_NODES
      && row_sums.Length == MAX_NODES && active_node_map.Length == MAX_NODES
      && neighbors.Length0 == MAX_NODES && neighbors.Length1 == 3
      && 0 <= num_active_nodes <= MAX_NODES
      && Mapped(Abs(), num_taxa)
    }

    /** The position of col in the active map, or num_active_nodes. */
    method FindActive(col: int) returns (col_iter: int)
      requires Valid()
      ensures col_iter == Slot(Abs().active, col)
    {
      col_iter := 0;
      while col_iter < num_active_nodes
        invariant 0 <= col_iter <= num_active_nodes
        invariant Slot(Abs().active, col) == col_iter + Slot(Abs().active[col_iter..], col)
      {
        if active_node_map[col_iter] == col {
          break;
        }
        col_iter := col_iter + 1;
      }
    }

    lemma EntryIs(i: int, j: int)
      requires Valid() && 0 <= i < MAX_NODES && 0 <= j < MAX_NODES
      ensures distances[i, j] == D(Abs())(i, j)
    {
      hide Mapped;
    }

    lemma Bounds()
      requires Valid()
      ensures num_active_nodes == |Abs().active| && 0 <= num_all_nodes <= MAX_NODES && num_all_nodes == Abs().all
      ensures forall k | 0 <= k < num_active_nodes ::
        Abs().active[k] == active_node_map[k] && 0 <= active_node_map[k] < num_all_nodes
    {
      assert Mapped(Abs(), num_taxa);
    }

    /** S(i) for every active node, 0 for the others. */
    method RowSums()
      requires Valid()
      modifies row_sums
      ensures forall v | 0 <= v < num_all_nodes :: row_sums[v] == SumOf(Abs(), v)
    {
      hide RowSum, SumOver, Mapped, MatrixOf, D, Active;
      Bounds();
      ghost var s := Abs();
      var row := 0;
      while row < num_all_nodes
        invariant 0 <= row <= num_all_nodes
        invariant forall v | 0 <= v < row :: row_sums[v] == 0.0
      {
        row_sums[row] := 0.0;
        row := row + 1;
      }
      row := 0;
      while row < num_active_nodes
        invariant 0 <= row <= num_active_nodes
        invariant forall v | 0 <= v < num_all_nodes :: row_sums[v] == if v in s.active[..row] then SumOf(s, v) else 0.0
      {
        var row_in_map := active_node_map[row];
        var row_sum := RowSumOf(row_in_map);
        row_sums[row_in_map] := row_sum;
        assert s.active[row] == row_in_map && row_in_map in s.active;
        assert s.active[..row + 1] == s.active[..row] + [row_in_map];
        row := row + 1;
      }
      assert s.active[..row] == s.active;
    }

    method RowSumOf(row_in_map: int) returns (row_sum: real)
      requires Valid() && 0 <= row_in_map < num_all_nodes
      ensures row_sum == RowSum(D(Abs()), Active(Abs()), num_all_nodes, row_in_map)
    {
      hide RowSum, SumOver, Mapped, MatrixOf, D, Active, Slot;
      Bounds();
      RowSumEmpty(D(Abs()), Active(Abs()), row_in_map);
      ghost var s := Abs();
      row_sum := 0.0;
      var col := 0;
      while col < num_all_nodes
        invariant 0 <= col <= num_all_nodes
        invariant row_sum == RowSum(D(s), Active(s), col, row_in_map)
      {
        var col_iter := FindActive(col);
        if col_iter < num_active_nodes {
          row_sum := row_sum + distances[row_in_map, col];
        }
        RowSumNext(D(s), Active(s), col, row_in_map);
        ActiveIs(s, col);
        EntryIs(row_in_map, col);
        col := col + 1;
      }
    }

    /** The scan for the least Q value, seeded with the distance of nodes 0 and 1. */
    method FindPair() returns (best: Best)
      requires Valid() && num_active_nodes > 2
      requires forall v | 0 <= v < num_all_nodes :: row_sums[v] == SumOf(Abs(), v)
      ensures best == Choose(Abs())
    {
      ghost var s := Abs();
      var row, col := 0, 0;
      best := Best(distances[0, 1], 0, 1, 0, 1);
      while row < num_active_nodes
        invariant 0 <= row <= num_active_nodes && 0 <= col
        invariant Scan(s, row, col, best) == Choose(s)
      {
        best := ScanRow(row, col, best);
        row := row + 1;
        col := row + 1;
      }
    }

    method ScanRow(row: int, first: int, seed: Best) returns (best: Best)
      requires Valid() && num_active_nodes > 2 && 0 <= row < num_active_nodes && 0 <= first
      requires forall v | 0 <= v < num_all_nodes :: row_sums[v] == SumOf(Abs(), v)
      ensures Scan(Abs(), row, first, seed) == Scan(Abs(), row + 1, row + 2, best)
    {
      ghost var s := Abs();
      hide Scan, QOf, Slot;
      ghost var total := Scan(s, row, first, seed);
      best := seed;
      var col := first;
      var row_in_map := active_node_map[row];
      assert row_in_map == s.active[row] && row_in_map in s.active;
      while col < num_all_nodes
        invariant 0 <= col
        invariant Scan(s, row, col, best) == total
        decreases num_all_nodes - col
      {
        ScanStep(s, row, col, best);
        ghost var next := Better(s, row, col, best);
        var col_iter := FindActive(col);
        if col_iter < num_active_nodes && col != row_in_map {
          var q_value := QValue(row_in_map, col);
          if q_value < best.q {
            best := Best(q_value, row_in_map, col, row, col_iter);
          }
        }
        assert best == next;
        col := col + 1;
      }
      ScanRowEnd(s, row, col, best);
    }

    method QValue(row_in_map: int, col: int) returns (q_value: real)
      requires Valid() && num_active_nodes > 2
      requires row_in_map in Abs().active && col in Abs().active
      requires forall v | 0 <= v < num_all_nodes :: row_sums[v] == SumOf(Abs(), v)
      ensures q_value == QOf(Abs(), row_in_map, col)
    {
      hide RowSum, SumOver, Mapped, MatrixOf, D, Active;
      Bounds();
      ActiveFacts(Abs(), num_taxa);
      EntryIs(row_in_map, col);
      var n2 := (num_active_nodes - 2) as real;
      q_value := n2 * distances[row_in_map, col] - row_sums[row_in_map] - row_sums[col];
    }

    /** The links between the new node u and the joined nodes f and g. */
    method LinkNodes(u: int, f: int, g: int)
      requires Valid() && num_active_nodes > 2
      requires 0 <= u < MAX_NODES && 0 <= f < MAX_NODES && 0 <= g < MAX_NODES
      modifies neighbors
      ensures MatrixOf(neighbors) == Relink(old(MatrixOf(neighbors)), u, f, g)
    {
      neighbors[u, 1] := f;
      neighbors[u, 2] := g;
      if num_active_nodes - 1 < 3 {
        neighbors[f, 0] := u;
        neighbors[g, 0] := u;
      }
      neighbors[f, 0] := u;
      neighbors[g, 0] := u;
      SameMatrix(MatrixOf(neighbors), Relink(old(MatrixOf(neighbors)), u, f, g), 3);
    }

    /** The row and column of the new node, from the distances and row sums of s. */
    method ExtendDistances(ghost s: State, min_row: int, min_col: int)
      requires Valid() && num_active_nodes > 2 && num_all_nodes < MAX_NODES
      requires Shape(s) && Abs() == s.(links := Abs().links)
      requires 0 <= min_row < num_all_nodes && 0 <= min_col < num_all_nodes && min_row != min_col
      requires forall v | 0 <= v < num_all_nodes :: row_sums[v] == SumOf(s, v)
      modifies distances
      ensures MatrixOf(distances) == Extend(s, min_row, min_col)
    {
      hide NewDistance, SumOf, Partial, Extend;
      PartialStart(s, min_row, min_col);
      var col := 0;
      while col < num_all_nodes
        invariant 0 <= col <= num_all_nodes
        invariant Abs() == s.(dist := MatrixOf(distances), links := MatrixOf(neighbors))
        invariant Filled(s, min_row, min_col, col)
      {
        FillColumn(s, min_row, min_col, col);
        col := col + 1;
      }
      PartialComplete(s, min_row, min_col, MatrixOf(distances));
    }

    /** The entries are those of s with the new row and column filled in up to col. */
    ghost predicate Filled(s: State, f: int, g: int, col: int)
      requires Shape(s) && |s.active| > 2
      reads distances
    {
      && distances.Length0 == MAX_NODES && distances.Length1 == MAX_NODES
      && forall i, j {:trigger distances[i, j]} | 0 <= i < MAX_NODES && 0 <= j < MAX_NODES ::
        distances[i, j] == Partial(s, f, g, col, i, j)
    }

    method FillColumn(ghost s: State, min_row: int, min_col: int, col: int)
      requires Valid() && num_active_nodes > 2 && 0 <= col < num_all_nodes < MAX_NODES
      requires Shape(s) && Abs() == s.(dist := MatrixOf(distances), links := MatrixOf(neighbors))
      requires 0 <= min_row < num_all_nodes && 0 <= min_col < num_all_nodes && min_row != min_col
      requires forall v | 0 <= v < num_all_nodes :: row_sums[v] == SumOf(s, v)
      requires Filled(s, min_row, min_col, col)
      modifies distances
      ensures Filled(s, min_row, min_col, col + 1)
    {
      hide NewDistance, SumOf, Partial;
      var row := num_all_nodes;
      var col_iter := FindActive(col);
      if col_iter < num_active_nodes {
        PartialInside(s, min_row, min_col, col);
        var d := NewDistanceOf(s, min_row, min_col, col);
        distances[row, col] := d;
        distances[col, row] := d;
      }
      forall i, j | 0 <= i < MAX_NODES && 0 <= j < MAX_NODES
        ensures distances[i, j] == Partial(s, min_row, min_col, col + 1, i, j)
      {
        PartialStep(s, min_row, min_col, col, i, j);
      }
    }

    method NewDistanceOf(ghost s: State, min_row: int, min_col: int, col: int) returns (d: real)
      requires distances.Length0 == MAX_NODES && distances.Length1 == MAX_NODES && row_sums.Length == MAX_NODES
      requires |s.active| == num_active_nodes > 2 && s.all == num_all_nodes < MAX_NODES && Shape(s)
      requires 0 <= min_row < num_all_nodes && 0 <= min_col < num_all_nodes && 0 <= col < num_all_nodes
      requires forall i, j | 0 <= i < num_all_nodes && 0 <= j < num_all_nodes :: distances[i, j] == s.dist[i][j]
      requires forall v | 0 <= v < num_all_nodes :: row_sums[v] == SumOf(s, v)
      ensures d == NewDistance(s, min_row, min_col, col)
    {
      var dfg := distances[min_row, min_col];
      var sf, sg := row_sums[min_row], row_sums[min_col];
      var n2 := (num_active_nodes - 2) as real;
      if col == min_row {
        d := (dfg + (sf - sg) / n2) / 2.0;
      } else if col == min_col {
        d := (dfg + (sg - sf) / n2) / 2.0;
      } else {
        var dfk := distances[min_row, col];
        var dgk := distances[min_col, col];
        d := (dfk + dgk - dfg) / 2.0;
      }
    }

    /** Prints the two new edges and replaces the joined nodes in the active map. */
    method Activate(best: Best, print_edges: bool)
      requires distances.Length0 == MAX_NODES && distances.Length1 == MAX_NODES && active_node_map.Length == MAX_NODES
      requires 2 < num_active_nodes <= MAX_NODES && 0 <= num_all_nodes < MAX_NODES
      requires 0 <= best.i < num_active_nodes && 0 <= best.j < num_active_nodes
      requires 0 <= best.row < num_all_nodes && 0 <= best.col < num_all_nodes
      modifies this, active_node_map
      ensures num_taxa == old(num_taxa) && num_all_nodes == old(num_all_nodes) + 1
      ensures num_active_nodes == old(num_active_nodes) - 1
      ensures active_node_map[..num_active_nodes]
           == Reactivate(old(active_node_map[..num_active_nodes]), best.i, best.j, old(num_all_nodes))
      ensures
        var u := old(num_all_nodes);
        emitted == old(emitted) + [Edge(best.row, u, distances[best.row, u]), Edge(best.col, u, distances[best.col, u])]
      ensures Prints(print_edges, old(emitted), old(out), emitted, out)
    {
      var first := Edge(best.row, num_all_nodes, distances[best.row, num_all_nodes]);
      var second := Edge(best.col, num_all_nodes, distances[best.col, num_all_nodes]);
      PrintsMore(print_edges, emitted, out, [first, second]);
      if print_edges {
        out := out + [first];
        out := out + [second];
        assert out == old(out) + [first, second];
      }
      emitted := emitted + [first, second];
      active_node_map[best.i] := num_all_nodes;
      num_all_nodes := num_all_nodes + 1;
      num_active_nodes := num_active_nodes - 1;
      active_node_map[best.j] := active_node_map[num_active_nodes];
    }

    /** The last edge, between the two nodes still active. */
    method JoinLastTwo(print_edges: bool)
      requires Valid() && num_active_nodes == 2
      modifies this, neighbors
      ensures num_taxa == old(num_taxa) && num_all_nodes == old(num_all_nodes)
      ensures num_active_nodes == old(num_active_nodes)
      ensures Abs() == Close(old(Abs()), old(num_taxa))
      ensures Prints(print_edges, old(emitted), old(out), emitted, out)
    {
      ghost var s := Abs();
      var node1 := active_node_map[0];
      var node2 := active_node_map[1];
      assert node1 == s.active[0] && node2 == s.active[1];
      neighbors[node1, 0] := node2;
      neighbors[node2, 0] := node1;
      var edge := Edge(node2, node1, distances[node1, node2]);
      PrintsMore(print_edges, emitted, out, [edge]);
      if print_edges {
        out := out + [edge];
      }
      emitted := emitted + [edge];
      SameMatrix(MatrixOf(neighbors), Close(s, num_taxa).links, 3);
    }

    /** Joins pairs until two nodes are left, then links those.  Edges go to the output stream if
        there is one. */
    method TaxaHelper(print_edges: bool) returns (result: int)
      requires Valid() && num_active_nodes >= 2
      modifies this, distances, row_sums, active_node_map, neighbors
      ensures result == 1 && num_taxa == old(num_taxa)
      ensures Abs() == Run(old(Abs()), old(num_taxa))
      ensures Prints(print_edges, old(emitted), old(out), emitted, out)
      decreases num_active_nodes
    {
      if num_active_nodes < 3 {
        JoinLastTwo(print_edges);
        return 1;
      }
      ghost var s := Abs();
      ghost var emitted0, out0 := emitted, out;
      RowSums();
      var best := FindPair();
      ChosenInRange(s, num_taxa);
      JoinPair(best, print_edges);
      RunUnfolds(s, Abs(), num_taxa);
      ghost var emitted1, out1 := emitted, out;
      result := TaxaHelper(print_edges);
      PrintsThenPrints(print_edges, emitted0, out0, emitted1, out1, emitted, out);
    }

    /** One iteration, once the pair is found. */
    method JoinPair(best: Best, print_edges: bool)
      requires Valid() && num_active_nodes > 2 && num_all_nodes < MAX_NODES && InRange(Abs(), best)
      requires forall v | 0 <= v < num_all_nodes :: row_sums[v] == SumOf(Abs(), v)
      modifies this, distances, active_node_map, neighbors
      ensures num_taxa == old(num_taxa) && 0 <= num_active_nodes == old(num_active_nodes) - 1
      ensures Abs() == Join(old(Abs()), best)
      ensures Prints(print_edges, old(emitted), old(out), emitted, out)
    {
      hide Extend, Relink, Reactivate, NewDistance, SumOf, Q;
      ghost var s := Abs();
      LinkNodes(num_all_nodes, best.row, best.col);
      MappedWithLinks(s, MatrixOf(neighbors), num_taxa);
      assert Abs() == s.(links := MatrixOf(neighbors));
      ExtendDistances(s, best.row, best.col);
      Activate(best, print_edges);
    }

    /** Builds the tree.  No taxa is an error and one taxon needs no tree. */
    method BuildTaxonomy(print_edges: bool) returns (result: int)
      requires num_taxa >= 2 && num_active_nodes >= 2 ==> Valid()
      modifies this, distances, row_sums, active_node_map, neighbors
      ensures old(num_taxa < 1 || num_active_nodes < 1) ==> result == -1
      ensures old(num_taxa >= 1 && num_active_nodes >= 1) ==> result == 0
      ensures old(num_taxa < 2 || num_active_nodes < 2) ==>
        Abs() == old(Abs()) && out == old(out) && num_taxa == old(num_taxa)
      ensures old(num_taxa >= 2 && num_active_nodes >= 2) ==>
        && Abs() == Run(old(Abs()), old(num_taxa))
        && Prints(print_edges, old(emitted), old(out), emitted, out)
    {
      if num_taxa < 1 || num_active_nodes < 1 {
        return -1;
      }
      if num_taxa == 1 || num_active_nodes == 1 {
        return 0;
      }
      var r := TaxaHelper(print_edges);
      if r == -1 {
        return -1;
      }
      result := 0;
    }
  }

  /** From reading the input to the finished tree, for the path metric of any binary tree. */
  method RebuildTree(taxa: int, input: seq<seq<real>>, ghost t: Tree) returns (p: Philo)
    requires 2 <= taxa <= MAX_TAXA && |input| == taxa && forall i | 0 <= i < taxa :: |input[i]| == taxa
    requires t.Proper() && t.Taxa() == set v: int {:trigger v in t.Taxa()} | 0 <= v < taxa
    requires forall i, j | 0 <= i < taxa && 0 <= j < taxa :: input[i][j] == t.PathLength(i, j)
    ensures UnrootedBinaryTree(p.Abs().links, taxa)
    ensures forall x, y, q | 0 <= x < taxa && 0 <= y < taxa && x != y && IsPath(p.Abs().links, q, x, y) ::
      Length(p.Abs().dist, q) == input[x][y]
    ensures EdgesOfTree(p.Abs(), taxa) && p.out == p.Abs().edges
  {
    p := new Philo(taxa, input);
    ghost var s := p.Abs();
    InputMetric(s, taxa, input, t);
    RunRebuildsTree(s, taxa, t);
    InitialRunEmits(s, taxa, t);
    var r := p.BuildTaxonomy(true);
    assert p.Abs() == Run(s, taxa);
    assert p.out == p.Abs().edges;
  }

  /** The same for any symmetric matrix: if the links end as a tree, every inner node joins a pair of least
      criterion, its two printed edges sum to the distance of that pair, and they and its other distances are
      what the averages over the active nodes make them. */
  method BuildFrom(taxa: int, input: seq<seq<real>>) returns (p: Philo)
    requires 2 <= taxa <= MAX_TAXA && |input| == taxa && forall i | 0 <= i < taxa :: |input[i]| == taxa
    requires forall i, j | 0 <= i < taxa && 0 <= j < taxa ::
      input[i][j] == input[j][i] && (i == j ==> input[i][j] == 0.0)
    ensures forall i, j | 0 <= i < taxa && 0 <= j < taxa :: At(p.Abs().dist, i, j) == input[i][j]
    ensures p.out == p.Abs().edges
    ensures UnrootedBinaryTree(p.Abs().links, taxa) ==>
      EdgesOfTree(p.Abs(), taxa) && AllJoined(p.Abs(), taxa, taxa) && AllPrinted(p.Abs(), taxa, taxa)
  {
    hide JoinedAs, PrintsJoin, EdgesOfTree, UnrootedBinaryTree, AllJoined, AllPrinted;
    p := new Philo(taxa, input);
    ghost var s := p.Abs();
    InitialRun(s, taxa, input);
    var r := p.BuildTaxonomy(true);
    assert p.Abs() == Run(s, taxa);
    assert p.out == p.Abs().edges;
  }

  lemma InitialRun(s: State, taxa: int, input: seq<seq<real>>)
    requires Initial(s, taxa) && |input| == taxa && forall i | 0 <= i < taxa :: |input[i]| == taxa
    requires forall i, j | 0 <= i < taxa && 0 <= j < taxa ::
      input[i][j] == input[j][i] && (i == j ==> input[i][j] == 0.0)
    requires forall i, j | 0 <= i < taxa && 0 <= j < taxa :: s.dist[i][j] == input[i][j]
    ensures Mapped(s, taxa)
    ensures forall i, j | 0 <= i < taxa && 0 <= j < taxa :: At(Run(s, taxa).dist, i, j) == input[i][j]
    ensures UnrootedBinaryTree(Run(s, taxa).links, taxa) ==>
      EdgesOfTree(Run(s, taxa), taxa) && AllJoined(Run(s, taxa), taxa, taxa) && AllPrinted(Run(s, taxa), taxa, taxa)
  {
    hide JoinedAs, PrintsJoin, EdgesOfTree, UnrootedBinaryTree, Run, Emitted;
    InitialEmitted(s, taxa);
    InitialLinked(s, taxa);
    RunKeepsInput(s, taxa);
    RunIsTreeExactly(s, taxa);
    if SeedAlwaysHarmless(s, taxa) {
      RunEmitsTree(s, taxa);
      RunJoins(s, taxa);
      RunPrints(s, taxa);
    }
  }

  lemma InputMetric(s: State, taxa: int, input: seq<seq<real>>, t: Tree)
    requires Shape(s) && 2 <= taxa <= MAX_TAXA && |input| == taxa && forall i | 0 <= i < taxa :: |input[i]| == taxa
    requires t.Proper() && t.Taxa() == set v: int {:trigger v in t.Taxa()} | 0 <= v < taxa
    requires forall i, j | 0 <= i < taxa && 0 <= j < taxa :: input[i][j] == t.PathLength(i, j)
    requires forall i, j | 0 <= i < taxa && 0 <= j < taxa :: s.dist[i][j] == input[i][j]
    ensures InputOf(s, taxa, t)
  {
  }

  lemma InitialEmitted(s: State, taxa: int)
    requires Initial(s, taxa)
    ensures Linked(s, taxa) && Emitted(s, taxa)
  {
    InitialLinked(s, taxa);
    forall v | 0 <= v < s.all
      ensures v in s.active
    {
      assert s.active[v] == v;
    }
  }

  lemma InitialRunEmits(s: State, taxa: int, t: Tree)
    requires Initial(s, taxa) && InputOf(s, taxa, t)
    ensures Mapped(s, taxa) && EdgesOfTree(Run(s, taxa), taxa)
  {
    TreeInput(s, taxa, t);
    BeatenIsHarmless(s, taxa);
    InitialEmitted(s, taxa);
    RunEmitsTree(s, taxa);
  }
}

/** Whole runs of neighbor joining: the links always end as an unrooted binary tree, and for tree
    metrics the built tree has the input's path lengths. */
module JoiningRuns {
  import opened RealSums
  import opened TreeMetrics
  import opened QCriterion
  import opened CherryReduction
  import opened JoiningModel
  import opened LinkTree

  /** Nodes not yet created have null neighbors and a zero diagonal entry. */
  ghost predicate Fresh(s: State)
    requires Shape(s)
  {
    forall v {:trigger s.links[v]} {:trigger s.dist[v]} | s.all <= v < MAX_NODES ::
      s.links[v] == [NULL, NULL, NULL] && s.dist[v][v] == 0.0
  }

  /** Active nodes have no parent yet; other nodes are one of the two children of theirs. */
  ghost predicate ParentLinked(s: State, v: int)
    requires Shape(s) && 0 <= v < s.all
  {
    var p := s.links[v][0];
    if v in s.active then p == NULL
    else v < p < s.all && (v == s.links[p][1] || v == s.links[p][2])
  }

  /** Leaves have no children; other nodes have two earlier ones that point back. */
  ghost predicate ChildrenLinked(s: State, taxa: int, v: int)
    requires Shape(s) && 0 <= v < s.all
  {
    var c1, c2 := s.links[v][1], s.links[v][2];
    if v < taxa then c1 == NULL && c2 == NULL
    else 0 <= c1 < v && 0 <= c2 < v && c1 != c2 && s.links[c1][0] == v && s.links[c2][0] == v
  }

  ghost predicate Linked(s: State, taxa: int) {
    && Mapped(s, taxa) && Fresh(s)
    && (forall v {:trigger ParentLinked(s, v)} | 0 <= v < s.all :: ParentLinked(s, v))
    && (forall v {:trigger ChildrenLinked(s, taxa, v)} | 0 <= v < s.all :: ChildrenLinked(s, taxa, v))
  }

  /** The state after reading the input: all taxa active, nothing linked. */
  ghost predicate Initial(s: State, taxa: int) {
    && Shape(s) && 2 <= taxa <= MAX_TAXA && s.all == taxa
    && s.active == seq(taxa, k => k) && s.edges == []
    && (forall v | 0 <= v < MAX_NODES :: s.links[v] == [NULL, NULL, NULL])
    && (forall v | taxa <= v < MAX_NODES :: s.dist[v][v] == 0.0)
  }

  lemma InitialMapped(s: State, taxa: int)
    requires Shape(s) && 2 <= taxa <= MAX_TAXA && s.all == taxa && s.active == seq(taxa, k => k) && s.edges == []
    requires s.links == seq(MAX_NODES, _ => [NULL, NULL, NULL])
    requires forall v | taxa <= v < MAX_NODES :: s.dist[v][v] == 0.0
    ensures Initial(s, taxa) && Mapped(s, taxa)
  {
  }

  lemma InitialLinked(s: State, taxa: int)
    requires Initial(s, taxa)
    ensures Linked(s, taxa)
    ensures Active(s) == set v: int {:trigger v in s.active} | 0 <= v < taxa
  {
    forall v | 0 <= v < taxa
      ensures v in s.active
    {
      assert s.active[v] == v;
    }
  }

  // ----- one iteration

  /** t is s with the active nodes f and g joined to a new node. */
  ghost predicate JoinStep(s: State, t: State, f: int, g: int) {
    && Shape(s) && Shape(t) && s.all < MAX_NODES && t.all == s.all + 1
    && f in s.active && g in s.active && f != g && 0 <= f < s.all && 0 <= g < s.all
    && (forall v {:trigger v in t.active} :: v in t.active <==> v == s.all || (v in s.active && v != f && v != g))
    && (forall v {:trigger t.links[v]} | 0 <= v < MAX_NODES :: t.links[v] ==
          if v == s.all then [s.links[v][0], f, g]
          else if v == f || v == g then [s.all, s.links[v][1], s.links[v][2]]
          else s.links[v])
    && (forall i, j {:trigger t.dist[i][j]} | 0 <= i < s.all && 0 <= j < s.all :: t.dist[i][j] == s.dist[i][j])
    && (forall v {:trigger t.dist[v]} | t.all <= v < MAX_NODES :: t.dist[v][v] == s.dist[v][v])
    && t.edges == s.edges + [Edge(f, s.all, t.dist[f][s.all]), Edge(g, s.all, t.dist[g][s.all])]
  }

  /** With an active pair chosen, one iteration is such a step. */
  lemma StepIsJoin(s: State, taxa: int)
    requires Mapped(s, taxa) && |s.active| > 2 && ChoosesActive(s)
    ensures JoinStep(s, Step(s, taxa), Choose(s).row, Choose(s).col)
    ensures Mapped(Step(s, taxa), taxa)
  {
    hide Extend, Choose, Relink, Reactivate;
    StepKeepsMap(s, taxa);
    ChosenInRange(s, taxa);
    var b := Choose(s);
    var t := Step(s, taxa);
    assert s.active[b.i] == b.row && s.active[b.j] == b.col;
    assert forall v :: v in t.active <==> v in Active(t);
    assert forall v :: v in s.active <==> v in Active(s);
    RelinkAt(s.links, s.all, b.row, b.col);
    ExtendKeeps(s, b.row, b.col);
  }

  lemma RelinkAt(links: seq<seq<int>>, u: int, f: int, g: int)
    requires |links| == MAX_NODES && forall i | 0 <= i < MAX_NODES :: |links[i]| == 3
    requires 0 <= u < MAX_NODES && 0 <= f < MAX_NODES && 0 <= g < MAX_NODES && u != f && u != g && f != g
    ensures forall v | 0 <= v < MAX_NODES ::
      (Relink(links, u, f, g)[v] ==
        if v == u then [links[v][0], f, g]
        else if v == f || v == g then [u, links[v][1], links[v][2]]
        else links[v])
  {
  }

  lemma ExtendKeeps(s: State, f: int, g: int)
    requires Shape(s) && |s.active| > 2
    ensures
      var e := Extend(s, f, g);
      && (forall i, j {:trigger e[i][j]} | 0 <= i < s.all && 0 <= j < s.all :: e[i][j] == s.dist[i][j])
      && (forall v {:trigger e[v]} | s.all <= v < MAX_NODES :: e[v][v] == s.dist[v][v])
  {
  }

  lemma JoinLinks(s: State, t: State, f: int, g: int, taxa: int)
    requires Linked(s, taxa) && Mapped(t, taxa) && JoinStep(s, t, f, g)
    ensures Linked(t, taxa)
  {
    var u := s.all;
    assert s.active[|s.active| - 1] < u;
    assert s.links[u] == [NULL, NULL, NULL];
    assert ParentLinked(s, f) && ParentLinked(s, g);
    forall v | 0 <= v < t.all
      ensures ParentLinked(t, v)
    {
      if v < u {
        assert ParentLinked(s, v);
      }
    }
    forall v | 0 <= v < t.all
      ensures ChildrenLinked(t, taxa, v)
    {
      if v < u {
        assert ChildrenLinked(s, taxa, v);
      }
    }
  }

  /** The new matrix places the new node by the joining formulas. */
  ghost predicate Places(s: State, t: State, f: int, g: int) {
    && 0 <= s.all && Below(Active(s), s.all) && |Active(s)| == |s.active| && |s.active| > 2
    && Active(t) == Active(s) - {f, g} + {s.all}
    && Joined(D(s), Active(s), f, g, s.all, D(t))
    && D(t)(f, s.all) == D(t)(s.all, f) == EdgeLength(D(s), Active(s), s.all, f, g)
    && D(t)(g, s.all) == D(t)(s.all, g) == EdgeLength(D(s), Active(s), s.all, g, f)
  }

  lemma StepPlaces(s: State, taxa: int)
    requires Linked(s, taxa) && |s.active| > 2 && ChoosesActive(s) && Symmetric(D(s), Active(s))
    ensures Places(s, Step(s, taxa), Choose(s).row, Choose(s).col)
  {
    StepIsJoin(s, taxa);
    ActiveFacts(s, taxa);
    var b := Choose(s);
    ExtendJoins(s, b.row, b.col);
    assert s.links[s.all] == [NULL, NULL, NULL];
    JoinedActive(s, Step(s, taxa), b.row, b.col);
  }

  lemma JoinedActive(s: State, t: State, f: int, g: int)
    requires JoinStep(s, t, f, g) && Below(Active(s), s.all)
    ensures Active(t) == Active(s) - {f, g} + {s.all}
  {
    forall v
      ensures v in Active(t) <==> v in Active(s) - {f, g} + {s.all}
    {
      assert v in t.active <==> v == s.all || (v in s.active && v != f && v != g);
      assert v in s.active ==> v in Active(s);
    }
  }

  lemma ExtendJoins(s: State, f: int, g: int)
    requires Shape(s) && |s.active| > 2 && |Active(s)| == |s.active| && Below(Active(s), s.all) && s.all < MAX_NODES
    requires f in s.active && g in s.active && f != g && Symmetric(D(s), Active(s)) && s.dist[s.all][s.all] == 0.0
    ensures
      var e := Extend(s, f, g);
      var d := Entries(e);
      && Joined(D(s), Active(s), f, g, s.all, d)
      && d(f, s.all) == d(s.all, f) == EdgeLength(D(s), Active(s), s.all, f, g)
      && d(g, s.all) == d(s.all, g) == EdgeLength(D(s), Active(s), s.all, g, f)
      && (forall i, j {:trigger e[i][j]} | 0 <= i < s.all && 0 <= j < s.all :: e[i][j] == s.dist[i][j])
  {
    var e := Extend(s, f, g);
    var u := s.all;
    forall k | k in s.active
      ensures At(e, u, k) == At(e, k, u) == NewDistance(s, f, g, k)
    {
      assert k in Active(s);
    }
    assert forall i, j {:trigger e[i][j]} | 0 <= i < u && 0 <= j < u :: e[i][j] == s.dist[i][j];
    assert e[u][u] == s.dist[u][u];
    assert D(s)(f, g) == D(s)(g, f);
  }

  lemma PlacesKeepsSymmetric(s: State, t: State, f: int, g: int)
    requires Places(s, t, f, g) && Symmetric(D(s), Active(s))
    ensures Symmetric(D(t), Active(t))
  {
    var d, e, a := D(s), D(t), Active(s);
    forall i, j | i in Active(t) && j in Active(t)
      ensures e(i, j) == e(j, i) && e(i, i) == 0.0
    {
      if i != s.all && j != s.all {
        assert d(i, j) == d(j, i);
      }
    }
  }

  /** Joining a least pair of a tree metric leaves a tree metric. */
  lemma StepKeepsAdditive(s: State, taxa: int)
    requires Linked(s, taxa) && |s.active| > 2 && ChoosesLeast(s) && Additive(D(s), Active(s))
    ensures Cherry(D(s), Active(s), Choose(s).row, Choose(s).col)
    ensures Additive(D(Step(s, taxa)), Active(Step(s, taxa)))
  {
    StepPlaces(s, taxa);
    var b := Choose(s);
    LeastQIsCherry(D(s), Active(s), s.all, b.row, b.col);
    ReductionIsAdditive(D(s), Active(s), b.row, b.col, s.all, D(Step(s, taxa)));
  }

  // ----- whole runs

  /** One iteration with a harmless seed: everything the runs below need to know about it. */
  lemma GoodStep(s: State, taxa: int) returns (t: State, f: int, g: int)
    requires Linked(s, taxa) && |s.active| > 2 && SeedHarmless(s) && Symmetric(D(s), Active(s))
    ensures Linked(t, taxa) && t == Step(s, taxa) && Run(s, taxa) == Run(t, taxa)
    ensures JoinStep(s, t, f, g) && Places(s, t, f, g) && Symmetric(D(t), Active(t))
    ensures f == Choose(s).row && g == Choose(s).col
    ensures |t.active| == |s.active| - 1
    ensures SeedAlwaysHarmless(s, taxa) == SeedAlwaysHarmless(t, taxa)
    ensures Beaten(s) ==> SeedAlwaysBeaten(s, taxa) == SeedAlwaysBeaten(t, taxa)
    ensures Beaten(s) && Additive(D(s), Active(s)) ==> Cherry(D(s), Active(s), f, g) && Additive(D(t), Active(t))
  {
    HarmlessChoosesActive(s, taxa);
    StepIsJoin(s, taxa);
    t, f, g := Step(s, taxa), Choose(s).row, Choose(s).col;
    JoinLinks(s, t, f, g, taxa);
    StepPlaces(s, taxa);
    PlacesKeepsSymmetric(s, t, f, g);
    if Beaten(s) && Additive(D(s), Active(s)) {
      BeatenChoosesLeast(s, taxa);
      StepKeepsAdditive(s, taxa);
    }
  }

  /** A tree metric beats the seed in every iteration. */
  lemma {:induction false} AdditiveBeatsSeed(s: State, taxa: int)
    requires Linked(s, taxa) && Additive(D(s), Active(s)) && s.dist[0][1] >= 0.0
    ensures SeedAlwaysBeaten(s, taxa)
    decreases |s.active|
  {
    if |s.active| > 2 {
      ActiveFacts(s, taxa);
      PositiveTotal(D(s), Active(s), s.all, s.active[0], s.active[1]);
      PositiveTotalBeatsSeed(s, taxa);
      var t, f, g := GoodStep(s, taxa);
      assert s.active[1] < s.all;
      AdditiveBeatsSeed(t, taxa);
    }
  }

  /** What later iterations leave alone: distances between existing nodes, the links of joined nodes
      and the children of every node. */
  ghost predicate Extends(s: State, t: State)
    requires Shape(s) && Shape(t)
  {
    && (forall i, j {:trigger t.dist[i][j]} | 0 <= i < s.all && 0 <= j < s.all :: t.dist[i][j] == s.dist[i][j])
    && (forall v {:trigger t.links[v]} | 0 <= v < s.all ::
          t.links[v][1] == s.links[v][1] && t.links[v][2] == s.links[v][2]
          && (v !in s.active ==> t.links[v][0] == s.links[v][0]))
  }

  lemma ExtendsTransitive(s: State, t: State, f: int, g: int, final: State)
    requires JoinStep(s, t, f, g) && Shape(final) && Extends(t, final)
    ensures Extends(s, final)
  {
  }

  lemma {:induction false} RunExtends(s: State, taxa: int)
    requires Linked(s, taxa) && SeedAlwaysHarmless(s, taxa) && Symmetric(D(s), Active(s))
    ensures Shape(Run(s, taxa)) && Extends(s, Run(s, taxa))
    decreases |s.active|
  {
    if |s.active| > 2 {
      var t, f, g := GoodStep(s, taxa);
      RunExtends(t, taxa);
      ExtendsTransitive(s, t, f, g, Run(t, taxa));
    }
  }

  /** While the seed does no harm, the final links are an unrooted binary tree. */
  lemma {:induction false} HarmlessRunIsTree(s: State, taxa: int)
    requires Linked(s, taxa) && SeedAlwaysHarmless(s, taxa) && Symmetric(D(s), Active(s))
    ensures UnrootedBinaryTree(Run(s, taxa).links, taxa)
    decreases |s.active|
  {
    if |s.active| == 2 {
      CloseIsUpward(s, taxa);
    } else {
      var t, f, g := GoodStep(s, taxa);
      HarmlessRunIsTree(t, taxa);
    }
  }

  /** An iteration leaves the links of a node alone that is neither active nor 0 or 1. */
  lemma StepSkips(s: State, taxa: int, v: int)
    requires Mapped(s, taxa) && |s.active| > 2 && 2 <= v < s.all && v !in s.active
    ensures Mapped(Step(s, taxa), taxa) && v !in Step(s, taxa).active && v < Step(s, taxa).all
    ensures Step(s, taxa).links[v] == s.links[v]
  {
    hide Extend, Scan, Q, Reactivate, Relink;
    StepKeepsMap(s, taxa);
    ChosenInRange(s, taxa);
    ScanIsLeast(s, 0, 0, Seed(s));
    var b := Choose(s);
    RelinkAt(s.links, s.all, b.row, b.col);
    assert v !in Active(Step(s, taxa));
  }

  /** A node dropped from the active map without a parent never gets one. */
  lemma {:induction false} LostNodeStaysLost(s: State, taxa: int, v: int)
    requires Mapped(s, taxa) && 2 <= v < s.all && v !in s.active && s.links[v][0] == NULL
    ensures Shape(Run(s, taxa)) && Run(s, taxa).links[v][0] == NULL
    decreases |s.active|
  {
    if |s.active| > 2 {
      StepSkips(s, taxa, v);
      LostNodeStaysLost(Step(s, taxa), taxa, v);
    }
  }

  /** A harmful seed drops one of the first two map entries without linking it. */
  lemma HarmfulSeedLosesNode(s: State, taxa: int) returns (v: int)
    requires Linked(s, taxa) && |s.active| > 2 && Symmetric(D(s), Active(s)) && !SeedHarmless(s)
    ensures Mapped(Step(s, taxa), taxa) && 2 <= v < s.all && v !in Step(s, taxa).active
    ensures Step(s, taxa).links[v][0] == NULL
  {
    hide Extend, Choose, Q;
    HarmlessChoosesActive(s, taxa);
    StepKeepsMap(s, taxa);
    v := if s.active[0] != 0 then s.active[0] else s.active[1];
    assert v in s.active && ParentLinked(s, v);
    assert v !in Active(Step(s, taxa));
    assert 0 < s.active[1];
  }

  /** Exactly when the final links are an unrooted binary tree: the minimum, seeded with the distance
      of nodes 0 and 1 instead of a Q value, is beaten or harmless in every iteration. */
  lemma {:induction false} RunIsTreeExactly(s: State, taxa: int)
    requires Linked(s, taxa) && Symmetric(D(s), Active(s))
    ensures UnrootedBinaryTree(Run(s, taxa).links, taxa) <==> SeedAlwaysHarmless(s, taxa)
    decreases |s.active|
  {
    if SeedAlwaysHarmless(s, taxa) {
      HarmlessRunIsTree(s, taxa);
    } else if SeedHarmless(s) {
      var t, f, g := GoodStep(s, taxa);
      RunIsTreeExactly(t, taxa);
    } else {
      var v := HarmfulSeedLosesNode(s, taxa);
      LostNodeStaysLost(Step(s, taxa), taxa, v);
      assert !Degree(Run(s, taxa).links, v, taxa);
    }
  }

  // ----- an input on which the seed does harm

  ghost predicate ZeroBetween(d: Matrix, a: set<int>) {
    forall i, j {:trigger d(i, j)} | i in a && j in a :: d(i, j) == 0.0
  }

  lemma ZeroQ(s: State, i: int, j: int)
    requires ZeroBetween(D(s), Active(s)) && i in s.active && j in s.active
    ensures QOf(s, i, j) == 0.0
  {
    var n: nat := if s.all >= 0 then s.all else 0;
    ZeroRowSum(D(s), Active(s), n, i);
    ZeroRowSum(D(s), Active(s), n, j);
  }

  lemma ZeroRowSum(d: Matrix, a: set<int>, n: nat, i: int)
    requires ZeroBetween(d, a) && i in a
    ensures RowSum(d, a, n, i) == 0.0
  {
    SumCongruent(a, a, n, k => d(i, k), k => 0.0);
    SumConstantZero(a, n, k => 0.0);
  }

  /** For four or more taxa at distance 0 from each other the built links are no tree: the second
      iteration joins nodes 0 and 1 again. */
  lemma ZeroDistancesFail(s: State, taxa: int)
    requires Initial(s, taxa) && taxa >= 4 && ZeroBetween(D(s), Active(s))
    ensures Mapped(s, taxa) && !UnrootedBinaryTree(Run(s, taxa).links, taxa)
  {
    hide Run, Scan, QOf, UnrootedBinaryTree, Extend, Relink, Linked;
    InitialLinked(s, taxa);
    LinkedIsMapped(s, taxa);
    assert s.active[0] == 0 && s.active[1] == 1 && 0 in Active(s) && 1 in Active(s);
    assert At(s.dist, 0, 1) == D(s)(0, 1) == 0.0;
    ZeroUnbeaten(s);
    HarmlessChoosesActive(s, taxa);
    StepIsJoin(s, taxa);
    var t := Step(s, taxa);
    StepPlaces(s, taxa);
    ZeroPlaces(s, t);
    assert At(t.dist, 0, 1) == t.dist[0][1] == s.dist[0][1];
    ZeroUnbeaten(t);
    assert t.active[0] == taxa;
    RunIsTreeExactly(s, taxa);
  }

  lemma LinkedIsMapped(s: State, taxa: int)
    requires Linked(s, taxa)
    ensures Mapped(s, taxa)
  {
  }

  lemma ZeroUnbeaten(s: State)
    requires ZeroBetween(D(s), Active(s)) && At(s.dist, 0, 1) == 0.0
    ensures !Beaten(s) && Choose(s) == Seed(s)
  {
    hide QOf;
    forall i, j | i in s.active && j in s.active
      ensures QOf(s, i, j) == 0.0
    {
      ZeroQ(s, i, j);
    }
    UnbeatenKeepsSeed(s);
  }

  lemma ZeroPlaces(s: State, t: State)
    requires Places(s, t, 0, 1) && ZeroBetween(D(s), Active(s)) && 0 in Active(s) && 1 in Active(s)
    ensures ZeroBetween(D(t), Active(t))
  {
    hide EdgeLength;
    var d, e, u := D(s), D(t), s.all;
    forall i, j | i in Active(t) && j in Active(t)
      ensures e(i, j) == 0.0
    {
      assert i != u ==> d(0, i) == 0.0 && d(1, i) == 0.0;
      assert j != u ==> d(0, j) == 0.0 && d(1, j) == 0.0;
      assert i != u && j != u ==> d(i, j) == 0.0;
      assert d(0, 1) == 0.0;
    }
  }

  lemma CloseIsUpward(s: State, taxa: int)
    requires Linked(s, taxa) && |s.active| == 2
    ensures UnrootedBinaryTree(Close(s, taxa).links, taxa)
  {
    var m := s.all;
    assert ParentLinked(s, m - 1);
    var r := if s.active[0] == m - 1 then s.active[1] else s.active[0];
    var t := Close(s, taxa);
    assert {s.active[0], s.active[1]} == {r, m - 1};
    assert forall v :: v in s.active <==> v == r || v == m - 1;
    assert ParentLinked(s, r);
    assert t.links[r][0] == m - 1 && t.links[m - 1][0] == r;
    assert forall v | 0 <= v < m && v != r && v != m - 1 :: t.links[v] == s.links[v];
    forall v | 0 <= v < m - 1
      ensures HasParent(t.links, taxa, r, v)
    {
      assert ParentLinked(s, v);
    }
    forall v | 0 <= v < m
      ensures HasChildren(t.links, taxa, r, v)
    {
      assert ChildrenLinked(s, taxa, v);
    }
    UpwardIsTree(t.links, taxa, r);
  }

  // ----- the emitted edges

  /** The edges emitted so far are the links of the joined nodes, each once, with their lengths. */
  ghost predicate Emitted(s: State, taxa: int)
    requires Shape(s)
  {
    && |s.edges| == 2 * (s.all - taxa)
    && (forall k {:trigger s.edges[k]} | 0 <= k < |s.edges| :: EmittedLink(s, s.edges[k]))
    && (forall k, l {:trigger s.edges[k], s.edges[l]} | 0 <= k < l < |s.edges| :: s.edges[k].first != s.edges[l].first)
    && (forall v {:trigger LinkEmitted(s, v)} | 0 <= v < s.all && v !in s.active :: LinkEmitted(s, v))
  }

  ghost predicate EmittedLink(s: State, e: Edge)
    requires Shape(s)
  {
    && 0 <= e.first < s.all && e.first !in s.active
    && e.first < e.second < s.all && e.second == s.links[e.first][0]
    && e.length == s.dist[e.first][e.second]
  }

  ghost predicate LinkEmitted(s: State, v: int) {
    exists k :: 0 <= k < |s.edges| && s.edges[k].first == v
  }

  lemma JoinEmits(s: State, t: State, f: int, g: int, taxa: int)
    requires Linked(s, taxa) && Linked(t, taxa) && JoinStep(s, t, f, g) && Emitted(s, taxa)
    ensures Emitted(t, taxa)
  {
    var n := |s.edges|;
    assert t.links[f][0] == s.all && t.links[g][0] == s.all;
    forall k | 0 <= k < |t.edges|
      ensures EmittedLink(t, t.edges[k])
    {
      if k < n {
        assert EmittedLink(s, s.edges[k]);
      }
    }
    forall k, l | 0 <= k < l < |t.edges|
      ensures t.edges[k].first != t.edges[l].first
    {
      if k < n {
        assert EmittedLink(s, s.edges[k]);
        if l < n {
          assert t.edges[l] == s.edges[l];
        }
      }
    }
    forall v | 0 <= v < t.all && v !in t.active
      ensures LinkEmitted(t, v)
    {
      if v == f || v == g {
        assert t.edges[if v == f then n else n + 1].first == v;
      } else {
        assert LinkEmitted(s, v);
        var k :| 0 <= k < |s.edges| && s.edges[k].first == v;
        assert t.edges[k].first == v;
      }
    }
  }

  /** One entry for every edge of the final tree: 2 * taxa - 3 of them, no edge twice, each with the
      matrix entry of its two ends. */
  ghost predicate EdgesOfTree(t: State, taxa: int) {
    && |t.edges| == 2 * taxa - 3
    && (forall k {:trigger t.edges[k]} | 0 <= k < |t.edges| ::
          Adjacent(t.links, t.edges[k].first, t.edges[k].second)
          && t.edges[k].length == At(t.dist, t.edges[k].first, t.edges[k].second))
    && (forall k, l {:trigger t.edges[k], t.edges[l]} | 0 <= k < l < |t.edges| ::
          {t.edges[k].first, t.edges[k].second} != {t.edges[l].first, t.edges[l].second})
    && (forall x, y {:trigger Adjacent(t.links, x, y)} | Adjacent(t.links, x, y) :: EmitsEdge(t, x, y))
  }

  ghost predicate EmitsEdge(t: State, x: int, y: int) {
    exists k :: 0 <= k < |t.edges| && {t.edges[k].first, t.edges[k].second} == {x, y}
  }

  /** While the seed does no harm, exactly the edges of the final tree are emitted. */
  lemma {:induction false} RunEmitsTree(s: State, taxa: int)
    requires Linked(s, taxa) && SeedAlwaysHarmless(s, taxa) && Symmetric(D(s), Active(s)) && Emitted(s, taxa)
    ensures EdgesOfTree(Run(s, taxa), taxa)
    decreases |s.active|
  {
    if |s.active| == 2 {
      CloseEmits(s, taxa);
    } else {
      var t, f, g := GoodStep(s, taxa);
      JoinEmits(s, t, f, g, taxa);
      RunEmitsTree(t, taxa);
    }
  }

  lemma CloseEmits(s: State, taxa: int)
    requires Linked(s, taxa) && |s.active| == 2 && Symmetric(D(s), Active(s)) && Emitted(s, taxa)
    ensures EdgesOfTree(Close(s, taxa), taxa)
  {
    var t := Close(s, taxa);
    var x, y := s.active[0], s.active[1];
    var n := |s.edges|;
    assert t.links[x][0] == y && t.links[y][0] == x;
    assert D(s)(x, y) == D(s)(y, x);
    forall k | 0 <= k < |t.edges|
      ensures Adjacent(t.links, t.edges[k].first, t.edges[k].second)
        && t.edges[k].length == At(t.dist, t.edges[k].first, t.edges[k].second)
    {
      if k < n {
        assert EmittedLink(s, s.edges[k]);
        assert t.links[t.edges[k].first][0] == t.edges[k].second;
      }
    }
    forall k, l | 0 <= k < l < |t.edges|
      ensures {t.edges[k].first, t.edges[k].second} != {t.edges[l].first, t.edges[l].second}
    {
      assert EmittedLink(s, s.edges[k]);
      var e, h := t.edges[k], t.edges[l];
      if l < n {
        assert EmittedLink(s, s.edges[l]);
      }
      assert e.first in {e.first, e.second} && e.second in {e.first, e.second};
      assert h.first in {h.first, h.second} && h.second in {h.first, h.second};
    }
    forall a, b | Adjacent(t.links, a, b)
      ensures EmitsEdge(t, a, b)
    {
      CloseEmitsEdge(s, taxa, a, b);
    }
  }

  lemma CloseEmitsEdge(s: State, taxa: int, a: int, b: int)
    requires Linked(s, taxa) && |s.active| == 2 && Emitted(s, taxa)
    requires Adjacent(Close(s, taxa).links, a, b)
    ensures EmitsEdge(Close(s, taxa), a, b)
  {
    var t := Close(s, taxa);
    var x, y := s.active[0], s.active[1];
    if a < s.all {
      assert ChildrenLinked(s, taxa, a) && ParentLinked(s, a);
    }
    assert t.links[a] == [t.links[a][0], t.links[a][1], t.links[a][2]];
    if {a, b} == {x, y} {
      assert t.edges[|s.edges|] == Edge(y, x, s.dist[x][y]);
    } else {
      var v := if b == t.links[a][0] then a else b;
      assert ParentLinked(s, v);
      assert LinkEmitted(s, v);
      var k :| 0 <= k < |s.edges| && s.edges[k].first == v;
      assert EmittedLink(s, s.edges[k]);
      assert t.edges[k] == s.edges[k];
    }
  }

  // ----- path lengths

  lemma {:induction false} AppendLength(dist: seq<seq<real>>, q: seq<int>, y: int)
    requires q != []
    ensures Length(dist, q + [y]) == Length(dist, q) + At(dist, q[|q| - 1], y)
  {
    if |q| > 1 {
      AppendLength(dist, q[1..], y);
      assert (q + [y])[1..] == q[1..] + [y];
    }
  }

  lemma PrependLength(dist: seq<seq<real>>, x: int, q: seq<int>)
    requires q != []
    ensures Length(dist, [x] + q) == At(dist, x, q[0]) + Length(dist, q)
  {
    assert ([x] + q)[1..] == q;
  }

  /** The built tree has a path of the right length between x and y, through later nodes only. */
  ghost predicate Realizes(s: State, t: State, p: seq<int>, x: int, y: int) {
    && IsPath(t.links, p, x, y)
    && Length(t.dist, p) == D(s)(x, y)
    && forall k | 0 < k < |p| - 1 :: p[k] >= s.all
  }

  lemma {:induction false} RunRealizes(s: State, taxa: int, x: int, y: int) returns (p: seq<int>)
    requires Linked(s, taxa) && Additive(D(s), Active(s)) && SeedAlwaysBeaten(s, taxa)
    requires x in Active(s) && y in Active(s) && x != y
    ensures Realizes(s, Run(s, taxa), p, x, y)
    decreases |s.active|
  {
    if |s.active| == 2 {
      p := CloseRealizes(s, taxa, x, y);
    } else {
      var t, f, g := AdditiveStep(s, taxa);
      StandActive(s, t, f, g, x, y);
      var x1, y1 := Stand(s, f, g, x), Stand(s, f, g, y);
      if x1 == y1 {
        p := CherryPath(s, t, f, g, Run(t, taxa), x, y);
      } else {
        var q := RunRealizes(t, taxa, x1, y1);
        p := ExtendPath(s, t, f, g, Run(t, taxa), x, y, q);
      }
    }
  }

  lemma StandActive(s: State, t: State, f: int, g: int, x: int, y: int)
    requires Active(t) == Active(s) - {f, g} + {s.all} && s.all !in Active(s)
    requires x in Active(s) && y in Active(s) && x != y
    ensures Stand(s, f, g, x) in Active(t) && Stand(s, f, g, y) in Active(t)
    ensures Stand(s, f, g, x) == Stand(s, f, g, y) ==> (x == f && y == g) || (x == g && y == f)
  {
  }

  lemma CloseRealizes(s: State, taxa: int, x: int, y: int) returns (p: seq<int>)
    requires Linked(s, taxa) && |s.active| == 2 && Symmetric(D(s), Active(s))
    requires x in Active(s) && y in Active(s) && x != y
    ensures Realizes(s, Run(s, taxa), p, x, y)
  {
    assert x in s.active && y in s.active;
    var final := Run(s, taxa);
    p := [x, y];
    assert D(s)(x, y) == D(s)(y, x);
    assert Length(final.dist, p[1..]) == 0.0;
    assert final.links[x][0] == y;
    assert Hop(final.links, p, 0);
  }

  /** One iteration on a tree metric, seen from the end of the run. */
  lemma AdditiveStep(s: State, taxa: int) returns (t: State, f: int, g: int)
    requires Linked(s, taxa) && |s.active| > 2 && Additive(D(s), Active(s)) && SeedAlwaysBeaten(s, taxa)
    ensures Linked(t, taxa) && |t.active| == |s.active| - 1 && t.all == s.all + 1
    ensures Run(s, taxa) == Run(t, taxa) && SeedAlwaysBeaten(t, taxa)
    ensures Places(s, t, f, g) && Cherry(D(s), Active(s), f, g) && Additive(D(t), Active(t))
    ensures Shape(Run(t, taxa)) && Extends(t, Run(t, taxa)) && JoinsAdjacent(Run(t, taxa).links, f, g, s.all)
  {
    t, f, g := GoodStep(s, taxa);
    BeatenIsHarmless(t, taxa);
    RunExtends(t, taxa);
    JoinAdjacent(s, t, f, g, Run(t, taxa));
  }

  /** The node that stands for x after f and g are joined. */
  ghost function Stand(s: State, f: int, g: int, x: int): int {
    if x == f || x == g then s.all else x
  }

  /** A path of the built tree between nodes active after an iteration gives one between nodes active before. */
  lemma ExtendPath(s: State, t: State, f: int, g: int, final: State, x: int, y: int, q: seq<int>) returns (p: seq<int>)
    requires Shape(s) && Shape(t) && Shape(final) && s.all < t.all && Extends(t, final) && Places(s, t, f, g)
    requires Additive(D(s), Active(s)) && Cherry(D(s), Active(s), f, g) && JoinsAdjacent(final.links, f, g, s.all)
    requires x in Active(s) && y in Active(s) && Stand(s, f, g, x) != Stand(s, f, g, y)
    requires Realizes(t, final, q, Stand(s, f, g, x), Stand(s, f, g, y))
    ensures Realizes(s, final, p, x, y)
  {
    if x in {f, g} {
      p := [x] + q;
      StartAtCherry(s, t, f, g, final, x, y, q);
    } else if y in {f, g} {
      p := q + [y];
      EndAtCherry(s, t, f, g, final, x, y, q);
    } else {
      p := q;
      assert D(t)(x, y) == D(s)(x, y);
    }
  }

  ghost predicate JoinsAdjacent(links: seq<seq<int>>, f: int, g: int, u: int) {
    Adjacent(links, f, u) && Adjacent(links, u, f) && Adjacent(links, g, u) && Adjacent(links, u, g)
  }

  lemma JoinAdjacent(s: State, t: State, f: int, g: int, final: State)
    requires JoinStep(s, t, f, g) && Shape(final) && Extends(t, final)
    ensures JoinsAdjacent(final.links, f, g, s.all)
  {
    var u := s.all;
    assert f !in t.active && g !in t.active;
    assert final.links[f][0] == u && final.links[g][0] == u;
    assert final.links[u][1] == f && final.links[u][2] == g;
  }

  lemma CherryPath(s: State, t: State, f: int, g: int, final: State, x: int, y: int) returns (p: seq<int>)
    requires Shape(s) && Shape(t) && Shape(final) && s.all < t.all && Extends(t, final) && Places(s, t, f, g)
    requires Additive(D(s), Active(s)) && Cherry(D(s), Active(s), f, g) && JoinsAdjacent(final.links, f, g, s.all)
    requires (x == f && y == g) || (x == g && y == f)
    ensures Realizes(s, final, p, x, y)
  {
    p := [x, s.all, y];
    assert Hop(final.links, p, 0) && Hop(final.links, p, 1);
    assert p[1..] == [s.all, y] && p[1..][1..] == [y];
    assert Length(final.dist, p) == At(final.dist, x, s.all) + Length(final.dist, [s.all, y]);
    assert Length(final.dist, [s.all, y]) == At(final.dist, s.all, y) + Length(final.dist, [y]);
    assert |Active(s) - {f} - {g}| > 0;
    var k := Member(Active(s) - {f} - {g});
    CherryEdges(D(s), Active(s), s.all, f, g, k);
    assert D(s)(f, g) == D(s)(g, f);
    assert final.dist[x][s.all] == t.dist[x][s.all] && final.dist[s.all][y] == t.dist[s.all][y];
  }

  lemma StartAtCherry(s: State, t: State, f: int, g: int, final: State, x: int, y: int, q: seq<int>)
    requires Shape(s) && Shape(t) && Shape(final) && s.all < t.all && Extends(t, final) && Places(s, t, f, g)
    requires Additive(D(s), Active(s)) && Cherry(D(s), Active(s), f, g)
    requires x in {f, g} && y in Active(s) - {f, g} && Adjacent(final.links, x, s.all)
    requires Realizes(t, final, q, s.all, y)
    ensures Realizes(s, final, [x] + q, x, y)
  {
    CherryEdges(D(s), Active(s), s.all, f, g, y);
    PrependLength(final.dist, x, q);
    Prepend(final.links, q, s.all, y, x);
    assert final.dist[x][s.all] == t.dist[x][s.all];
  }

  lemma EndAtCherry(s: State, t: State, f: int, g: int, final: State, x: int, y: int, q: seq<int>)
    requires Shape(s) && Shape(t) && Shape(final) && s.all < t.all && Extends(t, final) && Places(s, t, f, g)
    requires Additive(D(s), Active(s)) && Cherry(D(s), Active(s), f, g)
    requires y in {f, g} && x in Active(s) - {f, g} && Adjacent(final.links, s.all, y)
    requires Realizes(t, final, q, x, s.all)
    ensures Realizes(s, final, q + [y], x, y)
  {
    CherryEdges(D(s), Active(s), s.all, f, g, x);
    AppendLength(final.dist, q, y);
    Append(final.links, q, x, s.all, y);
    assert D(s)(x, y) == D(s)(y, x);
    assert final.dist[s.all][y] == t.dist[s.all][y];
  }

  // ----- the main theorem

  /** The input is the path metric of the binary tree t over the taxa 0 .. taxa - 1. */
  ghost predicate InputOf(s: State, taxa: int, t: Tree) {
    && t.Proper() && t.Taxa() == (set v: int {:trigger v in t.Taxa()} | 0 <= v < taxa)
    && PathMetric(t, D(s))
  }

  /** The built tree is an unrooted binary tree whose only path between two taxa has exactly the
      length that the path has in the tree the input came from. */
  lemma RunRebuildsTree(s: State, taxa: int, t: Tree)
    requires Initial(s, taxa) && InputOf(s, taxa, t)
    ensures Mapped(s, taxa) && SeedAlwaysBeaten(s, taxa)
    ensures UnrootedBinaryTree(Run(s, taxa).links, taxa)
    ensures forall x, y, p | 0 <= x < taxa && 0 <= y < taxa && x != y && IsPath(Run(s, taxa).links, p, x, y) ::
      Length(Run(s, taxa).dist, p) == t.PathLength(x, y)
  {
    TreeInput(s, taxa, t);
    BeatenIsHarmless(s, taxa);
    HarmlessRunIsTree(s, taxa);
    forall x, y, p | 0 <= x < taxa && 0 <= y < taxa && x != y && IsPath(Run(s, taxa).links, p, x, y)
      ensures Length(Run(s, taxa).dist, p) == t.PathLength(x, y)
    {
      OnlyPathRealizes(s, taxa, x, y, p, Run(s, taxa));
      assert D(s)(x, y) == t.PathLength(x, y);
    }
  }

  lemma TreeInput(s: State, taxa: int, t: Tree)
    requires Initial(s, taxa) && InputOf(s, taxa, t)
    ensures Linked(s, taxa) && Active(s) == t.Taxa() && Additive(D(s), Active(s)) && SeedAlwaysBeaten(s, taxa)
  {
    InitialLinked(s, taxa);
    assert Active(s) == t.Taxa();
    TreeIsAdditive(t, D(s));
    assert D(s)(0, 1) > 0.0;
    AdditiveBeatsSeed(s, taxa);
  }

  lemma OnlyPathRealizes(s: State, taxa: int, x: int, y: int, p: seq<int>, final: State)
    requires Linked(s, taxa) && Additive(D(s), Active(s)) && SeedAlwaysBeaten(s, taxa) && final == Run(s, taxa)
    requires UnrootedBinaryTree(final.links, taxa) && 0 <= x < 2 * taxa - 2 && 0 <= y < 2 * taxa - 2
    requires x in Active(s) && y in Active(s) && x != y && IsPath(final.links, p, x, y)
    ensures Length(final.dist, p) == D(s)(x, y)
  {
    var q := RunRealizes(s, taxa, x, y);
    assert JoinedOnce(final.links, x, y);
  }
}

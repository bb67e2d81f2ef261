/** What a run leaves in the matrix and prints, for any symmetric input: every inner node with the nodes that it
    joined, tree metric or not. */
module JoiningLengths {
  import opened RealSums
  import opened TreeMetrics
  import opened QCriterion
  import opened CherryReduction
  import opened JoiningModel
  import opened LinkTree
  import opened JoiningRuns

  // ----- one join

  /** The entries for the node u that joins f and g, one of |a| active nodes each: the two edges sum to their
      distance, the edges differ by what the other nodes are farther from f than from g on average, and every other
      node is as far from u as from f and g on average, less half their distance. */
  ghost predicate JoinEntries(d: Matrix, a: set<int>, f: int, g: int, u: nat) {
    && f in a && g in a && f != g
    && d(f, u) + d(g, u) == d(f, g) && d(u, f) == d(f, u) && d(u, g) == d(g, u)
    && (|a| - 2) as real * (d(f, u) - d(g, u)) == SumOver(a - {f, g}, u, k => d(f, k) - d(g, k))
    && forall k {:trigger d(u, k)} {:trigger d(k, u)} | k in a - {f, g} ::
      2.0 * d(u, k) + d(f, g) == d(f, k) + d(g, k) && d(k, u) == d(u, k)
  }

  /** The same by the formulas, whatever the distances. */
  lemma FormulasFit(d: Matrix, a: set<int>, f: int, g: int, u: nat)
    requires Symmetric(d, a) && Below(a, u) && f in a && g in a && f != g && |a| > 2
    ensures EdgeLength(d, a, u, f, g) + EdgeLength(d, a, u, g, f) == d(f, g)
    ensures (|a| - 2) as real * (EdgeLength(d, a, u, f, g) - EdgeLength(d, a, u, g, f)) ==
      SumOver(a - {f, g}, u, k => d(f, k) - d(g, k))
    ensures forall k :: 2.0 * JoinDistance(d, f, g, k) + d(f, g) == d(f, k) + d(g, k)
  {
    hide RowSum, SumOver;
    var m, p := (|a| - 2) as real, RowSum(d, a, u, f) - RowSum(d, a, u, g);
    assert d(f, g) == d(g, f);
    Halves(d(f, g), p, m);
    RowsDiffer(d, a, f, g, u);
  }

  lemma Halves(x: real, p: real, m: real)
    requires m > 0.0
    ensures (x + p / m) / 2.0 + (x + (-p) / m) / 2.0 == x
    ensures m * ((x + p / m) / 2.0 - (x + (-p) / m) / 2.0) == p
  {
    assert (-p) / m == -(p / m);
    assert m * (p / m) == p;
  }

  /** The row sums of f and g differ by what the other nodes make. */
  lemma RowsDiffer(d: Matrix, a: set<int>, f: int, g: int, u: nat)
    requires Symmetric(d, a) && Below(a, u) && f in a && g in a && f != g
    ensures RowSum(d, a, u, f) - RowSum(d, a, u, g) == SumOver(a - {f, g}, u, k => d(f, k) - d(g, k))
  {
    hide SumOver;
    var diff := RowDifference(d, a, u, f, g);
    SumExtract(a, u, f, diff);
    SumExtract(a - {f}, u, g, diff);
    assert a - {f} - {g} == a - {f, g};
    SumCongruent(a - {f, g}, a - {f, g}, u, diff, k => d(f, k) - d(g, k));
    assert d(f, g) == d(g, f);
  }

  // ----- the pair that is joined

  /** The quantity that neighbor joining makes least, for the nodes x and y of a. */
  ghost function Criterion(d: Matrix, a: set<int>, u: nat, x: int, y: int): real {
    (|a| - 2) as real * d(x, y) - SumOver(a, u, k => d(x, k)) - SumOver(a, u, k => d(y, k))
  }

  /** The pair f, g is of least criterion if that of any pair is below the distance of 0 and 1, with which the
      search starts; if none is, it is the pair 0, 1. */
  ghost predicate JoinsLeast(d: Matrix, a: set<int>, u: nat, f: int, g: int) {
    if exists x, y :: IsBelowStart(d, a, u, x, y) then
      forall x, y {:trigger Criterion(d, a, u, x, y)} | x in a && y in a && x != y ::
        Criterion(d, a, u, f, g) <= Criterion(d, a, u, x, y)
    else f == 0 && g == 1
  }

  ghost predicate IsBelowStart(d: Matrix, a: set<int>, u: nat, x: int, y: int) {
    x in a && y in a && x != y && Criterion(d, a, u, x, y) < d(0, 1)
  }

  ghost predicate SameEntries(d: Matrix, e: Matrix, a: set<int>) {
    forall i, j {:trigger e(i, j)} | i in a && j in a :: e(i, j) == d(i, j)
  }

  lemma CriterionIsQ(d: Matrix, e: Matrix, a: set<int>, u: nat, x: int, y: int)
    requires x in a && y in a && SameEntries(d, e, a)
    ensures Criterion(e, a, u, x, y) == Q(d, a, u, x, y)
  {
    hide SumOver;
    SumCongruent(a, a, u, k => e(x, k), k => d(x, k));
    SumCongruent(a, a, u, k => e(y, k), k => d(y, k));
    SumCongruent(a, a, u, c => d(x, c), k => d(x, k));
    SumCongruent(a, a, u, c => d(y, c), k => d(y, k));
  }

  lemma ChoiceIsLeast(s: State, taxa: int, e: Matrix)
    requires Mapped(s, taxa) && Symmetric(D(s), Active(s)) && SeedHarmless(s) && e(0, 1) == At(s.dist, 0, 1)
    requires SameEntries(D(s), e, Active(s))
    ensures s.all >= 0 && JoinsLeast(e, Active(s), s.all, Choose(s).row, Choose(s).col)
  {
    hide Q, Criterion, Scan;
    var d, a, u := D(s), Active(s), s.all as nat;
    forall x, y | x in a && y in a
      ensures Criterion(e, a, u, x, y) == QOf(s, x, y)
    {
      CriterionIsQ(d, e, a, u, x, y);
    }
    if Beaten(s) {
      BeatenChoosesLeast(s, taxa);
      var i, j :| i in s.active && j in s.active && i != j && QOf(s, i, j) < At(s.dist, 0, 1);
      assert IsBelowStart(e, a, u, i, j);
    } else {
      UnbeatenKeepsSeed(s);
      forall x, y
        ensures !IsBelowStart(e, a, u, x, y)
      {
        assert x in a && y in a ==> x in s.active && y in s.active;
      }
    }
  }

  // ----- the nodes active at a join, seen from the final links

  /** The nodes that exist and have no parent yet when node u is created. */
  ghost function ActiveAt(links: seq<seq<int>>, u: nat): set<int> {
    set v | 0 <= v < u && v < |links| && |links[v]| > 0 && links[v][0] >= u
  }

  /** Node u with its children, in the final matrix. */
  ghost predicate JoinedAs(t: State, u: nat) {
    && u < |t.links| && |t.links[u]| == 3
    && JoinEntries(Entries(t.dist), ActiveAt(t.links, u), t.links[u][1], t.links[u][2], u)
    && JoinsLeast(Entries(t.dist), ActiveAt(t.links, u), u, t.links[u][1], t.links[u][2])
  }

  /** One iteration of a run with a harmless seed. */
  lemma HarmlessStep(s: State, taxa: int) returns (t: State, f: int, g: int)
    requires Linked(s, taxa) && SeedAlwaysHarmless(s, taxa) && Symmetric(D(s), Active(s)) && |s.active| > 2
    ensures Linked(t, taxa) && SeedAlwaysHarmless(t, taxa) && Symmetric(D(t), Active(t)) && Run(s, taxa) == Run(t, taxa)
    ensures JoinStep(s, t, f, g) && Places(s, t, f, g) && |t.active| == |s.active| - 1 && t.all == s.all + 1
    ensures f == Choose(s).row && g == Choose(s).col && SeedHarmless(s)
    ensures Shape(Run(t, taxa)) && Extends(t, Run(t, taxa))
  {
    hide Linked, Symmetric, D, Active, Beaten, Run, Places, Additive, Cherry;
    t, f, g := GoodStep(s, taxa);
    RunExtends(t, taxa);
  }

  /** The parent of v is node low or a later one. */
  ghost predicate ParentFrom(links: seq<seq<int>>, v: int, low: int) {
    0 <= v < |links| && |links[v]| > 0 && links[v][0] >= low
  }

  /** A node that is active is given its parent by a later join, or by the last edge. */
  lemma {:induction false} ParentsComeLater(s: State, taxa: int, v: int)
    requires Linked(s, taxa) && SeedAlwaysHarmless(s, taxa) && Symmetric(D(s), Active(s))
    requires v in s.active && v < 2 * taxa - 3
    ensures ParentFrom(Run(s, taxa).links, v, if |s.active| > 2 then s.all else s.all - 1)
    decreases |s.active|
  {
    hide D, Active, Beaten, Places, Symmetric, Mapped, SeedAlwaysHarmless, JoinStep, Extends, Run, ParentFrom;
    LastNode(s, taxa);
    if |s.active| == 2 {
      CloseGivesParent(s, taxa, v);
    } else {
      var t, f, g := HarmlessStep(s, taxa);
      if v == f || v == g {
        JoinGivesParent(s, t, f, g, Run(t, taxa), v);
      } else {
        JoinStaysActive(s, t, f, g, v);
        ParentsComeLater(t, taxa, v);
        ParentFromLower(Run(t, taxa).links, v, if |t.active| > 2 then t.all else t.all - 1, s.all);
      }
    }
  }

  lemma ParentFromLower(links: seq<seq<int>>, v: int, low: int, lower: int)
    requires ParentFrom(links, v, low) && lower <= low
    ensures ParentFrom(links, v, lower)
  {
  }

  lemma JoinGivesParent(s: State, t: State, f: int, g: int, final: State, v: int)
    requires JoinStep(s, t, f, g) && (v == f || v == g) && Shape(final) && Extends(t, final)
    ensures ParentFrom(final.links, v, s.all)
  {
    assert v !in t.active && t.links[v][0] == s.all;
  }

  lemma JoinStaysActive(s: State, t: State, f: int, g: int, v: int)
    requires JoinStep(s, t, f, g) && v != f && v != g && v in s.active
    ensures v in t.active
  {
  }

  lemma CloseGivesParent(s: State, taxa: int, v: int)
    requires Linked(s, taxa) && |s.active| == 2 && v in s.active && v < 2 * taxa - 3
    ensures ParentFrom(Run(s, taxa).links, v, s.all - 1)
  {
    assert ParentLinked(s, s.all - 1);
    assert Close(s, taxa).links[v][0] == s.all - 1;
  }

  lemma ActiveSeenLater(s: State, taxa: int)
    requires Linked(s, taxa) && SeedAlwaysHarmless(s, taxa) && Symmetric(D(s), Active(s)) && |s.active| > 2
    ensures ActiveAt(Run(s, taxa).links, s.all) == Active(s)
  {
    RunExtends(s, taxa);
    var final := Run(s, taxa);
    forall v | 0 <= v < s.all
      ensures final.links[v][0] >= s.all <==> v in s.active
    {
      if v in s.active {
        ParentsComeLater(s, taxa, v);
      } else {
        assert ParentLinked(s, v);
      }
    }
  }

  /** e has the entries of d, and those that the formulas give for u. */
  ghost predicate Entered(d: Matrix, e: Matrix, a: set<int>, f: int, g: int, u: nat) {
    && |a| > 2 && SameEntries(d, e, a)
    && e(f, u) == EdgeLength(d, a, u, f, g) && e(g, u) == EdgeLength(d, a, u, g, f)
    && e(u, f) == e(f, u) && e(u, g) == e(g, u)
    && forall k {:trigger e(u, k)} {:trigger e(k, u)} | k in a - {f, g} ::
      e(u, k) == JoinDistance(d, f, g, k) && e(k, u) == e(u, k)
  }

  lemma EnteredFit(d: Matrix, e: Matrix, a: set<int>, f: int, g: int, u: nat)
    requires Symmetric(d, a) && Below(a, u) && f in a && g in a && f != g && Entered(d, e, a, f, g, u)
    ensures JoinEntries(e, a, f, g, u)
  {
    hide SumOver, EdgeLength, JoinDistance;
    FormulasFit(d, a, f, g, u);
    SumCongruent(a - {f, g}, a - {f, g}, u, k => d(f, k) - d(g, k), k => e(f, k) - e(g, k));
    assert e(f, g) == d(f, g);
  }

  lemma EntersFormulas(s: State, t: State, f: int, g: int, final: State)
    requires JoinStep(s, t, f, g) && Places(s, t, f, g) && Shape(final) && Extends(t, final)
    ensures Entered(D(s), D(final), Active(s), f, g, s.all) && SameEntries(D(s), D(final), Active(s))
  {
    hide EdgeLength, JoinDistance;
    var d, e, a, u := D(s), D(final), Active(s), s.all;
    forall i, j | i in a && j in a
      ensures e(i, j) == d(i, j)
    {
      assert final.dist[i][j] == t.dist[i][j] && t.dist[i][j] == s.dist[i][j];
    }
    forall k | k in a
      ensures e(k, u) == D(t)(k, u) && e(u, k) == D(t)(u, k)
    {
      assert final.dist[k][u] == t.dist[k][u] && final.dist[u][k] == t.dist[u][k];
    }
  }

  /** The join that s makes, in the matrix that the run ends with. */
  lemma StepJoinedAs(s: State, taxa: int)
    requires Linked(s, taxa) && SeedAlwaysHarmless(s, taxa) && Symmetric(D(s), Active(s)) && |s.active| > 2
    ensures JoinedAs(Run(s, taxa), s.all)
  {
    hide JoinEntries, Entered, Run, SeedAlwaysHarmless, D, ActiveAt, Active, Mapped, Symmetric, Places, JoinStep,
      Extends, SeedHarmless, JoinsLeast, Choose, Entries, At;
    LastNode(s, taxa);
    ActiveSeenLater(s, taxa);
    var t, f, g := HarmlessStep(s, taxa);
    var final := Run(t, taxa);
    EntersFormulas(s, t, f, g, final);
    JoinedHere(s, t, f, g, final);
    EnteredFit(D(s), D(final), Active(s), f, g, s.all);
    ChoiceIsLeast(s, taxa, D(final));
  }

  lemma JoinedHere(s: State, t: State, f: int, g: int, final: State)
    requires JoinStep(s, t, f, g) && Places(s, t, f, g) && Shape(final) && Extends(t, final) && s.all >= 2
    ensures f in Active(s) && g in Active(s) && f != g && Below(Active(s), s.all)
    ensures s.all < |final.links| && |final.links[s.all]| == 3
    ensures final.links[s.all][1] == f && final.links[s.all][2] == g && D(final) == Entries(final.dist)
    ensures D(final)(0, 1) == At(s.dist, 0, 1)
  {
  }

  ghost predicate AllJoined(t: State, from: int, taxa: int) {
    forall u: nat {:trigger JoinedAs(t, u)} | from <= u < 2 * taxa - 2 :: JoinedAs(t, u)
  }

  /** Every join of a run with a harmless seed. */
  lemma {:induction false} RunJoins(s: State, taxa: int)
    requires Linked(s, taxa) && SeedAlwaysHarmless(s, taxa) && Symmetric(D(s), Active(s))
    ensures AllJoined(Run(s, taxa), s.all, taxa)
    decreases |s.active|
  {
    hide JoinedAs, Run, D, Active, Beaten, Places, JoinStep, Additive, Symmetric, Linked, SeedAlwaysHarmless, Extends;
    LastNode(s, taxa);
    if |s.active| > 2 {
      StepJoinedAs(s, taxa);
      var t, f, g := HarmlessStep(s, taxa);
      RunJoins(t, taxa);
    }
  }

  lemma LastNode(s: State, taxa: int)
    requires Linked(s, taxa)
    ensures |s.active| >= 2 && s.all >= 2 && s.all >= taxa && (|s.active| == 2 ==> s.all == 2 * taxa - 2)
  {
    assert s.active[1] < s.all && s.active[|s.active| - 1] < s.all;
  }

  // ----- what is printed

  /** The two edges of node u are printed when it is created, that of its first child first; their lengths sum to
      the distance of the children. */
  ghost predicate PrintsJoin(t: State, taxa: nat, u: nat) {
    var k := 2 * (u - taxa);
    && u < |t.links| && |t.links[u]| == 3 && 0 <= k < |t.edges| - 1
    && t.edges[k].first == t.links[u][1] && t.edges[k + 1].first == t.links[u][2]
    && t.edges[k].second == u == t.edges[k + 1].second
    && t.edges[k].length == At(t.dist, t.links[u][1], u) && t.edges[k + 1].length == At(t.dist, t.links[u][2], u)
    && t.edges[k].length + t.edges[k + 1].length == At(t.dist, t.links[u][1], t.links[u][2])
  }

  ghost predicate AllPrinted(t: State, from: int, taxa: nat) {
    forall u: nat {:trigger PrintsJoin(t, taxa, u)} | from <= u < 2 * taxa - 2 :: PrintsJoin(t, taxa, u)
  }

  ghost predicate PrintedSoFar(s: State, taxa: nat) {
    |s.edges| == 2 * (s.all - taxa)
  }

  /** What has been printed stays, and every join prints its edges next. */
  lemma {:induction false} RunPrints(s: State, taxa: nat)
    requires Linked(s, taxa) && SeedAlwaysHarmless(s, taxa) && Symmetric(D(s), Active(s)) && PrintedSoFar(s, taxa)
    ensures s.edges <= Run(s, taxa).edges && AllPrinted(Run(s, taxa), s.all, taxa)
    decreases |s.active|
  {
    hide PrintsJoin, AllPrinted, D, Active, Mapped, Beaten, Places, JoinStep, Symmetric, SeedAlwaysHarmless, Extends,
      JoinedAs, Run, PrintedSoFar;
    LastNode(s, taxa);
    if |s.active| == 2 {
      ClosePrints(s, taxa);
    } else {
      StepJoinedAs(s, taxa);
      var t, f, g := HarmlessStep(s, taxa);
      StepPrints(s, t, f, g, taxa);
      RunPrints(t, taxa);
      JoinIsPrinted(s, t, f, g, Run(t, taxa), taxa);
      PrintedFrom(Run(t, taxa), s.all, taxa);
    }
  }

  lemma ClosePrints(s: State, taxa: nat)
    requires Mapped(s, taxa) && |s.active| == 2
    ensures s.edges <= Run(s, taxa).edges && s.all >= 0 && AllPrinted(Run(s, taxa), s.all, taxa)
  {
    hide PrintsJoin;
  }

  lemma PrintedFrom(t: State, from: nat, taxa: nat)
    requires PrintsJoin(t, taxa, from) && AllPrinted(t, from + 1, taxa)
    ensures AllPrinted(t, from, taxa)
  {
    hide PrintsJoin;
  }

  lemma StepPrints(s: State, t: State, f: int, g: int, taxa: nat)
    requires JoinStep(s, t, f, g) && PrintedSoFar(s, taxa)
    ensures PrintedSoFar(t, taxa) && s.edges <= t.edges
  {
  }

  lemma JoinIsPrinted(s: State, t: State, f: int, g: int, final: State, taxa: nat)
    requires JoinStep(s, t, f, g) && PrintedSoFar(s, taxa) && Shape(final) && Extends(t, final)
    requires t.edges <= final.edges && s.all >= taxa && JoinedAs(final, s.all)
    ensures PrintsJoin(final, taxa, s.all)
  {
    hide JoinsLeast, ActiveAt, SumOver;
    var k, u := |s.edges|, s.all;
    assert final.edges[k] == t.edges[k] && final.edges[k + 1] == t.edges[k + 1];
    assert final.links[u][1] == f && final.links[u][2] == g;
    assert final.dist[f][u] == t.dist[f][u] && final.dist[g][u] == t.dist[g][u];
    var d := Entries(final.dist);
    assert d(f, u) == At(final.dist, f, u) && d(g, u) == At(final.dist, g, u) && d(f, g) == At(final.dist, f, g);
  }

  /** No run changes the distances that are there already. */
  lemma {:induction false} RunKeepsInput(s: State, taxa: int)
    requires Mapped(s, taxa)
    ensures Shape(Run(s, taxa))
    ensures forall i, j {:trigger At(Run(s, taxa).dist, i, j)} | 0 <= i < s.all && 0 <= j < s.all ::
      At(Run(s, taxa).dist, i, j) == s.dist[i][j]
    decreases |s.active|
  {
    hide Extend, Choose, Relink, Reactivate;
    if |s.active| > 2 {
      StepKeepsMap(s, taxa);
      ChosenInRange(s, taxa);
      ExtendKeeps(s, Choose(s).row, Choose(s).col);
      RunKeepsInput(Step(s, taxa), taxa);
    }
  }
}

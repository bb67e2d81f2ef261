/** Filling the frequency tables of a course from its roster. */
module CourseStatistics {
  import opened Gradebook
  import opened FrequencyTables
  import opened CourseLinks

  /** Scores that enter the frequency tables. */
  predicate Counts(sc: Score) {
    sc.flag == VALID || sc.subst == USERAW
  }

  ghost function Once(condition: bool, grade: real): seq<real> {
    if condition then [grade] else []
  }

  /** The grades that scores contribute to the table st, in order. */
  ghost function Tallied(scores: seq<Score>, st: Statistics): seq<real>
    reads scores`cstats, scores`sstats
  {
    if scores == [] then []
    else
      var n := |scores| - 1;
      var sc := scores[n];
      Tallied(scores[..n], st) + Once(Counts(sc) && sc.cstats == st, sc.grade)
        + Once(Counts(sc) && sc.sstats == st, sc.grade)
  }

  ghost function AllScores(all: seq<Student>): seq<Score> {
    if all == [] then [] else AllScores(all[..|all| - 1]) + all[|all| - 1].rawscores
  }

  /** The table of st stands for what the scores contribute to it. */
  ghost predicate TableFor(scores: seq<Score>, st: Statistics)
    reads st, scores`cstats, scores`sstats
  {
    Represents(st.freqs, Tallied(scores, st)) && st.tallied == |Tallied(scores, st)|
  }

  ghost predicate TablesFor(scores: seq<Score>, tables: set<Statistics>)
    reads tables, scores`cstats, scores`sstats
  {
    forall st {:trigger st in tables} | st in tables :: TableFor(scores, st)
  }

  /** Every score that counts points at tables. */
  ghost predicate PointsInto(scores: seq<Score>, tables: set<Statistics>)
    reads scores`cstats, scores`sstats
  {
    forall i {:trigger scores[i]} | 0 <= i < |scores| && Counts(scores[i]) ::
      scores[i].cstats in tables && scores[i].sstats in tables
  }

  method Tally(st: Statistics, grade: real, ghost scores: seq<real>)
    requires Represents(st.freqs, scores) && st.tallied == |scores|
    modifies st`freqs, st`tallied
    ensures Represents(st.freqs, scores + [grade]) && st.tallied == |scores| + 1
  {
    st.freqs := CountScore(grade, st.freqs, scores);
    st.tallied := st.tallied + 1;
  }

  lemma TalliedNext(done: seq<Score>, scp: Score, st: Statistics)
    ensures
      var was, now := Tallied(done, st), Tallied(done + [scp], st);
      if !Counts(scp) || (scp.cstats != st && scp.sstats != st) then now == was
      else if scp.cstats == st && scp.sstats == st then now == was + [scp.grade] + [scp.grade]
      else now == was + [scp.grade]
  {
    assert (done + [scp])[..|done|] == done;
    assert forall s: seq<real> :: s + [] == s;
  }

  /** The body of do_freqs' inner loop. */
  method TallyScore(scp: Score, ghost done: seq<Score>, ghost tables: set<Statistics>)
    requires TablesFor(done, tables) && PointsInto([scp], tables)
    modifies tables`freqs, tables`tallied
    ensures TablesFor(done + [scp], tables)
  {
    hide Represents, Tallied;
    assert [scp][0] == scp;
    if scp.flag == VALID || scp.subst == USERAW {
      assert TableFor(done, scp.cstats) && TableFor(done, scp.sstats);
      ghost var was, other := Tallied(done, scp.cstats), Tallied(done, scp.sstats);
      Tally(scp.cstats, scp.grade, was);
      Tally(scp.sstats, scp.grade, if scp.cstats == scp.sstats then was + [scp.grade] else other);
    }
    forall st | st in tables
      ensures TableFor(done + [scp], st)
    {
      TalliedNext(done, scp, st);
      assert old(TableFor(done, st));
    }
  }

  /** do_freqs: every table reached comes to stand for the scores that point at it. */
  method DoFreqs(c: Course, ghost all: seq<Student>, ghost scores: seq<Score>, ghost tables: set<Statistics>)
    requires ChainOf(c.roster, all, CNext) && scores == AllScores(all) && PointsInto(scores, tables)
    requires forall st {:trigger st in tables} | st in tables :: st.freqs == [] && st.tallied == 0
    modifies tables`freqs, tables`tallied
    ensures TablesFor(scores, tables)
  {
    hide TableFor, Tallied, Represents, PointsInto;
    var stp := c.roster;
    ghost var n := 0;
    EmptyTables(tables);
    while stp != null
      invariant 0 <= n <= |all| && stp == Nth(all, n) && ChainOf(c.roster, all, CNext)
      invariant TablesFor(AllScores(all[..n]), tables) && PointsInto(scores, tables)
      decreases |all| - n
    {
      assert LinkOf(all[n], CNext) == Nth(all, n + 1);
      TallyStudent(stp, all, n, scores, tables);
      stp := stp.cnext;
      n := n + 1;
    }
    assert all[..n] == all;
  }

  lemma EmptyTables(tables: set<Statistics>)
    requires forall st {:trigger st in tables} | st in tables :: st.freqs == [] && st.tallied == 0
    ensures TablesFor([], tables)
  {
    forall st | st in tables
      ensures TableFor([], st)
    {
    }
  }

  /** The inner loop of do_freqs. */
  method TallyStudent(stp: Student, ghost all: seq<Student>, ghost n: nat, ghost scores: seq<Score>,
      ghost tables: set<Statistics>)
    requires n < |all| && stp == all[n] && scores == AllScores(all)
    requires TablesFor(AllScores(all[..n]), tables) && PointsInto(scores, tables)
    modifies tables`freqs, tables`tallied
    ensures TablesFor(AllScores(all[..n + 1]), tables)
  {
    hide TableFor, Tallied, Represents, TablesFor, PointsInto;
    ghost var before := AllScores(all[..n]);
    var i := 0;
    assert before + stp.rawscores[..0] == before;
    while i < |stp.rawscores|
      invariant 0 <= i <= |stp.rawscores|
      invariant TablesFor(before + stp.rawscores[..i], tables) && PointsInto(scores, tables)
    {
      OneOfAll(all, n, i, tables);
      TallyScore(stp.rawscores[i], before + stp.rawscores[..i], tables);
      assert before + stp.rawscores[..i] + [stp.rawscores[i]] == before + stp.rawscores[..i + 1];
      i := i + 1;
    }
    assert all[..n + 1][..n] == all[..n] && stp.rawscores[..i] == stp.rawscores;
  }

  lemma OneOfAll(all: seq<Student>, n: nat, i: nat, tables: set<Statistics>)
    requires n < |all| && i < |all[n].rawscores| && PointsInto(AllScores(all), tables)
    ensures PointsInto([all[n].rawscores[i]], tables)
  {
    ScoreAt(all, n, i);
    var k :| 0 <= k < |AllScores(all)| && AllScores(all)[k] == all[n].rawscores[i];
  }

  lemma {:induction false} ScoreAt(all: seq<Student>, n: nat, i: nat)
    requires n < |all| && i < |all[n].rawscores|
    ensures all[n].rawscores[i] in AllScores(all)
    decreases |all|
  {
    if n < |all| - 1 {
      ScoreAt(all[..|all| - 1], n, i);
    }
  }

  // ----- do_quantiles

  /** The table has its quantile fields and stands for the same scores. */
  ghost predicate Finished(scores: seq<Score>, st: Statistics)
    reads st, scores`cstats, scores`sstats
  {
    TableFor(scores, st) && Quantiled(st.freqs)
  }

  method FinishTable(st: Statistics, ghost scores: seq<Score>)
    requires TableFor(scores, st)
    modifies st`freqs
    ensures Finished(scores, st)
  {
    ghost var t := st.freqs;
    st.freqs := FillQuantiles(st.freqs);
    SameRepresents(t, st.freqs, Tallied(scores, st));
  }

  /** do_quantiles: all listed tables are finished. */
  method DoQuantiles(cstats: seq<Statistics>, sstats: seq<seq<Statistics>>, ghost scores: seq<Score>,
      ghost tables: set<Statistics>)
    requires TablesFor(scores, tables) && |sstats| == |cstats|
    requires forall a {:trigger cstats[a]} | 0 <= a < |cstats| :: cstats[a] in tables
    requires forall a, k {:trigger sstats[a][k]} | 0 <= a < |sstats| && 0 <= k < |sstats[a]| :: sstats[a][k] in tables
    modifies tables`freqs
    ensures TablesFor(scores, tables)
    ensures forall a {:trigger cstats[a]} | 0 <= a < |cstats| :: Finished(scores, cstats[a])
    ensures forall a, k {:trigger sstats[a][k]} | 0 <= a < |sstats| && 0 <= k < |sstats[a]| ::
      Finished(scores, sstats[a][k])
  {
    hide TableFor, Quantiled;
    ghost var done: set<Statistics> := {};
    var a := 0;
    while a < |cstats|
      invariant 0 <= a <= |cstats| && TablesFor(scores, tables) && done <= tables
      invariant forall st {:trigger st in done} | st in done :: Finished(scores, st)
      invariant forall b {:trigger cstats[b]} | 0 <= b < a :: cstats[b] in done
      invariant forall b, k {:trigger sstats[b][k]} | 0 <= b < a && 0 <= k < |sstats[b]| :: sstats[b][k] in done
    {
      FinishTable(cstats[a], scores);
      done := done + {cstats[a]};
      var k := 0;
      while k < |sstats[a]|
        invariant 0 <= k <= |sstats[a]| && TablesFor(scores, tables) && done <= tables && cstats[a] in done
        invariant forall st {:trigger st in done} | st in done :: Finished(scores, st)
        invariant forall b {:trigger cstats[b]} | 0 <= b < a :: cstats[b] in done
        invariant forall b, l {:trigger sstats[b][l]} | 0 <= b < a && 0 <= l < |sstats[b]| :: sstats[b][l] in done
        invariant forall l {:trigger sstats[a][l]} | 0 <= l < k :: sstats[a][l] in done
      {
        FinishTable(sstats[a][k], scores);
        done := done + {sstats[a][k]};
        k := k + 1;
      }
      a := a + 1;
    }
  }

  // ----- what the tables come to

  /** The grades of those scores that count and are in the set, in roster order. */
  ghost function GradesOf(scores: seq<Score>, on: set<Score>): seq<real> {
    if scores == [] then []
    else
      var n := |scores| - 1;
      GradesOf(scores[..n], on) + Once(Counts(scores[n]) && scores[n] in on, scores[n].grade)
  }

  ghost function OnAssignment(scores: seq<Score>, ap: Assignment): set<Score> {
    set sc | sc in scores && sc.asgt == ap
  }

  ghost function InSection(roster: seq<Student>, ap: Assignment): set<Score> {
    set x, sc | x in roster && sc in x.rawscores && sc.asgt == ap :: sc
  }

  /** A table that the scores of a set point at, each once, stands for their grades. */
  lemma {:induction false} TalliedIsGrades(scores: seq<Score>, st: Statistics, on: set<Score>)
    requires forall i {:trigger scores[i]} | 0 <= i < |scores| && Counts(scores[i]) ::
      PointsOnce(scores[i], st, scores[i] in on)
    ensures Tallied(scores, st) == GradesOf(scores, on)
  {
    if scores != [] {
      TalliedIsGrades(scores[..|scores| - 1], st, on);
      assert PointsOnce(scores[|scores| - 1], st, scores[|scores| - 1] in on) || !Counts(scores[|scores| - 1]);
      assert forall s: seq<real> :: s + [] == s;
    }
  }

  /** One of the score's pointers leads to st, or neither. */
  ghost predicate PointsOnce(sc: Score, st: Statistics, points: bool)
    reads sc`cstats, sc`sstats
  {
    if points then (sc.cstats == st) != (sc.sstats == st) else sc.cstats != st && sc.sstats != st
  }

  /** Every table is a table of its own. */
  ghost predicate DistinctTables(cstats: seq<Statistics>, sstats: seq<seq<Statistics>>) {
    && (forall a, b {:trigger cstats[a], cstats[b]} | 0 <= a < b < |cstats| :: cstats[a] != cstats[b])
    && (forall a, b, k {:trigger cstats[a], sstats[b][k]} |
      0 <= a < |cstats| && 0 <= b < |sstats| && 0 <= k < |sstats[b]| ::
          cstats[a] != sstats[b][k])
    && (forall a, k, b, l {:trigger sstats[a][k], sstats[b][l]} |
          0 <= a < |sstats| && 0 <= k < |sstats[a]| && 0 <= b < |sstats| && 0 <= l < |sstats[b]| && (a, k) != (b, l) ::
          sstats[a][k] != sstats[b][l])
  }

  /** The table of assignment a for the class (k < 0) or for section k. */
  ghost function TableOf(cstats: seq<Statistics>, sstats: seq<seq<Statistics>>, a: nat, k: int): Statistics
    requires a < |cstats| == |sstats| && k < |sstats[a]|
  {
    if k < 0 then cstats[a] else sstats[a][k]
  }

  /** The scores that belong in it. */
  ghost function BelongTo(scores: seq<Score>, rosters: seq<seq<Student>>, ap: Assignment, k: int): set<Score>
    requires k < |rosters|
  {
    if k < 0 then OnAssignment(scores, ap) else InSection(rosters[k], ap)
  }

  lemma {:induction false} StudentOf(all: seq<Student>, sc: Score) returns (n: nat)
    requires sc in AllScores(all)
    ensures n < |all| && sc in all[n].rawscores
  {
    n := |all| - 1;
    if sc !in all[n].rawscores {
      n := StudentOf(all[..|all| - 1], sc);
    }
  }

  /** Where do_links has left the pointers of a score. */
  lemma ScoreLinks(p: map<Score, (Statistics?, Statistics?)>, assignments: seq<Assignment>, cstats: seq<Statistics>,
                   sstats: seq<seq<Statistics>>, rosters: seq<seq<Student>>, owner: map<Score, int>, sc: Score)
    returns (a: nat, k: nat, j: nat)
    requires |assignments| == |cstats| == |sstats|
    requires PassesDone(p, assignments, |assignments|, cstats, sstats, rosters, owner)
    requires Owned(Concat(rosters), owner) && p.Keys == owner.Keys
    requires sc in AllScores(Concat(rosters)) && sc.asgt in assignments
    ensures a < |assignments| && sc.asgt == assignments[a] && k < |rosters| && k < |sstats[a]| && j < |rosters[k]|
    ensures sc in rosters[k][j].rawscores && sc in p && p[sc] == (cstats[a], sstats[a][k])
  {
    a :| 0 <= a < |assignments| && assignments[a] == sc.asgt;
    var n := StudentOf(Concat(rosters), sc);
    k, j := PlaceOf(rosters, n);
    LinkOfScore(p, assignments, cstats, sstats, rosters, owner, a, k, j, sc);
  }

  /** A score that two places have is in one section. */
  lemma OneSection(rosters: seq<seq<Student>>, owner: map<Score, int>, sc: Score, k: nat, j: nat, l: nat, x: Student)
    requires Owned(Concat(rosters), owner) && k < |rosters| && l < |rosters| && j < |rosters[k]|
    requires sc in rosters[k][j].rawscores && x in rosters[l] && sc in x.rawscores
    ensures l == k
  {
    var i :| 0 <= i < |rosters[l]| && rosters[l][i] == x;
    ConcatAt(rosters, k, j);
    ConcatAt(rosters, l, i);
    assert Owns(Concat(rosters)[Offset(rosters, k) + j], Offset(rosters, k) + j, owner);
    assert Owns(Concat(rosters)[Offset(rosters, l) + i], Offset(rosters, l) + i, owner);
    SectionOfAt(rosters, k, j);
    SectionOfAt(rosters, l, i);
  }

  /** Which table a score's pointers lead to. */
  lemma PointsWhereItBelongs(p: map<Score, (Statistics?, Statistics?)>, assignments: seq<Assignment>,
      cstats: seq<Statistics>,
                             sstats: seq<seq<Statistics>>, rosters: seq<seq<Student>>, owner: map<Score, int>,
                             scores: seq<Score>, sc: Score, a: nat, k: int)
    requires |assignments| == |cstats| == |sstats|
    requires PassesDone(p, assignments, |assignments|, cstats, sstats, rosters, owner)
    requires Owned(Concat(rosters), owner) && p.Keys == owner.Keys && scores == AllScores(Concat(rosters))
    requires DistinctAssignments(assignments) && DistinctTables(cstats, sstats)
    requires sc in scores && sc.asgt in assignments && a < |assignments| && k < |rosters| == |sstats[a]|
    ensures sc in p
    ensures
      var st, points := TableOf(cstats, sstats, a, k), sc in BelongTo(scores, rosters, assignments[a], k);
      if points then (p[sc].0 == st) != (p[sc].1 == st) else p[sc].0 != st && p[sc].1 != st
  {
    var b, l, j := ScoreLinks(p, assignments, cstats, sstats, rosters, owner, sc);
    assert b != a ==> sc.asgt != assignments[a];
    assert b != a ==> cstats[b] != cstats[a];
    assert cstats[a] != sstats[b][l];
    if k >= 0 {
      assert cstats[b] != sstats[a][k];
      assert (b, l) != (a, k) ==> sstats[b][l] != sstats[a][k];
      if x :| x in rosters[k] && sc in x.rawscores {
        OneSection(rosters, owner, sc, l, j, k, x);
      }
      assert rosters[l][j] in rosters[l];
    }
  }

  lemma LinksDecide(c: Course, cstats: seq<Statistics>, sstats: seq<seq<Statistics>>, all: seq<Student>,
                    rosters: seq<seq<Student>>, owner: map<Score, int>, scores: seq<Score>, a: nat, k: int)
    requires |c.assignments| == |cstats| == |sstats| && all == Concat(rosters) && scores == AllScores(all)
    requires PassesDone(Pointers(owner), c.assignments, |c.assignments|, cstats, sstats, rosters, owner)
    requires Owned(all, owner)
    requires DistinctAssignments(c.assignments) && DistinctTables(cstats, sstats)
    requires forall i {:trigger scores[i]} | 0 <= i < |scores| :: scores[i].asgt in c.assignments
    requires a < |c.assignments| && k < |rosters| == |sstats[a]|
    ensures Tallied(scores, TableOf(cstats, sstats, a, k)) ==
      GradesOf(scores, BelongTo(scores, rosters, c.assignments[a], k))
  {
    hide PassesDone, Owned, DistinctAssignments, DistinctTables, BelongTo, Concat, AllScores;
    var st, on := TableOf(cstats, sstats, a, k), BelongTo(scores, rosters, c.assignments[a], k);
    forall i | 0 <= i < |scores| && Counts(scores[i])
      ensures PointsOnce(scores[i], st, scores[i] in on)
    {
      PointsWhereItBelongs(Pointers(owner), c.assignments, cstats, sstats, rosters, owner, scores, scores[i], a, k);
    }
    TalliedIsGrades(scores, st, on);
  }

  lemma LinksReach(c: Course, cstats: seq<Statistics>, sstats: seq<seq<Statistics>>, all: seq<Student>,
                   rosters: seq<seq<Student>>, owner: map<Score, int>, scores: seq<Score>, tables: set<Statistics>)
    requires |c.assignments| == |cstats| == |sstats| && all == Concat(rosters) && scores == AllScores(all)
    requires PassesDone(Pointers(owner), c.assignments, |c.assignments|, cstats, sstats, rosters, owner)
    requires Owned(all, owner)
    requires forall i {:trigger scores[i]} | 0 <= i < |scores| :: scores[i].asgt in c.assignments
    requires AreTables(cstats, sstats, tables)
    ensures PointsInto(scores, tables)
  {
    hide PassesDone, Owned, Concat, AllScores;
    forall i | 0 <= i < |scores|
      ensures scores[i].cstats in tables && scores[i].sstats in tables
    {
      var b, l, j := ScoreLinks(Pointers(owner), c.assignments, cstats, sstats, rosters, owner, scores[i]);
    }
  }

  /** do_links, do_freqs and do_quantiles together: the table of every assignment, for the class and for
      each section, stands for exactly the grades of the counting scores that belong to it. */
  method Tables(c: Course, cstats: seq<Statistics>, sstats: seq<seq<Statistics>>, ghost all: seq<Student>,
                ghost rosters: seq<seq<Student>>, ghost owner: map<Score, int>, ghost scores: seq<Score>,
                ghost tables: set<Statistics>)
    requires CourseRosters(c.sections, all, rosters) && DistinctStudents(all) && Owned(all, owner)
    requires scores == AllScores(all)
    requires |cstats| == |sstats| == |c.assignments| > 0 && DistinctAssignments(c.assignments)
    requires DistinctTables(cstats, sstats)
    requires forall a {:trigger sstats[a]} | 0 <= a < |sstats| :: |sstats[a]| == |c.sections|
    requires forall i {:trigger scores[i]} | 0 <= i < |scores| :: scores[i].asgt in c.assignments
    requires AreTables(cstats, sstats, tables)
    requires forall st {:trigger st in tables} | st in tables :: st.freqs == [] && st.tallied == 0
    modifies c`roster, all`cnext, owner.Keys`cstats, owner.Keys`sstats, tables`freqs, tables`tallied
    ensures ChainOf(c.roster, all, CNext) && |rosters| == |c.sections| && all == Concat(rosters)
    ensures PassesDone(Pointers(owner), c.assignments, |c.assignments|, cstats, sstats, rosters, owner)
    ensures forall st {:trigger st in tables} | st in tables :: Increasing(st.freqs)
    ensures forall a: nat, k: int {:trigger TableOf(cstats, sstats, a, k)} | a < |cstats| && k < |c.sections| ::
      var st, on := TableOf(cstats, sstats, a, k), BelongTo(scores, rosters, c.assignments[a], k);
      && Represents(st.freqs, GradesOf(scores, on)) && st.tallied == |GradesOf(scores, on)| && Quantiled(st.freqs)
  {
    hide *;
    RostersAre(c.sections, all, rosters);
    DoLinks(c, cstats, sstats, all, rosters, owner);
    LinksReach(c, cstats, sstats, all, rosters, owner, scores, tables);
    DoFreqs(c, all, scores, tables);
    AreTablesListed(cstats, sstats, tables);
    DoQuantiles(cstats, sstats, scores, tables);
    TablesIncrease(scores, tables);
    TablesStand(c, cstats, sstats, all, rosters, owner, scores);
  }

  lemma TablesIncrease(scores: seq<Score>, tables: set<Statistics>)
    requires TablesFor(scores, tables)
    ensures forall st {:trigger st in tables} | st in tables :: Increasing(st.freqs)
  {
    hide Increasing, Tallied;
    forall st | st in tables
      ensures Increasing(st.freqs)
    {
      assert TableFor(scores, st);
    }
  }

  lemma RostersAre(sections: seq<Section>, all: seq<Student>, rosters: seq<seq<Student>>)
    requires CourseRosters(sections, all, rosters)
    ensures |rosters| == |sections| && all == Concat(rosters)
  {
  }

  lemma AreTablesListed(cstats: seq<Statistics>, sstats: seq<seq<Statistics>>, tables: set<Statistics>)
    requires AreTables(cstats, sstats, tables)
    ensures forall a {:trigger cstats[a]} | 0 <= a < |cstats| :: cstats[a] in tables
    ensures forall a, k {:trigger sstats[a][k]} | 0 <= a < |sstats| && 0 <= k < |sstats[a]| :: sstats[a][k] in tables
  {
  }

  lemma TablesStand(c: Course, cstats: seq<Statistics>, sstats: seq<seq<Statistics>>, all: seq<Student>,
                    rosters: seq<seq<Student>>, owner: map<Score, int>, scores: seq<Score>)
    requires |c.assignments| == |cstats| == |sstats| && all == Concat(rosters) && scores == AllScores(all)
    requires PassesDone(Pointers(owner), c.assignments, |c.assignments|, cstats, sstats, rosters, owner)
    requires Owned(all, owner)
    requires DistinctAssignments(c.assignments) && DistinctTables(cstats, sstats)
    requires forall i {:trigger scores[i]} | 0 <= i < |scores| :: scores[i].asgt in c.assignments
    requires forall a {:trigger sstats[a]} | 0 <= a < |sstats| :: |sstats[a]| == |rosters|
    requires forall a {:trigger cstats[a]} | 0 <= a < |cstats| :: Finished(scores, cstats[a])
    requires forall a, k {:trigger sstats[a][k]} | 0 <= a < |sstats| && 0 <= k < |sstats[a]| ::
      Finished(scores, sstats[a][k])
    ensures forall a: nat, k: int {:trigger TableOf(cstats, sstats, a, k)} | a < |cstats| && k < |rosters| ::
      var st, on := TableOf(cstats, sstats, a, k), BelongTo(scores, rosters, c.assignments[a], k);
      && Represents(st.freqs, GradesOf(scores, on)) && st.tallied == |GradesOf(scores, on)| && Quantiled(st.freqs)
  {
    hide PassesDone, Owned, DistinctAssignments, DistinctTables, Concat, AllScores, Represents, Quantiled, GradesOf,
      BelongTo, Tallied;
    forall a: nat, k: int | a < |cstats| && k < |rosters|
      ensures
        var st, on := TableOf(cstats, sstats, a, k), BelongTo(scores, rosters, c.assignments[a], k);
        && Represents(st.freqs, GradesOf(scores, on)) && st.tallied == |GradesOf(scores, on)| && Quantiled(st.freqs)
    {
      LinksDecide(c, cstats, sstats, all, rosters, owner, scores, a, k);
      assert Finished(scores, TableOf(cstats, sstats, a, k));
    }
  }

  /** tables are the tables listed. */
  ghost predicate AreTables(cstats: seq<Statistics>, sstats: seq<seq<Statistics>>, tables: set<Statistics>) {
    && (forall a {:trigger cstats[a]} | 0 <= a < |cstats| :: cstats[a] in tables)
    && (forall a, k {:trigger sstats[a][k]} | 0 <= a < |sstats| && 0 <= k < |sstats[a]| :: sstats[a][k] in tables)
  }
}

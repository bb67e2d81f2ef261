/** What normalizing a course leaves in its records, score by score and policy by policy. */
module NormalizedGrades {
  import opened Gradebook
  import opened FrequencyTables
  import opened CourseLinks
  import opened CourseStatistics
  import opened Normalizing
  import opened RosterNormalizing
  import opened TalliedScores

  /** A divisor that is too small is replaced. */
  function Raised(x: real): (d: real)
    ensures d > 0.0
  {
    if x < 0.000001 then 0.000002 else x
  }

  /** The grade that a score gets which is not normalized by quantile: m and d are mean and deviation of the class or
      the section, max is the declared maximum.  Under LINEAR the mean goes to the assignment's mean, and one
      deviation from it is one deviation of the assignment from that. */
  predicate Transformed(sc: Score, grade: real, m: real, d: real, max: real) {
    match sc.asgt.npolicy
    case RAW => grade == sc.grade
    case LINEAR => (grade - sc.asgt.mean) * d == sc.asgt.stddev * (sc.grade - m)
    case SCALE => grade * max == sc.grade * sc.asgt.scale
    case QUANTILE => true
  }

  /** A valid score, or an invalid one for which its raw grade is used, on an assignment of type t. */
  predicate IsLike(sc: Score, t: string) {
    (sc.flag == VALID || sc.subst == USERAW) && sc.asgt.atype == t
  }

  /** The normalized grades among the first j of student x that are on assignments of type t, times their weights. */
  ghost function LikeTotal(x: Student, t: string, j: nat): real
    requires j <= |x.rawscores| && j <= |x.normscores|
    reads x
  {
    if j == 0 then 0.0
    else
      var sc := x.rawscores[j - 1];
      LikeTotal(x, t, j - 1) +
      if IsLike(sc, t) then x.normscores[j - 1].grade * (if sc.asgt.weighted then sc.asgt.weight else 1.0) else 0.0
  }

  /** And the weights. */
  ghost function LikeWeight(x: Student, t: string, j: nat): real
    requires j <= |x.rawscores|
  {
    if j == 0 then 0.0
    else
      var sc := x.rawscores[j - 1];
      LikeWeight(x, t, j - 1) + if IsLike(sc, t) && sc.asgt.weighted then sc.asgt.weight else 0.0
  }

  /** The weighted average of the student's normalized grades on like assignments; 0 without weight. */
  ghost predicate IsAverage(x: Student, t: string, grade: real)
    requires |x.normscores| == |x.rawscores|
    reads x
  {
    var w := LikeWeight(x, t, |x.rawscores|);
    if w == 0.0 then grade == 0.0 else grade * w == LikeTotal(x, t, |x.rawscores|)
  }

  /** Normalized score i of student x. */
  ghost predicate Graded(x: Student, i: nat, m: real, d: real, max: real)
    requires i < |x.rawscores|
    reads x
  {
    && |x.normscores| == |x.rawscores|
    && var sc, ns := x.rawscores[i], x.normscores[i];
    && ns.asgt == sc.asgt && ns.flag == sc.flag && ns.subst == sc.subst
    && if sc.flag == VALID || sc.subst == USERAW then Transformed(sc, ns.grade, m, d, max)
       else
         match sc.subst
         case USENORM => ns.grade == if sc.asgt.npolicy == QUANTILE then sc.qnorm else sc.lnorm
         case USELIKEAVG => IsAverage(x, sc.asgt.atype, ns.grade)
         case USECLASSAVG => ns.grade == if sc.asgt.npolicy == QUANTILE then 50.0 else sc.asgt.mean
         case USERAW => true
  }

  // ----- the grades by their definitions

  lemma LinearFits(s: real, rm: real, rd: Positive, nm: real, nd: real)
    ensures (Linear(s, rm, rd, nm, nd) - nm) * rd == nd * (s - rm)
  {
  }

  lemma ScaledFits(s: real, max: Positive, scale: real)
    ensures RosterNormalizing.Scaled(s, max, scale) * max == s * scale
  {
  }

  lemma {:induction false} LikesAre(x: Student, t: string, views: Views, maxima: Maxima, j: nat)
    requires Normalized(x, views, maxima) && j <= |x.rawscores|
    ensures AllReady(x.rawscores[..j], views, maxima)
    ensures LikeTotal(x, t, j) == Sum(Likes(x.rawscores[..j], t, views, maxima))
    ensures LikeWeight(x, t, j) == Weight(Likes(x.rawscores[..j], t, views, maxima))
  {
    hide NormalOf, Sum, Weight, Likes;
    if j == 0 {
      RosterNormalizing.NoLikes(x.rawscores, t, views, maxima);
    } else {
      LikesAre(x, t, views, maxima, j - 1);
      LikesNext(x.rawscores, j - 1, t, views, maxima);
      var sc, likes := x.rawscores[j - 1], Likes(x.rawscores[..j - 1], t, views, maxima);
      assert Ready(sc, views, maxima);
      if IsLike(sc, t) {
        assert x.normscores[j - 1].grade == GradeOf(NormalFor(sc, views, maxima));
        OneMoreLike(likes, Like(GradeOf(NormalFor(sc, views, maxima)), sc.asgt.weighted, sc.asgt.weight));
      } else {
        assert likes + [] == likes;
      }
    }
  }

  lemma AverageIs(x: Student, t: string, views: Views, maxima: Maxima)
    requires Normalized(x, views, maxima)
    ensures IsAverage(x, t, LikeAverage(Likes(x.rawscores, t, views, maxima)))
  {
    hide NormalOf, Sum, Weight, Likes, LikeTotal, LikeWeight;
    LikesAre(x, t, views, maxima, |x.rawscores|);
    assert x.rawscores[..|x.rawscores|] == x.rawscores;
    Quotient(Sum(Likes(x.rawscores, t, views, maxima)), Weight(Likes(x.rawscores, t, views, maxima)));
  }

  lemma Quotient(a: real, w: real)
    ensures w != 0.0 ==> a / w * w == a
  {
  }

  /** st is the table that the score is normalized by. */
  lemma GradedFrom(x: Student, i: nat, views: Views, maxima: Maxima, st: Statistics, m: real, d: real, max: real)
    requires Normalized(x, views, maxima) && i < |x.rawscores| && Ready(x.rawscores[i], views, maxima)
    requires
      var sc := x.rawscores[i];
      && sc.cstats.asgt == sc.asgt && st == (if sc.asgt.ngroup.BYCLASS? then sc.cstats else sc.sstats)
      && views[st].mean == m && views[st].stddev == Raised(d) && maxima[sc.asgt] == Raised(max)
    ensures Graded(x, i, m, Raised(d), Raised(max))
  {
    hide Likes, LikeAverage, QuantileOf, IsAverage, Linear, RosterNormalizing.Scaled;
    var sc, v := x.rawscores[i], views[st];
    AverageIs(x, sc.asgt.atype, views, maxima);
    LinearFits(sc.grade, v.mean, v.stddev, sc.asgt.mean, sc.asgt.stddev);
    ScaledFits(sc.grade, maxima[sc.asgt], sc.asgt.scale);
  }

  // ----- through the program

  /** The table that a score of student n on assignment a is normalized by. */
  ghost function GroupTable(cstats: seq<Statistics>, sstats: seq<seq<Statistics>>, rosters: seq<seq<Student>>,
      group: Ngroup, a: nat, n: nat): Statistics
    requires a < |cstats| == |sstats| && SectionOf(rosters, n) < |sstats[a]|
  {
    if group.BYCLASS? then cstats[a] else sstats[a][SectionOf(rosters, n)]
  }

  lemma ScoreTables(c: Course, cstats: seq<Statistics>, sstats: seq<seq<Statistics>>, all: seq<Student>,
      rosters: seq<seq<Student>>, owner: map<Score, int>, scores: seq<Score>, views: Views, maxima: Maxima, n: nat,
      i: nat, a: nat)
    requires TablesDone(c, cstats, sstats, all, rosters, owner, scores, views, maxima) && n < |all|
    requires i < |all[n].rawscores| && a < |c.assignments| && c.assignments[a] == all[n].rawscores[i].asgt
    ensures SectionOf(rosters, n) < |sstats[a]|
    ensures all[n].rawscores[i].cstats == cstats[a] && all[n].rawscores[i].sstats == sstats[a][SectionOf(rosters, n)]
    ensures cstats[a].asgt == c.assignments[a]
  {
    hide PassesDone, Owned, AllScores, Concat, Offset, StandsFor;
    var k, j := PlaceOf(rosters, n);
    SectionOfAt(rosters, k, j);
    LinkOfScore(Pointers(owner), c.assignments, cstats, sstats, rosters, owner, a, k, j, all[n].rawscores[i]);
    assert TableOf(cstats, sstats, a, -1) == cstats[a];
  }

  ghost function MeansOf(tables: set<Statistics>): map<Statistics, real>
    reads tables`mean
  {
    map st | st in tables :: st.mean
  }

  ghost function DeviationsOf(tables: set<Statistics>): map<Statistics, real>
    reads tables`stddev
  {
    map st | st in tables :: st.stddev
  }

  ghost function MaximaOf(assignments: seq<Assignment>): map<Assignment, real>
    reads assignments`max
  {
    map a | a in assignments :: a.max
  }

  /** Every score of the course is graded with the mean and the deviation of the table for its class or section, and
      the maximum of its assignment. */
  ghost predicate CourseGraded(assignments: seq<Assignment>, cstats: seq<Statistics>, sstats: seq<seq<Statistics>>,
      all: seq<Student>, rosters: seq<seq<Student>>, means: map<Statistics, real>, devs: map<Statistics, real>,
      maxs: map<Assignment, real>)
    reads all
  {
    && |assignments| == |cstats| == |sstats|
    && forall n: nat, i: nat, a: nat {:trigger all[n].rawscores[i], assignments[a]} |
        n < |all| && i < |all[n].rawscores| && a < |assignments| && assignments[a] == all[n].rawscores[i].asgt ::
      ScoreGraded(assignments, cstats, sstats, all[n], rosters, means, devs, maxs, n, i, a)
  }

  ghost predicate ScoreGraded(assignments: seq<Assignment>, cstats: seq<Statistics>, sstats: seq<seq<Statistics>>,
      x: Student, rosters: seq<seq<Student>>, means: map<Statistics, real>, devs: map<Statistics, real>,
      maxs: map<Assignment, real>, n: nat, i: nat, a: nat)
    requires |assignments| == |cstats| == |sstats| && i < |x.rawscores| && a < |assignments|
    reads x
  {
    && SectionOf(rosters, n) < |sstats[a]|
    && var st := GroupTable(cstats, sstats, rosters, assignments[a].ngroup, a, n);
    && st in means && st in devs && assignments[a] in maxs
    && Graded(x, i, means[st], Raised(devs[st]), Raised(maxs[assignments[a]]))
  }

  /** The views hold these means, deviations and maxima, raised. */
  ghost predicate Holding(tables: set<Statistics>, assignments: seq<Assignment>, views: Views, maxima: Maxima,
      means: map<Statistics, real>, devs: map<Statistics, real>, maxs: map<Assignment, real>) {
    && tables <= views.Keys && tables <= means.Keys && tables <= devs.Keys
    && (forall st {:trigger st in tables} | st in tables ::
          views[st].mean == means[st] && views[st].stddev == Raised(devs[st]))
    && forall a {:trigger a in assignments} | a in assignments ::
      a in maxima && a in maxs && maxima[a] == Raised(maxs[a])
  }

  lemma RecordedAs(tables: set<Statistics>, assignments: seq<Assignment>, views: Views, maxima: Maxima,
      means: map<Statistics, real>, devs: map<Statistics, real>, maxs: map<Assignment, real>)
    requires views == map st | st in tables :: ViewOf(st)
    requires maxima == map a | a in assignments :: Divisor(a.max)
    requires means == MeansOf(tables) && devs == DeviationsOf(tables) && maxs == MaximaOf(assignments)
    ensures Holding(tables, assignments, views, maxima, means, devs, maxs)
  {
  }

  lemma GradedAt(c: Course, cstats: seq<Statistics>, sstats: seq<seq<Statistics>>, all: seq<Student>,
      rosters: seq<seq<Student>>, owner: map<Score, int>, scores: seq<Score>, views: Views, maxima: Maxima,
      tables: set<Statistics>, means: map<Statistics, real>, devs: map<Statistics, real>, maxs: map<Assignment, real>,
      n: nat, i: nat, a: nat)
    requires TablesDone(c, cstats, sstats, all, rosters, owner, scores, views, maxima) && n < |all|
    requires Holding(tables, c.assignments, views, maxima, means, devs, maxs) && AreTables(cstats, sstats, tables)
    requires i < |all[n].rawscores| && a < |c.assignments| && c.assignments[a] == all[n].rawscores[i].asgt
    requires Normalized(all[n], views, maxima) && Ready(all[n].rawscores[i], views, maxima)
    ensures |c.assignments| == |cstats| == |sstats|
    ensures ScoreGraded(c.assignments, cstats, sstats, all[n], rosters, means, devs, maxs, n, i, a)
  {
    hide PassesDone, Owned, AllScores, Concat, Offset, StandsFor, Normalized, Graded, Ready, SectionOf, Raised;
    ScoreTables(c, cstats, sstats, all, rosters, owner, scores, views, maxima, n, i, a);
    var st := GroupTable(cstats, sstats, rosters, c.assignments[a].ngroup, a, n);
    assert c.assignments[a] in c.assignments;
    GradedFrom(all[n], i, views, maxima, st, means[st], devs[st], maxs[c.assignments[a]]);
  }

  lemma AllGraded(c: Course, cstats: seq<Statistics>, sstats: seq<seq<Statistics>>, all: seq<Student>,
      rosters: seq<seq<Student>>, owner: map<Score, int>, scores: seq<Score>, views: Views, maxima: Maxima,
      tables: set<Statistics>, means: map<Statistics, real>, devs: map<Statistics, real>, maxs: map<Assignment, real>)
    requires TablesDone(c, cstats, sstats, all, rosters, owner, scores, views, maxima)
    requires Holding(tables, c.assignments, views, maxima, means, devs, maxs) && AreTables(cstats, sstats, tables)
    requires forall n {:trigger all[n]} | 0 <= n < |all| :: Normalized(all[n], views, maxima)
    requires |c.assignments| == |cstats| == |sstats|
    ensures CourseGraded(c.assignments, cstats, sstats, all, rosters, means, devs, maxs)
  {
    hide TablesDone, Holding, AreTables, Normalized, ScoreGraded, Ready;
    forall n: nat, i: nat, a: nat |
        n < |all| && i < |all[n].rawscores| && a < |c.assignments| && c.assignments[a] == all[n].rawscores[i].asgt
      ensures ScoreGraded(c.assignments, cstats, sstats, all[n], rosters, means, devs, maxs, n, i, a)
    {
      ScoreNormalizes(c, cstats, sstats, all, rosters, owner, scores, views, maxima, n, i);
      GradedAt(c, cstats, sstats, all, rosters, owner, scores, views, maxima, tables, means, devs, maxs, n, i, a);
    }
  }

  /** The table of every assignment, for the class and for each section, counts the scores that belong to it. */
  ghost predicate TablesCount(assignments: seq<Assignment>, cstats: seq<Statistics>, sstats: seq<seq<Statistics>>,
      rosters: seq<seq<Student>>, scores: seq<Score>, tables: set<Statistics>)
    requires |assignments| == |cstats| == |sstats| && AreTables(cstats, sstats, tables)
    requires forall a {:trigger sstats[a]} | 0 <= a < |sstats| :: |sstats[a]| == |rosters|
    reads tables`freqs, tables`tallied
  {
    forall a: nat, k: int {:trigger TableOf(cstats, sstats, a, k)} | a < |cstats| && k < |rosters| ::
      var st := TableOf(cstats, sstats, a, k);
      CountsThem(st.freqs, st.tallied, scores, BelongTo(scores, rosters, assignments[a], k))
  }

  lemma TablesCounted(assignments: seq<Assignment>, cstats: seq<Statistics>, sstats: seq<seq<Statistics>>,
      rosters: seq<seq<Student>>, scores: seq<Score>, tables: set<Statistics>)
    requires |assignments| == |cstats| == |sstats| && AreTables(cstats, sstats, tables)
    requires forall a {:trigger sstats[a]} | 0 <= a < |sstats| :: |sstats[a]| == |rosters|
    requires forall a: nat, k: int {:trigger TableOf(cstats, sstats, a, k)} | a < |cstats| && k < |rosters| ::
      var st, on := TableOf(cstats, sstats, a, k), BelongTo(scores, rosters, assignments[a], k);
      && Represents(st.freqs, GradesOf(scores, on)) && st.tallied == |GradesOf(scores, on)| && Quantiled(st.freqs)
    ensures TablesCount(assignments, cstats, sstats, rosters, scores, tables)
  {
    hide Represents, Quantiled, GradesOf, BelongTo, CountsThem;
    forall a: nat, k: int | a < |cstats| && k < |rosters|
      ensures
        var st := TableOf(cstats, sstats, a, k);
        CountsThem(st.freqs, st.tallied, scores, BelongTo(scores, rosters, assignments[a], k))
    {
      var st := TableOf(cstats, sstats, a, k);
      TableCounts(st.freqs, st.tallied, scores, BelongTo(scores, rosters, assignments[a], k));
    }
  }

  /** Every score that counts and is normalized by quantile gets its share among its peers. */
  ghost predicate SharesGiven(all: seq<Student>, rosters: seq<seq<Student>>, scores: seq<Score>)
    reads all`normscores
  {
    forall n: nat, i: nat {:trigger all[n].rawscores[i]} | n < |all| && i < |all[n].rawscores| ::
      ShareGiven(all[n], rosters, scores, n, i)
  }

  ghost predicate ShareGiven(x: Student, rosters: seq<seq<Student>>, scores: seq<Score>, n: nat, i: nat)
    requires i < |x.rawscores|
    reads x`normscores
  {
    var sc := x.rawscores[i];
    && SectionOf(rosters, n) < |rosters| && i < |x.normscores|
    && ((sc.flag == VALID || sc.subst == USERAW) && sc.asgt.npolicy == QUANTILE ==>
          IsShare(x.normscores[i].grade, scores, Peers(scores, rosters, sc.asgt, SectionOf(rosters, n)), sc.grade))
  }

  ghost predicate AllShared(scores: seq<Score>, rosters: seq<seq<Student>>, all: seq<Student>)
    reads all`normscores
  {
    forall n: nat, i: nat {:trigger all[n].rawscores[i]} | n < |all| && i < |all[n].rawscores| ::
      Shared(scores, rosters, all[n], n, i)
  }

  lemma AllShares(all: seq<Student>, rosters: seq<seq<Student>>, scores: seq<Score>)
    requires AllShared(scores, rosters, all)
    ensures SharesGiven(all, rosters, scores)
  {
    hide GradesOf, Peers, CountBelow, IsShare, SectionOf;
    forall n: nat, i: nat | n < |all| && i < |all[n].rawscores|
      ensures ShareGiven(all[n], rosters, scores, n, i)
    {
      var x, sc := all[n], all[n].rawscores[i];
      assert Shared(scores, rosters, x, n, i);
      if (sc.flag == VALID || sc.subst == USERAW) && sc.asgt.npolicy == QUANTILE {
        ShareOf(x.normscores[i].grade, scores, Peers(scores, rosters, sc.asgt, SectionOf(rosters, n)), sc.grade);
      }
    }
  }

  // ----- what the linear policy means

  /** The mean of the group goes to the assignment's, one deviation above it to one deviation of the assignment
      above that, and higher grades to higher ones. */
  lemma LinearMoves(sc: Score, grade: real, sc': Score, grade': real, m: real, d: real, max: real)
    requires sc.asgt == sc'.asgt && sc.asgt.npolicy == LINEAR && d > 0.0
    requires Transformed(sc, grade, m, d, max) && Transformed(sc', grade', m, d, max)
    ensures sc.grade == m ==> grade == sc.asgt.mean
    ensures sc.grade == m + d ==> grade == sc.asgt.mean + sc.asgt.stddev
    ensures sc.asgt.stddev > 0.0 && sc.grade < sc'.grade ==> grade < grade'
  {
    var nm, nd := sc.asgt.mean, sc.asgt.stddev;
    Zero(grade - nm, d, nd * (sc.grade - m));
    if sc.grade == m + d {
      Zero(grade - nm - nd, d, 0.0);
    }
    if nd > 0.0 && sc.grade < sc'.grade {
      Grows(grade' - grade, d, nd, sc'.grade - sc.grade);
    }
  }

  lemma Zero(x: real, d: real, p: real)
    requires d > 0.0 && x * d == p
    ensures p == 0.0 ==> x == 0.0
  {
  }

  lemma Grows(x: real, d: real, n: real, y: real)
    requires d > 0.0 && n > 0.0 && y > 0.0 && x * d == n * y
    ensures x > 0.0
  {
    assert n * y > 0.0;
  }

  lemma StudentsReady(c: Course, cstats: seq<Statistics>, sstats: seq<seq<Statistics>>, all: seq<Student>,
      rosters: seq<seq<Student>>, owner: map<Score, int>, scores: seq<Score>, views: Views, maxima: Maxima)
    requires TablesDone(c, cstats, sstats, all, rosters, owner, scores, views, maxima)
    ensures forall n {:trigger all[n]} | 0 <= n < |all| :: AllReady(all[n].rawscores, views, maxima)
  {
    hide TablesDone, AllReady;
    forall n | 0 <= n < |all|
      ensures AllReady(all[n].rawscores, views, maxima)
    {
      StudentReady(c, cstats, sstats, all, rosters, owner, scores, views, maxima, n);
    }
  }

  lemma ScoresShared(c: Course, cstats: seq<Statistics>, sstats: seq<seq<Statistics>>, all: seq<Student>,
      rosters: seq<seq<Student>>, owner: map<Score, int>, scores: seq<Score>, views: Views, maxima: Maxima)
    requires TablesDone(c, cstats, sstats, all, rosters, owner, scores, views, maxima)
    requires forall n {:trigger all[n]} | 0 <= n < |all| :: Normalized(all[n], views, maxima)
    ensures AllShared(scores, rosters, all)
  {
    hide TablesDone, Normalized, Shared, Ready, NormalFor, Peers, GradesOf;
    forall n: nat, i: nat | n < |all| && i < |all[n].rawscores|
      ensures Shared(scores, rosters, all[n], n, i)
    {
      ScoreNormalizes(c, cstats, sstats, all, rosters, owner, scores, views, maxima, n, i);
      ShareIsNormalized(scores, rosters, all[n], n, i, views, maxima);
    }
  }

  /** The tables of a course, with what normalizing will use of them. */
  method MakeTables(c: Course, cstats: seq<Statistics>, sstats: seq<seq<Statistics>>, ghost all: seq<Student>,
      ghost rosters: seq<seq<Student>>, ghost owner: map<Score, int>, ghost scores: seq<Score>,
      ghost tables: set<Statistics>) returns (ghost views: Views, ghost maxima: Maxima)
    requires CourseRosters(c.sections, all, rosters) && DistinctStudents(all) && Owned(all, owner)
    requires scores == AllScores(all)
    requires |cstats| == |sstats| == |c.assignments| > 0 && DistinctAssignments(c.assignments)
    requires DistinctTables(cstats, sstats)
    requires forall a {:trigger sstats[a]} | 0 <= a < |sstats| :: |sstats[a]| == |c.sections|
    requires forall i {:trigger scores[i]} | 0 <= i < |scores| :: scores[i].asgt in c.assignments
    requires AreTables(cstats, sstats, tables) && OwnTables(c.assignments, cstats, sstats)
    requires forall st {:trigger st in tables} | st in tables :: st.freqs == [] && st.tallied == 0
    modifies c`roster, all`cnext, owner.Keys`cstats, owner.Keys`sstats, tables`freqs, tables`tallied
    ensures ChainOf(c.roster, all, CNext) && |rosters| == |c.sections|
    ensures TablesCount(c.assignments, cstats, sstats, rosters, scores, tables)
    ensures views.Keys == tables && (forall a {:trigger a in maxima} | a in maxima :: a in c.assignments)
    ensures Settled(views, maxima) && TablesDone(c, cstats, sstats, all, rosters, owner, scores, views, maxima)
    ensures Holding(tables, c.assignments, views, maxima, old(MeansOf(tables)), old(DeviationsOf(tables)),
      old(MaximaOf(c.assignments)))
  {
    hide *;
    Tables(c, cstats, sstats, all, rosters, owner, scores, tables);
    views := map st | st in tables :: ViewOf(st);
    maxima := map a | a in c.assignments :: Divisor(a.max);
    TablesCounted(c.assignments, cstats, sstats, rosters, scores, tables);
    Recorded(c, cstats, sstats, all, rosters, owner, scores, tables, views, maxima);
    RecordedAs(tables, c.assignments, views, maxima, MeansOf(tables), DeviationsOf(tables), MaximaOf(c.assignments));
  }

  /** From linked rosters to normalized scores: every score that counts on an assignment normalized by
      quantile gets 100 times the share, among the counting scores of its class or section on that
      assignment, of those below it, and no lookup takes the fallback; every other score is graded by its policy
      or substitution, with mean and deviation of its class or section. */
  method NormalizeCourse(c: Course, cstats: seq<Statistics>, sstats: seq<seq<Statistics>>, ghost all: seq<Student>,
      ghost rosters: seq<seq<Student>>, ghost owner: map<Score, int>, ghost scores: seq<Score>,
      ghost tables: set<Statistics>)
    requires CourseRosters(c.sections, all, rosters) && DistinctStudents(all) && Owned(all, owner)
    requires scores == AllScores(all)
    requires |cstats| == |sstats| == |c.assignments| > 0 && DistinctAssignments(c.assignments)
    requires DistinctTables(cstats, sstats)
    requires forall a {:trigger sstats[a]} | 0 <= a < |sstats| :: |sstats[a]| == |c.sections|
    requires forall i {:trigger scores[i]} | 0 <= i < |scores| :: scores[i].asgt in c.assignments
    requires AreTables(cstats, sstats, tables) && OwnTables(c.assignments, cstats, sstats)
    requires forall st {:trigger st in tables} | st in tables :: st.freqs == [] && st.tallied == 0
    modifies c`roster, all`cnext, owner.Keys`cstats, owner.Keys`sstats, tables`freqs, tables`tallied
    modifies all`normscores, tables`stddev, c.assignments`max
    ensures |rosters| == |c.sections|
    ensures AllShared(scores, rosters, all)
    ensures TablesCount(c.assignments, cstats, sstats, rosters, scores, tables)
    ensures SharesGiven(all, rosters, scores)
    ensures CourseGraded(c.assignments, cstats, sstats, all, rosters, old(MeansOf(tables)), old(DeviationsOf(tables)),
      old(MaximaOf(c.assignments)))
  {
    hide *;
    ghost var means, devs, maxs := MeansOf(tables), DeviationsOf(tables), MaximaOf(c.assignments);
    ghost var views, maxima := MakeTables(c, cstats, sstats, all, rosters, owner, scores, tables);
    StudentsReady(c, cstats, sstats, all, rosters, owner, scores, views, maxima);
    Normalize(c, all, views, maxima);
    ScoresShared(c, cstats, sstats, all, rosters, owner, scores, views, maxima);
    AllGraded(c, cstats, sstats, all, rosters, owner, scores, views, maxima, tables, means, devs, maxs);
    AllShares(all, rosters, scores);
  }
}

/** normalize: every raw score of a course's roster gets its normalized score. */
module RosterNormalizing {
  import opened Gradebook
  import opened FrequencyTables
  import opened CourseLinks
  import opened CourseStatistics
  import opened Normalizing

  const EPSILON: real := 0.000001

  type Positive = x: real | x > 0.0 witness 1.0

  /** Divisors below EPSILON are replaced. */
  function Divisor(x: real): (d: Positive) {
    if x < EPSILON then 2.0 * EPSILON else x
  }

  /** What normalizing uses of the statistics; raising stddev does not change it. */
  datatype View = View(tallied: nat, freqs: seq<Freqs>, mean: real, stddev: Positive)

  ghost function ViewOf(st: Statistics): View
    reads st
  {
    View(st.tallied, st.freqs, st.mean, Divisor(st.stddev))
  }

  type Views = map<Statistics, View>
  type Maxima = map<Assignment, Positive>

  /** The statistics and assignments are as recorded, but for divisors that have been replaced. */
  ghost predicate Settled(views: Views, maxima: Maxima)
    reads views.Keys, maxima.Keys
  {
    && (forall st {:trigger st in views} | st in views :: views[st] == ViewOf(st) && Increasing(views[st].freqs))
    && (forall a {:trigger a in maxima} | a in maxima :: maxima[a] == Divisor(a.max))
  }

  function Linear(s: real, rm: real, rd: Positive, nm: real, nd: real): real {
    nd * (s - rm) / rd + nm
  }

  function Scaled(s: real, max: Positive, scale: real): real {
    s * scale / max
  }

  /** The normalized score for s under the assignment's policy, from class and section statistics. */
  ghost function NormalOf(s: real, a: Assignment, max: Positive, class_: View, section: View): Lookup {
    var v := if a.ngroup.BYCLASS? then class_ else section;
    match a.npolicy
    case RAW => Found(s)
    case LINEAR => Found(Linear(s, v.mean, v.stddev, a.mean, a.stddev))
    case QUANTILE => QuantileOf(s, v.freqs, v.tallied)
    case SCALE => Found(Scaled(s, max, a.scale))
  }

  method RaiseDeviation(st: Statistics, ghost views: Views, ghost maxima: Maxima) returns (rd: Positive)
    requires Settled(views, maxima) && st in views
    modifies st`stddev
    ensures Settled(views, maxima) && rd == views[st].stddev == st.stddev
  {
    if st.stddev < EPSILON {
      st.stddev := 2.0 * EPSILON;
    }
    rd := st.stddev;
  }

  /** normal.  NullTable stands for the null pointer that the lookup follows in an empty table. */
  method Normal(s: real, csp: Statistics, ssp: Statistics, ghost views: Views, ghost maxima: Maxima) returns (r: Lookup)
    requires Settled(views, maxima) && csp in views && ssp in views && csp.asgt in maxima
    modifies csp`stddev, ssp`stddev, csp.asgt`max
    ensures Settled(views, maxima) && r == NormalOf(s, csp.asgt, maxima[csp.asgt], views[csp], views[ssp])
  {
    hide Increasing, QuantileOf;
    var a := csp.asgt;
    match a.npolicy
    case RAW =>
      r := Found(s);
    case LINEAR =>
      var st := if a.ngroup.BYCLASS? then csp else ssp;
      var rd := RaiseDeviation(st, views, maxima);
      r := Found(Linear(s, st.mean, rd, a.mean, a.stddev));
    case QUANTILE =>
      var st := if a.ngroup.BYCLASS? then csp else ssp;
      r := NormalQuantile(s, st.freqs, st.tallied);
    case SCALE =>
      if a.max < EPSILON {
        a.max := 2.0 * EPSILON;
      }
      r := Found(Scaled(s, a.max, a.scale));
  }

  function GradeOf(l: Lookup): real {
    match l
    case Found(q) => q
    case Fallback(q) => q
    case NullTable => 0.0
  }

  /** The score's links lead to recorded statistics, and no lookup for it meets an empty table. */
  ghost predicate Ready(sc: Score, views: Views, maxima: Maxima)
    reads sc
  {
    && sc.cstats in views && sc.sstats in views && sc.cstats.asgt in maxima
    && (Counts(sc) ==> NormalFor(sc, views, maxima) != NullTable)
  }

  /** The lookup for a score that counts. */
  ghost function NormalFor(sc: Score, views: Views, maxima: Maxima): Lookup
    requires sc.cstats in views && sc.sstats in views && sc.cstats.asgt in maxima
    reads sc
  {
    NormalOf(sc.grade, sc.cstats.asgt, maxima[sc.cstats.asgt], views[sc.cstats], views[sc.sstats])
  }

  ghost predicate AllReady(scores: seq<Score>, views: Views, maxima: Maxima)
    reads scores
  {
    forall i {:trigger scores[i]} | 0 <= i < |scores| :: Ready(scores[i], views, maxima)
  }

  /** The like scores among some raw scores: those that count, on assignments of type t. */
  ghost function Likes(scores: seq<Score>, t: string, views: Views, maxima: Maxima): seq<Like>
    requires AllReady(scores, views, maxima)
    reads scores
  {
    if scores == [] then []
    else
      var sc := scores[|scores| - 1];
      Likes(scores[..|scores| - 1], t, views, maxima) +
      if sc.asgt.atype == t && Counts(sc) then
        [Like(GradeOf(NormalFor(sc, views, maxima)), sc.asgt.weighted, sc.asgt.weight)]
      else []
  }

  /** studentavg; warned says that there was nothing to average. */
  method StudentAvg(s: Student, t: string, ghost views: Views, ghost maxima: Maxima) returns (avg: real, warned: bool)
    requires Settled(views, maxima) && AllReady(s.rawscores, views, maxima)
    modifies views.Keys`stddev, maxima.Keys`max
    ensures Settled(views, maxima) && AllReady(s.rawscores, views, maxima)
    ensures avg == LikeAverage(Likes(s.rawscores, t, views, maxima))
    ensures warned <==> Weight(Likes(s.rawscores, t, views, maxima)) == 0.0
  {
    hide *;
    var n, wp, i := 0, false, 0;
    var sum, w := 0.0, 0.0;
    ghost var likes: seq<Like> := [];
    NoLikes(s.rawscores, t, views, maxima);
    while i < |s.rawscores|
      invariant 0 <= i <= |s.rawscores| && Settled(views, maxima) && AllReady(s.rawscores, views, maxima)
      invariant AllReady(s.rawscores[..i], views, maxima) && likes == Likes(s.rawscores[..i], t, views, maxima)
      invariant n == |likes|
      invariant sum == Sum(likes) && w == Weight(likes) && (!wp ==> w == 0.0)
    {
      var scp := s.rawscores[i];
      LikesNext(s.rawscores, i, t, views, maxima);
      if scp.asgt.atype == t && (scp.flag == VALID || scp.subst == USERAW) {
        n := n + 1;
        var f := Normal(scp.grade, scp.cstats, scp.sstats, views, maxima);
        ghost var l := Like(GradeOf(f), scp.asgt.weighted, scp.asgt.weight);
        OneMoreLike(likes, l);
        if scp.asgt.weighted {
          wp := true;
          sum := sum + GradeOf(f) * scp.asgt.weight;
          w := w + scp.asgt.weight;
        } else {
          sum := sum + GradeOf(f);
        }
        likes := likes + [l];
      }
      i := i + 1;
    }
    assert s.rawscores[..i] == s.rawscores;
    AverageOf(likes);
    avg, warned := 0.0, n == 0 || w == 0.0;
    if !warned {
      if wp {
        avg := sum / w;
      } else {
        assert false;  // sum / n is never taken: the weight is 0 then
      }
    }
  }

  lemma AverageOf(likes: seq<Like>)
    ensures LikeAverage(likes) == if Weight(likes) == 0.0 then 0.0 else Sum(likes) / Weight(likes)
    ensures likes == [] ==> Weight(likes) == 0.0
  {
  }

  lemma NoLikes(scores: seq<Score>, t: string, views: Views, maxima: Maxima)
    ensures AllReady(scores[..0], views, maxima) && Likes(scores[..0], t, views, maxima) == [] && Sum([]) == 0.0
    ensures Weight([]) == 0.0
  {
  }

  lemma LikesNext(scores: seq<Score>, i: nat, t: string, views: Views, maxima: Maxima)
    requires i < |scores| && AllReady(scores, views, maxima)
    ensures AllReady(scores[..i], views, maxima) && AllReady(scores[..i + 1], views, maxima)
    ensures
      var sc := scores[i];
      && sc.cstats in views && sc.sstats in views && sc.cstats.asgt in maxima
      && Likes(scores[..i + 1], t, views, maxima) == Likes(scores[..i], t, views, maxima) +
        (if sc.asgt.atype == t && (sc.flag == VALID || sc.subst == USERAW) then
          [Like(GradeOf(NormalOf(sc.grade, sc.cstats.asgt, maxima[sc.cstats.asgt], views[sc.cstats], views[sc.sstats])),
                sc.asgt.weighted, sc.asgt.weight)]
        else [])
  {
    hide NormalOf;
    assert Ready(scores[i], views, maxima);
    assert scores[..i + 1][..i] == scores[..i];
  }

  lemma OneMoreLike(likes: seq<Like>, l: Like)
    ensures Sum(likes + [l]) == Sum(likes) + if l.weighted then l.value * l.weight else l.value
    ensures Weight(likes + [l]) == Weight(likes) + if l.weighted then l.weight else 0.0
  {
    assert (likes + [l])[..|likes|] == likes;
  }

  /** The normalized grade for a student's score. */
  ghost function NormGrade(scores: seq<Score>, sc: Score, views: Views, maxima: Maxima): real
    requires AllReady(scores, views, maxima) && Ready(sc, views, maxima)
    reads scores, sc
  {
    if Counts(sc) then GradeOf(NormalFor(sc, views, maxima))
    else match sc.subst
      case USENORM => if sc.asgt.npolicy == QUANTILE then sc.qnorm else sc.lnorm
      case USELIKEAVG => LikeAverage(Likes(scores, sc.cstats.asgt.atype, views, maxima))
      case USECLASSAVG => if sc.asgt.npolicy == QUANTILE then 50.0 else sc.asgt.mean
      case USERAW => 0.0
  }

  /** The body of normalize's inner loop. */
  method NormalizeScore(stp: Student, rscp: Score, ghost views: Views, ghost maxima: Maxima) returns (nscp: NormScore)
    requires Settled(views, maxima) && AllReady(stp.rawscores, views, maxima) && Ready(rscp, views, maxima)
    modifies views.Keys`stddev, maxima.Keys`max
    ensures Settled(views, maxima) && AllReady(stp.rawscores, views, maxima) && Ready(rscp, views, maxima)
    ensures nscp == NormScore(rscp.asgt, rscp.flag, rscp.subst, NormGrade(stp.rawscores, rscp, views, maxima))
  {
    hide Settled, Likes, LikeAverage, NormalOf;
    var csp, ssp := rscp.cstats, rscp.sstats;
    var grade := 0.0;
    if rscp.flag == VALID {
      var f := Normal(rscp.grade, csp, ssp, views, maxima);
      grade := GradeOf(f);
    } else {
      match rscp.subst
      case USERAW =>
        var f := Normal(rscp.grade, csp, ssp, views, maxima);
        grade := GradeOf(f);
      case USENORM =>
        grade := if rscp.asgt.npolicy == QUANTILE then rscp.qnorm else rscp.lnorm;
      case USELIKEAVG =>
        var warned;
        grade, warned := StudentAvg(stp, csp.asgt.atype, views, maxima);
      case USECLASSAVG =>
        grade := if rscp.asgt.npolicy == QUANTILE then 50.0 else rscp.asgt.mean;
    }
    nscp := NormScore(rscp.asgt, rscp.flag, rscp.subst, grade);
  }

  /** One normalized score for each raw score of the student, in order. */
  ghost predicate Normalized(x: Student, views: Views, maxima: Maxima)
    reads x, x.rawscores
  {
    && AllReady(x.rawscores, views, maxima) && |x.normscores| == |x.rawscores|
    && forall i {:trigger x.normscores[i]} {:trigger x.rawscores[i]} | 0 <= i < |x.rawscores| ::
      var sc := x.rawscores[i];
      x.normscores[i] == NormScore(sc.asgt, sc.flag, sc.subst, NormGrade(x.rawscores, sc, views, maxima))
  }

  method NormalizeStudent(stp: Student, ghost views: Views, ghost maxima: Maxima)
    requires Settled(views, maxima) && AllReady(stp.rawscores, views, maxima)
    modifies stp`normscores, views.Keys`stddev, maxima.Keys`max
    ensures Settled(views, maxima) && Normalized(stp, views, maxima)
  {
    hide Settled, Likes, LikeAverage, NormalOf, Ready, NormGrade;
    stp.normscores := [];
    var i := 0;
    while i < |stp.rawscores|
      invariant 0 <= i <= |stp.rawscores| && |stp.normscores| == i
      invariant Settled(views, maxima) && AllReady(stp.rawscores, views, maxima)
      invariant forall j {:trigger stp.normscores[j]} {:trigger stp.rawscores[j]} | 0 <= j < i ::
        var sc := stp.rawscores[j];
        stp.normscores[j] == NormScore(sc.asgt, sc.flag, sc.subst, NormGrade(stp.rawscores, sc, views, maxima))
    {
      var nscp := NormalizeScore(stp, stp.rawscores[i], views, maxima);
      stp.normscores := stp.normscores + [nscp];
      i := i + 1;
    }
  }

  /** normalize. */
  method Normalize(c: Course, ghost all: seq<Student>, ghost views: Views, ghost maxima: Maxima)
    requires ChainOf(c.roster, all, CNext) && DistinctStudents(all) && Settled(views, maxima)
    requires forall n {:trigger all[n]} | 0 <= n < |all| :: AllReady(all[n].rawscores, views, maxima)
    modifies all`normscores, views.Keys`stddev, maxima.Keys`max
    ensures Settled(views, maxima)
    ensures forall n {:trigger all[n]} | 0 <= n < |all| :: Normalized(all[n], views, maxima)
  {
    hide Settled, Likes, LikeAverage, NormalOf, Ready, NormGrade, Normalized, AllReady;
    var stp := c.roster;
    ghost var n := 0;
    while stp != null
      invariant 0 <= n <= |all| && stp == Nth(all, n) && ChainOf(c.roster, all, CNext) && Settled(views, maxima)
      invariant forall k {:trigger all[k]} | 0 <= k < |all| :: AllReady(all[k].rawscores, views, maxima)
      invariant forall k {:trigger all[k]} | 0 <= k < n :: Normalized(all[k], views, maxima)
      decreases |all| - n
    {
      assert LinkOf(all[n], CNext) == Nth(all, n + 1);
      NormalizeStudent(stp, views, maxima);
      stp := stp.cnext;
      n := n + 1;
    }
  }

  // ----- from the roster to the quantile scores

  /** The scores that the score of student n on an assignment is compared with. */
  ghost function Peers(scores: seq<Score>, rosters: seq<seq<Student>>, a: Assignment, k: nat): set<Score>
    requires k < |rosters|
  {
    BelongTo(scores, rosters, a, if a.ngroup.BYCLASS? then -1 else k)
  }

  lemma {:induction false} GradeAmong(scores: seq<Score>, on: set<Score>, sc: Score)
    requires sc in scores && sc in on && Counts(sc)
    ensures sc.grade in GradesOf(scores, on)
  {
    var n := |scores| - 1;
    if scores[n] != sc {
      GradeAmong(scores[..n], on, sc);
    }
  }

  /** In a finished table a tallied score finds the share of the scores below it. */
  lemma QuantileIsShare(t: seq<Freqs>, grades: seq<real>, s: real)
    requires Represents(t, grades) && Quantiled(t) && s in grades
    ensures grades != [] && QuantileOf(s, t, |grades|) == Found(Percent(CountBelow(grades, s), |grades|))
  {
    hide Represents, Quantiled;
    var k := TalliedIsFound(t, grades, s);
    assert HasBucket(t, s, k);
    OneBucket(t, grades, s, k);
  }

  lemma OneBucket(t: seq<Freqs>, grades: seq<real>, s: real, k: nat)
    requires Represents(t, grades) && HasBucket(t, s, k)
    ensures forall j: nat :: HasBucket(t, s, j) <==> j == k
  {
  }

  /** The state after Tables. */
  ghost predicate TablesDone(c: Course, cstats: seq<Statistics>, sstats: seq<seq<Statistics>>, all: seq<Student>,
                             rosters: seq<seq<Student>>, owner: map<Score, int>, scores: seq<Score>, views: Views,
                             maxima: Maxima)
    reads owner.Keys
  {
    && all == Concat(rosters) && Owned(all, owner) && scores == AllScores(all)
    && |c.assignments| == |cstats| == |sstats|
    && (forall a {:trigger sstats[a]} | 0 <= a < |sstats| :: |sstats[a]| == |rosters|)
    && (forall i {:trigger scores[i]} | 0 <= i < |scores| :: scores[i].asgt in c.assignments)
    && PassesDone(Pointers(owner), c.assignments, |c.assignments|, cstats, sstats, rosters, owner)
    && (forall a: nat, k: int {:trigger TableOf(cstats, sstats, a, k)} | a < |cstats| && k < |rosters| ::
          var st := TableOf(cstats, sstats, a, k);
          && st in views && st.asgt == c.assignments[a] && c.assignments[a] in maxima
          && StandsFor(views[st], GradesOf(scores, BelongTo(scores, rosters, c.assignments[a], k))))
  }

  /** The table is finished and stands for the grades. */
  ghost predicate StandsFor(v: View, grades: seq<real>) {
    Represents(v.freqs, grades) && v.tallied == |grades| && Quantiled(v.freqs)
  }

  /** A score's links lead to its assignment's tables, and its quantile is its share among its peers. */
  lemma ScoreNormalizes(c: Course, cstats: seq<Statistics>, sstats: seq<seq<Statistics>>, all: seq<Student>,
                        rosters: seq<seq<Student>>, owner: map<Score, int>, scores: seq<Score>, views: Views,
                        maxima: Maxima,
                        n: nat, i: nat)
    requires TablesDone(c, cstats, sstats, all, rosters, owner, scores, views, maxima) && n < |all|
    requires i < |all[n].rawscores|
    ensures Ready(all[n].rawscores[i], views, maxima) && SectionOf(rosters, n) < |rosters|
    ensures
      var sc := all[n].rawscores[i];
      var grades := GradesOf(scores, Peers(scores, rosters, sc.asgt, SectionOf(rosters, n)));
      Counts(sc) && sc.asgt.npolicy == QUANTILE ==>
        grades != [] && NormalFor(sc, views, maxima) == Found(Percent(CountBelow(grades, sc.grade), |grades|))
  {
    hide PassesDone, Owned, GradesOf, AllScores, Concat, QuantileOf, Offset, Owns, StandsFor;
    var sc := all[n].rawscores[i];
    ScoreAt(all, n, i);
    var k, j := PlaceOf(rosters, n);
    SectionOfAt(rosters, k, j);
    var a: nat :| a < |c.assignments| && c.assignments[a] == sc.asgt;
    LinkOfScore(Pointers(owner), c.assignments, cstats, sstats, rosters, owner, a, k, j, sc);
    assert TableOf(cstats, sstats, a, -1) == sc.cstats && TableOf(cstats, sstats, a, k) == sc.sstats;
    if Counts(sc) {
      assert rosters[k][j] in rosters[k];
      ShareAmong(scores, BelongTo(scores, rosters, sc.asgt, -1), sc, views[sc.cstats]);
      ShareAmong(scores, BelongTo(scores, rosters, sc.asgt, k), sc, views[sc.sstats]);
    }
  }

  lemma ShareAmong(scores: seq<Score>, on: set<Score>, sc: Score, v: View)
    requires sc in scores && sc in on && Counts(sc) && StandsFor(v, GradesOf(scores, on))
    ensures
      var grades := GradesOf(scores, on);
      grades != [] && QuantileOf(sc.grade, v.freqs, v.tallied) == Found(Percent(CountBelow(grades, sc.grade), |grades|))
  {
    hide QuantileOf, GradesOf;
    GradeAmong(scores, on, sc);
    QuantileIsShare(v.freqs, GradesOf(scores, on), sc.grade);
  }

  /** Every table is one of its assignment. */
  ghost predicate OwnTables(assignments: seq<Assignment>, cstats: seq<Statistics>, sstats: seq<seq<Statistics>>) {
    && |cstats| == |sstats| == |assignments|
    && (forall a {:trigger cstats[a]} | 0 <= a < |cstats| :: cstats[a].asgt == assignments[a])
    && (forall a, k {:trigger sstats[a][k]} | 0 <= a < |sstats| && 0 <= k < |sstats[a]| ::
         sstats[a][k].asgt == assignments[a])
  }

  /** What normalize has left for score i of student x, the n-th of the course. */
  ghost predicate Shared(scores: seq<Score>, rosters: seq<seq<Student>>, x: Student, n: nat, i: nat)
    reads x`normscores
  {
    && i < |x.rawscores| && i < |x.normscores| && SectionOf(rosters, n) < |rosters|
    && var sc := x.rawscores[i];
    && var grades := GradesOf(scores, Peers(scores, rosters, sc.asgt, SectionOf(rosters, n)));
    && x.normscores[i].asgt == sc.asgt
    && (Counts(sc) && sc.asgt.npolicy == QUANTILE ==>
          grades != [] && x.normscores[i].grade == Percent(CountBelow(grades, sc.grade), |grades|))
  }

  lemma ShareIsNormalized(scores: seq<Score>, rosters: seq<seq<Student>>, x: Student, n: nat, i: nat, views: Views,
      maxima: Maxima)
    requires i < |x.rawscores| && Normalized(x, views, maxima) && SectionOf(rosters, n) < |rosters|
    requires Ready(x.rawscores[i], views, maxima)
    requires
      var sc := x.rawscores[i];
      var grades := GradesOf(scores, Peers(scores, rosters, sc.asgt, SectionOf(rosters, n)));
      Counts(sc) && sc.asgt.npolicy == QUANTILE ==>
        grades != [] && NormalFor(sc, views, maxima) == Found(Percent(CountBelow(grades, sc.grade), |grades|))
    ensures Shared(scores, rosters, x, n, i)
  {
    hide GradesOf, Peers, NormalFor, Likes;
  }

  lemma Recorded(c: Course, cstats: seq<Statistics>, sstats: seq<seq<Statistics>>, all: seq<Student>,
      rosters: seq<seq<Student>>,
                 owner: map<Score, int>, scores: seq<Score>, tables: set<Statistics>, views: Views, maxima: Maxima)
    requires all == Concat(rosters) && Owned(all, owner) && scores == AllScores(all) && |rosters| == |c.sections|
    requires |cstats| == |sstats| == |c.assignments| && OwnTables(c.assignments, cstats, sstats)
    requires AreTables(cstats, sstats, tables)
    requires forall a {:trigger sstats[a]} | 0 <= a < |sstats| :: |sstats[a]| == |c.sections|
    requires forall i {:trigger scores[i]} | 0 <= i < |scores| :: scores[i].asgt in c.assignments
    requires PassesDone(Pointers(owner), c.assignments, |c.assignments|, cstats, sstats, rosters, owner)
    requires forall st {:trigger st in tables} | st in tables :: Increasing(st.freqs)
    requires forall a: nat, k: int {:trigger TableOf(cstats, sstats, a, k)} | a < |cstats| && k < |c.sections| ::
      var st, on := TableOf(cstats, sstats, a, k), BelongTo(scores, rosters, c.assignments[a], k);
      && Represents(st.freqs, GradesOf(scores, on)) && st.tallied == |GradesOf(scores, on)| && Quantiled(st.freqs)
    requires views == map st | st in tables :: ViewOf(st)
    requires maxima == map a | a in c.assignments :: Divisor(a.max)
    ensures Settled(views, maxima) && TablesDone(c, cstats, sstats, all, rosters, owner, scores, views, maxima)
  {
    hide PassesDone, Owned, GradesOf, AllScores, Concat, BelongTo, Represents, Quantiled, Increasing;
    forall a: nat, k: int | a < |cstats| && k < |rosters|
      ensures
        var st := TableOf(cstats, sstats, a, k);
        && st in views && st.asgt == c.assignments[a] && c.assignments[a] in maxima
        && StandsFor(views[st], GradesOf(scores, BelongTo(scores, rosters, c.assignments[a], k)))
    {
      assert c.assignments[a] in c.assignments;
    }
  }

  lemma StudentReady(c: Course, cstats: seq<Statistics>, sstats: seq<seq<Statistics>>, all: seq<Student>,
                     rosters: seq<seq<Student>>, owner: map<Score, int>, scores: seq<Score>, views: Views,
                     maxima: Maxima, n: nat)
    requires TablesDone(c, cstats, sstats, all, rosters, owner, scores, views, maxima) && n < |all|
    ensures AllReady(all[n].rawscores, views, maxima)
  {
    hide TablesDone, Ready;
    forall i | 0 <= i < |all[n].rawscores|
      ensures Ready(all[n].rawscores[i], views, maxima)
    {
      ScoreNormalizes(c, cstats, sstats, all, rosters, owner, scores, views, maxima, n, i);
    }
  }
}

/** What the frequency tables of a course count, in terms of the records of its scores. */
module TalliedScores {
  import opened Gradebook
  import opened FrequencyTables
  import opened CourseLinks
  import opened CourseStatistics

  /** The scores of a set, by their places in the roster order, that are marked valid or substituted by their raw
      grade. */
  ghost function Entering(scores: seq<Score>, on: set<Score>): (r: set<int>)
    ensures forall i | i in r :: 0 <= i < |scores|
  {
    set i | 0 <= i < |scores| && scores[i] in on && (scores[i].flag == VALID || scores[i].subst == USERAW)
  }

  /** Those of them whose grade has a property. */
  ghost function With(scores: seq<Score>, on: set<Score>, p: real -> bool): set<int> {
    set i | i in Entering(scores, on) && p(scores[i].grade)
  }

  /** The table has one bucket for each grade, in order, and each bucket the number of scores with that grade, with
      a lower one, and with that or a lower one. */
  ghost predicate CountsThem(t: seq<Freqs>, tallied: nat, scores: seq<Score>, on: set<Score>) {
    && tallied == |Entering(scores, on)|
    && (forall j, k {:trigger t[j], t[k]} | 0 <= j < k < |t| :: t[j].score < t[k].score)
    && (forall i | i in Entering(scores, on) :: exists k :: 0 <= k < |t| && t[k].score == scores[i].grade)
    && forall k {:trigger t[k]} | 0 <= k < |t| :: BucketCounts(t[k], scores, on)
  }

  ghost predicate BucketCounts(b: Freqs, scores: seq<Score>, on: set<Score>) {
    && b.count == |With(scores, on, x => x == b.score)| > 0
    && b.numless == |With(scores, on, x => x < b.score)|
    && b.numlesseq == |With(scores, on, x => x <= b.score)|
  }

  // ----- sequences of grades and sets of places

  ghost function CountIf(s: seq<real>, p: real -> bool): nat {
    if s == [] then 0 else CountIf(s[..|s| - 1], p) + if p(s[|s| - 1]) then 1 else 0
  }

  lemma {:induction false} CountsAreIf(s: seq<real>, x: real)
    ensures CountIf(s, y => y == x) == CountEqual(s, x) && CountIf(s, y => y < x) == CountBelow(s, x)
    ensures CountIf(s, y => y <= x) == CountEqual(s, x) + CountBelow(s, x)
    ensures CountIf(s, y => true) == |s|
  {
    if s != [] { CountsAreIf(s[..|s| - 1], x); }
  }

  lemma {:induction false} PlacesOf(scores: seq<Score>, on: set<Score>, p: real -> bool)
    ensures CountIf(GradesOf(scores, on), p) == |With(scores, on, p)|
  {
    if scores != [] {
      var n := |scores| - 1;
      PlacesOf(scores[..n], on, p);
      var was, now := With(scores[..n], on, p), With(scores, on, p);
      var enters := Counts(scores[n]) && scores[n] in on;
      assert now == if enters && p(scores[n].grade) then was + {n} else was;
      OneMore(GradesOf(scores[..n], on), scores[n].grade, enters, p);
    }
  }

  lemma OneMore(s: seq<real>, grade: real, enters: bool, p: real -> bool)
    ensures CountIf(s + Once(enters, grade), p) == CountIf(s, p) + if enters && p(grade) then 1 else 0
  {
    if enters {
      assert (s + [grade])[..|s|] == s;
    } else {
      assert s + [] == s;
    }
  }

  lemma {:induction false} PlaceHasGrade(scores: seq<Score>, on: set<Score>, i: int)
    requires i in Entering(scores, on)
    ensures scores[i].grade in GradesOf(scores, on)
  {
    var n := |scores| - 1;
    if i < n {
      assert scores[..n][i] == scores[i];
      PlaceHasGrade(scores[..n], on, i);
    }
  }

  lemma EnteringIsWith(scores: seq<Score>, on: set<Score>)
    ensures With(scores, on, x => true) == Entering(scores, on)
  {
  }

  /** A finished table counts the valid scores and those that use their raw grade, and no others. */
  lemma TableCounts(t: seq<Freqs>, tallied: nat, scores: seq<Score>, on: set<Score>)
    requires Represents(t, GradesOf(scores, on)) && tallied == |GradesOf(scores, on)| && Quantiled(t)
    ensures CountsThem(t, tallied, scores, on)
  {
    hide Represents, Quantiled, GradesOf, With, Entering, CountIf;
    var s := GradesOf(scores, on);
    CountsAreIf(s, 0.0);
    PlacesOf(scores, on, x => true);
    SameCount(s, y => true, x => true);
    EnteringIsWith(scores, on);
    forall i | i in Entering(scores, on)
      ensures exists k :: 0 <= k < |t| && t[k].score == scores[i].grade
    {
      PlaceHasGrade(scores, on, i);
      BucketIffTallied(t, s, scores[i].grade);
    }
    forall k | 0 <= k < |t|
      ensures BucketCounts(t[k], scores, on)
    {
      BucketIs(t, s, k);
      BucketFrom(t[k], s, scores, on);
    }
    InOrder(t, s);
  }

  lemma {:induction false} SameCount(s: seq<real>, p: real -> bool, q: real -> bool)
    requires forall x :: p(x) == q(x)
    ensures CountIf(s, p) == CountIf(s, q)
  {
    if s != [] { SameCount(s[..|s| - 1], p, q); }
  }

  lemma InOrder(t: seq<Freqs>, s: seq<real>)
    requires Represents(t, s)
    ensures forall j, k {:trigger t[j], t[k]} | 0 <= j < k < |t| :: t[j].score < t[k].score
  {
  }

  lemma BucketIs(t: seq<Freqs>, s: seq<real>, k: nat)
    requires Represents(t, s) && Quantiled(t) && k < |t|
    ensures t[k].count == CountEqual(s, t[k].score) > 0 && t[k].numless == CountBelow(s, t[k].score)
    ensures t[k].numlesseq == CountEqual(s, t[k].score) + CountBelow(s, t[k].score)
  {
    BucketAt(t, k);
    assert BucketCount(t, t[k].score) == CountEqual(s, t[k].score);
    assert BucketsBelow(t, t[k].score) == CountBelow(s, t[k].score);
  }

  lemma BucketFrom(b: Freqs, s: seq<real>, scores: seq<Score>, on: set<Score>)
    requires s == GradesOf(scores, on)
    requires b.count == CountEqual(s, b.score) > 0 && b.numless == CountBelow(s, b.score)
    requires b.numlesseq == CountEqual(s, b.score) + CountBelow(s, b.score)
    ensures BucketCounts(b, scores, on)
  {
    hide CountEqual, CountBelow, CountIf, GradesOf, With;
    CountsAreIf(s, b.score);
    PlacesOf(scores, on, x => x == b.score);
    PlacesOf(scores, on, x => x < b.score);
    PlacesOf(scores, on, x => x <= b.score);
    SameCount(s, y => y == b.score, x => x == b.score);
    SameCount(s, y => y < b.score, x => x < b.score);
    SameCount(s, y => y <= b.score, x => x <= b.score);
  }

  // ----- the share of a score among its peers

  /** 100 times the share, among the scores of a set that enter its table, of those with a lower grade. */
  ghost predicate IsShare(q: real, scores: seq<Score>, on: set<Score>, grade: real) {
    && Entering(scores, on) != {}
    && q * |Entering(scores, on)| as real == 100.0 * |With(scores, on, x => x < grade)| as real
  }

  lemma ShareOf(q: real, scores: seq<Score>, on: set<Score>, grade: real)
    requires GradesOf(scores, on) != []
    requires q == CountBelow(GradesOf(scores, on), grade) as real * 100.0 / |GradesOf(scores, on)| as real
    ensures IsShare(q, scores, on, grade)
  {
    hide CountEqual, CountBelow, CountIf, GradesOf, With, Entering;
    var s := GradesOf(scores, on);
    CountsAreIf(s, grade);
    PlacesOf(scores, on, x => true);
    PlacesOf(scores, on, x => x < grade);
    SameCount(s, y => true, x => true);
    SameCount(s, y => y < grade, x => x < grade);
    EnteringIsWith(scores, on);
    Times(CountBelow(s, grade) as real * 100.0, |s| as real);
  }

  lemma Times(a: real, n: real)
    requires n > 0.0
    ensures a / n * n == a
  {
  }
}

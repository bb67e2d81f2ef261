/** Frequency tables: lists of buckets in increasing order of score, kept by insertion. */
module FrequencyTables {
  import opened Gradebook

  // ----- what a list of scores says

  /** How many scores are x. */
  function CountEqual(scores: seq<real>, x: real): nat {
    if scores == [] then 0 else CountEqual(scores[..|scores| - 1], x) + if scores[|scores| - 1] == x then 1 else 0
  }

  /** How many scores are below x. */
  function CountBelow(scores: seq<real>, x: real): nat {
    if scores == [] then 0 else CountBelow(scores[..|scores| - 1], x) + if scores[|scores| - 1] < x then 1 else 0
  }

  lemma {:induction false} EqualIsMultiplicity(scores: seq<real>, x: real)
    ensures CountEqual(scores, x) == multiset(scores)[x]
  {
    if scores != [] {
      var n := |scores| - 1;
      assert scores == scores[..n] + [scores[n]];
      EqualIsMultiplicity(scores[..n], x);
    }
  }

  // ----- what a table says

  /** The count of the bucket for x, if there is one. */
  function BucketCount(t: seq<Freqs>, x: real): nat {
    if t == [] then 0 else BucketCount(t[1..], x) + if t[0].score == x then t[0].count else 0
  }

  /** The counts of the buckets below x, in all. */
  function BucketsBelow(t: seq<Freqs>, x: real): nat {
    if t == [] then 0 else BucketsBelow(t[1..], x) + if t[0].score < x then t[0].count else 0
  }

  ghost predicate Increasing(t: seq<Freqs>) {
    && (forall i, j {:trigger t[i], t[j]} | 0 <= i < j < |t| :: t[i].score < t[j].score)
    && (forall i {:trigger t[i]} | 0 <= i < |t| :: t[i].count > 0)
  }

  /** The table is in order, has no empty bucket and counts exactly these scores. */
  ghost predicate Represents(t: seq<Freqs>, scores: seq<real>) {
    && Increasing(t)
    && (forall x {:trigger BucketCount(t, x)} :: BucketCount(t, x) == CountEqual(scores, x))
    && (forall x {:trigger BucketsBelow(t, x)} :: BucketsBelow(t, x) == CountBelow(scores, x))
  }

  lemma {:induction false} BucketAt(t: seq<Freqs>, k: nat)
    requires Increasing(t) && k < |t|
    ensures BucketCount(t, t[k].score) == t[k].count
  {
    if k > 0 {
      BucketAt(t[1..], k - 1);
    } else {
      NoBucket(t[1..], t[0].score);
    }
  }

  lemma {:induction false} NoBucket(t: seq<Freqs>, x: real)
    requires forall i | 0 <= i < |t| :: t[i].score != x
    ensures BucketCount(t, x) == 0
  {
    if t != [] { NoBucket(t[1..], x); }
  }

  lemma {:induction false} SomeBucket(t: seq<Freqs>, x: real) returns (k: nat)
    requires BucketCount(t, x) > 0
    ensures k < |t| && t[k].score == x
  {
    if t[0].score == x {
      k := 0;
    } else {
      k := SomeBucket(t[1..], x);
      k := k + 1;
    }
  }

  /** A table has a bucket for x exactly if x is one of its scores. */
  lemma BucketIffTallied(t: seq<Freqs>, scores: seq<real>, x: real)
    requires Represents(t, scores)
    ensures (exists k | 0 <= k < |t| :: t[k].score == x) <==> x in scores
  {
    EqualIsMultiplicity(scores, x);
    assert BucketCount(t, x) == CountEqual(scores, x);
    if k :| 0 <= k < |t| && t[k].score == x {
      BucketAt(t, k);
    } else {
      NoBucket(t, x);
    }
    assert x in scores <==> x in multiset(scores);
  }

  // ----- count_score

  /** The table after a bucket has been put in at i, or its count raised. */
  function Counted(t: seq<Freqs>, i: int, grade: real): seq<Freqs>
    requires 0 <= i <= |t|
  {
    if i < |t| && t[i].score == grade then t[i := t[i].(count := t[i].count + 1)]
    else t[..i] + [Freqs(grade, 1, 0, 0)] + t[i..]
  }

  /** Counts a score in its bucket, or inserts a bucket for it. */
  method CountScore(grade: real, afp: seq<Freqs>, ghost scores: seq<real>) returns (r: seq<Freqs>)
    requires Represents(afp, scores)
    ensures Represents(r, scores + [grade])
  {
    var i := 0;
    while i < |afp|
      invariant 0 <= i <= |afp| && forall k {:trigger afp[k]} | 0 <= k < i :: afp[k].score < grade
    {
      if afp[i].score == grade {
        CountedRepresents(afp, i, grade, scores);
        return afp[i := afp[i].(count := afp[i].count + 1)];
      } else if afp[i].score > grade {
        CountedRepresents(afp, i, grade, scores);
        return afp[..i] + [Freqs(grade, 1, 0, 0)] + afp[i..];
      }
      i := i + 1;
    }
    CountedRepresents(afp, i, grade, scores);
    r := afp + [Freqs(grade, 1, 0, 0)];
    assert r == Counted(afp, i, grade);
  }

  lemma CountedRepresents(t: seq<Freqs>, i: int, grade: real, scores: seq<real>)
    requires Represents(t, scores) && 0 <= i <= |t|
    requires forall k {:trigger t[k]} | 0 <= k < i :: t[k].score < grade
    requires i < |t| ==> t[i].score >= grade
    ensures Represents(Counted(t, i, grade), scores + [grade])
  {
    var r, more := Counted(t, i, grade), scores + [grade];
    assert more[..|more| - 1] == scores;
    assert forall k | i < k < |t| :: t[k].score > grade;
    forall x
      ensures BucketCount(r, x) == CountEqual(more, x) && BucketsBelow(r, x) == CountBelow(more, x)
    {
      CountedCounts(t, i, grade, x);
      assert BucketCount(t, x) == CountEqual(scores, x) && BucketsBelow(t, x) == CountBelow(scores, x);
    }
  }

  lemma {:induction false} CountedCounts(t: seq<Freqs>, i: nat, grade: real, x: real)
    requires i <= |t|
    ensures BucketCount(Counted(t, i, grade), x) == BucketCount(t, x) + if grade == x then 1 else 0
    ensures BucketsBelow(Counted(t, i, grade), x) == BucketsBelow(t, x) + if grade < x then 1 else 0
  {
    var r := Counted(t, i, grade);
    if i == 0 {
      if t != [] && t[0].score == grade {
        assert r[1..] == t[1..];
      } else {
        assert r[1..] == t;
      }
    } else {
      assert r[0] == t[0] && r[1..] == Counted(t[1..], i - 1, grade);
      CountedCounts(t[1..], i - 1, grade, x);
    }
  }

  // ----- do_quantiles

  /** numless and numlesseq are the numbers of scores below, and not above, the bucket's score. */
  ghost predicate Quantiled(t: seq<Freqs>) {
    forall k {:trigger t[k]} | 0 <= k < |t| ::
      t[k].numless == BucketsBelow(t, t[k].score) && t[k].numlesseq == t[k].numless + t[k].count
  }

  /** The same buckets but for the quantile fields. */
  ghost predicate SameBuckets(t: seq<Freqs>, u: seq<Freqs>) {
    && |u| == |t|
    && forall k {:trigger u[k]} {:trigger t[k]} | 0 <= k < |t| :: u[k].score == t[k].score && u[k].count == t[k].count
  }

  /** The inner loop of do_quantiles. */
  method FillQuantiles(freqs: seq<Freqs>) returns (r: seq<Freqs>)
    requires Increasing(freqs)
    ensures SameBuckets(freqs, r) && Quantiled(r)
  {
    r := freqs;
    var sum, i := 0, 0;
    while i < |r|
      invariant 0 <= i <= |r| && SameBuckets(freqs, r)
      invariant sum == Total(freqs[..i])
      invariant forall k {:trigger r[k]} | 0 <= k < i ::
        r[k].numless == Total(freqs[..k]) && r[k].numlesseq == r[k].numless + r[k].count
    {
      assert freqs[..i + 1] == freqs[..i] + [freqs[i]];
      TotalAppend(freqs[..i], freqs[i]);
      var fp := r[i];
      r := r[i := fp.(numless := sum, numlesseq := sum + fp.count)];
      sum := sum + fp.count;
      i := i + 1;
    }
    FilledQuantiled(freqs, r);
  }

  lemma FilledQuantiled(t: seq<Freqs>, r: seq<Freqs>)
    requires Increasing(t) && SameBuckets(t, r)
    requires forall k {:trigger r[k]} | 0 <= k < |r| ::
      r[k].numless == Total(t[..k]) && r[k].numlesseq == r[k].numless + r[k].count
    ensures Quantiled(r)
  {
    forall k | 0 <= k < |r|
      ensures r[k].numless == BucketsBelow(r, r[k].score)
    {
      PrefixIsBelow(t, k);
      SameBelow(t, r, r[k].score);
    }
  }

  function Total(t: seq<Freqs>): nat {
    if t == [] then 0 else t[0].count + Total(t[1..])
  }

  lemma {:induction false} TotalAppend(t: seq<Freqs>, b: Freqs)
    ensures Total(t + [b]) == Total(t) + b.count
  {
    if t != [] {
      assert (t + [b])[1..] == t[1..] + [b];
      TotalAppend(t[1..], b);
    }
  }

  /** The buckets below bucket k are those before it. */
  lemma {:induction false} PrefixIsBelow(t: seq<Freqs>, k: nat)
    requires Increasing(t) && k < |t|
    ensures BucketsBelow(t, t[k].score) == Total(t[..k])
  {
    if k == 0 {
      NoneBelow(t, t[0].score);
    } else {
      PrefixIsBelow(t[1..], k - 1);
      assert t[..k][1..] == t[1..][..k - 1];
    }
  }

  lemma {:induction false} NoneBelow(t: seq<Freqs>, x: real)
    requires forall i | 0 <= i < |t| :: t[i].score >= x
    ensures BucketsBelow(t, x) == 0
  {
    if t != [] { NoneBelow(t[1..], x); }
  }

  lemma {:induction false} SameBelow(t: seq<Freqs>, u: seq<Freqs>, x: real)
    requires SameBuckets(t, u)
    ensures BucketsBelow(u, x) == BucketsBelow(t, x) && BucketCount(u, x) == BucketCount(t, x)
  {
    if t != [] { SameBelow(t[1..], u[1..], x); }
  }

  /** The quantile fields do not matter for what a table represents. */
  lemma SameRepresents(t: seq<Freqs>, u: seq<Freqs>, scores: seq<real>)
    requires Represents(t, scores) && SameBuckets(t, u)
    ensures Represents(u, scores)
  {
    forall x
      ensures BucketCount(u, x) == CountEqual(scores, x) && BucketsBelow(u, x) == CountBelow(scores, x)
    {
      SameBelow(t, u, x);
      assert BucketCount(t, x) == CountEqual(scores, x) && BucketsBelow(t, x) == CountBelow(scores, x);
    }
  }

  /** In a finished table the numbers below grow from 0, and stay below the number of scores. */
  lemma NumlessGrows(t: seq<Freqs>, scores: seq<real>, j: nat, k: nat)
    requires Represents(t, scores) && Quantiled(t) && j < k < |t|
    ensures t[j].numless < t[k].numless < |scores| && t[0].numless == 0
  {
    PrefixIsBelow(t, 0);
    PrefixIsBelow(t, j);
    PrefixIsBelow(t, k);
    PrefixTotal(t, j, k);
    BelowSome(scores, t[k].score);
    BucketIffTallied(t, scores, t[k].score);
  }

  lemma {:induction false} PrefixTotal(t: seq<Freqs>, j: nat, k: nat)
    requires Increasing(t) && j < k <= |t|
    ensures Total(t[..j]) < Total(t[..k])
    decreases k
  {
    assert t[..k] == t[..k - 1] + [t[k - 1]];
    TotalAppend(t[..k - 1], t[k - 1]);
    if j < k - 1 { PrefixTotal(t, j, k - 1); }
  }

  /** Fewer scores are below one of them than there are scores. */
  lemma {:induction false} BelowSome(scores: seq<real>, x: real)
    ensures CountBelow(scores, x) <= |scores| && (x in scores ==> CountBelow(scores, x) < |scores|)
  {
    if scores != [] {
      BelowSome(scores[..|scores| - 1], x);
      assert scores == scores[..|scores| - 1] + [scores[|scores| - 1]];
    }
  }
}

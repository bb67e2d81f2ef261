/** Quantile scores looked up in a frequency table, averages of like scores, and the raw scores read
    back from quantiles. */
module Normalizing {
  import opened Gradebook
  import opened FrequencyTables

  // ----- the QUANTILE case of normal

  /** What a lookup comes to; the program reads through a null pointer when the table is empty. */
  datatype Lookup = Found(quantile: real) | Fallback(quantile: real) | NullTable

  function Percent(part: nat, n: nat): real
    requires n > 0
  {
    part as real * 100.0 / n as real
  }

  /** The bucket that the fallback uses: the last one if it is above s and not the only one. */
  function FallbackBucket(t: seq<Freqs>, s: real): int
    requires t != []
  {
    if s < t[|t| - 1].score then |t| - 1 else 0
  }

  ghost predicate HasBucket(t: seq<Freqs>, s: real, k: nat) {
    k < |t| && t[k].score == s
  }

  /** The lookup of s in a table with one bucket for each score. */
  ghost function QuantileOf(s: real, t: seq<Freqs>, tallied: nat): Lookup {
    var n := if tallied == 0 then 1 else tallied;
    if t == [] then NullTable
    else if exists k: nat :: HasBucket(t, s, k) then
      var k: nat :| HasBucket(t, s, k);
      Found(Percent(t[k].numless, n))
    else Fallback(Percent(t[FallbackBucket(t, s)].numless, n))
  }

  /** The table lookup of normal.  tallied is the number of scores in the table. */
  method NormalQuantile(s: real, fp: seq<Freqs>, tallied: nat) returns (r: Lookup)
    requires Increasing(fp)
    ensures fp == [] ==> r == NullTable
    ensures var n := if tallied == 0 then 1 else tallied;
      && (forall k {:trigger fp[k]} | 0 <= k < |fp| && fp[k].score == s :: r == Found(Percent(fp[k].numless, n)))
      && (fp != [] && (forall k {:trigger fp[k]} | 0 <= k < |fp| :: fp[k].score != s) ==>
            r == Fallback(Percent(fp[FallbackBucket(fp, s)].numless, n)))
    ensures r == QuantileOf(s, fp, tallied)
  {
    var n := if tallied == 0 then 1 else tallied;
    var f, i := 0, 0;
    while i < |fp|
      invariant 0 <= i <= |fp| && 0 <= f && (f < i || (f == 0 && i == 0))
      invariant forall k {:trigger fp[k]} | 0 <= k < i :: fp[k].score != s
      invariant f == if i > 0 && s < fp[i - 1].score then i - 1 else 0
    {
      if s < fp[i].score && fp[i].score > fp[f].score {
        f := i;
      }
      if s == fp[i].score {
        assert HasBucket(fp, s, i);
        return Found(Percent(fp[i].numless, n));
      }
      i := i + 1;
    }
    if fp == [] {
      return NullTable;
    }
    r := Fallback(Percent(fp[f].numless, n));
  }

  /** A tallied score is found, and gets 100 times the share of the tallied scores that are below it. */
  lemma TalliedIsFound(t: seq<Freqs>, scores: seq<real>, s: real) returns (k: nat)
    requires Represents(t, scores) && Quantiled(t) && s in scores
    ensures k < |t| && t[k].score == s && t[k].numless == CountBelow(scores, s) < |scores|
    ensures 0.0 <= Percent(t[k].numless, |scores|) < 100.0
  {
    BucketIffTallied(t, scores, s);
    k :| 0 <= k < |t| && t[k].score == s;
    assert BucketsBelow(t, t[k].score) == CountBelow(scores, s);
    BelowSome(scores, s);
    PercentOrder(t[k].numless, |scores|, |scores|);
  }

  /** Quantile scores are in the order of the raw scores. */
  lemma QuantilesInOrder(t: seq<Freqs>, scores: seq<real>, j: nat, k: nat)
    requires Represents(t, scores) && Quantiled(t) && j < k < |t|
    ensures |scores| > 0 && Percent(t[j].numless, |scores|) < Percent(t[k].numless, |scores|)
  {
    NumlessGrows(t, scores, j, k);
    PercentOrder(t[j].numless, t[k].numless, |scores|);
  }

  lemma PercentOrder(a: nat, b: nat, n: nat)
    requires a < b <= n
    ensures 0.0 <= Percent(a, n) < Percent(b, n) <= 100.0
  {
    var x, y, m := a as real * 100.0, b as real * 100.0, n as real;
    assert Percent(b, n) - Percent(a, n) == (y - x) / m;
    assert (y - x) / m > 0.0;
    assert y <= 100.0 * m;
  }

  /** The bucket that the comment in the source promises when s has none: the greatest below s. */
  ghost predicate GreatestBelow(t: seq<Freqs>, s: real, k: int) {
    0 <= k < |t| && t[k].score < s && forall i {:trigger t[i]} | k < i < |t| :: t[i].score > s
  }

  /** That promise is kept exactly when the table has a single bucket. */
  lemma FallbackAsPromised(t: seq<Freqs>, scores: seq<real>, s: real, k: int)
    requires Represents(t, scores) && Quantiled(t) && s !in scores && GreatestBelow(t, s, k)
    ensures |scores| > 0
    ensures Percent(t[FallbackBucket(t, s)].numless, |scores|) == Percent(t[k].numless, |scores|) <==> |t| == 1
  {
    BucketIffTallied(t, scores, t[k].score);
    var f := FallbackBucket(t, s);
    if |t| > 1 {
      var i, j := if f < k then f else k, if f < k then k else f;
      QuantilesInOrder(t, scores, i, j);
    }
  }

  // ----- studentavg

  /** A like score: its normalized value, and the weight of its assignment if that has one. */
  datatype Like = Like(value: real, weighted: bool, weight: real)

  function Share(l: Like): real {
    if l.weighted then l.value * l.weight else l.value
  }

  function WeightOf(l: Like): real {
    if l.weighted then l.weight else 0.0
  }

  function Sum(likes: seq<Like>): real {
    if likes == [] then 0.0 else Sum(likes[..|likes| - 1]) + Share(likes[|likes| - 1])
  }

  function Weight(likes: seq<Like>): real {
    if likes == [] then 0.0 else Weight(likes[..|likes| - 1]) + WeightOf(likes[|likes| - 1])
  }

  /** The weighted average, or 0 if nothing has weight. */
  function LikeAverage(likes: seq<Like>): real {
    if Weight(likes) == 0.0 then 0.0 else Sum(likes) / Weight(likes)
  }

  /** What the source promises for like scores without weights: each counts the same. */
  function PlainMean(likes: seq<Like>): real
    requires likes != []
  {
    Sum(likes) / |likes| as real
  }

  /** Without weights the average is 0 whatever the scores, and so it is their mean only if they sum to 0. */
  lemma UnweightedAverage(likes: seq<Like>)
    requires likes != [] && forall i {:trigger likes[i]} | 0 <= i < |likes| :: !likes[i].weighted
    ensures LikeAverage(likes) == 0.0
    ensures LikeAverage(likes) == PlainMean(likes) <==> Sum(likes) == 0.0
  {
    NoWeight(likes);
    var n := |likes| as real;
    assert PlainMean(likes) * n == Sum(likes);
  }

  lemma {:induction false} NoWeight(likes: seq<Like>)
    requires forall i {:trigger likes[i]} | 0 <= i < |likes| :: !likes[i].weighted
    ensures Weight(likes) == 0.0
  {
    if likes != [] { NoWeight(likes[..|likes| - 1]); }
  }

  /** The like scores that have a weight, or those that have none. */
  function Those(likes: seq<Like>, weighted: bool): seq<Like> {
    if likes == [] then []
    else
      var rest, l := Those(likes[..|likes| - 1], weighted), likes[|likes| - 1];
      if l.weighted == weighted then rest + [l] else rest
  }

  /** With and without weights mixed, the scores that have none are added to the average of the others, divided
      by the weight of those others: the average is that of the weighted scores exactly when the rest sum to 0. */
  lemma MixedAverage(likes: seq<Like>)
    requires Weight(likes) != 0.0
    ensures Weight(Those(likes, true)) == Weight(likes)
    ensures LikeAverage(likes) == LikeAverage(Those(likes, true)) + Sum(Those(likes, false)) / Weight(likes)
    ensures LikeAverage(likes) == LikeAverage(Those(likes, true)) <==> Sum(Those(likes, false)) == 0.0
  {
    hide Sum, Weight, Those;
    Parted(likes);
    var a, b, w := Sum(Those(likes, true)), Sum(Those(likes, false)), Weight(likes);
    Quotients(a, b, w);
  }

  lemma Quotients(a: real, b: real, w: real)
    requires w != 0.0
    ensures (a + b) / w == a / w + b / w && (b / w == 0.0 <==> b == 0.0)
  {
    assert b / w * w == b;
  }

  lemma {:induction false} Parted(likes: seq<Like>)
    ensures Sum(likes) == Sum(Those(likes, true)) + Sum(Those(likes, false))
    ensures Weight(likes) == Weight(Those(likes, true))
  {
    hide Share;
    if likes != [] {
      var rest, l := likes[..|likes| - 1], likes[|likes| - 1];
      Parted(rest);
      hide Sum, Weight, WeightOf;
      Appended(Those(rest, l.weighted), l);
      assert Sum(likes) == Sum(rest) + Share(l) && Weight(likes) == Weight(rest) + WeightOf(l) by { Unfolded(likes); }
      assert !l.weighted ==> WeightOf(l) == 0.0 by { Weightless(l); }
    }
  }

  lemma Unfolded(likes: seq<Like>)
    requires likes != []
    ensures Sum(likes) == Sum(likes[..|likes| - 1]) + Share(likes[|likes| - 1])
    ensures Weight(likes) == Weight(likes[..|likes| - 1]) + WeightOf(likes[|likes| - 1])
  {
  }

  lemma Weightless(l: Like)
    ensures !l.weighted ==> WeightOf(l) == 0.0
  {
  }

  lemma Appended(likes: seq<Like>, l: Like)
    ensures Sum(likes + [l]) == Sum(likes) + Share(l) && Weight(likes + [l]) == Weight(likes) + WeightOf(l)
  {
    hide Share, WeightOf;
    assert (likes + [l])[..|likes|] == likes;
  }

  /** With positive weights the average lies between the values. */
  lemma WeightedAverage(likes: seq<Like>, lo: real, hi: real)
    requires likes != []
    requires forall i {:trigger likes[i]} | 0 <= i < |likes| ::
      likes[i].weighted && likes[i].weight > 0.0 && lo <= likes[i].value <= hi
    ensures Weight(likes) > 0.0 && lo <= LikeAverage(likes) <= hi
  {
    hide Sum, Weight;
    WeightedBounds(likes, lo, hi);
    Ratio(Sum(likes), Weight(likes), lo, hi);
  }

  lemma Ratio(s: real, w: real, lo: real, hi: real)
    requires w > 0.0 && lo * w <= s <= hi * w
    ensures lo <= s / w <= hi
  {
    var x := s / w;
    assert x * w == s;
    Between(x, w, lo, hi);
  }

  lemma {:induction false} WeightedBounds(likes: seq<Like>, lo: real, hi: real)
    requires forall i {:trigger likes[i]} | 0 <= i < |likes| ::
      likes[i].weighted && likes[i].weight > 0.0 && lo <= likes[i].value <= hi
    ensures lo * Weight(likes) <= Sum(likes) <= hi * Weight(likes) && (likes != [] ==> Weight(likes) > 0.0)
    ensures Weight(likes) >= 0.0
  {
    hide Sum, Weight;
    if likes == [] {
      NoLikes(likes);
    } else {
      var rest, l := likes[..|likes| - 1], likes[|likes| - 1];
      Unfolded(likes);
      WeightedBounds(rest, lo, hi);
      Scaled(lo, l.value, l.weight);
      Scaled(l.value, hi, l.weight);
      Distributes(lo, Weight(rest), l.weight);
      Distributes(hi, Weight(rest), l.weight);
    }
  }

  lemma NoLikes(likes: seq<Like>)
    requires likes == []
    ensures Sum(likes) == 0.0 && Weight(likes) == 0.0
  {
  }

  lemma Distributes(a: real, v: real, w: real)
    ensures a * (v + w) == a * v + a * w
  {
  }

  lemma Scaled(a: real, b: real, w: real)
    requires a <= b && w > 0.0
    ensures a * w <= b * w
  {
  }

  lemma Between(x: real, w: real, lo: real, hi: real)
    requires w > 0.0 && lo * w <= x * w <= hi * w
    ensures lo <= x <= hi
  {
  }
}

/** Reading raw scores back from quantiles by linear interpolation over a frequency table. */
module Interpolation {
  import opened Gradebook
  import opened FrequencyTables
  import opened Normalizing

  /** A finished table of n scores. */
  ghost predicate Usable(t: seq<Freqs>, n: nat) {
    exists scores {:trigger Represents(t, scores)} :: Represents(t, scores) && Quantiled(t) && n == |scores|
  }

  /** The quantile of bucket k. */
  function Quantile(t: seq<Freqs>, n: nat, k: nat): real
    requires k < |t| && n > 0
  {
    t[k].numless as real * 100.0 / n as real
  }

  /** The first bucket, from k on and before the last, whose quantile is above q; else the last. */
  function Segment(t: seq<Freqs>, n: nat, q: real, k: nat): (s: nat)
    requires k < |t| && n > 0
    ensures k <= s < |t|
    decreases |t| - k
  {
    if k == |t| - 1 || q < Quantile(t, n, k) then k else Segment(t, n, q, k + 1)
  }

  /** The point at q on the line through (q0, s0) and (q1, s1). */
  function Line(q0: real, s0: real, q1: real, s1: real, q: real): real
    requires q0 != q1
  {
    s0 + (s1 - s0) / (q1 - q0) * (q - q0)
  }

  /** What the interpolation comes to: below 0 and in the last segment, the highest score. */
  ghost function Interpolated(t: seq<Freqs>, n: nat, q: real): real
    requires Usable(t, n)
  {
    if t == [] then 0.0
    else
      UsableTable(t, n);
      var k := Segment(t, n, q, 0);
      if q < 0.0 || k == |t| - 1 then t[|t| - 1].score
      else
        SegmentBounds(t, n, q, 0);
        Line(Quantile(t, n, k - 1), t[k - 1].score, Quantile(t, n, k), t[k].score, q)
  }

  lemma UsableTable(t: seq<Freqs>, n: nat)
    requires Usable(t, n) && t != []
    ensures n > 0 && Quantile(t, n, 0) == 0.0
    ensures forall j: nat, k: nat {:trigger Quantile(t, n, j), Quantile(t, n, k)} | j < k < |t| ::
      Quantile(t, n, j) < Quantile(t, n, k)
    ensures forall j, k {:trigger t[j], t[k]} | 0 <= j < k < |t| :: t[j].score < t[k].score
  {
    var scores :| Represents(t, scores) && Quantiled(t) && n == |scores|;
    BucketIffTallied(t, scores, t[0].score);
    PrefixIsBelow(t, 0);
    forall j: nat, k: nat | j < k < |t|
      ensures Quantile(t, n, j) < Quantile(t, n, k)
    {
      QuantilesInOrder(t, scores, j, k);
    }
  }

  /** The segment found lies around q. */
  lemma {:induction false} SegmentBounds(t: seq<Freqs>, n: nat, q: real, from: nat)
    requires Usable(t, n) && t != [] && n > 0 && from < |t| && q >= 0.0 && (from > 0 ==> Quantile(t, n, from - 1) <= q)
    ensures
      var k := Segment(t, n, q, from);
      && (k > 0 ==> Quantile(t, n, k - 1) <= q) && (k < |t| - 1 ==> k > 0 && q < Quantile(t, n, k))
    decreases |t| - from
  {
    UsableTable(t, n);
    if from < |t| - 1 && q >= Quantile(t, n, from) {
      SegmentBounds(t, n, q, from + 1);
    }
  }

  /** Bucket k is neither the first nor the last, and the share of the scores below it, in percent, is above q,
      while that for the bucket before it is not. */
  ghost predicate Between(t: seq<Freqs>, n: nat, q: real, k: int) {
    && 0 < k < |t| - 1 && n > 0
    && t[k - 1].numless as real * 100.0 / n as real <= q < t[k].numless as real * 100.0 / n as real
  }

  /** Inside a segment the result is as far on between the two scores as q is between their quantiles. */
  ghost predicate InProportion(t: seq<Freqs>, n: nat, q: real, k: int, r: real)
    requires 0 < k < |t| && n > 0
  {
    var q0, q1 := t[k - 1].numless as real * 100.0 / n as real, t[k].numless as real * 100.0 / n as real;
    (r - t[k - 1].score) * (q1 - q0) == (t[k].score - t[k - 1].score) * (q - q0)
  }

  /** What is between the buckets is read off in proportion; below 0, and from the last but one bucket on, the
      result is the highest score. */
  ghost predicate ReadOff(t: seq<Freqs>, n: nat, q: real, r: real) {
    && (t == [] ==> r == 0.0)
    && (forall k {:trigger Between(t, n, q, k)} | Between(t, n, q, k) :: InProportion(t, n, q, k, r))
    && (t != [] && (forall k {:trigger Between(t, n, q, k)} :: !Between(t, n, q, k)) ==> r == t[|t| - 1].score)
  }

  lemma BetweenQuantiles(t: seq<Freqs>, n: nat, q: real, k: int)
    ensures Between(t, n, q, k) <==>
      0 < k < |t| - 1 && n > 0 && Quantile(t, n, k - 1) <= q < Quantile(t, n, k)
  {
  }

  lemma InProportionOf(t: seq<Freqs>, n: nat, q: real, k: int, r: real)
    requires 0 < k < |t| && n > 0
    ensures InProportion(t, n, q, k, r) <==>
      (r - t[k - 1].score) * (Quantile(t, n, k) - Quantile(t, n, k - 1)) ==
      (t[k].score - t[k - 1].score) * (q - Quantile(t, n, k - 1))
  {
  }

  lemma InterpolatedIsReadOff(t: seq<Freqs>, n: nat, q: real)
    requires Usable(t, n)
    ensures ReadOff(t, n, q, Interpolated(t, n, q))
  {
    hide Usable, Interpolated, InProportion, Segment;
    InterpolatedParts(t, n, q);
    if t != [] {
      UsableTable(t, n);
      BetweenIsSegment(t, n, q);
      var k := Segment(t, n, q, 0);
      if q >= 0.0 && k < |t| - 1 { SegmentIsOnLine(t, n, q); }
    }
  }

  lemma InterpolatedParts(t: seq<Freqs>, n: nat, q: real)
    requires Usable(t, n)
    ensures t == [] ==> Interpolated(t, n, q) == 0.0
    ensures t != [] && n > 0 && (q < 0.0 || Segment(t, n, q, 0) == |t| - 1) ==>
      Interpolated(t, n, q) == t[|t| - 1].score
  {
  }

  lemma SegmentIsOnLine(t: seq<Freqs>, n: nat, q: real)
    requires Usable(t, n) && t != [] && n > 0 && q >= 0.0 && Segment(t, n, q, 0) < |t| - 1
    ensures
      var k := Segment(t, n, q, 0);
      Between(t, n, q, k) && InProportion(t, n, q, k, Interpolated(t, n, q))
  {
    hide Usable, Quantile, Between, InProportion, Line, Segment;
    UsableTable(t, n);
    SegmentBounds(t, n, q, 0);
    var k := Segment(t, n, q, 0);
    BetweenQuantiles(t, n, q, k);
    OnLine(Quantile(t, n, k - 1), t[k - 1].score, Quantile(t, n, k), t[k].score, q);
    InProportionOf(t, n, q, k, Interpolated(t, n, q));
  }

  /** q is in no other segment than that which is found. */
  lemma BetweenIsSegment(t: seq<Freqs>, n: nat, q: real)
    requires Usable(t, n) && t != [] && n > 0
    ensures forall k {:trigger Between(t, n, q, k)} | Between(t, n, q, k) ::
      q >= 0.0 && k == Segment(t, n, q, 0) && k < |t| - 1
  {
    hide Usable, Quantile, Between, Segment;
    UsableTable(t, n);
    forall k | Between(t, n, q, k)
      ensures q >= 0.0 && k == Segment(t, n, q, 0) && k < |t| - 1
    {
      BetweenQuantiles(t, n, q, k);
      assert Quantile(t, n, 0) <= Quantile(t, n, k - 1);
      SegmentIs(t, n, q, k, 0);
    }
  }

  lemma {:induction false} SegmentIs(t: seq<Freqs>, n: nat, q: real, k: nat, from: nat)
    requires Usable(t, n) && n > 0 && from <= k < |t| - 1 && 0 < k && Quantile(t, n, k - 1) <= q < Quantile(t, n, k)
    ensures Segment(t, n, q, from) == k
    decreases k - from
  {
    UsableTable(t, n);
    if from < k {
      assert from < k - 1 ==> Quantile(t, n, from) < Quantile(t, n, k - 1);
      SegmentIs(t, n, q, k, from + 1);
    }
  }

  lemma OnLine(q0: real, s0: real, q1: real, s1: real, q: real)
    requires q0 != q1
    ensures (Line(q0, s0, q1, s1, q) - s0) * (q1 - q0) == (s1 - s0) * (q - q0)
  {
    var slope := (s1 - s0) / (q1 - q0);
    assert slope * (q1 - q0) == s1 - s0;
    Swap(slope, q - q0, q1 - q0);
  }

  lemma Swap(a: real, b: real, c: real)
    ensures a * b * c == a * c * b
  {
  }

  /** interpolatequantile. */
  method InterpolateQuantile(fp: seq<Freqs>, n: nat, q: real) returns (r: real)
    requires Usable(fp, n)
    ensures ReadOff(fp, n, q, r) && r == Interpolated(fp, n, q)
  {
    hide Quantile, Line, Usable, ReadOff;
    InterpolatedIsReadOff(fp, n, q);
    if fp == [] {
      return 0.0;
    }
    UsableTable(fp, n);
    var i := 0;
    var pq, nq := 0.0, 0.0;
    var ps, ns := fp[0].score, fp[0].score;
    while i < |fp| - 1
      invariant 0 <= i < |fp|
      invariant q < 0.0 || Segment(fp, n, q, 0) == Segment(fp, n, q, i)
      invariant i == 0 ==> pq == 0.0 && ps == fp[0].score
      invariant i > 0 ==> pq == Quantile(fp, n, i - 1) && ps == fp[i - 1].score && (q < 0.0 || pq <= q)
    {
      nq := Quantile(fp, n, i);
      ns := fp[i].score;
      if pq <= q && q < nq {
        break;
      }
      pq := nq;
      ps := ns;
      i := i + 1;
    }
    if i == |fp| - 1 {
      return fp[i].score;
    }
    if nq - pq == 0.0 {
      r := ps;
    } else {
      r := Line(pq, ps, nq, ns, q);
    }
  }

  // ----- order and bounds

  /** On a rising segment the line stays between its ends and rises with q. */
  lemma LineRises(q0: real, s0: real, q1: real, s1: real, q: real, r: real)
    requires q0 < q1 && s0 < s1 && q0 <= q <= r < q1
    ensures s0 <= Line(q0, s0, q1, s1, q) <= Line(q0, s0, q1, s1, r) < s1
  {
    var slope := (s1 - s0) / (q1 - q0);
    assert Line(q0, s0, q1, s1, q) == s0 + slope * (q - q0);
    assert Line(q0, s0, q1, s1, r) == s0 + slope * (r - q0);
    assert slope * (q1 - q0) == s1 - s0;
    SlopePositive(slope, q1 - q0, s1 - s0);
    Steps(slope, q - q0, r - q0, q1 - q0);
  }

  lemma SlopePositive(slope: real, dx: real, dy: real)
    requires slope * dx == dy && dx > 0.0 && dy > 0.0
    ensures slope > 0.0
  {
  }

  lemma Steps(slope: real, a: real, b: real, c: real)
    requires slope > 0.0 && 0.0 <= a <= b < c
    ensures 0.0 <= slope * a <= slope * b < slope * c
  {
  }

  lemma {:induction false} SegmentMonotone(t: seq<Freqs>, n: nat, q: real, r: real, k: nat)
    requires k < |t| && n > 0 && q <= r
    ensures Segment(t, n, q, k) <= Segment(t, n, r, k)
    decreases |t| - k
  {
    if k < |t| - 1 && r >= Quantile(t, n, k) && q >= Quantile(t, n, k) {
      SegmentMonotone(t, n, q, r, k + 1);
    }
  }

  /** For a quantile from 0 on, the value lies in its segment, and in the last it is the highest score. */
  lemma InSegment(t: seq<Freqs>, n: nat, q: real)
    requires Usable(t, n) && t != [] && n > 0 && q >= 0.0
    ensures
      var k, v := Segment(t, n, q, 0), Interpolated(t, n, q);
      if k == |t| - 1 then v == t[k].score else k > 0 && t[k - 1].score <= v < t[k].score
  {
    UsableTable(t, n);
    SegmentBounds(t, n, q, 0);
    var k := Segment(t, n, q, 0);
    if k < |t| - 1 {
      LineRises(Quantile(t, n, k - 1), t[k - 1].score, Quantile(t, n, k), t[k].score, q, q);
    }
  }

  /** Higher quantiles from 0 on do not give lower scores. */
  lemma Monotone(t: seq<Freqs>, n: nat, q: real, r: real)
    requires Usable(t, n) && 0.0 <= q <= r
    ensures Interpolated(t, n, q) <= Interpolated(t, n, r)
  {
    if t != [] {
      UsableTable(t, n);
      InSegment(t, n, q);
      InSegment(t, n, r);
      SegmentMonotone(t, n, q, r, 0);
      var k := Segment(t, n, q, 0);
      if k == Segment(t, n, r, 0) && k < |t| - 1 {
        SegmentBounds(t, n, q, 0);
        SegmentBounds(t, n, r, 0);
        LineRises(Quantile(t, n, k - 1), t[k - 1].score, Quantile(t, n, k), t[k].score, q, r);
      }
    }
  }

  /** The result lies between the lowest and the highest score, whatever q is. */
  lemma Bounded(t: seq<Freqs>, n: nat, q: real)
    requires Usable(t, n) && t != []
    ensures t[0].score <= Interpolated(t, n, q) <= t[|t| - 1].score
  {
    UsableTable(t, n);
    if q >= 0.0 {
      InSegment(t, n, q);
      var k := Segment(t, n, q, 0);
      if k < |t| - 1 {
        assert t[0].score <= t[k - 1].score && t[k].score < t[|t| - 1].score;
      }
    }
  }

  /** From which quantile on the result is the highest score. */
  lemma {:induction false} TopSegment(t: seq<Freqs>, n: nat, q: real, k: nat)
    requires Usable(t, n) && |t| > 1 && n > 0 && k < |t| - 1
    ensures Segment(t, n, q, k) == |t| - 1 <==> Quantile(t, n, |t| - 2) <= q
    decreases |t| - k
  {
    UsableTable(t, n);
    if k < |t| - 2 && q >= Quantile(t, n, k) { TopSegment(t, n, q, k + 1); }
  }

  /** Below 0 the result is the highest score, so over all quantiles the order is kept exactly when the
      lower one is at least 0, or the higher one gives the highest score too: it is below 0 as well, or
      from the last but one bucket's quantile on. */
  lemma MonotoneExactly(t: seq<Freqs>, n: nat, q: real, r: real)
    requires Usable(t, n) && |t| > 1 && q <= r
    ensures n > 0
    ensures Interpolated(t, n, q) <= Interpolated(t, n, r) <==> q >= 0.0 || r < 0.0 || r >= Quantile(t, n, |t| - 2)
  {
    UsableTable(t, n);
    if q >= 0.0 {
      Monotone(t, n, q, r);
    } else if r >= 0.0 {
      InSegment(t, n, r);
      TopSegment(t, n, r, 0);
      var k := Segment(t, n, r, 0);
      if k < |t| - 1 {
        assert t[k].score < t[|t| - 1].score;
      }
    }
  }

  /** At the quantile of a bucket interpolation gives back the bucket's score, so that it inverts the quantile
      normalization, exactly for every bucket but the last but one, where it gives the highest score. */
  lemma InvertsQuantile(t: seq<Freqs>, n: nat, k: nat)
    requires Usable(t, n) && k < |t| && n > 0
    ensures Interpolated(t, n, Quantile(t, n, k)) == t[k].score <==> k + 2 != |t|
  {
    UsableTable(t, n);
    var q := Quantile(t, n, k);
    assert k > 0 ==> Quantile(t, n, 0) < q;
    SegmentBounds(t, n, q, 0);
    if k + 2 < |t| {
      SegmentAt(t, n, k, 0);
    } else if |t| > 1 {
      assert k == |t| - 1 ==> Quantile(t, n, |t| - 2) < q;
      TopSegment(t, n, q, 0);
      assert k + 2 == |t| ==> t[k].score < t[|t| - 1].score;
    }
  }

  lemma {:induction false} SegmentAt(t: seq<Freqs>, n: nat, k: nat, from: nat)
    requires Usable(t, n) && k + 2 < |t| && n > 0 && from <= k + 1
    ensures Segment(t, n, Quantile(t, n, k), from) == k + 1
    decreases |t| - from
  {
    UsableTable(t, n);
    if from <= k { SegmentAt(t, n, k, from + 1); }
  }

  // ----- what reading off in proportion means

  /** Half way between two quantiles is half way between their scores, and a higher quantile of the same segment
      gives a higher score. */
  lemma ReadOffHalfWay(t: seq<Freqs>, n: nat, q: real, r: real, k: int)
    requires Usable(t, n) && ReadOff(t, n, q, r) && Between(t, n, q, k)
    ensures
      var q0, q1 := t[k - 1].numless as real * 100.0 / n as real, t[k].numless as real * 100.0 / n as real;
      q == (q0 + q1) / 2.0 ==> r == (t[k - 1].score + t[k].score) / 2.0
  {
    hide Usable, ReadOff, Between, InProportion;
    ReadOffAt(t, n, q, r, k);
    var q0, q1 := Quantile(t, n, k - 1), Quantile(t, n, k);
    if q == (q0 + q1) / 2.0 {
      hide Quantile;
      Halved(r - t[k - 1].score, t[k].score - t[k - 1].score, q - q0, q1 - q0);
    }
  }

  lemma ReadOffAt(t: seq<Freqs>, n: nat, q: real, r: real, k: int)
    requires Usable(t, n) && ReadOff(t, n, q, r) && Between(t, n, q, k)
    ensures 0 < k < |t| - 1 && n > 0 && Quantile(t, n, k - 1) <= q < Quantile(t, n, k)
    ensures (r - t[k - 1].score) * (Quantile(t, n, k) - Quantile(t, n, k - 1)) ==
      (t[k].score - t[k - 1].score) * (q - Quantile(t, n, k - 1))
    ensures t[k - 1].score < t[k].score
  {
    hide Usable, Between, InProportion, Quantile;
    BetweenQuantiles(t, n, q, k);
    InProportionOf(t, n, q, k, r);
    UsableTable(t, n);
  }

  lemma Halved(x: real, y: real, a: real, d: real)
    requires d > 0.0 && x * d == y * a && a == d / 2.0
    ensures x == y / 2.0
  {
    assert y * a == y / 2.0 * d;
    SameFactor(x, y / 2.0, d);
  }

  lemma SameFactor(x: real, z: real, d: real)
    requires d > 0.0 && x * d == z * d
    ensures x == z
  {
    assert (x - z) * d == 0.0;
  }

  lemma ReadOffRises(t: seq<Freqs>, n: nat, q: real, r: real, q': real, r': real, k: int)
    requires Usable(t, n) && ReadOff(t, n, q, r) && ReadOff(t, n, q', r')
    requires Between(t, n, q, k) && Between(t, n, q', k) && q < q'
    ensures r < r'
  {
    hide Usable, ReadOff, Between, InProportion, Quantile;
    ReadOffAt(t, n, q, r, k);
    ReadOffAt(t, n, q', r', k);
    var q0, q1 := Quantile(t, n, k - 1), Quantile(t, n, k);
    Rises(r - t[k - 1].score, r' - t[k - 1].score, q - q0, q' - q0, t[k].score - t[k - 1].score, q1 - q0);
  }

  lemma Rises(x: real, x': real, a: real, a': real, y: real, d: real)
    requires d > 0.0 && y > 0.0 && a < a' && x * d == y * a && x' * d == y * a'
    ensures x < x'
  {
    assert (x' - x) * d == y * (a' - a);
    assert y * (a' - a) > 0.0;
  }
}

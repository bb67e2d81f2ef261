/** Distance matrices that are path lengths in a binary tree, and what characterises them. */
module TreeMetrics {

  type Matrix = (int, int) -> real

  ghost predicate Distinct(i: int, j: int, k: int, l: int) {
    i != j && i != k && i != l && j != k && j != l && k != l
  }

  /** The quartet ij|kl: the two larger of its three pairings are equal and the pairing of i with j,
      k with l is strictly the smallest. */
  ghost predicate Split(d: Matrix, i: int, j: int, k: int, l: int) {
    d(i, j) + d(k, l) < d(i, k) + d(j, l) && d(i, k) + d(j, l) == d(i, l) + d(j, k)
  }

  /** Four taxa of a binary tree with positive edges split in exactly one of the three ways. */
  ghost predicate Resolved(d: Matrix, i: int, j: int, k: int, l: int) {
    Split(d, i, j, k, l) || Split(d, i, k, j, l) || Split(d, i, l, j, k)
  }

  ghost predicate StrictTriangle(d: Matrix, i: int, j: int, k: int) {
    d(i, j) < d(i, k) + d(k, j)
  }

  ghost predicate Symmetric(d: Matrix, a: set<int>) {
    && (forall i | i in a :: d(i, i) == 0.0)
    && (forall i, j {:trigger d(i, j)} | i in a && j in a :: d(i, j) == d(j, i))
  }

  ghost predicate Positive(d: Matrix, a: set<int>) {
    forall i, j {:trigger d(i, j)} | i in a && j in a && i != j :: d(i, j) > 0.0
  }

  /** The strict four-point condition on the active nodes a. */
  ghost predicate Additive(d: Matrix, a: set<int>) {
    && Symmetric(d, a)
    && Positive(d, a)
    && (forall i, j, k {:trigger StrictTriangle(d, i, j, k)} |
          i in a && j in a && k in a && i != j && i != k && j != k :: StrictTriangle(d, i, j, k))
    && (forall i, j, k, l {:trigger Resolved(d, i, j, k, l)} |
          i in a && j in a && k in a && l in a && Distinct(i, j, k, l) :: Resolved(d, i, j, k, l))
  }

  /** f and g hang from the same internal node of the tree. */
  ghost predicate Cherry(d: Matrix, a: set<int>, f: int, g: int) {
    && f in a && g in a && f != g
    && forall k, l {:trigger Split(d, f, g, k, l)} | k in a && l in a && Distinct(f, g, k, l) :: Split(d, f, g, k, l)
  }

  // ----- binary trees with edge lengths

  /** A binary tree whose leaves are taxa.  An unrooted binary tree is represented by
      subdividing any one of its edges with a root. */
  datatype Tree = Taxon(id: int) | Clade(left: Tree, leftLength: real, right: Tree, rightLength: real)
  {
    ghost function Taxa(): set<int> {
      match this
      case Taxon(id) => {id}
      case Clade(l, _, r, _) => l.Taxa() + r.Taxa()
    }

    /** Every edge is positive and no taxon occurs twice. */
    ghost predicate Proper() {
      match this
      case Taxon(_) => true
      case Clade(l, x, r, y) => x > 0.0 && y > 0.0 && l.Taxa() !! r.Taxa() && l.Proper() && r.Proper()
    }

    /** The length of the path from the root to taxon a. */
    ghost function Height(a: int): real {
      match this
      case Taxon(_) => 0.0
      case Clade(l, x, r, y) => if a in l.Taxa() then x + l.Height(a) else y + r.Height(a)
    }

    /** The length of the tree path between the taxa a and b. */
    ghost function PathLength(a: int, b: int): real {
      match this
      case Taxon(_) => 0.0
      case Clade(l, _, r, _) =>
        if a in l.Taxa() && b in l.Taxa() then l.PathLength(a, b)
        else if a in r.Taxa() && b in r.Taxa() then r.PathLength(a, b)
        else Height(a) + Height(b)
    }

    /** How far from the root the paths to two distinct taxa part. */
    ghost function Meet(a: int, b: int): real {
      match this
      case Taxon(_) => 0.0
      case Clade(l, x, r, y) =>
        if a in l.Taxa() && b in l.Taxa() then x + l.Meet(a, b)
        else if a in r.Taxa() && b in r.Taxa() then y + r.Meet(a, b)
        else 0.0
    }
  }

  /** d lists the path lengths of the tree t. */
  ghost predicate PathMetric(t: Tree, d: Matrix) {
    forall a, b | a in t.Taxa() && b in t.Taxa() :: d(a, b) == t.PathLength(a, b)
  }

  lemma {:induction false} MeetFacts(t: Tree, a: int, b: int)
    requires t.Proper() && a in t.Taxa() && b in t.Taxa()
    ensures t.Height(a) >= 0.0 && t.Meet(a, b) == t.Meet(b, a) && t.Meet(a, b) >= 0.0
    ensures a == b ==> t.PathLength(a, b) == 0.0
    ensures a != b ==> t.Meet(a, b) < t.Height(a) && t.Meet(a, b) < t.Height(b)
    ensures a != b ==> t.PathLength(a, b) == t.Height(a) + t.Height(b) - 2.0 * t.Meet(a, b)
    decreases t
  {
    match t
    case Taxon(_) =>
    case Clade(l, x, r, y) =>
      if a in l.Taxa() { MeetFacts(l, a, a); } else { MeetFacts(r, a, a); }
      if b in l.Taxa() { MeetFacts(l, b, b); } else { MeetFacts(r, b, b); }
      if a in l.Taxa() && b in l.Taxa() {
        MeetFacts(l, a, b);
      } else if a in r.Taxa() && b in r.Taxa() {
        MeetFacts(r, a, b);
      }
  }

  /** One of the three pairs of taxa parts strictly later than the other two. */
  ghost predicate Ultrametric(t: Tree, a: int, b: int, c: int) {
    || t.Meet(a, c) == t.Meet(b, c) < t.Meet(a, b)
    || t.Meet(a, b) == t.Meet(b, c) < t.Meet(a, c)
    || t.Meet(a, b) == t.Meet(a, c) < t.Meet(b, c)
  }

  lemma {:induction false} MeetsAreUltrametric(t: Tree, a: int, b: int, c: int)
    requires t.Proper() && {a, b, c} <= t.Taxa() && a != b && a != c && b != c
    ensures Ultrametric(t, a, b, c)
    decreases t
  {
    match t
    case Taxon(_) =>
    case Clade(l, x, r, y) =>
      if {a, b, c} <= l.Taxa() {
        MeetsAreUltrametric(l, a, b, c);
      } else if {a, b, c} <= r.Taxa() {
        MeetsAreUltrametric(r, a, b, c);
      } else {
        PositiveMeet(t, a, b);
        PositiveMeet(t, a, c);
        PositiveMeet(t, b, c);
      }
  }

  /** Taxa on the same side of the root part beyond it. */
  lemma PositiveMeet(t: Tree, a: int, b: int)
    requires t.Proper() && t.Clade?
    ensures {a, b} <= t.left.Taxa() || {a, b} <= t.right.Taxa() ==> t.Meet(a, b) > 0.0
  {
    if {a, b} <= t.left.Taxa() {
      MeetFacts(t.left, a, b);
    } else if {a, b} <= t.right.Taxa() {
      MeetFacts(t.right, a, b);
    }
  }

  lemma QuartetResolved(t: Tree, d: Matrix, i: int, j: int, k: int, l: int)
    requires t.Proper() && PathMetric(t, d) && {i, j, k, l} <= t.Taxa() && Distinct(i, j, k, l)
    ensures Resolved(d, i, j, k, l)
  {
    MeetsAreUltrametric(t, i, j, k);
    MeetsAreUltrametric(t, i, j, l);
    MeetsAreUltrametric(t, i, k, l);
    MeetsAreUltrametric(t, j, k, l);
    MeetFacts(t, i, j);
    MeetFacts(t, i, k);
    MeetFacts(t, i, l);
    MeetFacts(t, j, k);
    MeetFacts(t, j, l);
    MeetFacts(t, k, l);
    MeetFacts(t, k, j);
    MeetFacts(t, l, j);
    MeetFacts(t, l, k);
  }

  /** The path lengths of every binary tree with positive edges satisfy the strict four-point condition. */
  lemma TreeIsAdditive(t: Tree, d: Matrix)
    requires t.Proper() && PathMetric(t, d)
    ensures Additive(d, t.Taxa())
  {
    var a := t.Taxa();
    forall i, j | i in a && j in a
      ensures d(i, j) == d(j, i) && (i == j ==> d(i, j) == 0.0) && (i != j ==> d(i, j) > 0.0)
    {
      MeetFacts(t, i, j);
      MeetFacts(t, j, i);
    }
    forall i, j, k | i in a && j in a && k in a && i != j && i != k && j != k
      ensures StrictTriangle(d, i, j, k)
    {
      MeetFacts(t, i, j);
      MeetFacts(t, i, k);
      MeetFacts(t, k, j);
      MeetsAreUltrametric(t, i, j, k);
    }
    forall i, j, k, l | i in a && j in a && k in a && l in a && Distinct(i, j, k, l)
      ensures Resolved(d, i, j, k, l)
    {
      QuartetResolved(t, d, i, j, k, l);
    }
  }
}

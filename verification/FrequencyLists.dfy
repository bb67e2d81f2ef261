/** The linked list behind a frequency table: counting a score and filling in the quantile fields in place.  The
    statistics of a course hold the sequence of buckets that such a list stands for. */
module FrequencyLists {
  import opened Gradebook
  import opened FrequencyTables

  /** One bucket of the list. */
  class Node {
    var score: real
    var count: nat
    var numless: nat
    var numlesseq: nat
    var next: Node?

    /** newfreqs, with the fields that count_score sets; the others come later. */
    constructor (score: real, next: Node?)
      ensures Bucket() == Freqs(score, 1, 0, 0) && this.next == next
    {
      this.score, this.next, count, numless, numlesseq := score, next, 1, 0, 0;
    }

    function Bucket(): Freqs
      reads this
    {
      Freqs(score, count, numless, numlesseq)
    }
  }

  ghost predicate Distinct(nodes: seq<Node>) {
    forall i, j {:trigger nodes[i], nodes[j]} | 0 <= i < j < |nodes| :: nodes[i] != nodes[j]
  }

  /** The list from head on has these nodes, and ends. */
  ghost predicate Chain(head: Node?, nodes: seq<Node>)
    reads nodes
  {
    && head == NodeAt(nodes, 0) && Distinct(nodes)
    && (forall i {:trigger nodes[i]} | 0 <= i < |nodes| :: nodes[i].next == NodeAt(nodes, i + 1))
  }

  ghost function NodeAt(nodes: seq<Node>, i: nat): Node? {
    if i < |nodes| then nodes[i] else null
  }

  /** The buckets that the nodes hold. */
  ghost function Table(nodes: seq<Node>): (t: seq<Freqs>)
    reads nodes
    ensures |t| == |nodes| && forall i {:trigger t[i]} | 0 <= i < |t| :: t[i] == nodes[i].Bucket()
  {
    if nodes == [] then [] else [nodes[0].Bucket()] + Table(nodes[1..])
  }

  /** count_score: the bucket of the score counts one more, or a new one is linked in where it belongs.  The other
      nodes stay where they are. */
  method CountScore(grade: real, afp: Node?, ghost nodes: seq<Node>, ghost scores: seq<real>)
    returns (head: Node?, ghost nodes1: seq<Node>)
    requires Chain(afp, nodes) && Represents(Table(nodes), scores)
    modifies nodes`count, nodes`next
    ensures Chain(head, nodes1) && Represents(Table(nodes1), scores + [grade])
    ensures forall x {:trigger x in nodes1} | x in nodes1 :: x in nodes || fresh(x)
    ensures forall x {:trigger x in nodes} | x in nodes :: x in nodes1
    ensures grade in scores ==> head == afp && nodes1 == nodes
  {
    hide Table, Represents, Counted;
    var sfp: Node? := null;
    var fp := afp;
    ghost var i, t := 0, Table(nodes);
    while fp != null
      invariant 0 <= i <= |nodes| && fp == NodeAt(nodes, i) && sfp == (if i == 0 then null else nodes[i - 1])
      invariant forall k {:trigger t[k]} | 0 <= k < i :: t[k].score < grade
      decreases |nodes| - i
    {
      assert t[i] == nodes[i].Bucket();
      if fp.score == grade {
        CountedRepresents(t, i, grade, scores);
        fp.count := fp.count + 1;
        CountedHere(nodes, i, t, grade);
        return afp, nodes;
      } else if fp.score > grade {
        head, nodes1 := Insert(grade, afp, sfp, fp, nodes, i, scores);
        return;
      }
      sfp, fp := fp, fp.next;
      i := i + 1;
    }
    head, nodes1 := Insert(grade, afp, sfp, fp, nodes, i, scores);
  }

  lemma CountedHere(nodes: seq<Node>, i: nat, t: seq<Freqs>, grade: real)
    requires i < |nodes| == |t| && t[i].score == grade
    requires forall k {:trigger nodes[k]} | 0 <= k < |nodes| ::
      nodes[k].Bucket() == if k == i then t[k].(count := t[k].count + 1) else t[k]
    ensures Table(nodes) == Counted(t, i, grade)
  {
    assert forall k {:trigger Table(nodes)[k]} | 0 <= k < |t| :: Table(nodes)[k] == nodes[k].Bucket();
  }

  /** A new bucket between sfp and fp, or in front. */
  method Insert(grade: real, afp: Node?, sfp: Node?, fp: Node?, ghost nodes: seq<Node>, ghost i: nat,
      ghost scores: seq<real>) returns (head: Node?, ghost nodes1: seq<Node>)
    requires Chain(afp, nodes) && Represents(Table(nodes), scores)
    requires i <= |nodes| && fp == NodeAt(nodes, i) && sfp == (if i == 0 then null else nodes[i - 1])
    requires forall k {:trigger Table(nodes)[k]} | 0 <= k < i :: Table(nodes)[k].score < grade
    requires i < |nodes| ==> Table(nodes)[i].score > grade
    modifies nodes`next
    ensures Chain(head, nodes1) && Represents(Table(nodes1), scores + [grade]) && grade !in scores
    ensures forall x {:trigger x in nodes1} | x in nodes1 :: x in nodes || fresh(x)
    ensures forall x {:trigger x in nodes} | x in nodes :: x in nodes1
  {
    hide Table, Represents, Counted, Chain, Distinct;
    ghost var t := Table(nodes);
    ChainFacts(afp, nodes);
    CountedRepresents(t, i, grade, scores);
    NotCounted(t, scores, grade, i);
    var added := new Node(grade, fp);
    head := afp;
    if i > 0 { OnlyOne(nodes, i - 1); }
    if sfp == null {
      head := added;
    } else {
      sfp.next := added;
    }
    nodes1 := nodes[..i] + [added] + nodes[i..];
    assert forall k {:trigger nodes[k]} | 0 <= k < |nodes| :: nodes[k].Bucket() == t[k];
    LinkedIn(nodes, i, added, nodes1, head);
    TableWith(nodes, i, added, nodes1, t, grade);
    assert forall x {:trigger x in nodes} | x in nodes :: x in nodes[..i] || x in nodes[i..];
  }

  lemma OnlyOne(nodes: seq<Node>, i: nat)
    requires Distinct(nodes) && i < |nodes|
    ensures forall k {:trigger nodes[k]} | 0 <= k < |nodes| && k != i :: nodes[k] != nodes[i]
  {
  }

  lemma LinkedIn(nodes: seq<Node>, i: nat, added: Node, nodes1: seq<Node>, head: Node?)
    requires i <= |nodes| && added !in nodes && nodes1 == nodes[..i] + [added] + nodes[i..]
    requires Distinct(nodes)
    requires forall j {:trigger nodes[j]} | 0 <= j < |nodes| ::
      nodes[j].next == if j == i - 1 then added else NodeAt(nodes, j + 1)
    requires added.next == NodeAt(nodes, i) && head == if i == 0 then added else NodeAt(nodes, 0)
    ensures Chain(head, nodes1)
  {
    forall j, k | 0 <= j < k < |nodes1|
      ensures nodes1[j] != nodes1[k]
    {
      assert j < i ==> nodes1[j] == nodes[j];
      assert j > i ==> nodes1[j] == nodes[j - 1];
      assert k < i ==> nodes1[k] == nodes[k];
      assert k > i ==> nodes1[k] == nodes[k - 1];
    }
    forall j | 0 <= j < |nodes1|
      ensures nodes1[j].next == NodeAt(nodes1, j + 1)
    {
      assert j < i ==> nodes1[j] == nodes[j];
      assert j > i ==> nodes1[j] == nodes[j - 1];
    }
  }

  lemma TableWith(nodes: seq<Node>, i: nat, added: Node, nodes1: seq<Node>, t: seq<Freqs>, grade: real)
    requires i <= |nodes| == |t| && nodes1 == nodes[..i] + [added] + nodes[i..]
    requires forall k {:trigger nodes[k]} | 0 <= k < |nodes| :: nodes[k].Bucket() == t[k]
    requires added.Bucket() == Freqs(grade, 1, 0, 0) && (i < |t| ==> t[i].score != grade)
    ensures Table(nodes1) == Counted(t, i, grade)
  {
    var r := Counted(t, i, grade);
    forall k | 0 <= k < |nodes1|
      ensures nodes1[k].Bucket() == r[k]
    {
      assert k < i ==> nodes1[k] == nodes[k];
      assert k > i ==> nodes1[k] == nodes[k - 1];
    }
  }

  lemma NotCounted(t: seq<Freqs>, scores: seq<real>, grade: real, i: nat)
    requires Represents(t, scores) && i <= |t|
    requires forall k {:trigger t[k]} | 0 <= k < i :: t[k].score < grade
    requires i < |t| ==> t[i].score > grade
    ensures grade !in scores
  {
    BucketIffTallied(t, scores, grade);
    forall k | 0 <= k < |t|
      ensures t[k].score != grade
    {
      assert i < k ==> t[i].score < t[k].score;
    }
  }

  /** The inner loop of do_quantiles, in place. */
  method FillQuantiles(freqs: Node?, ghost nodes: seq<Node>)
    requires Chain(freqs, nodes) && Increasing(Table(nodes))
    modifies nodes`numless, nodes`numlesseq
    ensures Chain(freqs, nodes) && SameBuckets(old(Table(nodes)), Table(nodes)) && Quantiled(Table(nodes))
  {
    hide Increasing, Quantiled, Table, Filled, Chain, Distinct, SameBuckets, NodeAt;
    var sum, fp := 0, freqs;
    ghost var i, t := 0, Table(nodes);
    ChainFacts(freqs, nodes);
    assert forall k {:trigger nodes[k]} | 0 <= k < |nodes| :: nodes[k].Bucket() == t[k];
    while fp != null
      invariant 0 <= i <= |nodes| && fp == NodeAt(nodes, i) && sum == Total(t[..i])
      invariant forall k {:trigger nodes[k]} | 0 <= k < |nodes| ::
        nodes[k].Bucket() == if k < i then Filled(t, k) else t[k]
      decreases |nodes| - i
    {
      ThisNode(nodes, i);
      OnlyOne(nodes, i);
      var next := fp.next;
      sum := FillNode(fp, sum, t, i);
      fp := next;
      i := i + 1;
    }
    ThisNode(nodes, i);
    ChainHolds(freqs, nodes);
    FilledTable(nodes, t);
  }

  lemma ThisNode(nodes: seq<Node>, i: nat)
    ensures if i < |nodes| then NodeAt(nodes, i) == nodes[i] else NodeAt(nodes, i) == null
  {
  }

  /** Bucket k of the table with its quantile fields. */
  ghost function Filled(t: seq<Freqs>, k: nat): (b: Freqs)
    requires k < |t|
    ensures b.count == t[k].count
  {
    t[k].(numless := Total(t[..k]), numlesseq := Total(t[..k]) + t[k].count)
  }

  method FillNode(fp: Node, sum: nat, ghost t: seq<Freqs>, ghost i: nat) returns (sum1: nat)
    requires i < |t| && fp.Bucket() == t[i] && sum == Total(t[..i])
    modifies fp`numless, fp`numlesseq
    ensures fp.Bucket() == Filled(t, i) && sum1 == Total(t[..i + 1])
  {
    assert t[..i + 1] == t[..i] + [t[i]];
    TotalAppend(t[..i], t[i]);
    fp.numless := sum;
    sum1 := sum + fp.count;
    fp.numlesseq := sum1;
  }

  lemma FilledTable(nodes: seq<Node>, t: seq<Freqs>)
    requires |t| == |nodes| && Increasing(t)
    requires forall k {:trigger nodes[k]} | 0 <= k < |nodes| :: nodes[k].Bucket() == Filled(t, k)
    ensures SameBuckets(t, Table(nodes)) && Quantiled(Table(nodes))
  {
    var r := Table(nodes);
    forall k | 0 <= k < |r|
      ensures r[k] == Filled(t, k)
    {
      assert r[k] == nodes[k].Bucket();
    }
    FilledQuantiled(t, r);
  }

  lemma ChainFacts(head: Node?, nodes: seq<Node>)
    requires Chain(head, nodes)
    ensures head == NodeAt(nodes, 0) && Distinct(nodes)
    ensures forall i {:trigger nodes[i]} | 0 <= i < |nodes| :: nodes[i].next == NodeAt(nodes, i + 1)
  {
  }

  lemma ChainHolds(head: Node?, nodes: seq<Node>)
    requires head == NodeAt(nodes, 0) && Distinct(nodes)
    requires forall i {:trigger nodes[i]} | 0 <= i < |nodes| :: nodes[i].next == NodeAt(nodes, i + 1)
    ensures Chain(head, nodes)
  {
  }
}

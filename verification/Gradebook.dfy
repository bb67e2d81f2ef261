/** The records of the grade database that the sorting and statistics code updates in place. */
module Gradebook {

  /** A student; surname, name, id and composite score are settled before rosters are sorted. */
  class Student {
    const id: string
    const surname: string
    const name: string
    const composite: real
    const rawscores: seq<Score>
    var normscores: seq<NormScore>
    var next: Student?   // section roster
    var cnext: Student?  // course roster

    constructor (id: string, surname: string, name: string, composite: real, rawscores: seq<Score>)
      ensures this.id == id && this.surname == surname && this.name == name && this.composite == composite
      ensures this.rawscores == rawscores && normscores == [] && next == null && cnext == null
    {
      this.id, this.surname, this.name, this.composite, this.rawscores := id, surname, name, composite, rawscores;
      normscores, next, cnext := [], null, null;
    }
  }

  datatype Gflag = VALID | INVALID
  datatype Gsubst = USERAW | USENORM | USELIKEAVG | USECLASSAVG
  datatype Npolicy = RAW | LINEAR | QUANTILE | SCALE
  datatype Ngroup = BYCLASS | BYSECTION

  /** The parameters of an assignment; normalizing may raise max. */
  class Assignment {
    const name: string
    const atype: string
    const weighted: bool
    const weight: real
    const npolicy: Npolicy
    const ngroup: Ngroup
    const mean: real
    const stddev: real
    const scale: real
    var max: real

    constructor (name: string, atype: string, weighted: bool, weight: real, npolicy: Npolicy, ngroup: Ngroup,
      mean: real,
                 stddev: real, scale: real, max: real)
      ensures this.name == name && this.atype == atype && this.weighted == weighted && this.weight == weight
      ensures this.npolicy == npolicy && this.ngroup == ngroup && this.mean == mean && this.stddev == stddev
      ensures this.scale == scale && this.max == max
    {
      this.name, this.atype, this.weighted, this.weight := name, atype, weighted, weight;
      this.npolicy, this.ngroup, this.mean, this.stddev := npolicy, ngroup, mean, stddev;
      this.scale, this.max := scale, max;
    }
  }

  /** One bucket of a frequency table. */
  datatype Freqs = Freqs(score: real, count: nat, numless: nat, numlesseq: nat)

  /** Statistics of an assignment for the whole class or for one section; normalizing may raise stddev. */
  class Statistics {
    const asgt: Assignment
    var tallied: nat
    var freqs: seq<Freqs>
    var mean: real
    var stddev: real

    constructor (asgt: Assignment)
      ensures this.asgt == asgt && tallied == 0 && freqs == [] && mean == 0.0 && stddev == 0.0
    {
      this.asgt, tallied, freqs, mean, stddev := asgt, 0, [], 0.0, 0.0;
    }
  }

  /** A raw score, with the normalized scores that may be substituted for it. */
  class Score {
    const asgt: Assignment
    const grade: real
    const qnorm: real
    const lnorm: real
    const flag: Gflag
    const subst: Gsubst
    var cstats: Statistics?
    var sstats: Statistics?

    constructor (asgt: Assignment, grade: real, qnorm: real, lnorm: real, flag: Gflag, subst: Gsubst)
      ensures this.asgt == asgt && this.grade == grade && this.qnorm == qnorm && this.lnorm == lnorm
      ensures this.flag == flag && this.subst == subst && cstats == null && sstats == null
    {
      this.asgt, this.grade, this.qnorm, this.lnorm, this.flag, this.subst := asgt, grade, qnorm, lnorm, flag, subst;
      cstats, sstats := null, null;
    }
  }

  /** A normalized score. */
  datatype NormScore = NormScore(asgt: Assignment, flag: Gflag, subst: Gsubst, grade: real)

  class Section {
    const name: string
    var roster: Student?

    constructor (name: string, roster: Student?)
      ensures this.name == name && this.roster == roster
    {
      this.name, this.roster := name, roster;
    }
  }

  class Course {
    const assignments: seq<Assignment>
    const sections: seq<Section>
    var roster: Student?

    constructor (assignments: seq<Assignment>, sections: seq<Section>)
      ensures this.assignments == assignments && this.sections == sections && roster == null
    {
      this.assignments, this.sections, roster := assignments, sections, null;
    }
  }

  // ----- rosters

  /** Which link field a roster goes by. */
  datatype Link = Next | CNext

  function LinkOf(s: Student, link: Link): Student?
    reads s`next, s`cnext
  {
    match link
    case Next => s.next
    case CNext => s.cnext
  }

  function Nth(xs: seq<Student>, k: int): Student? {
    if 0 <= k < |xs| then xs[k] else null
  }

  /** From s on, the links lead through xs and end in NULL. */
  ghost predicate ChainOf(s: Student?, xs: seq<Student>, link: Link)
    reads xs`next, xs`cnext
  {
    s == Nth(xs, 0) && forall k {:trigger xs[k]} | 0 <= k < |xs| :: LinkOf(xs[k], link) == Nth(xs, k + 1)
  }

  /** A chain that ends visits no one twice. */
  lemma ChainDistinct(s: Student?, xs: seq<Student>, link: Link, i: int, j: int)
    requires ChainOf(s, xs, link) && 0 <= i < j < |xs|
    ensures xs[i] != xs[j]
    decreases |xs| - j
  {
    if j + 1 < |xs| { ChainDistinct(s, xs, link, i + 1, j + 1); }
  }
}

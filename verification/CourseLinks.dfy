/** Threading the course roster through the section rosters, and tying scores to statistics. */
module CourseLinks {
  import opened Gradebook

  // ----- the students of all sections in order

  ghost function Concat(rosters: seq<seq<Student>>): seq<Student> {
    if rosters == [] then [] else rosters[0] + Concat(rosters[1..])
  }

  /** How many students come before section k. */
  ghost function Offset(rosters: seq<seq<Student>>, k: nat): nat
    requires k <= |rosters|
  {
    if k == 0 then 0 else Offset(rosters, k - 1) + |rosters[k - 1]|
  }

  lemma {:induction false} ConcatAt(rosters: seq<seq<Student>>, k: nat, j: nat)
    requires k < |rosters| && j < |rosters[k]|
    ensures Offset(rosters, k) + j < |Concat(rosters)| && Concat(rosters)[Offset(rosters, k) + j] == rosters[k][j]
  {
    if k > 0 {
      OffsetTail(rosters, k);
      ConcatAt(rosters[1..], k - 1, j);
    }
  }

  lemma {:induction false} OffsetTail(rosters: seq<seq<Student>>, k: nat)
    requires 0 < k <= |rosters|
    ensures Offset(rosters, k) == |rosters[0]| + Offset(rosters[1..], k - 1)
  {
    if k > 1 { OffsetTail(rosters, k - 1); }
  }

  lemma {:induction false} ConcatLength(rosters: seq<seq<Student>>)
    ensures |Concat(rosters)| == Offset(rosters, |rosters|)
  {
    if rosters != [] {
      ConcatLength(rosters[1..]);
      OffsetTail(rosters, |rosters|);
    }
  }

  /** Every student of the course has a place in a section. */
  lemma {:induction false} PlaceOf(rosters: seq<seq<Student>>, n: nat) returns (k: nat, j: nat)
    requires n < |Concat(rosters)|
    ensures k < |rosters| && j < |rosters[k]| && n == Offset(rosters, k) + j && Concat(rosters)[n] == rosters[k][j]
  {
    if n < |rosters[0]| {
      k, j := 0, n;
    } else {
      k, j := PlaceOf(rosters[1..], n - |rosters[0]|);
      k := k + 1;
      OffsetTail(rosters, k);
    }
  }

  // ----- the course roster while it is threaded

  /** The first n students have been visited in this pass.  In the first pass the chain ends with the
      last of them.  In a later pass the students still to come are linked as before, and the last one
      leads back to the first: a cycle, cut behind the last visited student. */
  ghost predicate Threading(all: seq<Student>, n: int, first: bool)
    reads all`cnext
  {
    && 0 <= n <= |all|
    && (forall i {:trigger all[i]} | 0 <= i < n ::
          all[i].cnext == if i < n - 1 then all[i + 1] else null)
    && (!first ==> forall i {:trigger all[i]} | n <= i < |all| ::
          all[i].cnext == if i < |all| - 1 then all[i + 1] else if n == 0 then null else all[0])
  }

  /** The student that the next one is linked behind. */
  ghost function LastVisited(all: seq<Student>, n: int, first: bool): Student?
    requires 0 <= n <= |all|
  {
    if n > 0 then all[n - 1] else if first || all == [] then null else all[|all| - 1]
  }

  ghost predicate DistinctStudents(all: seq<Student>) {
    forall i, j {:trigger all[i], all[j]} | 0 <= i < j < |all| :: all[i] != all[j]
  }

  /** Links one student into the course roster. */
  method ThreadStudent(c: Course, rp: Student?, stp: Student, ghost all: seq<Student>, ghost n: int, ghost first: bool)
    returns (rp1: Student)
    requires DistinctStudents(all) && Threading(all, n, first) && n < |all| && stp == all[n]
    requires rp == LastVisited(all, n, first)
    requires first ==> c.roster == (if n == 0 then null else all[0])
    requires !first ==> c.roster == all[0]
    modifies c`roster, all`cnext
    ensures Threading(all, n + 1, first) && rp1 == LastVisited(all, n + 1, first) && c.roster == all[0]
  {
    if rp == null {
      c.roster := stp;
      stp.cnext := null;
      rp1 := stp;
    } else {
      rp.cnext := stp;
      stp.cnext := null;
      rp1 := stp;
    }
  }

  // ----- scores

  /** The student's scores on ap point at these statistics. */
  ghost predicate ScoresLinked(x: Student, ap: Assignment, csp: Statistics, ssp: Statistics)
    reads x.rawscores`cstats, x.rawscores`sstats
  {
    forall k {:trigger x.rawscores[k]} | 0 <= k < |x.rawscores| && x.rawscores[k].asgt == ap ::
      x.rawscores[k].cstats == csp && x.rawscores[k].sstats == ssp
  }

  method LinkScores(stp: Student, ap: Assignment, csp: Statistics, ssp: Statistics)
    modifies stp.rawscores`cstats, stp.rawscores`sstats
    ensures ScoresLinked(stp, ap, csp, ssp)
    ensures forall sc {:trigger sc in stp.rawscores} | sc in stp.rawscores && sc.asgt != ap ::
      sc.cstats == old(sc.cstats) && sc.sstats == old(sc.sstats)
  {
    var i := 0;
    while i < |stp.rawscores|
      invariant 0 <= i <= |stp.rawscores|
      invariant forall sc {:trigger sc in stp.rawscores} | sc in stp.rawscores && sc.asgt != ap ::
        sc.cstats == old(sc.cstats) && sc.sstats == old(sc.sstats)
      invariant forall k {:trigger stp.rawscores[k]} | 0 <= k < i && stp.rawscores[k].asgt == ap ::
        stp.rawscores[k].cstats == csp && stp.rawscores[k].sstats == ssp
    {
      var scp := stp.rawscores[i];
      if scp.asgt == ap {
        scp.cstats := csp;
        scp.sstats := ssp;
      }
      i := i + 1;
    }
  }

  /** owner tells, for every score, the one student that has it. */
  ghost predicate Owned(all: seq<Student>, owner: map<Score, int>) {
    && (forall i {:trigger all[i]} | 0 <= i < |all| :: Owns(all[i], i, owner))
    && (forall sc {:trigger sc in owner.Keys} | sc in owner.Keys ::
         0 <= owner[sc] < |all| && sc in all[owner[sc]].rawscores)
  }

  ghost predicate Owns(x: Student, i: int, owner: map<Score, int>) {
    forall k {:trigger x.rawscores[k]} | 0 <= k < |x.rawscores| ::
      x.rawscores[k] in owner.Keys && owner[x.rawscores[k]] == i
  }

  /** The section that student n of the course is in. */
  ghost function SectionOf(rosters: seq<seq<Student>>, n: int): nat {
    if rosters == [] || n < |rosters[0]| then 0 else 1 + SectionOf(rosters[1..], n - |rosters[0]|)
  }

  lemma {:induction false} SectionOfAt(rosters: seq<seq<Student>>, k: nat, j: nat)
    requires k < |rosters| && j < |rosters[k]|
    ensures SectionOf(rosters, Offset(rosters, k) + j) == k
  {
    if k > 0 {
      OffsetTail(rosters, k);
      SectionOfAt(rosters[1..], k - 1, j);
    }
  }

  /** targets[i] is what the scores of student i are to point at for their section. */
  ghost function Targets(rosters: seq<seq<Student>>, ssps: seq<Statistics>): seq<Statistics>
    requires |rosters| <= |ssps|
  {
    if rosters == [] then [] else seq(|rosters[0]|, _ => ssps[0]) + Targets(rosters[1..], ssps[1..])
  }

  lemma {:induction false} TargetAt(rosters: seq<seq<Student>>, ssps: seq<Statistics>, k: nat, j: nat)
    requires |rosters| <= |ssps| && k < |rosters| && j < |rosters[k]|
    ensures |Targets(rosters, ssps)| == |Concat(rosters)| && Offset(rosters, k) + j < |Concat(rosters)|
    ensures Targets(rosters, ssps)[Offset(rosters, k) + j] == ssps[k]
  {
    TargetsLength(rosters, ssps);
    ConcatAt(rosters, k, j);
    if k > 0 {
      OffsetTail(rosters, k);
      TargetAt(rosters[1..], ssps[1..], k - 1, j);
    }
  }

  lemma {:induction false} TargetsLength(rosters: seq<seq<Student>>, ssps: seq<Statistics>)
    requires |rosters| <= |ssps|
    ensures |Targets(rosters, ssps)| == |Concat(rosters)|
  {
    if rosters != [] { TargetsLength(rosters[1..], ssps[1..]); }
  }

  // ----- do_links

  /** Where the scores point. */
  ghost function Pointers(owner: map<Score, int>): (p: map<Score, (Statistics?, Statistics?)>)
    reads owner.Keys`cstats, owner.Keys`sstats
  {
    map sc | sc in owner.Keys :: (sc.cstats, sc.sstats)
  }

  /** The scores that the first n students have on ap point at their targets. */
  ghost predicate LinkedTo(p: map<Score, (Statistics?, Statistics?)>, n: int, ap: Assignment, csp: Statistics,
                           targets: seq<Statistics>, owner: map<Score, int>)
  {
    && 0 <= n <= |targets|
    && forall sc {:trigger sc in p.Keys} | sc in p.Keys && sc in owner.Keys && sc.asgt == ap && 0 <= owner[sc] < n ::
         p[sc] == (csp, targets[owner[sc]])
  }

  /** Scores on other assignments are left alone. */
  ghost predicate OthersSame(p: map<Score, (Statistics?, Statistics?)>, q: map<Score, (Statistics?, Statistics?)>,
      ap: Assignment) {
    p.Keys == q.Keys && forall sc {:trigger sc in q.Keys} | sc in q.Keys && sc.asgt != ap :: q[sc] == p[sc]
  }

  lemma OthersSameStart(owner: map<Score, int>, ap: Assignment)
    ensures OthersSame(Pointers(owner), Pointers(owner), ap)
  {
  }

  lemma OthersSameChain(p: map<Score, (Statistics?, Statistics?)>, q: map<Score, (Statistics?, Statistics?)>,
                        r: map<Score, (Statistics?, Statistics?)>, ap: Assignment)
    requires OthersSame(p, q, ap) && OthersSame(q, r, ap)
    ensures OthersSame(p, r, ap)
  {
  }

  method LinkNext(stp: Student, ap: Assignment, csp: Statistics, ssp: Statistics,
                  ghost all: seq<Student>, ghost n: nat, ghost targets: seq<Statistics>, ghost owner: map<Score, int>)
    requires LinkedTo(Pointers(owner), n, ap, csp, targets, owner) && Owned(all, owner) && |targets| == |all|
    requires n < |all| && stp == all[n] && ssp == targets[n]
    modifies owner.Keys`cstats, owner.Keys`sstats
    ensures LinkedTo(Pointers(owner), n + 1, ap, csp, targets, owner)
    ensures OthersSame(old(Pointers(owner)), Pointers(owner), ap)
  {
    assert Owns(stp, n, owner);
    LinkScores(stp, ap, csp, ssp);
    forall sc | sc in owner.Keys
      ensures sc.asgt == ap && owner[sc] == n ==> sc.cstats == csp && sc.sstats == ssp
      ensures sc.asgt != ap || owner[sc] != n ==> sc.cstats == old(sc.cstats) && sc.sstats == old(sc.sstats)
    {
      assert sc in stp.rawscores <==> owner[sc] == n;
    }
  }

  /** The state of a pass for assignment ap with n students visited: how the roster is threaded and
      where the visited students' scores on ap point. */
  ghost predicate InPass(c: Course, all: seq<Student>, n: int, rp: Student?, first: bool,
                         ap: Assignment, csp: Statistics, targets: seq<Statistics>, owner: map<Score, int>)
    reads c`roster, all`cnext, owner.Keys`cstats, owner.Keys`sstats
  {
    && Threading(all, n, first) && rp == LastVisited(all, n, first)
    && c.roster == (if first && n == 0 then null else Nth(all, 0))
    && |targets| == |all| && LinkedTo(Pointers(owner), n, ap, csp, targets, owner)
  }

  /** One student in the innermost loops of do_links. */
  method LinkStudent(c: Course, stp: Student, ap: Assignment, csp: Statistics, ssp: Statistics, rp: Student?,
                     ghost all: seq<Student>, ghost n: nat, ghost first: bool, ghost targets: seq<Statistics>,
                     ghost owner: map<Score, int>)
    returns (rp1: Student?)
    requires DistinctStudents(all) && Owned(all, owner) && InPass(c, all, n, rp, first, ap, csp, targets, owner)
    requires n < |all| && stp == all[n] && ssp == targets[n]
    modifies c`roster, all`cnext, owner.Keys`cstats, owner.Keys`sstats
    ensures InPass(c, all, n + 1, rp1, first, ap, csp, targets, owner)
    ensures OthersSame(old(Pointers(owner)), Pointers(owner), ap)
  {
    hide LinkedTo, Pointers, OthersSame, Owned;
    rp1 := ThreadStudent(c, rp, stp, all, n, first);
    LinkNext(stp, ap, csp, ssp, all, n, targets, owner);
  }

  /** From the section's roster on, next leads through the students from place from up to place till */
  ghost predicate RosterOf(section: Section, all: seq<Student>, from: int, till: int)
    reads section`roster, all`next
  {
    && 0 <= from <= till <= |all|
    && section.roster == (if from < till then all[from] else null)
    && forall i {:trigger all[i]} | from <= i < till :: all[i].next == if i + 1 < till then all[i + 1] else null
  }

  /** The state of a pass within one section, before student i. */
  ghost predicate InSection(c: Course, sep: Section, all: seq<Student>, i: int, till: int, stp: Student?, rp: Student?,
      first: bool,
                            ap: Assignment, csp: Statistics, targets: seq<Statistics>, owner: map<Score, int>,
                            p0: map<Score, (Statistics?, Statistics?)>, from: int, ssp: Statistics)
    reads c`roster, all`cnext, owner.Keys`cstats, owner.Keys`sstats, sep`roster, all`next
  {
    && from <= i <= till <= |all| && 0 <= i && stp == (if i < till then all[i] else null)
    && RosterOf(sep, all, from, till)
    && DistinctStudents(all) && Owned(all, owner) && InPass(c, all, i, rp, first, ap, csp, targets, owner)
    && OthersSame(p0, Pointers(owner), ap) && |targets| == |all|
    && forall k {:trigger targets[k]} | from <= k < till :: targets[k] == ssp
  }

  /** One round of the loop over a section's roster. */
  method VisitStudent(c: Course, sep: Section, stp: Student, ap: Assignment, csp: Statistics, ssp: Statistics,
      rp: Student?,
                      ghost all: seq<Student>, ghost i: int, ghost from: int, ghost till: int, ghost first: bool,
                      ghost targets: seq<Statistics>, ghost owner: map<Score, int>,
                      ghost p0: map<Score, (Statistics?, Statistics?)>)
    returns (rp1: Student?, next: Student?)
    requires 0 <= from <= i < till
    requires InSection(c, sep, all, i, till, stp, rp, first, ap, csp, targets, owner, p0, from, ssp)
    modifies c`roster, all`cnext, owner.Keys`cstats, owner.Keys`sstats
    ensures InSection(c, sep, all, i + 1, till, next, rp1, first, ap, csp, targets, owner, p0, from, ssp)
  {
    hide RosterOf, DistinctStudents, Owned, InPass, OthersSame, Pointers;
    ghost var p := Pointers(owner);
    rp1 := LinkStudent(c, stp, ap, csp, ssp, rp, all, i, first, targets, owner);
    OthersSameChain(p0, p, Pointers(owner), ap);
    RosterNext(sep, all, from, till, i);
    next := stp.next;
  }

  /** The students of one section. */
  method LinkSection(c: Course, sep: Section, ap: Assignment, csp: Statistics, ssp: Statistics, rp: Student?,
                     ghost all: seq<Student>, ghost from: nat, ghost till: nat, ghost first: bool,
                     ghost targets: seq<Statistics>, ghost owner: map<Score, int>)
    returns (rp1: Student?)
    requires DistinctStudents(all) && Owned(all, owner) && InPass(c, all, from, rp, first, ap, csp, targets, owner)
    requires RosterOf(sep, all, from, till) && |targets| == |all|
    requires forall i {:trigger targets[i]} | from <= i < till :: targets[i] == ssp
    modifies c`roster, all`cnext, owner.Keys`cstats, owner.Keys`sstats
    ensures InPass(c, all, till, rp1, first, ap, csp, targets, owner)
    ensures OthersSame(old(Pointers(owner)), Pointers(owner), ap)
  {
    hide *;
    rp1 := rp;
    var stp := sep.roster;
    ghost var i, p0 := from, Pointers(owner);
    SectionStart(c, sep, all, from, till, rp, first, ap, csp, targets, owner, ssp);
    while stp != null
      invariant from <= i <= till && (stp != null <==> i < till)
      invariant InSection(c, sep, all, i, till, stp, rp1, first, ap, csp, targets, owner, p0, from, ssp)
      decreases till - i
    {
      rp1, stp := VisitStudent(c, sep, stp, ap, csp, ssp, rp1, all, i, from, till, first, targets, owner, p0);
      i := i + 1;
      SectionWalk(c, sep, all, i, till, stp, rp1, first, ap, csp, targets, owner, p0, from, ssp);
    }
    SectionWalk(c, sep, all, i, till, stp, rp1, first, ap, csp, targets, owner, p0, from, ssp);
  }

  lemma SectionWalk(c: Course, sep: Section, all: seq<Student>, i: int, till: int, stp: Student?, rp: Student?,
      first: bool,
                    ap: Assignment, csp: Statistics, targets: seq<Statistics>, owner: map<Score, int>,
                    p0: map<Score, (Statistics?, Statistics?)>, from: int, ssp: Statistics)
    requires InSection(c, sep, all, i, till, stp, rp, first, ap, csp, targets, owner, p0, from, ssp)
    ensures from <= i <= till && (stp != null <==> i < till)
    ensures InPass(c, all, i, rp, first, ap, csp, targets, owner) && OthersSame(p0, Pointers(owner), ap)
  {
  }

  lemma SectionStart(c: Course, sep: Section, all: seq<Student>, from: int, till: int, rp: Student?, first: bool,
                     ap: Assignment, csp: Statistics, targets: seq<Statistics>, owner: map<Score, int>, ssp: Statistics)
    requires DistinctStudents(all) && Owned(all, owner) && InPass(c, all, from, rp, first, ap, csp, targets, owner)
    requires RosterOf(sep, all, from, till) && |targets| == |all|
    requires forall i {:trigger targets[i]} | from <= i < till :: targets[i] == ssp
    ensures from <= till && (sep.roster != null <==> from < till)
    ensures InSection(c, sep, all, from, till, sep.roster, rp, first, ap, csp, targets, owner, Pointers(owner),
      from, ssp)
  {
    hide DistinctStudents, Owned, InPass;
    OthersSameStart(owner, ap);
  }

  lemma RosterNext(section: Section, all: seq<Student>, from: int, till: int, i: int)
    requires RosterOf(section, all, from, till) && from <= i < till
    ensures till <= |all| && all[i].next == if i + 1 < till then all[i + 1] else null
  {
  }

  /** The rosters of the sections are the students of the course in order. */
  ghost predicate CourseRosters(sections: seq<Section>, all: seq<Student>, rosters: seq<seq<Student>>)
    reads sections`roster, all`next
  {
    && |rosters| == |sections| && all == Concat(rosters)
    && forall k {:trigger sections[k]} | 0 <= k < |sections| ::
      RosterOf(sections[k], all, Offset(rosters, k), Offset(rosters, k + 1))
  }

  /** One pass over all students, for assignment ap. */
  method LinkPass(c: Course, ap: Assignment, csp: Statistics, ssps: seq<Statistics>, rp: Student?,
                  ghost all: seq<Student>, ghost rosters: seq<seq<Student>>, ghost first: bool,
                  ghost owner: map<Score, int>)
    returns (rp1: Student?)
    requires CourseRosters(c.sections, all, rosters) && DistinctStudents(all) && Owned(all, owner)
    requires |ssps| == |c.sections|
    requires InPass(c, all, 0, rp, first, ap, csp, Targets(rosters, ssps), owner)
    modifies c`roster, all`cnext, owner.Keys`cstats, owner.Keys`sstats
    ensures InPass(c, all, |all|, rp1, first, ap, csp, Targets(rosters, ssps), owner)
    ensures OthersSame(old(Pointers(owner)), Pointers(owner), ap)
  {
    hide InPass, DistinctStudents, Owned, Pointers, OthersSame, Targets, Concat, CourseRosters, RosterOf;
    OthersSameStart(owner, ap);
    RostersFit(c.sections, all, rosters);
    ghost var targets, p0 := Targets(rosters, ssps), Pointers(owner);
    rp1 := rp;
    var k := 0;
    while k < |c.sections|
      invariant 0 <= k <= |c.sections|
      invariant InPass(c, all, Offset(rosters, k), rp1, first, ap, csp, targets, owner)
      invariant OthersSame(p0, Pointers(owner), ap)
    {
      ghost var p := Pointers(owner);
      SectionTargets(rosters, ssps, k);
      SectionRoster(c.sections, all, rosters, k);
      rp1 := LinkSection(c, c.sections[k], ap, csp, ssps[k], rp1, all, Offset(rosters, k), Offset(rosters, k + 1),
                         first, targets, owner);
      OthersSameChain(p0, p, Pointers(owner), ap);
      k := k + 1;
    }
    ConcatLength(rosters);
  }

  lemma RostersFit(sections: seq<Section>, all: seq<Student>, rosters: seq<seq<Student>>)
    requires CourseRosters(sections, all, rosters)
    ensures |rosters| == |sections| && all == Concat(rosters)
  {
  }

  lemma SectionRoster(sections: seq<Section>, all: seq<Student>, rosters: seq<seq<Student>>, k: nat)
    requires CourseRosters(sections, all, rosters) && k < |sections| == |rosters|
    ensures RosterOf(sections[k], all, Offset(rosters, k), Offset(rosters, k + 1))
  {
  }

  /** The targets of a section's students. */
  lemma SectionTargets(rosters: seq<seq<Student>>, ssps: seq<Statistics>, k: nat)
    requires |rosters| <= |ssps| && k < |rosters|
    ensures |Targets(rosters, ssps)| == |Concat(rosters)| && Offset(rosters, k + 1) <= |Concat(rosters)|
    ensures forall i {:trigger Targets(rosters, ssps)[i]} | Offset(rosters, k) <= i < Offset(rosters, k + 1) ::
      Targets(rosters, ssps)[i] == ssps[k]
  {
    TargetsLength(rosters, ssps);
    OffsetWithin(rosters, k + 1);
    forall i | Offset(rosters, k) <= i < Offset(rosters, k + 1)
      ensures Targets(rosters, ssps)[i] == ssps[k]
    {
      TargetAt(rosters, ssps, k, i - Offset(rosters, k));
    }
  }

  lemma {:induction false} OffsetWithin(rosters: seq<seq<Student>>, k: nat)
    requires k <= |rosters|
    ensures Offset(rosters, k) <= |Concat(rosters)|
  {
    if k > 0 {
      OffsetTail(rosters, k);
      OffsetWithin(rosters[1..], k - 1);
    }
  }

  /** At the end of a pass the chain is whole again. */
  lemma NewPass(all: seq<Student>, first: bool)
    requires Threading(all, |all|, first)
    ensures Threading(all, |all|, false) && Threading(all, 0, false)
  {
  }

  /** The assignments before number a have had their pass. */
  ghost predicate PassesDone(p: map<Score, (Statistics?, Statistics?)>, assignments: seq<Assignment>, a: int,
                             cstats: seq<Statistics>, sstats: seq<seq<Statistics>>, rosters: seq<seq<Student>>,
                             owner: map<Score, int>)
    requires |assignments| == |cstats| == |sstats|
  {
    forall b {:trigger assignments[b]} | 0 <= b < a <= |assignments| ::
      && |rosters| <= |sstats[b]|
      && LinkedTo(p, |Concat(rosters)|, assignments[b], cstats[b], Targets(rosters, sstats[b]), owner)
  }

  ghost predicate DistinctAssignments(assignments: seq<Assignment>) {
    forall a, b {:trigger assignments[a], assignments[b]} | 0 <= a < b < |assignments| ::
      assignments[a] != assignments[b]
  }

  /** The pass for assignment a leaves what earlier passes have linked. */
  lemma PassAdded(p: map<Score, (Statistics?, Statistics?)>, q: map<Score, (Statistics?, Statistics?)>,
      assignments: seq<Assignment>,
                  a: nat, cstats: seq<Statistics>, sstats: seq<seq<Statistics>>, rosters: seq<seq<Student>>,
                  owner: map<Score, int>)
    requires a < |assignments| == |cstats| == |sstats| && DistinctAssignments(assignments)
    requires PassesDone(p, assignments, a, cstats, sstats, rosters, owner) && OthersSame(p, q, assignments[a])
    requires |rosters| <= |sstats[a]|
    requires LinkedTo(q, |Concat(rosters)|, assignments[a], cstats[a], Targets(rosters, sstats[a]), owner)
    ensures PassesDone(q, assignments, a + 1, cstats, sstats, rosters, owner)
  {
    hide Targets, Concat;
    forall b | 0 <= b < a
      ensures |rosters| <= |sstats[b]|
      ensures LinkedTo(q, |Concat(rosters)|, assignments[b], cstats[b], Targets(rosters, sstats[b]), owner)
    {
      assert LinkedTo(p, |Concat(rosters)|, assignments[b], cstats[b], Targets(rosters, sstats[b]), owner);
      assert assignments[b] != assignments[a];
    }
  }

  /** The roster between passes. */
  ghost predicate BetweenPasses(c: Course, all: seq<Student>, rp: Student?, a: int)
    reads c`roster, all`cnext
  {
    && Threading(all, 0, a == 0) && rp == LastVisited(all, 0, a == 0)
    && c.roster == (if a == 0 then null else Nth(all, 0))
    && (a > 0 ==> Threading(all, |all|, false))
  }

  /** The pass for assignment a. */
  method AddPass(c: Course, a: nat, cstats: seq<Statistics>, sstats: seq<seq<Statistics>>, rp: Student?,
                 ghost all: seq<Student>, ghost rosters: seq<seq<Student>>, ghost owner: map<Score, int>)
    returns (rp1: Student?)
    requires CourseRosters(c.sections, all, rosters) && DistinctStudents(all) && Owned(all, owner)
    requires a < |c.assignments| == |cstats| == |sstats| && |sstats[a]| == |c.sections|
    requires DistinctAssignments(c.assignments)
    requires BetweenPasses(c, all, rp, a)
    requires PassesDone(Pointers(owner), c.assignments, a, cstats, sstats, rosters, owner)
    modifies c`roster, all`cnext, owner.Keys`cstats, owner.Keys`sstats
    ensures BetweenPasses(c, all, rp1, a + 1)
    ensures PassesDone(Pointers(owner), c.assignments, a + 1, cstats, sstats, rosters, owner)
  {
    hide Targets, DistinctStudents, SectionOf, Owned, PassesDone, DistinctAssignments, LinkedTo, OthersSame, Pointers,
      Threading;
    ghost var p := Pointers(owner);
    NothingLinked(p, c.assignments[a], cstats[a], sstats[a], all, rosters, owner, c.sections);
    rp1 := LinkPass(c, c.assignments[a], cstats[a], sstats[a], rp, all, rosters, a == 0, owner);
    NewPass(all, a == 0);
    PassAdded(p, Pointers(owner), c.assignments, a, cstats, sstats, rosters, owner);
  }

  lemma NothingLinked(p: map<Score, (Statistics?, Statistics?)>, ap: Assignment, csp: Statistics, ssps: seq<Statistics>,
                      all: seq<Student>, rosters: seq<seq<Student>>, owner: map<Score, int>, sections: seq<Section>)
    requires CourseRosters(sections, all, rosters) && |ssps| == |sections|
    ensures |rosters| == |ssps| && |Targets(rosters, ssps)| == |all|
    ensures LinkedTo(p, 0, ap, csp, Targets(rosters, ssps), owner)
  {
    TargetsLength(rosters, ssps);
  }

  /** After every assignment has had its pass, the course roster is the section rosters one after the
      other, and each score on a listed assignment points at the statistics of its assignment, for the
      class and for its section. */
  method DoLinks(c: Course, cstats: seq<Statistics>, sstats: seq<seq<Statistics>>,
                 ghost all: seq<Student>, ghost rosters: seq<seq<Student>>, ghost owner: map<Score, int>)
    requires CourseRosters(c.sections, all, rosters) && DistinctStudents(all) && Owned(all, owner)
    requires |cstats| == |sstats| == |c.assignments| && DistinctAssignments(c.assignments)
    requires forall a {:trigger sstats[a]} | 0 <= a < |sstats| :: |sstats[a]| == |c.sections|
    modifies c`roster, all`cnext, owner.Keys`cstats, owner.Keys`sstats
    ensures if c.assignments == [] then c.roster == null else ChainOf(c.roster, all, CNext)
    ensures PassesDone(Pointers(owner), c.assignments, |c.assignments|, cstats, sstats, rosters, owner)
  {
    hide *;
    var rp: Student? := null;
    c.roster := null;
    var a := 0;
    Unthreaded(c, all);
    NothingDone(Pointers(owner), c.assignments, cstats, sstats, rosters, owner);
    while a < |c.assignments|
      invariant 0 <= a <= |c.assignments| && BetweenPasses(c, all, rp, a)
      invariant PassesDone(Pointers(owner), c.assignments, a, cstats, sstats, rosters, owner)
    {
      rp := AddPass(c, a, cstats, sstats, rp, all, rosters, owner);
      a := a + 1;
    }
    Threaded(c, all, rp, a);
  }

  lemma Unthreaded(c: Course, all: seq<Student>)
    requires c.roster == null
    ensures BetweenPasses(c, all, null, 0)
  {
  }

  lemma Threaded(c: Course, all: seq<Student>, rp: Student?, a: nat)
    requires BetweenPasses(c, all, rp, a)
    ensures if a == 0 then c.roster == null else ChainOf(c.roster, all, CNext)
  {
  }

  lemma NothingDone(p: map<Score, (Statistics?, Statistics?)>, assignments: seq<Assignment>, cstats: seq<Statistics>,
                    sstats: seq<seq<Statistics>>, rosters: seq<seq<Student>>, owner: map<Score, int>)
    requires |assignments| == |cstats| == |sstats|
    ensures PassesDone(p, assignments, 0, cstats, sstats, rosters, owner)
  {
  }

  /** What the links come to: a score that student j of section k has on assignment a. */
  lemma LinkOfScore(p: map<Score, (Statistics?, Statistics?)>, assignments: seq<Assignment>, cstats: seq<Statistics>,
                    sstats: seq<seq<Statistics>>, rosters: seq<seq<Student>>, owner: map<Score, int>, a: nat, k: nat,
                    j: nat, sc: Score)
    requires |assignments| == |cstats| == |sstats|
    requires PassesDone(p, assignments, |assignments|, cstats, sstats, rosters, owner)
    requires Owned(Concat(rosters), owner) && p.Keys == owner.Keys
    requires a < |assignments| && k < |rosters| && j < |rosters[k]| && sc in rosters[k][j].rawscores
    requires sc.asgt == assignments[a]
    ensures k < |sstats[a]| && sc in p && p[sc] == (cstats[a], sstats[a][k])
  {
    ConcatAt(rosters, k, j);
    var i := Offset(rosters, k) + j;
    assert Owns(Concat(rosters)[i], i, owner);
    assert LinkedTo(p, |Concat(rosters)|, assignments[a], cstats[a], Targets(rosters, sstats[a]), owner);
    TargetAt(rosters, sstats[a], k, j);
  }
}

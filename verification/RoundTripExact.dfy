/** Which courses come back from their text unchanged, and which do so without a complaint. */
module RoundTripExact {
  import opened Decimals
  import opened GradeText
  import opened ReaderSpec
  import opened ReadingWords
  import opened ReadingScores
  import opened RoundTrip

  // ----- one score

  /** Substituted normalized scores are not written for RAW assignments. */
  predicate Mangled(g: Grade, policy: Policy) {
    g.Invalid? && g.subst.USENORM? && policy.RAW?
  }

  /** A substituted normalized score that cannot be one under the policy. */
  predicate OutOfRange(g: Grade, policy: Policy) {
    g.Invalid? && g.subst.USENORM? &&
    ((policy.QUANTILE? && (g.subst.norm < 0 || g.subst.norm > 100 * MILLION))
     || (policy.SCALE? && (g.subst.norm < 0 || g.subst.norm > policy.scale)))
  }

  lemma CutWord(ws: string, w: string, rest: string)
    requires IsBlank(ws) && IsWord(w) && EndsWord(rest) && OneLine(rest)
    ensures OneLine(ws + w + rest) && Cut(ws + w + rest) == (w, rest)
  {
    assert ws + w + rest == ws + (w + rest);
    SkipBlanks(ws, w + rest);
    TokenOf(w, rest);
    assert (w + rest)[..|w|] == w && (w + rest)[|w|..] == rest;
  }

  lemma CodeBack(code: string)
    requires IsLine(code)
    ensures OneLine(" " + code) && SkipWhitespace(" " + code) == code
  {
    SkipBlanks(" ", code);
  }

  lemma NumberMarkBack(key: string, v: int, code: string)
    requires IsWord(key) && IsLine(code)
    ensures
      var line := " " + key + (" " + PrintFixed(v) + (" " + code));
      && OneLine(line) && Cut(line) == (key, " " + PrintFixed(v) + (" " + code))
      && Cut(Cut(line).1) == (PrintFixed(v), " " + code) && SkipWhitespace(" " + code) == code
      && ScanFixed(PrintFixed(v)) == Some(v)
  {
    hide PrintFixed, ScanFixed;
    NumberIsWord(v);
    CodeBack(code);
    CutWord(" ", PrintFixed(v), " " + code);
    CutWord(" ", key, " " + PrintFixed(v) + (" " + code));
    FixedRoundTrip(v);
  }

  lemma ValidBack(v: int, q: Policy)
    ensures OneLine(" " + PrintFixed(v)) && LineGrade(" " + PrintFixed(v)) == Valid(v)
    ensures LineErrors(" " + PrintFixed(v), q) == 0
  {
    hide ScanFixed;
    NumberIsWord(v);
    PrintedChars(v);
    var p := PrintFixed(v);
    assert " " + p == " " + p + "";
    CutWord(" ", p, "");
    FixedRoundTrip(v);
    assert p[0] != 'U';
    assert SkipWhitespace("") == "";
  }

  /** A mangled score never comes back: what is left of its code is shorter. */
  lemma MangledChanges(v: int, code: string)
    requires IsLine(code)
    ensures OneLine(" " + code) && LineGrade(" " + code) != Invalid(USENORM(v), code)
  {
    CodeBack(code);
    var (w, t) := Cut(" " + code);
    var (_, u) := Cut(t);
    assert |SkipWhitespace(u)| <= |u| <= |t|;
  }

  lemma NumberBack(subst: Subst, v: int, code: string, q: Policy)
    requires IsLine(code) && (subst == USERAW(v) || subst == USENORM(v))
    ensures
      var line := (if subst.USERAW? then " USERAW " else " USENORM ") + PrintFixed(v) + " " + code;
      && OneLine(line) && LineGrade(line) == Invalid(subst, code)
      && LineErrors(line, q) == if OutOfRange(Invalid(subst, code), q) then 1 else 0
  {
    hide PrintFixed, ScanFixed, Cut, SkipWhitespace;
    var key := if subst.USERAW? then "USERAW" else "USENORM";
    var p := PrintFixed(v);
    assert (if subst.USERAW? then " USERAW " else " USENORM ") + p + " " + code == " " + key + (" " + p + (" " + code));
    NumberMarkBack(key, v, code);
  }

  lemma AverageBack(subst: Subst, code: string, q: Policy)
    requires IsLine(code) && (subst.USELIKEAVG? || subst.USECLASSAVG?)
    ensures
      var line := (if subst.USELIKEAVG? then " USELIKEAVG" else " USECLASSAVG") + " " + code;
      OneLine(line) && LineGrade(line) == Invalid(subst, code) && LineErrors(line, q) == 0
  {
    hide ScanFixed, Cut, SkipWhitespace;
    var key := if subst.USELIKEAVG? then "USELIKEAVG" else "USECLASSAVG";
    assert (if subst.USELIKEAVG? then " USELIKEAVG" else " USECLASSAVG") + " " + code == " " + key + (" " + code);
    CodeBack(code);
    CutWord(" ", key, " " + code);
  }

  /** Where a number should be and another word is, or nothing, the grade is 0, with two complaints or one. */
  lemma NumberlessMark(key: string, w: string, code: string, q: Policy)
    requires key in ["USERAW", "USENORM"] && IsWord(w) && ScanFixed(w).None? && IsLine(code)
    requires w !in ["USERAW", "USENORM", "USELIKEAVG", "USECLASSAVG"]
    ensures
      var line, zero := " " + key + (" " + w + (" " + code)), if key == "USERAW" then USERAW(0) else USENORM(0);
      && OneLine(line) && LineGrade(line) == Invalid(zero, code) && LineErrors(line, q) == 2
      && OneLine(" " + key) && LineGrade(" " + key) == Invalid(zero, "") && LineErrors(" " + key, q) == 1
    ensures OneLine(" " + w) && LineGrade(" " + w) == Valid(0) && LineErrors(" " + w, q) == 2
    ensures LineGrade("") == Valid(0) && LineErrors("", q) == 1
  {
    hide ScanFixed, Cut, SkipWhitespace;
    CodeBack(code);
    CutWord(" ", w, " " + code);
    CutWord(" ", key, " " + w + (" " + code));
    assert " " + key == " " + key + "" && " " + w == " " + w + "";
    CutWord(" ", key, "");
    CutWord(" ", w, "");
    CutNothing();
  }

  lemma CutNothing()
    ensures Cut("") == ("", "") && SkipWhitespace("") == "" && ScanFixed("").None?
  {
  }

  /** A written score comes back exactly when it is not mangled, and then with a complaint only if it is
      out of range. */
  lemma MarkBack(g: Grade, policy: Policy, q: Policy)
    requires GradeOk(g)
    ensures OneLine(MarkText(g, policy))
    ensures LineGrade(MarkText(g, policy)) == g <==> !Mangled(g, policy)
    ensures !Mangled(g, policy) ==> LineErrors(MarkText(g, policy), q) == if OutOfRange(g, q) then 1 else 0
  {
    hide PrintFixed, ScanFixed, Cut, SkipWhitespace, LineGrade, LineErrors;
    match g
    case Valid(v) => ValidBack(v, q);
    case Invalid(subst, code) =>
      match subst
      case USERAW(v) => NumberBack(subst, v, code, q);
      case USENORM(v) =>
        if policy.RAW? {
          assert MarkText(g, policy) == " " + code;
          MangledChanges(v, code);
        } else {
          NumberBack(subst, v, code, q);
        }
      case USELIKEAVG => AverageBack(subst, code, q);
      case USECLASSAVG => AverageBack(subst, code, q);
  }

  // ----- lists

  predicate ScoreKept(s: Score, assignments: seq<Assignment>) {
    s.asgt < |assignments| ==> !Mangled(s.grade, PolicyOf(assignments[s.asgt]))
  }

  predicate ScoresKept(scores: seq<Score>, assignments: seq<Assignment>) {
    forall i {:trigger scores[i]} | 0 <= i < |scores| :: ScoreKept(scores[i], assignments)
  }

  predicate RosterKept(roster: seq<Student>, assignments: seq<Assignment>) {
    forall i {:trigger roster[i]} | 0 <= i < |roster| :: ScoresKept(roster[i].scores, assignments)
  }

  predicate SectionsKept(sections: seq<Section>, assignments: seq<Assignment>) {
    forall i {:trigger sections[i]} | 0 <= i < |sections| :: RosterKept(sections[i].roster, assignments)
  }

  /** What can be written and read: no LINEAR policy, no group but BYCLASS for a RAW one, and no number left over
      from another policy, or from a weight that was taken back. */
  predicate AssignmentKept(a: Assignment) {
    && !a.npolicy.LINEAR? && (a.npolicy.RAW? ==> a.group == BYCLASS)
    && a.mean.None? && a.stddev.None? && (a.scale.Some? ==> a.npolicy.SCALE?) && (!a.weighted ==> a.weight == 0)
  }

  predicate AssignmentsKept(assignments: seq<Assignment>) {
    forall i {:trigger assignments[i]} | 0 <= i < |assignments| :: AssignmentKept(assignments[i])
  }

  predicate Faithful(c: Course) {
    AssignmentsKept(c.assignments) && SectionsKept(c.sections, c.assignments)
  }

  lemma {:induction false} AssignmentsBackKept(assignments: seq<Assignment>)
    ensures AssignmentsBack(assignments) == assignments <==> AssignmentsKept(assignments)
  {
    if assignments != [] {
      var a, more := assignments[0], assignments[1..];
      assert assignments == [a] + more;
      AssignmentsBackKept(more);
      assert AssignmentBack(a) == a <==> AssignmentKept(a);
      assert AssignmentsKept(assignments) <==> AssignmentKept(a) && AssignmentsKept(more);
      assert AssignmentsBack(assignments)[1..] == AssignmentsBack(more);
    }
  }

  lemma {:induction false} ScoresBackKept(scores: seq<Score>, assignments: seq<Assignment>)
    requires ScoresOk(scores, assignments)
    ensures ScoresBack(scores, assignments) == scores <==> ScoresKept(scores, assignments)
  {
    hide LineGrade, MarkText, Mangled;
    if scores != [] {
      var s, more := scores[0], scores[1..];
      assert scores == [s] + more;
      ScoresBackKept(more, assignments);
      MarkBack(s.grade, PolicyOf(assignments[s.asgt]), Policy.RAW);
      assert ScoreBack(s, assignments) == s <==> ScoreKept(s, assignments);
      assert ScoresKept(scores, assignments) <==> ScoreKept(s, assignments) && ScoresKept(more, assignments);
      assert ScoresBack(scores, assignments)[1..] == ScoresBack(more, assignments);
    }
  }

  lemma {:induction false} RosterBackKept(roster: seq<Student>, assignments: seq<Assignment>)
    requires RosterOk(roster, assignments)
    ensures RosterBack(roster, assignments, false) == roster <==> RosterKept(roster, assignments)
  {
    hide ScoresBack, ScoresKept;
    if roster != [] {
      var s, more := roster[0], roster[1..];
      assert roster == [s] + more;
      RosterBackKept(more, assignments);
      ScoresBackKept(s.scores, assignments);
      assert RosterKept(roster, assignments) <==> ScoresKept(s.scores, assignments) && RosterKept(more, assignments);
      assert RosterBack(roster, assignments, false)[1..] == RosterBack(more, assignments, false);
    }
  }

  lemma {:induction false} SectionsBackKept(sections: seq<Section>, assignments: seq<Assignment>)
    requires SectionsOk(sections, assignments)
    ensures SectionsBack(sections, assignments, false) == sections <==> SectionsKept(sections, assignments)
  {
    hide RosterBack, RosterKept;
    if sections != [] {
      var s, more := sections[0], sections[1..];
      assert sections == [s] + more;
      SectionsBackKept(more, assignments);
      RosterBackKept(s.roster, assignments);
      assert SectionsKept(sections, assignments) <==>
        RosterKept(s.roster, assignments) && SectionsKept(more, assignments);
      assert SectionsBack(sections, assignments, false)[1..] == SectionsBack(more, assignments, false);
    }
  }

  /** A course with a professor comes back from its text unchanged exactly when it has no LINEAR policy,
      only BYCLASS groups on RAW assignments, and no substituted normalized scores on them. */
  lemma RoundTripExactly(c: Course)
    requires CourseOk(c) && c.professor.Some?
    ensures Declared(c.sections, c.assignments)
    ensures
      var r := ReadFile(CourseText(c, false));
      r.Done? && (r.value == c <==> Faithful(c))
  {
    hide ReadFile, CourseText;
    CourseRead(c, false);
    AssignmentsBackKept(c.assignments);
    SectionsBackKept(c.sections, c.assignments);
  }

  // ----- complaints

  predicate ScoresInRange(scores: seq<Score>, assignments: seq<Assignment>) {
    forall i {:trigger scores[i]} | 0 <= i < |scores| ::
      scores[i].asgt < |assignments| ==> !OutOfRange(scores[i].grade, PolicyOf(assignments[scores[i].asgt]))
  }

  predicate RosterInRange(roster: seq<Student>, assignments: seq<Assignment>) {
    forall i {:trigger roster[i]} | 0 <= i < |roster| :: ScoresInRange(roster[i].scores, assignments)
  }

  predicate InRange(c: Course) {
    forall i {:trigger c.sections[i]} | 0 <= i < |c.sections| :: RosterInRange(c.sections[i].roster, c.assignments)
  }

  predicate RosterComplete(roster: seq<Student>) {
    forall i {:trigger roster[i]} | 0 <= i < |roster| :: roster[i].id != "" && roster[i].surname != ""
  }

  predicate SectionComplete(s: Section) {
    (s.assistant.Some? ==> s.assistant.value.surname != "") && RosterComplete(s.roster)
  }

  predicate SectionsComplete(sections: seq<Section>) {
    forall i {:trigger sections[i]} | 0 <= i < |sections| :: SectionComplete(sections[i])
  }

  predicate AssignmentsComplete(assignments: seq<Assignment>) {
    forall i {:trigger assignments[i]} | 0 <= i < |assignments| ::
      assignments[i].name != "" && assignments[i].atype != ""
  }

  /** No word that the reader expects is missing. */
  predicate Complete(c: Course) {
    && c.number != "" && (c.professor.Some? ==> c.professor.value.surname != "")
    && AssignmentsComplete(c.assignments) && SectionsComplete(c.sections)
  }

  lemma {:induction false} ScoresSilent(scores: seq<Score>, assignments: seq<Assignment>)
    requires ScoresOk(scores, assignments) && ScoresKept(scores, assignments)
    ensures ScoresErrors(scores, assignments, assignments) == 0 <==> ScoresInRange(scores, assignments)
  {
    hide LineErrors, MarkText, Mangled, OutOfRange;
    if scores != [] {
      var s, more := scores[0], scores[1..];
      assert scores == [s] + more;
      ScoresSilent(more, assignments);
      MarkBack(s.grade, PolicyOf(assignments[s.asgt]), PolicyOf(assignments[s.asgt]));
      assert ScoreKept(s, assignments);
    }
  }

  lemma {:induction false} RosterSilent(roster: seq<Student>, assignments: seq<Assignment>)
    requires RosterOk(roster, assignments) && RosterKept(roster, assignments)
    ensures RosterErrors(roster, assignments, assignments, false) == 0 <==>
      RosterInRange(roster, assignments) && RosterComplete(roster)
  {
    hide ScoresErrors, ScoresKept, ScoresInRange;
    if roster != [] {
      var s, more := roster[0], roster[1..];
      assert roster == [s] + more;
      RosterSilent(more, assignments);
      ScoresSilent(s.scores, assignments);
      assert RosterComplete(roster) <==> s.id != "" && s.surname != "" && RosterComplete(more);
    }
  }

  lemma {:induction false} SectionsSilent(sections: seq<Section>, assignments: seq<Assignment>)
    requires SectionsOk(sections, assignments) && SectionsKept(sections, assignments)
    ensures SectionsErrors(sections, assignments, assignments, false) == 0 <==>
      && SectionsComplete(sections)
      && forall i {:trigger sections[i]} | 0 <= i < |sections| :: RosterInRange(sections[i].roster, assignments)
  {
    hide RosterErrors, RosterKept, RosterInRange, RosterComplete;
    if sections != [] {
      var s, more := sections[0], sections[1..];
      assert sections == [s] + more;
      SectionsSilent(more, assignments);
      RosterSilent(s.roster, assignments);
      assert SectionsComplete(sections) <==> SectionComplete(s) && SectionsComplete(more);
    }
  }

  lemma {:induction false} AssignmentsSilent(assignments: seq<Assignment>)
    requires AssignmentsKept(assignments)
    ensures AssignmentsErrors(assignments) == 0 <==> AssignmentsComplete(assignments)
  {
    if assignments != [] {
      var a, more := assignments[0], assignments[1..];
      assert assignments == [a] + more;
      assert AssignmentKept(a);
      AssignmentsSilent(more);
      assert AssignmentsComplete(assignments) <==> a.name != "" && a.atype != "" && AssignmentsComplete(more);
    }
  }

  /** A course that comes back unchanged does so without a complaint exactly when no word is missing in it and
      every substituted normalized score is possible under its assignment's policy. */
  lemma SilentExactly(c: Course)
    requires CourseOk(c) && c.professor.Some? && Faithful(c)
    ensures Declared(c.sections, c.assignments)
    ensures
      var r := ReadFile(CourseText(c, false));
      r.Done? && (r.st.errors == 0 <==> InRange(c) && Complete(c))
  {
    hide ReadFile, CourseText, AssignmentsErrors, SectionsErrors, AssignmentsComplete, SectionsComplete;
    CourseRead(c, false);
    AssignmentsBackKept(c.assignments);
    AssignmentsSilent(c.assignments);
    SectionsSilent(c.sections, c.assignments);
  }
}

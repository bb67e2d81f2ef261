/** Reading back a course that was written. */
module RoundTrip {
  import opened Decimals
  import opened GradeText
  import opened ReaderSpec
  import opened ReadingWords
  import opened ReadingScores

  // ----- courses whose text the reader can take apart

  predicate PersonOk(p: Person) {
    WordOrEnd(p.surname, p.name) && IsLine(p.name)
  }

  predicate GradeOk(g: Grade) {
    g.Invalid? ==> IsLine(g.code)
  }

  /** The score's assignment is the first of its name, and has one. */
  predicate ScoreOk(s: Score, assignments: seq<Assignment>) {
    && s.asgt < |assignments| && s.asgt == Lookup(assignments, assignments[s.asgt].name)
    && IsWord(assignments[s.asgt].name) && GradeOk(s.grade)
  }

  predicate ScoresOk(scores: seq<Score>, assignments: seq<Assignment>) {
    forall i {:trigger scores[i]} | 0 <= i < |scores| :: ScoreOk(scores[i], assignments)
  }

  predicate StudentOk(s: Student, assignments: seq<Assignment>) {
    && WordOrEnd(s.id, s.surname + s.name) && WordOrEnd(s.surname, s.name) && IsLine(s.name)
    && ScoresOk(s.scores, assignments)
  }

  predicate RosterOk(roster: seq<Student>, assignments: seq<Assignment>) {
    forall i {:trigger roster[i]} | 0 <= i < |roster| :: StudentOk(roster[i], assignments)
  }

  predicate SectionOk(s: Section, assignments: seq<Assignment>) {
    IsLine(s.name) && (s.assistant.Some? ==> PersonOk(s.assistant.value)) && RosterOk(s.roster, assignments)
  }

  predicate SectionsOk(sections: seq<Section>, assignments: seq<Assignment>) {
    forall i {:trigger sections[i]} | 0 <= i < |sections| :: SectionOk(sections[i], assignments)
  }

  predicate AssignmentOk(a: Assignment) {
    WordOrEnd(a.name, a.atype) && WordOrEnd(a.atype, "")
  }

  predicate AssignmentsOk(assignments: seq<Assignment>) {
    forall i {:trigger assignments[i]} | 0 <= i < |assignments| :: AssignmentOk(assignments[i])
  }

  predicate CourseOk(c: Course) {
    && WordOrEnd(c.number, c.title) && IsLine(c.title) && (c.professor.Some? ==> PersonOk(c.professor.value))
    && AssignmentsOk(c.assignments) && SectionsOk(c.sections, c.assignments)
  }

  // ----- what comes back

  /** An assignment once its weight line, if any, has been read. */
  function Weighed(a: Assignment, weight: Option<int>): Assignment {
    match weight
    case None => a
    case Some(w) => a.(weighted := true, weight := w)
  }

  /** A RAW assignment once its normalization line, if any, has been read. */
  function Heard(a: Assignment, policy: Policy, group: Group): Assignment {
    match policy
    case RAW => a
    case LINEAR(_, _) => a
    case _ => WithPolicy(a, policy).(group := group)
  }

  /** A LINEAR policy is not understood, and the group of a RAW one is not written; nor are numbers that the
      policy does not use, and a weight that does not count. */
  function AssignmentBack(a: Assignment): Assignment {
    var b := NewAssignment(a.name, a.atype);
    Heard(Weighed(b, WeightOf(a)), PolicyOf(a), a.group).(max := a.max)
  }

  function AssignmentsBack(assignments: seq<Assignment>): (r: seq<Assignment>)
    ensures |r| == |assignments| && forall i | 0 <= i < |r| :: r[i] == AssignmentBack(assignments[i])
  {
    if assignments == [] then [] else [AssignmentBack(assignments[0])] + AssignmentsBack(assignments[1..])
  }

  lemma GradeIsLine(g: Grade, policy: Policy)
    requires GradeOk(g)
    ensures OneLine(MarkText(g, policy)) && MarkText(g, policy) != "" && MarkText(g, policy)[0] == ' '
  {
    match g
    case Valid(v) => NumberIsWord(v);
    case Invalid(subst, code) =>
      match subst
      case USERAW(raw) => NumberIsWord(raw);
      case USENORM(norm) => NumberIsWord(norm);
      case USELIKEAVG =>
      case USECLASSAVG =>
  }

  function ScoreBack(s: Score, assignments: seq<Assignment>): Score
    requires ScoreOk(s, assignments)
  {
    GradeIsLine(s.grade, PolicyOf(assignments[s.asgt]));
    Score(s.asgt, LineGrade(MarkText(s.grade, PolicyOf(assignments[s.asgt]))))
  }

  function ScoresBack(scores: seq<Score>, assignments: seq<Assignment>): seq<Score>
    requires ScoresOk(scores, assignments)
  {
    if scores == [] then [] else [ScoreBack(scores[0], assignments)] + ScoresBack(scores[1..], assignments)
  }

  function StudentBack(s: Student, assignments: seq<Assignment>, nonames: bool): Student
    requires StudentOk(s, assignments)
  {
    Student(s.id, if nonames then "" else s.surname, if nonames then "" else s.name, ScoresBack(s.scores, assignments))
  }

  function RosterBack(roster: seq<Student>, assignments: seq<Assignment>, nonames: bool): seq<Student>
    requires RosterOk(roster, assignments)
  {
    if roster == [] then []
      else [StudentBack(roster[0], assignments, nonames)] + RosterBack(roster[1..], assignments, nonames)
  }

  function SectionBack(s: Section, assignments: seq<Assignment>, nonames: bool): Section
    requires SectionOk(s, assignments)
  {
    Section(s.name, s.assistant, RosterBack(s.roster, assignments, nonames))
  }

  function SectionsBack(sections: seq<Section>, assignments: seq<Assignment>, nonames: bool): seq<Section>
    requires SectionsOk(sections, assignments)
  {
    if sections == [] then []
      else [SectionBack(sections[0], assignments, nonames)] + SectionsBack(sections[1..], assignments, nonames)
  }

  function CourseBack(c: Course, nonames: bool): Course
    requires CourseOk(c)
  {
    c.(assignments := AssignmentsBack(c.assignments), sections := SectionsBack(c.sections, c.assignments, nonames))
  }

  // ----- what the reader complains about

  /** back are the assignments as they have come back. */
  function ScoresErrors(scores: seq<Score>, assignments: seq<Assignment>, back: seq<Assignment>): nat
    requires ScoresOk(scores, assignments) && |back| == |assignments|
  {
    if scores == [] then 0
    else ScoreErrors(scores[0], assignments, back) + ScoresErrors(scores[1..], assignments, back)
  }

  function ScoreErrors(s: Score, assignments: seq<Assignment>, back: seq<Assignment>): nat
    requires ScoreOk(s, assignments) && |back| == |assignments|
  {
    GradeIsLine(s.grade, PolicyOf(assignments[s.asgt]));
    LineErrors(MarkText(s.grade, PolicyOf(assignments[s.asgt])), PolicyOf(back[s.asgt]))
  }

  function RosterErrors(roster: seq<Student>, assignments: seq<Assignment>, back: seq<Assignment>, nonames: bool): nat
    requires RosterOk(roster, assignments) && |back| == |assignments|
  {
    if roster == [] then 0
    else
      StudentErrors(roster[0], nonames) + ScoresErrors(roster[0].scores, assignments, back)
      + RosterErrors(roster[1..], assignments, back, nonames)
  }

  /** The complaints about the line of a student. */
  function StudentErrors(s: Student, nonames: bool): nat {
    Missing(s.id) + if nonames then 1 else Missing(s.surname)
  }

  function AssistantErrors(a: Option<Person>): nat {
    match a
    case None => 0
    case Some(p) => Missing(p.surname)
  }

  function SectionsErrors(sections: seq<Section>, assignments: seq<Assignment>, back: seq<Assignment>,
      nonames: bool): nat
    requires SectionsOk(sections, assignments) && |back| == |assignments|
  {
    if sections == [] then 0
    else
      AssistantErrors(sections[0].assistant) + RosterErrors(sections[0].roster, assignments, back, nonames)
      + SectionsErrors(sections[1..], assignments, back, nonames)
  }

  /** Two complaints for a LINEAR policy. */
  function AssignmentErrors(a: Assignment): nat {
    Missing(a.name) + Missing(a.atype) + if a.npolicy.LINEAR? then 2 else 0
  }

  function AssignmentsErrors(assignments: seq<Assignment>): nat {
    if assignments == [] then 0 else AssignmentErrors(assignments[0]) + AssignmentsErrors(assignments[1..])
  }

  function CourseErrors(c: Course, nonames: bool): nat
    requires CourseOk(c)
  {
    Missing(c.number) + AssistantErrors(c.professor) + AssignmentsErrors(c.assignments)
    + SectionsErrors(c.sections, c.assignments, AssignmentsBack(c.assignments), nonames)
  }

  // ----- scores

  /** The first word of a text. */
  function NextWord(text: string): string {
    var s := SkipWhitespace(text);
    s[..TokenLength(s)]
  }

  /** A text that goes on with none of the given words. */
  predicate GoesOn(rest: string, words: seq<string>) {
    FreshLine(rest) && NextWord(rest) !in words
  }

  lemma KeyWord(ws: string, key: string, rest: string)
    requires IsBlank(ws) && IsWord(key) && EndsWord(rest)
    ensures NextWord(ws + key + rest) == key
  {
    assert ws + key + rest == ws + (key + rest);
    SkipBlanks(ws, key + rest);
    TokenOf(key, rest);
  }

  lemma NoKey(rest: string, e: nat, key: string, st: State)
    requires NextWord(rest) != key && Peek(st) == Peek(State(rest, None, e))
    ensures CheckToken(st, key) == (Peek(State(rest, None, e)), false)
  {
  }

  ghost predicate SameNames(assignments: seq<Assignment>, back: seq<Assignment>) {
    && |back| == |assignments|
    && forall i {:trigger back[i]} {:trigger assignments[i]} | 0 <= i < |back| :: back[i].name == assignments[i].name
  }

  lemma {:induction false} SameLookup(assignments: seq<Assignment>, back: seq<Assignment>, name: string)
    requires SameNames(assignments, back)
    ensures Lookup(back, name) == Lookup(assignments, name)
  {
    if assignments != [] {
      SameLookup(assignments[1..], back[1..], name);
    }
  }

  /** One score line. */
  lemma ScoreRead(s: Score, assignments: seq<Assignment>, back: seq<Assignment>, tail: string, e: nat, st: State)
      returns (e1: nat)
    requires ScoreOk(s, assignments) && SameNames(assignments, back) && FreshLine(tail)
    requires Peek(st) == Peek(State(ScoreText(s, assignments) + tail, None, e))
    ensures e1 == e + ScoreErrors(s, assignments, back)
    ensures
      var (s0, found) := CheckToken(st, "SCORE");
      var s1 := Peek(s0);
      && found && s1.token.Some? && Lookup(back, s1.token.value) == s.asgt < |back|
      && var r := ReadGrade(Flush(s1), PolicyOf(back[s.asgt]));
      && r.Done? && Score(s.asgt, r.value) == ScoreBack(s, assignments)
      && ExpectNewline(r.st) == Done(State(tail, None, e1), ())
  {
    hide LineGrade, LineErrors, ReadGrade, ExpectNewline, PrintFixed, CheckToken, AdvanceToken, MarkText;
    var a := assignments[s.asgt];
    var g := MarkText(s.grade, PolicyOf(a));
    GradeIsLine(s.grade, PolicyOf(a));
    var after := " " + a.name + (g + "\n" + tail);
    assert ScoreText(s, assignments) + tail == "   " + "SCORE" + after;
    KeyAhead("   ", "SCORE", after, e, st);
    assert (g + "\n" + tail)[0] == ' ';
    WordAhead(" ", a.name, g + "\n" + tail, e);
    SameLookup(assignments, back, a.name);
    GradeLine(g, tail, PolicyOf(back[s.asgt]), e);
    e1 := e + LineErrors(g, PolicyOf(back[s.asgt]));
  }

  lemma {:induction false} ScoresRead(scores: seq<Score>, assignments: seq<Assignment>, back: seq<Assignment>,
      rest: string, e: nat, st: State)
    returns (e1: nat)
    requires ScoresOk(scores, assignments) && SameNames(assignments, back) && GoesOn(rest, ["SCORE"])
    requires ScoresDeclared(scores, assignments)
    requires Peek(st) == Peek(State(ScoresText(scores, assignments) + rest, None, e))
    ensures e1 == e + ScoresErrors(scores, assignments, back)
    ensures ReadScores(st, back) == Done(Peek(State(rest, None, e1)), ScoresBack(scores, assignments))
    decreases |scores|
  {
    hide CheckToken, Peek, AdvanceToken, ReadGrade, ExpectNewline, Lookup, LineGrade, ScoreText, MarkText, ScoreBack,
      ScoreErrors, NextWord, Flush, SameNames, ScoreOk;
    if scores == [] {
      assert "" + rest == rest;
      NoKey(rest, e, "SCORE", st);
      e1 := e;
    } else {
      var tail := ScoresText(scores[1..], assignments) + rest;
      assert ScoresText(scores, assignments) + rest == ScoreText(scores[0], assignments) + tail;
      assert FreshLine(tail) by { ScoresFresh(scores[1..], assignments, rest); }
      var e2 := ScoreRead(scores[0], assignments, back, tail, e, st);
      e1 := ScoresRead(scores[1..], assignments, back, rest, e2, State(tail, None, e2));
    }
  }

  lemma ScoresFresh(scores: seq<Score>, assignments: seq<Assignment>, rest: string)
    requires ScoresDeclared(scores, assignments) && FreshLine(rest)
    ensures FreshLine(ScoresText(scores, assignments) + rest)
  {
    if scores == [] {
      assert "" + rest == rest;
    }
  }

  // ----- students and sections

  /** The line of a student. */
  function StudentLine(s: Student, nonames: bool): string {
    "  STUDENT " + s.id + " " + (if nonames then "" else s.surname + ",") + " "
      + (if nonames then "" else s.name) + "\n"
  }

  lemma StudentLineRead(s: Student, assignments: seq<Assignment>, nonames: bool, tail: string, e: nat, st: State)
      returns (e1: nat)
    requires StudentOk(s, assignments) && FreshLine(tail)
    requires Peek(st) == Peek(State(StudentLine(s, nonames) + tail, None, e))
    ensures e1 == e + StudentErrors(s, nonames)
    ensures
      var (s0, found) := CheckToken(st, "STUDENT");
      var (s1, id) := ReadWord(s0);
      var (s2, surname) := ReadWord(s1);
      && found && id == s.id && surname == (if nonames then "" else s.surname)
      && ReadName(s2) == Done(State(tail, None, e1), if nonames then "" else s.name)
  {
    hide CheckToken, AdvanceToken, ReadName, ReadWord, TokenLength, SkipWhitespace;
    var mid := if nonames then "  " else " , ";
    if s.id == "" {
      EmptyLine(s, nonames, mid, tail);
      KeyAhead("  ", "STUDENT", " " + mid + "\n" + tail, e, st);
      MissingRead(" " + mid, tail, e);
      e1 := e + 2;
    } else if nonames || s.surname == "" {
      NamelessLine(s, nonames, mid, tail);
      KeyAhead("  ", "STUDENT", " " + s.id + (mid + "\n" + tail), e, st);
      WordRead(" ", s.id, mid + "\n" + tail, e);
      MissingRead(mid, tail, e);
      e1 := e + 1;
    } else {
      var after := ", " + s.name + "\n" + tail;
      var named := " " + s.surname + after;
      NamedLine(s, tail);
      KeyAhead("  ", "STUDENT", " " + s.id + named, e, st);
      WordRead(" ", s.id, named, e);
      WordRead(" ", s.surname, after, e);
      NameRead(", ", s.name, tail, e);
      e1 := e;
    }
  }

  lemma NamedLine(s: Student, tail: string)
    ensures StudentLine(s, false) + tail ==
      "  " + "STUDENT" + (" " + s.id + (" " + s.surname + (", " + s.name + "\n" + tail)))
  {
  }

  lemma NamelessLine(s: Student, nonames: bool, mid: string, tail: string)
    requires (nonames && mid == "  ") || (!nonames && mid == " , " && s.surname == "" && s.name == "")
    ensures StudentLine(s, nonames) + tail == "  " + "STUDENT" + (" " + s.id + (mid + "\n" + tail))
  {
  }

  lemma EmptyLine(s: Student, nonames: bool, mid: string, tail: string)
    requires s.id == "" && ((nonames && mid == "  ") || (!nonames && mid == " , " && s.surname == "" && s.name == ""))
    ensures StudentLine(s, nonames) + tail == "  " + "STUDENT" + (" " + mid + "\n" + tail)
  {
  }

  /** What the reader meets after a roster. */
  const AFTER_SECTION: seq<string> := ["SCORE", "STUDENT", "ASSISTANT"]

  lemma {:induction false} RosterRead(roster: seq<Student>, assignments: seq<Assignment>, back: seq<Assignment>,
      nonames: bool,
                                      rest: string, e: nat, st: State) returns (e1: nat)
    requires RosterOk(roster, assignments) && SameNames(assignments, back) && GoesOn(rest, AFTER_SECTION)
    requires RosterDeclared(roster, assignments)
    requires Peek(st) == Peek(State(RosterText(roster, assignments, nonames) + rest, None, e))
    ensures e1 == e + RosterErrors(roster, assignments, back, nonames)
    ensures ReadStudents(st, back) == Done(Peek(State(rest, None, e1)), RosterBack(roster, assignments, nonames))
    decreases |roster|
  {
    hide CheckToken, Peek, AdvanceToken, ReadWord, ReadName, ReadScores, ScoresText, ScoresBack, NextWord, Flush,
      SameNames, StudentLine, StudentErrors, ScoresErrors;
    if roster == [] {
      assert "" + rest == rest;
      NoKey(rest, e, "STUDENT", st);
      e1 := e;
    } else {
      var s, more := roster[0], roster[1..];
      var tail := RosterText(more, assignments, nonames) + rest;
      var scores := ScoresText(s.scores, assignments);
      StudentTextIs(s, assignments, nonames);
      assert RosterText(roster, assignments, nonames) + rest == StudentLine(s, nonames) + (scores + tail);
      RosterGoesOn(more, assignments, nonames, rest);
      assert GoesOn(tail, ["SCORE"]);
      ScoresFresh(s.scores, assignments, tail);
      var e2 := StudentLineRead(s, assignments, nonames, scores + tail, e, st);
      var e3 := ScoresRead(s.scores, assignments, back, tail, e2, State(scores + tail, None, e2));
      PeekTwice(State(tail, None, e3));
      e1 := RosterRead(more, assignments, back, nonames, rest, e3, Peek(State(tail, None, e3)));
    }
  }

  lemma StudentTextIs(s: Student, assignments: seq<Assignment>, nonames: bool)
    requires ScoresDeclared(s.scores, assignments)
    ensures StudentText(s, assignments, nonames) == StudentLine(s, nonames) + ScoresText(s.scores, assignments)
  {
  }

  lemma RosterGoesOn(roster: seq<Student>, assignments: seq<Assignment>, nonames: bool, rest: string)
    requires RosterDeclared(roster, assignments) && GoesOn(rest, AFTER_SECTION)
    ensures GoesOn(RosterText(roster, assignments, nonames) + rest, ["SCORE", "ASSISTANT"])
    ensures FreshLine(RosterText(roster, assignments, nonames) + rest)
  {
    hide NextWord, ScoresText, StudentLine, StudentText;
    if roster == [] {
      assert "" + rest == rest;
    } else {
      var s, more := roster[0], RosterText(roster[1..], assignments, nonames);
      StudentTextIs(s, assignments, nonames);
      StartsWithStudent(s, nonames, ScoresText(s.scores, assignments), more, rest);
    }
  }

  lemma StartsWithStudent(s: Student, nonames: bool, scores: string, more: string, rest: string)
    ensures
      var text := StudentLine(s, nonames) + scores + more + rest;
      FreshLine(text) && NextWord(text) == "STUDENT"
  {
    hide NextWord, StudentLine, IsWord;
    var tail := StudentLineStarts(s, nonames);
    var after := tail + scores + more + rest;
    assert StudentLine(s, nonames) + scores + more + rest == "  " + "STUDENT" + after;
    assert IsWord("STUDENT") by { StudentIsWord(); }
    KeyWord("  ", "STUDENT", after);
  }

  lemma StudentLineStarts(s: Student, nonames: bool) returns (tail: string)
    ensures StudentLine(s, nonames) == "  " + "STUDENT" + tail && tail != "" && tail[0] == ' '
  {
    tail := " " + s.id + " " + (if nonames then "" else s.surname + ",") + " "
      + (if nonames then "" else s.name) + "\n";
  }

  lemma StudentIsWord()
    ensures IsWord("STUDENT")
  {
  }

  /** professor and assistant lines. */
  lemma RoleRead(ws: string, key: string, p: Person, tail: string, e: nat, st: State)
    requires IsBlank(ws) && IsWord(key) && PersonOk(p) && FreshLine(tail)
    requires Peek(st) == Peek(State(ws + key + " " + p.surname + ", " + p.name + "\n" + tail, None, e))
    ensures ReadRole(st, key) == Done(State(tail, None, e + Missing(p.surname)), Some(p))
  {
    hide CheckToken, Peek, ReadPerson;
    var after := " " + p.surname + ", " + p.name + "\n" + tail;
    assert ws + key + " " + p.surname + ", " + p.name + "\n" + tail == ws + key + after;
    KeyAhead(ws, key, after, e, st);
    PersonRead(" ", p, tail, e);
  }

  lemma AssistantLine(p: Person, tail: string)
    ensures AssistantText(Some(p)) + tail == " " + "ASSISTANT" + " " + p.surname + ", " + p.name + "\n" + tail
    ensures IsWord("ASSISTANT")
  {
  }

  lemma AssistantRead(a: Option<Person>, tail: string, e: nat, st: State)
    requires (a.Some? ==> PersonOk(a.value)) && GoesOn(tail, ["SCORE", "ASSISTANT"])
    requires Peek(st) == Peek(State(AssistantText(a) + tail, None, e))
    ensures
      var r := ReadRole(st, "ASSISTANT");
      r.Done? && r.value == a && Peek(r.st) == Peek(State(tail, None, e + AssistantErrors(a)))
  {
    hide Peek, NextWord, CheckToken, ReadPerson, IsWord, PersonOk, IsLine;
    match a
    case Some(p) =>
      AssistantLine(p, tail);
      RoleRead(" ", "ASSISTANT", p, tail, e, st);
    case None =>
      assert "" + tail == tail;
      NoKey(tail, e, "ASSISTANT", st);
      PeekTwice(State(tail, None, e));
  }

  lemma AssistantFresh(a: Option<Person>, tail: string)
    requires FreshLine(tail)
    ensures FreshLine(AssistantText(a) + tail)
  {
    if a.None? { assert "" + tail == tail; }
  }

  lemma SectionLine(name: string, tail: string)
    ensures " SECTION " + name + "\n" + tail == " " + "SECTION" + (" " + name + "\n" + tail)
    ensures IsWord("SECTION") && EndsWord(" " + name + "\n" + tail)
  {
  }

  lemma SectionHead(name: string, tail: string, e: nat, st: State)
    requires IsLine(name) && FreshLine(tail) && Peek(st) == Peek(State(" SECTION " + name + "\n" + tail, None, e))
    ensures
      var s := Peek(st);
      var (s0, found) := CheckToken(s, "SECTION");
      s.token == Some("SECTION") && found && ReadName(s0) == Done(State(tail, None, e), name)
  {
    hide CheckToken, ReadName, IsWord, IsLine, TokenLength, SkipWhitespace;
    var after := " " + name + "\n" + tail;
    SectionLine(name, tail);
    PeekTwice(State(" " + "SECTION" + after, None, e));
    KeyAhead(" ", "SECTION", after, e, Peek(st));
    WordAhead(" ", "SECTION", after, e);
    NameRead(" ", name, tail, e);
  }

  lemma {:induction false} SectionsRead(sections: seq<Section>, assignments: seq<Assignment>, back: seq<Assignment>,
      nonames: bool,
                                        e: nat, st: State) returns (e1: nat)
    requires SectionsOk(sections, assignments) && SameNames(assignments, back)
    requires Declared(sections, assignments)
    requires Peek(st) == Peek(State(SectionsText(sections, assignments, nonames), None, e))
    ensures e1 == e + SectionsErrors(sections, assignments, back, nonames)
    ensures ReadSections(st, back) == Done(State("", None, e1), SectionsBack(sections, assignments, nonames))
    decreases |sections|
  {
    hide CheckToken, Peek, AdvanceToken, ReadName, ReadRole, ReadStudents, RosterText, RosterBack, NextWord, Flush,
      SameNames, AssistantText, AssistantErrors, RosterOk, RosterErrors, GoesOn, FreshLine, IsLine, PersonOk,
      SectionText, SectionsText;
    if sections == [] {
      NoSectionsText(sections, assignments, nonames);
      AtEnd(e);
      e1 := e;
    } else {
      var s, more := sections[0], sections[1..];
      var rest := SectionsText(more, assignments, nonames);
      var roster := RosterText(s.roster, assignments, nonames) + rest;
      SectionsGoOn(more, assignments, nonames);
      RosterGoesOn(s.roster, assignments, nonames, rest);
      AssistantFresh(s.assistant, roster);
      SectionsTextIs(sections, assignments, nonames);
      SectionHead(s.name, AssistantText(s.assistant) + roster, e, st);
      AssistantRead(s.assistant, roster, e, State(AssistantText(s.assistant) + roster, None, e));
      var s2 := ReadRole(State(AssistantText(s.assistant) + roster, None, e), "ASSISTANT").st;
      var e2 := RosterRead(s.roster, assignments, back, nonames, rest, e + AssistantErrors(s.assistant), s2);
      PeekTwice(State(rest, None, e2));
      e1 := SectionsRead(more, assignments, back, nonames, e2, Peek(State(rest, None, e2)));
    }
  }

  lemma AtEnd(e: nat)
    ensures Peek(State("", None, e)) == State("", None, e)
  {
    NoWordAhead("", "", e);
    assert "" + "" == "";
  }

  lemma SectionsGoOn(sections: seq<Section>, assignments: seq<Assignment>, nonames: bool)
    requires Declared(sections, assignments)
    ensures GoesOn(SectionsText(sections, assignments, nonames), AFTER_SECTION)
    ensures GoesOn(SectionsText(sections, assignments, nonames), AFTER_ASSIGNMENT)
  {
    hide RosterText, AssistantText, NextWord;
    if sections == [] {
      NothingGoesOn();
    } else {
      SectionsTextIs(sections, assignments, nonames);
      var s := sections[0];
      SectionStarts(s.name, AssistantText(s.assistant) + (RosterText(s.roster, assignments, nonames)
        + SectionsText(sections[1..], assignments, nonames)));
    }
  }

  lemma NothingGoesOn()
    ensures NextWord("") == ""
  {
  }

  lemma SectionStarts(name: string, tail: string)
    ensures
      var text := " SECTION " + name + "\n" + tail;
      FreshLine(text) && NextWord(text) == "SECTION"
  {
    hide NextWord;
    SectionLine(name, tail);
    KeyWord(" ", "SECTION", " " + name + "\n" + tail);
  }

  lemma SectionsTextIs(sections: seq<Section>, assignments: seq<Assignment>, nonames: bool)
    requires Declared(sections, assignments) && sections != []
    ensures
      var s := sections[0];
      SectionsText(sections, assignments, nonames) == " SECTION " + s.name + "\n"
        + (AssistantText(s.assistant)
           + (RosterText(s.roster, assignments, nonames) + SectionsText(sections[1..], assignments, nonames)))
  {
    hide AssistantText, RosterText;
    var s, more := sections[0], SectionsText(sections[1..], assignments, nonames);
    var head, a, roster := " SECTION " + s.name + "\n", AssistantText(s.assistant),
      RosterText(s.roster, assignments, nonames);
    Associative(head + a, roster, more);
    Associative(head, a, roster + more);
  }

  // ----- assignments

  /** What the reader looks for behind an assignment. */
  const AFTER_ASSIGNMENT: seq<string> := ["ASSIGNMENT", "WEIGHT", "NORMALIZE", "MAXIMUM"]
  const DETAILS: seq<string> := ["WEIGHT", "NORMALIZE", "MAXIMUM"]

  /** A line with a keyword and a number. */
  lemma NumberLineRead(key: string, v: int, tail: string, e: nat, st: State)
    requires IsWord(key) && FreshLine(tail)
    requires Peek(st) == Peek(State("  " + key + " " + PrintFixed(v) + "\n" + tail, None, e))
    ensures forall other | other != key ::
      CheckToken(st, other) == (Peek(st), false) && CheckToken(Peek(st), other) == (Peek(st), false)
    ensures
      var (s0, found) := CheckToken(st, key);
      var (s1, n) := ReadNumber(s0);
      && found && CheckToken(Peek(st), key) == (s0, true) && n == Some(v)
      && ExpectNewline(s1) == Done(State(tail, None, e), ())
  {
    hide ReadNumber, ExpectNewline, PrintFixed;
    var after := " " + PrintFixed(v) + ("\n" + tail);
    assert "  " + key + " " + PrintFixed(v) + "\n" + tail == "  " + key + after;
    PeekTwice(st);
    KeyAhead("  ", key, after, e, st);
    KeyAhead("  ", key, after, e, Peek(st));
    WordAhead("  ", key, after, e);
    NumberRead(" ", v, "\n" + tail, e);
    assert "" + "\n" + tail == "\n" + tail;
    NewlineRead("", tail, e);
  }

  lemma NoDetails(rest: string, e: nat, st: State, a: Assignment)
    requires GoesOn(rest, DETAILS) && Peek(st) == Peek(State(rest, None, e))
    ensures ReadDetails(st, a) == Done(Peek(State(rest, None, e)), a)
  {
    hide AdvanceToken, SkipWhitespace, TokenLength;
    PeekTwice(State(rest, None, e));
    var t := State(rest, None, e);
    NoKey(rest, e, "WEIGHT", st);
    NoKey(rest, e, "NORMALIZE", Peek(t));
    NoKey(rest, e, "MAXIMUM", Peek(t));
  }

  lemma MaximumRead(max: int, rest: string, e: nat, st: State, a: Assignment)
    requires GoesOn(rest, DETAILS) && Peek(st) == Peek(State(MaximumText(max) + rest, None, e)) && a.max == 0
    ensures ReadDetails(st, a) == Done(Peek(State(rest, None, e)), a.(max := max))
  {
    hide Peek, ReadDetails, PrintFixed, NextWord;
    if max == 0 {
      assert "" + rest == rest && a == a.(max := max);
      NoDetails(rest, e, st, a);
    } else {
      MaximumLineRead(max, rest, e, st, a);
    }
  }

  lemma GoesOnFresh(rest: string, words: seq<string>)
    requires GoesOn(rest, words)
    ensures FreshLine(rest)
  {
  }

  lemma MaximumLineRead(max: int, rest: string, e: nat, st: State, a: Assignment)
    requires max != 0 && GoesOn(rest, DETAILS) && Peek(st) == Peek(State(MaximumText(max) + rest, None, e))
    ensures ReadDetails(st, a) == Done(Peek(State(rest, None, e)), a.(max := max))
  {
    hide CheckToken, Peek, ReadNumber, ExpectNewline, PrintFixed, NextWord, GoesOn, ReadDetails, IsWord;
    assert FreshLine(rest) by { GoesOnFresh(rest, DETAILS); }
    MaximumLine(max, rest);
    NumberLineRead("MAXIMUM", max, rest, e, st);
    PeekTwice(st);
    NoDetails(rest, e, State(rest, None, e), a.(max := max));
    MaximumTaken(max, rest, e, st, a);
  }

  lemma MaximumLine(max: int, rest: string)
    requires max != 0
    ensures MaximumText(max) + rest == "  " + "MAXIMUM" + " " + PrintFixed(max) + "\n" + rest && IsWord("MAXIMUM")
  {
    hide PrintFixed;
  }

  lemma MaximumTaken(max: int, rest: string, e: nat, st: State, a: Assignment)
    requires CheckToken(st, "WEIGHT") == (Peek(st), false) && CheckToken(Peek(st), "NORMALIZE") == (Peek(st), false)
    requires
      var (s0, found) := CheckToken(Peek(st), "MAXIMUM");
      var (s1, n) := ReadNumber(s0);
      found && n == Some(max) && ExpectNewline(s1) == Done(State(rest, None, e), ())
    ensures ReadDetails(st, a) == ReadDetails(State(rest, None, e), a.(max := max))
  {
    hide CheckToken, Peek, ReadNumber, ExpectNewline;
  }

  lemma WeightRead(weight: Option<int>, after: string, e: nat, st: State, a: Assignment) returns (st1: State)
    requires FreshLine(after) && Peek(st) == Peek(State(WeightText(weight) + after, None, e)) && !a.weighted
    requires a.weight == 0
    ensures ReadDetails(st, a) == ReadDetails(st1, Weighed(a, weight)) && Peek(st1) == Peek(State(after, None, e))
  {
    hide CheckToken, Peek, ReadNumber, ExpectNewline, PrintFixed, NextWord;
    match weight
    case None =>
      assert "" + after == after;
      assert a == Weighed(a, None);
      st1 := st;
    case Some(w) =>
      assert WeightText(weight) + after == "  " + "WEIGHT" + " " + PrintFixed(w) + "\n" + after;
      NumberLineRead("WEIGHT", w, after, e, st);
      st1 := State(after, None, e);
  }

  // ----- normalization lines

  /** The keywords end with the line. */
  lemma NormEnds(after: string, e: nat, a: Assignment, found: nat)
    ensures ReadNormWords(State("\n" + after, None, e), a, found) == (State("\n" + after, None, e), a, found)
  {
    hide AdvanceToken;
    NoWordAhead("", "\n" + after, e);
    assert "" + ("\n" + after) == "\n" + after;
  }

  lemma GroupRead(group: Group, after: string, e: nat, a: Assignment, found: nat)
    ensures ReadNormWords(State(" " + GroupText(group) + "\n" + after, None, e), a, found) ==
      (State("\n" + after, None, e), a.(group := group), found + 1)
  {
    hide AdvanceToken;
    var text := GroupText(group);
    assert " " + text + "\n" + after == " " + text + ("\n" + after);
    WordAhead(" ", text, "\n" + after, e);
    NormEnds(after, e, a.(group := group), found + 1);
  }

  lemma QuantileRead(group: Group, after: string, e: nat, a: Assignment)
    ensures ReadNormWords(State(" QUANTILE" + (" " + GroupText(group)) + "\n" + after, None, e), a, 0) ==
      (State("\n" + after, None, e), WithPolicy(a, Policy.QUANTILE).(group := group), 2)
  {
    hide AdvanceToken, GroupText;
    var tail := " " + GroupText(group) + "\n" + after;
    assert " QUANTILE" + (" " + GroupText(group)) + "\n" + after == " " + "QUANTILE" + tail;
    WordAhead(" ", "QUANTILE", tail, e);
    GroupRead(group, after, e, WithPolicy(a, Policy.QUANTILE), 1);
  }

  lemma ScaleRead(scale: int, group: Group, after: string, e: nat, a: Assignment)
    ensures
      var text := " SCALE" + (" " + PrintFixed(scale) + (" " + GroupText(group))) + "\n" + after;
      ReadNormWords(State(text, None, e), a, 0) ==
        (State("\n" + after, None, e), WithPolicy(a, Policy.SCALE(scale)).(group := group), 2)
  {
    hide AdvanceToken, GroupText, ReadNumber, PrintFixed;
    var tail := " " + GroupText(group) + "\n" + after;
    var number := " " + PrintFixed(scale) + tail;
    assert " SCALE" + (" " + PrintFixed(scale) + (" " + GroupText(group))) + "\n" + after == " " + "SCALE" + number;
    WordAhead(" ", "SCALE", number, e);
    NumberRead(" ", scale, tail, e);
    GroupRead(group, after, e, WithPolicy(a, Policy.SCALE(scale)), 1);
  }

  /** A LINEAR policy is written with a word that the reader does not know: it complains, skips the
      line and takes RAW, BYCLASS. */
  lemma LinearRead(tail: string, after: string, e: nat, a: Assignment)
    requires OneLine(tail) && EndsWord(tail)
    ensures
      var (s, b) := ReadNorm(State(" LINEAR" + tail + "\n" + after, None, e), a);
      b == WithPolicy(a, Policy.RAW).(group := BYCLASS) && ExpectNewline(s) == Done(State(after, None, e + 2), ())
  {
    hide AdvanceToken, ExpectNewline;
    assert " LINEAR" + tail + "\n" + after == " " + "LINEAR" + (tail + "\n" + after);
    WordAhead(" ", "LINEAR", tail + "\n" + after, e);
    SkipInLineEnd(tail, after, "LINEAR", e + 1);
  }

  lemma NormalizeAhead(line: string, after: string, e: nat, st: State)
    requires line != "" && line[0] == ' ' && Peek(st) == Peek(State("  NORMALIZE" + line + "\n" + after, None, e))
    ensures
      var (s1, weight) := CheckToken(st, "WEIGHT");
      !weight && CheckToken(s1, "NORMALIZE") == (State(line + "\n" + after, None, e), true)
  {
    hide AdvanceToken;
    assert "  NORMALIZE" + line + "\n" + after == "  " + "NORMALIZE" + (line + "\n" + after);
    WordAhead("  ", "NORMALIZE", line + "\n" + after, e);
  }

  lemma PolicyLineStarts(policy: Policy, group: Group)
    requires !policy.RAW?
    ensures PolicyLine(policy, group) != "" && PolicyLine(policy, group)[0] == ' '
  {
  }

  lemma PolicyRead(policy: Policy, group: Group, after: string, e: nat, st: State, a: Assignment)
      returns (st1: State, e1: nat)
    requires FreshLine(after) && Peek(st) == Peek(State(PolicyText(policy, group) + after, None, e))
    requires a.npolicy == Npolicy.RAW && a.group == BYCLASS
    ensures e1 == e + (if policy.LINEAR? then 2 else 0) && Peek(st1) == Peek(State(after, None, e1))
    ensures ReadDetails(st, a) == ReadDetails(st1, Heard(a, policy, group))
  {
    hide CheckToken, Peek, ReadNorm, ExpectNewline, PrintFixed, NextWord, GroupText, PolicyLine;
    if policy.RAW? {
      assert "" + after == after;
      assert a == Heard(a, policy, group);
      st1, e1 := st, e;
    } else {
      var line := PolicyLine(policy, group);
      PolicyLineStarts(policy, group);
      NormalizeAhead(line, after, e, st);
      e1 := PolicyLineRead(policy, group, after, e, a);
      st1 := State(after, None, e1);
    }
  }

  lemma PolicyLineRead(policy: Policy, group: Group, after: string, e: nat, a: Assignment) returns (e1: nat)
    requires !policy.RAW? && FreshLine(after) && a.npolicy == Npolicy.RAW && a.group == BYCLASS
    ensures e1 == e + if policy.LINEAR? then 2 else 0
    ensures
      var (s, b) := ReadNorm(State(PolicyLine(policy, group) + "\n" + after, None, e), a);
      b == Heard(a, policy, group) && ExpectNewline(s) == Done(State(after, None, e1), ())
  {
    hide ReadNormWords, ExpectNewline, PrintFixed, GroupText;
    e1 := e;
    match policy
    case LINEAR(mean, stddev) =>
      LinearTail(mean, stddev, group);
      LinearRead(": " + PrintFixed(mean) + ", " + PrintFixed(stddev) + " " + GroupText(group), after, e, a);
      e1 := e + 2;
    case QUANTILE =>
      QuantileRead(group, after, e, a);
      AtLineEnd(after, e);
    case SCALE(scale) =>
      ScaleRead(scale, group, after, e, a);
      AtLineEnd(after, e);
  }

  lemma LinearTail(mean: int, stddev: int, group: Group)
    ensures OneLine(": " + PrintFixed(mean) + ", " + PrintFixed(stddev) + " " + GroupText(group))
  {
    NumberIsWord(mean);
    NumberIsWord(stddev);
  }

  // ----- the list of assignments

  lemma DetailsRead(a: Assignment, rest: string, e: nat, st: State) returns (e1: nat)
    requires GoesOn(rest, DETAILS)
    requires Peek(st) ==
      Peek(State(WeightText(WeightOf(a)) + (PolicyText(PolicyOf(a), a.group) + (MaximumText(a.max) + rest)), None, e))
    ensures e1 == e + (if a.npolicy.LINEAR? then 2 else 0)
    ensures ReadDetails(st, NewAssignment(a.name, a.atype)) == Done(Peek(State(rest, None, e1)), AssignmentBack(a))
  {
    hide CheckToken, Peek, PrintFixed, NextWord, WeightText, PolicyText, MaximumText, ReadDetails;
    var after2 := MaximumText(a.max) + rest;
    var after1 := PolicyText(PolicyOf(a), a.group) + after2;
    var b0 := NewAssignment(a.name, a.atype);
    DetailsFresh(a, rest);
    var st1 := WeightRead(WeightOf(a), after1, e, st, b0);
    var b1 := Weighed(b0, WeightOf(a));
    var st2, e2 := PolicyRead(PolicyOf(a), a.group, after2, e, st1, b1);
    e1 := e2;
    MaximumRead(a.max, rest, e2, st2, Heard(b1, PolicyOf(a), a.group));
  }

  lemma DetailsFresh(a: Assignment, rest: string)
    requires FreshLine(rest)
    ensures FreshLine(MaximumText(a.max) + rest)
    ensures FreshLine(PolicyText(PolicyOf(a), a.group) + (MaximumText(a.max) + rest))
    ensures FreshLine(WeightText(WeightOf(a)) + (PolicyText(PolicyOf(a), a.group) + (MaximumText(a.max) + rest)))
  {
    hide PrintFixed, PolicyLine;
  }

  /** The details of an assignment and what comes after. */
  function Details(a: Assignment, rest: string): string {
    WeightText(WeightOf(a)) + (PolicyText(PolicyOf(a), a.group) + (MaximumText(a.max) + rest))
  }

  lemma AssignmentHead(a: Assignment, rest: string, e: nat, st: State)
    requires AssignmentOk(a) && FreshLine(rest)
    requires Peek(st) == Peek(State(" ASSIGNMENT " + a.name + " " + a.atype + "\n" + rest, None, e))
    ensures
      var (s0, found) := CheckToken(st, "ASSIGNMENT");
      var (s1, name) := ReadWord(s0);
      var (s2, atype) := ReadWord(s1);
      && found && name == a.name && atype == a.atype
      && ExpectNewline(s2) == Done(State(rest, None, e + Missing(a.name) + Missing(a.atype)), ())
  {
    hide CheckToken, ReadWord, ExpectNewline, IsWord;
    var after := " " + a.atype + ("\n" + rest);
    assert " ASSIGNMENT " + a.name + " " + a.atype + "\n" + rest == " " + "ASSIGNMENT" + (" " + a.name + after);
    AssignmentWord();
    KeyAhead(" ", "ASSIGNMENT", " " + a.name + after, e, st);
    AssignmentWords(a, rest, e);
  }

  lemma AssignmentWord()
    ensures IsWord("ASSIGNMENT")
  {
  }

  lemma AssignmentWords(a: Assignment, rest: string, e: nat)
    requires AssignmentOk(a) && FreshLine(rest)
    ensures
      var (s1, name) := ReadWord(State(" " + a.name + (" " + a.atype + ("\n" + rest)), None, e));
      var (s2, atype) := ReadWord(s1);
      && name == a.name && atype == a.atype
      && ExpectNewline(s2) == Done(State(rest, None, e + Missing(a.name) + Missing(a.atype)), ())
  {
    hide ReadWord, ExpectNewline;
    var after := " " + a.atype + ("\n" + rest);
    if a.name == "" {
      assert " " + a.name + after == "  " + "\n" + rest;
      MissingRead("  ", rest, e);
      AtLineEnd(rest, e + 2);
    } else if a.atype == "" {
      assert after == " " + "\n" + rest;
      WordRead(" ", a.name, after, e);
      MissingRead(" ", rest, e);
      AtLineEnd(rest, e + 1);
    } else {
      WordRead(" ", a.name, after, e);
      WordRead(" ", a.atype, "\n" + rest, e);
      AtLineEnd(rest, e);
    }
  }

  lemma AssignmentTextIs(a: Assignment, rest: string)
    ensures AssignmentText(a) + rest == " ASSIGNMENT " + a.name + " " + a.atype + "\n" + Details(a, rest)
  {
    hide WeightText, PolicyText, MaximumText;
    var head := " ASSIGNMENT " + a.name + " " + a.atype + "\n";
    Associative(head + WeightText(WeightOf(a)) + PolicyText(PolicyOf(a), a.group), MaximumText(a.max), rest);
    Associative(head + WeightText(WeightOf(a)), PolicyText(PolicyOf(a), a.group), MaximumText(a.max) + rest);
    Associative(head, WeightText(WeightOf(a)), PolicyText(PolicyOf(a), a.group) + (MaximumText(a.max) + rest));
  }

  lemma {:induction false} AssignmentsRead(assignments: seq<Assignment>, rest: string, e: nat, st: State)
      returns (e1: nat)
    requires AssignmentsOk(assignments) && GoesOn(rest, AFTER_ASSIGNMENT)
    requires Peek(st) == Peek(State(AssignmentsText(assignments) + rest, None, e))
    ensures e1 == e + AssignmentsErrors(assignments)
    ensures ReadAssignments(st) == Done(Peek(State(rest, None, e1)), AssignmentsBack(assignments))
    decreases |assignments|
  {
    hide CheckToken, Peek, ReadWord, ReadDetails, ExpectNewline, NextWord, AssignmentText, NewAssignment,
      AssignmentBack, Details;
    if assignments == [] {
      assert "" + rest == rest;
      NoKey(rest, e, "ASSIGNMENT", st);
      e1 := e;
    } else {
      var a, more := assignments[0], assignments[1..];
      var tail := AssignmentsText(more) + rest;
      Associative(AssignmentText(a), AssignmentsText(more), rest);
      AssignmentTextIs(a, tail);
      AssignmentsGoOn(more, rest);
      DetailsAreFresh(a, tail);
      AssignmentHead(a, Details(a, tail), e, st);
      var e2 := DetailsRead1(a, tail, e + Missing(a.name) + Missing(a.atype));
      PeekTwice(State(tail, None, e2));
      e1 := AssignmentsRead(more, rest, e2, Peek(State(tail, None, e2)));
    }
  }

  lemma DetailsAreFresh(a: Assignment, rest: string)
    requires FreshLine(rest)
    ensures FreshLine(Details(a, rest))
  {
    DetailsFresh(a, rest);
  }

  lemma DetailsRead1(a: Assignment, rest: string, e: nat) returns (e1: nat)
    requires GoesOn(rest, DETAILS)
    ensures e1 == e + if a.npolicy.LINEAR? then 2 else 0
    ensures ReadDetails(State(Details(a, rest), None, e), NewAssignment(a.name, a.atype)) ==
      Done(Peek(State(rest, None, e1)), AssignmentBack(a))
  {
    hide ReadDetails, AssignmentBack, NewAssignment, NextWord;
    e1 := DetailsRead(a, rest, e, State(Details(a, rest), None, e));
  }

  lemma AssignmentsGoOn(assignments: seq<Assignment>, rest: string)
    requires GoesOn(rest, AFTER_ASSIGNMENT)
    ensures GoesOn(AssignmentsText(assignments) + rest, DETAILS)
  {
    hide NextWord, AssignmentText, Details;
    if assignments == [] {
      assert "" + rest == rest;
    } else {
      var a, more := assignments[0], AssignmentsText(assignments[1..]);
      Associative(AssignmentText(a), more, rest);
      AssignmentTextIs(a, more + rest);
      AssignmentStarts(a.name, a.atype, Details(a, more + rest));
    }
  }

  lemma AssignmentStarts(name: string, atype: string, rest: string)
    ensures
      var text := " ASSIGNMENT " + name + " " + atype + "\n" + rest;
      FreshLine(text) && NextWord(text) == "ASSIGNMENT"
  {
    hide NextWord;
    var after := " " + name + " " + atype + "\n" + rest;
    assert " ASSIGNMENT " + name + " " + atype + "\n" + rest == " " + "ASSIGNMENT" + after;
    AssignmentWord();
    KeyWord(" ", "ASSIGNMENT", after);
  }

  // ----- the course

  lemma CourseDeclared(c: Course)
    requires CourseOk(c)
    ensures Declared(c.sections, c.assignments)
  {
    forall i | 0 <= i < |c.sections|
      ensures RosterDeclared(c.sections[i].roster, c.assignments)
    {
      assert SectionOk(c.sections[i], c.assignments);
    }
  }

  lemma CourseHead(c: Course, tail: string)
    requires CourseOk(c) && FreshLine(tail)
    ensures
      var s := ExpectToken(State("COURSE " + c.number + " " + c.title + "\n" + tail, None, 0), "COURSE");
      var (s1, number) := ReadWord(s);
      number == c.number && ReadName(s1) == Done(State(tail, None, Missing(c.number)), c.title)
  {
    hide CheckToken, ReadWord, ReadName;
    var after := " " + c.number + (" " + c.title + "\n" + tail);
    var text := "COURSE " + c.number + " " + c.title + "\n" + tail;
    assert text == "" + "COURSE" + after;
    KeyAhead("", "COURSE", after, 0, State(text, None, 0));
    if c.number == "" {
      assert after == "  " + "\n" + tail;
      MissingRead("  ", tail, 0);
    } else {
      WordRead(" ", c.number, " " + c.title + "\n" + tail, 0);
      NameRead(" ", c.title, tail, 0);
    }
  }

  lemma TextParts(c: Course, nonames: bool)
    requires CourseOk(c) && c.professor.Some? && Declared(c.sections, c.assignments)
    ensures
      var rest := SectionsText(c.sections, c.assignments, nonames);
      var tail := ProfessorText(c.professor.value) + (AssignmentsText(c.assignments) + rest);
      && CourseText(c, nonames) == "COURSE " + c.number + " " + c.title + "\n" + tail && FreshLine(tail)
      && CourseText(c, nonames)[0] == 'C'
  {
    hide AssignmentsText, SectionsText, ProfessorText;
    var head, p := "COURSE " + c.number + " " + c.title + "\n", ProfessorText(c.professor.value);
    var rest := SectionsText(c.sections, c.assignments, nonames);
    Associative(head + p, AssignmentsText(c.assignments), rest);
    Associative(head, p, AssignmentsText(c.assignments) + rest);
    ProfessorFresh(c.professor.value, AssignmentsText(c.assignments) + rest);
  }

  lemma ProfessorFresh(p: Person, rest: string)
    ensures FreshLine(ProfessorText(p) + rest)
  {
  }

  /** What the reader makes of a written course, whatever the course: CourseBack comes back, with
      CourseErrors complaints. */
  lemma CourseRead(c: Course, nonames: bool)
    requires CourseOk(c) && c.professor.Some?
    ensures Declared(c.sections, c.assignments)
    ensures ReadFile(CourseText(c, nonames)) == Done(State("", None, CourseErrors(c, nonames)), CourseBack(c, nonames))
  {
    hide CheckToken, Peek, ReadWord, ReadName, ReadRole, ReadAssignments, ReadSections, ExpectToken, AssignmentsOk,
      SectionsOk, NextWord, AssignmentsText, SectionsText, ProfessorText, CourseText, AssignmentsBack, SectionsBack,
      AssignmentsErrors, SectionsErrors;
    CourseDeclared(c);
    var rest := SectionsText(c.sections, c.assignments, nonames);
    var after := AssignmentsText(c.assignments) + rest;
    var tail := ProfessorText(c.professor.value) + after;
    var back := AssignmentsBack(c.assignments);
    TextParts(c, nonames);
    CourseHead(c, tail);
    SectionsGoOn(c.sections, c.assignments, nonames);
    assert FreshLine(after) by { FreshBehind(c.assignments, rest); }
    var e0 := Missing(c.number);
    ProfessorRead(c.professor.value, after, e0);
    var e2 := e0 + Missing(c.professor.value.surname);
    var e1 := AssignmentsRead(c.assignments, rest, e2, State(after, None, e2));
    PeekTwice(State(rest, None, e1));
    BackNames(c.assignments);
    var e3 := SectionsRead(c.sections, c.assignments, back, nonames, e1, Peek(State(rest, None, e1)));
  }

  lemma FreshBehind(assignments: seq<Assignment>, rest: string)
    requires FreshLine(rest)
    ensures FreshLine(AssignmentsText(assignments) + rest)
  {
    hide WeightText, PolicyText, MaximumText;
  }

  lemma BackNames(assignments: seq<Assignment>)
    ensures SameNames(assignments, AssignmentsBack(assignments))
  {
  }

  lemma ProfessorRead(p: Person, after: string, e: nat)
    requires PersonOk(p) && FreshLine(after)
    ensures ReadRole(State(ProfessorText(p) + after, None, e), "PROFESSOR") ==
      Done(State(after, None, e + Missing(p.surname)), Some(p))
  {
    hide ReadRole;
    assert ProfessorText(p) + after == " " + "PROFESSOR" + " " + p.surname + ", " + p.name + "\n" + after;
    RoleRead(" ", "PROFESSOR", p, after, e, State(ProfessorText(p) + after, None, e));
  }
}

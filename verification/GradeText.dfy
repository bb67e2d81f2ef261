/** Courses as they stand in a grade database file, and the text that is written for them. */
module GradeText {
  import opened Decimals

  datatype Person = Person(surname: string, name: string)

  datatype Npolicy = RAW | LINEAR | QUANTILE | SCALE
  datatype Group = BYCLASS | BYSECTION

  /** weight stays when the weighting is taken back, and mean, stddev and scale when the policy changes; these
      three are None until they are set.  max is 0 when no maximum is declared. */
  datatype AssignmentRecord = AssignmentRecord(name: string, atype: string, weighted: bool, weight: int,
    npolicy: Npolicy, max: int, mean: Option<int>, stddev: Option<int>, scale: Option<int>, group: Group)

  /** The numbers that the policy uses are set; the program prints and compares them unseen. */
  predicate NumbersSet(a: AssignmentRecord) {
    && (a.npolicy.LINEAR? ==> a.mean.Some? && a.stddev.Some?)
    && (a.npolicy.SCALE? ==> a.scale.Some?)
  }

  type Assignment = a: AssignmentRecord | NumbersSet(a)
    witness AssignmentRecord("", "", false, 0, Npolicy.RAW, 0, None, None, None, BYCLASS)

  /** A normalization policy with the numbers it uses. */
  datatype Policy = RAW | LINEAR(mean: int, stddev: int) | QUANTILE | SCALE(scale: int)

  function PolicyOf(a: Assignment): Policy {
    match a.npolicy
    case RAW => Policy.RAW
    case LINEAR => Policy.LINEAR(a.mean.value, a.stddev.value)
    case QUANTILE => Policy.QUANTILE
    case SCALE => Policy.SCALE(a.scale.value)
  }

  /** a under another policy with its numbers; those of other policies stay. */
  function WithPolicy(a: Assignment, policy: Policy): Assignment {
    match policy
    case RAW => a.(npolicy := Npolicy.RAW)
    case LINEAR(mean, stddev) => a.(npolicy := Npolicy.LINEAR, mean := Some(mean), stddev := Some(stddev))
    case QUANTILE => a.(npolicy := Npolicy.QUANTILE)
    case SCALE(scale) => a.(npolicy := Npolicy.SCALE, scale := Some(scale))
  }

  /** The weight, if it counts. */
  function WeightOf(a: Assignment): Option<int> {
    if a.weighted then Some(a.weight) else None
  }

  datatype Subst = USERAW(raw: int) | USENORM(norm: int) | USELIKEAVG | USECLASSAVG
  datatype Grade = Valid(grade: int) | Invalid(subst: Subst, code: string)

  /** asgt is the place of the score's assignment in the list of the course. */
  datatype Score = Score(asgt: nat, grade: Grade)
  datatype Student = Student(id: string, surname: string, name: string, scores: seq<Score>)
  datatype Section = Section(name: string, assistant: Option<Person>, roster: seq<Student>)
  datatype Course = Course(number: string, title: string, professor: Option<Person>,
                           assignments: seq<Assignment>, sections: seq<Section>)

  predicate ScoresDeclared(scores: seq<Score>, assignments: seq<Assignment>) {
    forall i | 0 <= i < |scores| :: scores[i].asgt < |assignments|
  }

  predicate RosterDeclared(roster: seq<Student>, assignments: seq<Assignment>) {
    forall i | 0 <= i < |roster| :: ScoresDeclared(roster[i].scores, assignments)
  }

  /** Every score has an assignment of the course. */
  predicate Declared(sections: seq<Section>, assignments: seq<Assignment>) {
    forall i | 0 <= i < |sections| :: RosterDeclared(sections[i].roster, assignments)
  }

  // ----- the text

  function ProfessorText(p: Person): string {
    " PROFESSOR " + p.surname + ", " + p.name + "\n"
  }

  function AssistantText(a: Option<Person>): string {
    match a
    case None => ""
    case Some(p) => " ASSISTANT " + p.surname + ", " + p.name + "\n"
  }

  /** What follows the assignment's name in a score line. */
  function MarkText(grade: Grade, policy: Policy): string {
    match grade
    case Valid(g) => " " + PrintFixed(g)
    case Invalid(subst, code) =>
      (match subst
       case USERAW(raw) => " USERAW " + PrintFixed(raw)
       case USENORM(norm) => if policy.RAW? then "" else " USENORM " + PrintFixed(norm)
       case USELIKEAVG => " USELIKEAVG"
       case USECLASSAVG => " USECLASSAVG") + " " + code
  }

  function ScoreText(s: Score, assignments: seq<Assignment>): string
    requires s.asgt < |assignments|
  {
    "   SCORE " + assignments[s.asgt].name + MarkText(s.grade, PolicyOf(assignments[s.asgt])) + "\n"
  }

  function ScoresText(scores: seq<Score>, assignments: seq<Assignment>): string
    requires ScoresDeclared(scores, assignments)
  {
    if scores == [] then "" else ScoreText(scores[0], assignments) + ScoresText(scores[1..], assignments)
  }

  /** nonames leaves out the student's names. */
  function StudentText(s: Student, assignments: seq<Assignment>, nonames: bool): string
    requires ScoresDeclared(s.scores, assignments)
  {
    "  STUDENT " + s.id + " " + (if nonames then "" else s.surname + ",") + " "
      + (if nonames then "" else s.name) + "\n"
    + ScoresText(s.scores, assignments)
  }

  function RosterText(roster: seq<Student>, assignments: seq<Assignment>, nonames: bool): string
    requires RosterDeclared(roster, assignments)
  {
    if roster == [] then ""
      else StudentText(roster[0], assignments, nonames) + RosterText(roster[1..], assignments, nonames)
  }

  function SectionText(s: Section, assignments: seq<Assignment>, nonames: bool): string
    requires RosterDeclared(s.roster, assignments)
  {
    " SECTION " + s.name + "\n" + AssistantText(s.assistant) + RosterText(s.roster, assignments, nonames)
  }

  function SectionsText(sections: seq<Section>, assignments: seq<Assignment>, nonames: bool): string
    requires Declared(sections, assignments)
  {
    if sections == [] then ""
    else SectionText(sections[0], assignments, nonames) + SectionsText(sections[1..], assignments, nonames)
  }

  function WeightText(weight: Option<int>): string {
    match weight
    case None => ""
    case Some(w) => "  WEIGHT " + PrintFixed(w) + "\n"
  }

  function GroupText(group: Group): string {
    match group
    case BYCLASS => "BYCLASS"
    case BYSECTION => "BYSECTION"
  }

  /** What follows the keyword in a normalization line. */
  function PolicyLine(policy: Policy, group: Group): string {
    match policy
    case RAW => ""
    case LINEAR(mean, stddev) =>
      " LINEAR" + (": " + PrintFixed(mean) + ", " + PrintFixed(stddev) + " " + GroupText(group))
    case QUANTILE => " QUANTILE" + (" " + GroupText(group))
    case SCALE(scale) => " SCALE" + (" " + PrintFixed(scale) + (" " + GroupText(group)))
  }

  function PolicyText(policy: Policy, group: Group): string {
    if policy.RAW? then "" else "  NORMALIZE" + PolicyLine(policy, group) + "\n"
  }

  function MaximumText(max: int): string {
    if max == 0 then "" else "  MAXIMUM " + PrintFixed(max) + "\n"
  }

  function AssignmentText(a: Assignment): string {
    " ASSIGNMENT " + a.name + " " + a.atype + "\n"
      + WeightText(WeightOf(a)) + PolicyText(PolicyOf(a), a.group) + MaximumText(a.max)
  }

  function AssignmentsText(assignments: seq<Assignment>): string {
    if assignments == [] then "" else AssignmentText(assignments[0]) + AssignmentsText(assignments[1..])
  }

  function CourseText(c: Course, nonames: bool): string
    requires c.professor.Some? && Declared(c.sections, c.assignments)
  {
    "COURSE " + c.number + " " + c.title + "\n" + ProfessorText(c.professor.value)
    + AssignmentsText(c.assignments) + SectionsText(c.sections, c.assignments, nonames)
  }

  // ----- writing it

  /** The output file. */
  class Writer {
    var out: string

    constructor ()
      ensures out == ""
    {
      out := "";
    }

    method Print(text: string)
      modifies this
      ensures out == old(out) + text
    {
      out := out + text;
    }

    method WriteProfessor(p: Person)
      modifies this
      ensures out == old(out) + ProfessorText(p)
    {
      Print(" PROFESSOR " + p.surname + ", " + p.name + "\n");
    }

    method WriteAssistant(a: Option<Person>)
      modifies this
      ensures out == old(out) + AssistantText(a)
    {
      match a
      case None =>
      case Some(p) => Print(" ASSISTANT " + p.surname + ", " + p.name + "\n");
    }

    method WriteScore(s: Score, assignments: seq<Assignment>)
      requires s.asgt < |assignments|
      modifies this
      ensures out == old(out) + ScoreText(s, assignments)
    {
      ghost var before := out;
      var policy := PolicyOf(assignments[s.asgt]);
      var text := "   SCORE " + assignments[s.asgt].name;
      match s.grade {
        case Valid(grade) => text := text + " " + PrintFixed(grade);
        case Invalid(subst, code) => {
          match subst {
            case USERAW(raw) => text := text + " USERAW " + PrintFixed(raw);
            case USENORM(norm) =>
              if !policy.RAW? {
                text := text + " USENORM " + PrintFixed(norm);
              }
            case USELIKEAVG => text := text + " USELIKEAVG";
            case USECLASSAVG => text := text + " USECLASSAVG";
          }
          text := text + " " + code;
        }
      }
      assert text == "   SCORE " + assignments[s.asgt].name + MarkText(s.grade, policy);
      Print(text + "\n");
    }

    method WriteStudent(s: Student, assignments: seq<Assignment>, nonames: bool)
      requires ScoresDeclared(s.scores, assignments)
      modifies this
      ensures out == old(out) + StudentText(s, assignments, nonames)
    {
      var names := if nonames then "" else s.surname + ",";
      var line := "  STUDENT " + s.id + " " + names + " " + (if nonames then "" else s.name) + "\n";
      ghost var scores := ScoresText(s.scores, assignments);
      Associative(out, line, scores);
      assert StudentText(s, assignments, nonames) == line + scores;
      hide StudentText, ScoresText;
      Print(line);
      WriteScores(s.scores, assignments);
    }

    method WriteScores(scores: seq<Score>, assignments: seq<Assignment>)
      requires ScoresDeclared(scores, assignments)
      modifies this
      ensures out == old(out) + ScoresText(scores, assignments)
    {
      hide ScoresText, ScoreText;
      ghost var before, all := out, ScoresText(scores, assignments);
      var i := 0;
      assert scores[0..] == scores;
      while i < |scores|
        invariant 0 <= i <= |scores|
        invariant out + ScoresText(scores[i..], assignments) == before + all
      {
        ScoresTextAt(scores, assignments, i);
        ghost var rest := ScoresText(scores[i + 1..], assignments);
        Associative(out, ScoreText(scores[i], assignments), rest);
        WriteScore(scores[i], assignments);
        i := i + 1;
      }
      NoScoresText(scores[i..], assignments);
    }

    method WriteSection(s: Section, assignments: seq<Assignment>, nonames: bool)
      requires RosterDeclared(s.roster, assignments)
      modifies this
      ensures out == old(out) + SectionText(s, assignments, nonames)
    {
      hide AssistantText, RosterText;
      var line := " SECTION " + s.name + "\n";
      Joined(out, line, AssistantText(s.assistant), RosterText(s.roster, assignments, nonames), "");
      Print(line);
      WriteAssistant(s.assistant);
      WriteRoster(s.roster, assignments, nonames);
    }

    method WriteRoster(roster: seq<Student>, assignments: seq<Assignment>, nonames: bool)
      requires RosterDeclared(roster, assignments)
      modifies this
      ensures out == old(out) + RosterText(roster, assignments, nonames)
    {
      hide RosterText, StudentText;
      ghost var before, all := out, RosterText(roster, assignments, nonames);
      var i := 0;
      assert roster[0..] == roster;
      while i < |roster|
        invariant 0 <= i <= |roster|
        invariant out + RosterText(roster[i..], assignments, nonames) == before + all
      {
        RosterTextAt(roster, assignments, nonames, i);
        ghost var rest := RosterText(roster[i + 1..], assignments, nonames);
        Associative(out, StudentText(roster[i], assignments, nonames), rest);
        WriteStudent(roster[i], assignments, nonames);
        i := i + 1;
      }
      NoRosterText(roster[i..], assignments, nonames);
    }

    method WriteAssignment(a: Assignment)
      modifies this
      ensures out == old(out) + AssignmentText(a)
    {
      ghost var before := out;
      var text := " ASSIGNMENT " + a.name + " " + a.atype + "\n";
      if a.weighted {
        text := text + "  WEIGHT " + PrintFixed(a.weight) + "\n";
      }
      ghost var first := " ASSIGNMENT " + a.name + " " + a.atype + "\n" + WeightText(WeightOf(a));
      assert text == first;
      var norm := NormalizeLine(PolicyOf(a), a.group);
      var max := "";
      if a.max != 0 {
        max := "  MAXIMUM " + PrintFixed(a.max) + "\n";
      }
      Print(text + norm + max);
    }

    method NormalizeLine(policy: Policy, group: Group) returns (norm: string)
      ensures norm == PolicyText(policy, group)
    {
      hide PrintFixed;
      norm := "";
      if !policy.RAW? {
        match policy {
          case RAW =>
          case LINEAR(mean, stddev) =>
            norm := "  NORMALIZE LINEAR: " + PrintFixed(mean) + ", " + PrintFixed(stddev);
            LinearWords(PrintFixed(mean), PrintFixed(stddev), GroupText(group));
          case QUANTILE =>
            norm := "  NORMALIZE QUANTILE";
            OneWord("  NORMALIZE QUANTILE", "  NORMALIZE", " QUANTILE", GroupText(group));
          case SCALE(scale) =>
            norm := "  NORMALIZE SCALE " + PrintFixed(scale);
            ScaleWords(PrintFixed(scale), GroupText(group));
        }
        norm := norm + " " + (if group.BYCLASS? then "BYCLASS" else "BYSECTION") + "\n";
      }
    }

    /** The program reads through a null pointer when the course has no professor. */
    method WriteCourse(c: Course, nonames: bool) returns (written: bool)
      requires Declared(c.sections, c.assignments)
      modifies this
      ensures written <==> c.professor.Some?
      ensures written ==> out == old(out) + CourseText(c, nonames)
    {
      hide ProfessorText, AssignmentsText, SectionsText;
      var line := "COURSE " + c.number + " " + c.title + "\n";
      if c.professor.Some? {
        Joined(out, line, ProfessorText(c.professor.value), AssignmentsText(c.assignments),
               SectionsText(c.sections, c.assignments, nonames));
      }
      Print(line);
      if c.professor.None? {
        return false;
      }
      WriteProfessor(c.professor.value);
      WriteAssignments(c.assignments);
      WriteSections(c.sections, c.assignments, nonames);
      written := true;
    }

    method WriteAssignments(assignments: seq<Assignment>)
      modifies this
      ensures out == old(out) + AssignmentsText(assignments)
    {
      hide AssignmentsText, AssignmentText;
      ghost var before, all := out, AssignmentsText(assignments);
      var i := 0;
      assert assignments[0..] == assignments;
      while i < |assignments|
        invariant 0 <= i <= |assignments|
        invariant out + AssignmentsText(assignments[i..]) == before + all
      {
        AssignmentsTextAt(assignments, i);
        ghost var rest := AssignmentsText(assignments[i + 1..]);
        Associative(out, AssignmentText(assignments[i]), rest);
        WriteAssignment(assignments[i]);
        i := i + 1;
      }
      NoAssignmentsText(assignments[i..]);
    }

    method WriteSections(sections: seq<Section>, assignments: seq<Assignment>, nonames: bool)
      requires Declared(sections, assignments)
      modifies this
      ensures out == old(out) + SectionsText(sections, assignments, nonames)
    {
      hide SectionsText, SectionText;
      ghost var before, all := out, SectionsText(sections, assignments, nonames);
      var i := 0;
      assert sections[0..] == sections;
      while i < |sections|
        invariant 0 <= i <= |sections|
        invariant out + SectionsText(sections[i..], assignments, nonames) == before + all
      {
        SectionsTextAt(sections, assignments, nonames, i);
        ghost var rest := SectionsText(sections[i + 1..], assignments, nonames);
        Associative(out, SectionText(sections[i], assignments, nonames), rest);
        WriteSection(sections[i], assignments, nonames);
        i := i + 1;
      }
      NoSectionsText(sections[i..], assignments, nonames);
    }
  }

  // ----- one more line of a list

  lemma Associative(a: string, b: string, c: string)
    ensures a + (b + c) == a + b + c
  {
  }

  lemma Joined(o: string, a: string, b: string, c: string, d: string)
    ensures o + a + b + c + d == o + (a + b + c + d) && a + b + c + "" == a + b + c
    ensures o + a + b + c + "" == o + a + b + c
  {
    Associative(o, a + b + c, d);
    Associative(o, a + b, c);
    Associative(o, a, b);
  }

  lemma OneWord(ab: string, a: string, b: string, g: string)
    requires ab == a + b
    ensures ab + " " + g + "\n" == a + (b + (" " + g)) + "\n"
  {
    Associative(a, b, " " + g);
    Associative(ab, " ", g);
  }

  lemma LinearWords(m: string, s: string, g: string)
    ensures "  NORMALIZE LINEAR: " + m + ", " + s + " " + g + "\n" ==
      "  NORMALIZE" + (" LINEAR" + (": " + m + ", " + s + " " + g)) + "\n"
  {
    var tail := ": " + m + ", " + s + " " + g;
    assert "  NORMALIZE LINEAR: " + m + ", " + s + " " + g == "  NORMALIZE LINEAR" + tail;
    assert "  NORMALIZE LINEAR" == "  NORMALIZE" + " LINEAR";
    Associative("  NORMALIZE", " LINEAR", tail);
  }

  lemma ScaleWords(v: string, g: string)
    ensures "  NORMALIZE SCALE " + v + " " + g + "\n" == "  NORMALIZE" + (" SCALE" + (" " + v + (" " + g))) + "\n"
  {
    var tail := " " + v + (" " + g);
    assert "  NORMALIZE SCALE " + v + " " + g == "  NORMALIZE SCALE" + tail;
    assert "  NORMALIZE SCALE" == "  NORMALIZE" + " SCALE";
    Associative("  NORMALIZE", " SCALE", tail);
  }

  lemma ScoresTextAt(scores: seq<Score>, assignments: seq<Assignment>, i: nat)
    requires ScoresDeclared(scores, assignments) && i < |scores|
    ensures ScoresText(scores[i..], assignments) ==
      ScoreText(scores[i], assignments) + ScoresText(scores[i + 1..], assignments)
  {
    assert scores[i..][1..] == scores[i + 1..];
  }

  lemma NoScoresText(scores: seq<Score>, assignments: seq<Assignment>)
    requires scores == []
    ensures ScoresText(scores, assignments) == "" && forall s: string :: s + "" == s
  {
  }

  lemma RosterTextAt(roster: seq<Student>, assignments: seq<Assignment>, nonames: bool, i: nat)
    requires RosterDeclared(roster, assignments) && i < |roster|
    ensures RosterText(roster[i..], assignments, nonames) ==
      StudentText(roster[i], assignments, nonames) + RosterText(roster[i + 1..], assignments, nonames)
  {
    assert roster[i..][1..] == roster[i + 1..];
  }

  lemma NoRosterText(roster: seq<Student>, assignments: seq<Assignment>, nonames: bool)
    requires roster == []
    ensures RosterText(roster, assignments, nonames) == "" && forall s: string :: s + "" == s
  {
  }

  lemma AssignmentsTextAt(assignments: seq<Assignment>, i: nat)
    requires i < |assignments|
    ensures AssignmentsText(assignments[i..]) == AssignmentText(assignments[i]) + AssignmentsText(assignments[i + 1..])
  {
    assert assignments[i..][1..] == assignments[i + 1..];
  }

  lemma NoAssignmentsText(assignments: seq<Assignment>)
    requires assignments == []
    ensures AssignmentsText(assignments) == "" && forall s: string :: s + "" == s
  {
  }

  lemma SectionsTextAt(sections: seq<Section>, assignments: seq<Assignment>, nonames: bool, i: nat)
    requires Declared(sections, assignments) && i < |sections|
    ensures SectionsText(sections[i..], assignments, nonames) ==
      SectionText(sections[i], assignments, nonames) + SectionsText(sections[i + 1..], assignments, nonames)
  {
    assert sections[i..][1..] == sections[i + 1..];
  }

  lemma NoSectionsText(sections: seq<Section>, assignments: seq<Assignment>, nonames: bool)
    requires sections == []
    ensures SectionsText(sections, assignments, nonames) == "" && forall s: string :: s + "" == s
  {
  }
}

/** A grade database file, word for word: what is written for a course with every kind of score, and that it is read
    as that course. */
module GradeSample {
  import opened Decimals
  import opened GradeText
  import opened ReadingWords
  import opened RoundTrip
  import opened RoundTripExact
  import S = ReaderSpec

  const HW: Assignment :=
    AssignmentRecord("hw", "HW", true, 2500000, Npolicy.QUANTILE, 0, None, None, None, BYSECTION)
  const MT: Assignment :=
    AssignmentRecord("mt", "EX", false, 0, Npolicy.SCALE, 50000000, None, None, Some(100000000), BYCLASS)
  const FN: Assignment :=
    AssignmentRecord("fn", "EX", false, 0, Npolicy.RAW, 0, None, None, None, BYCLASS)

  const ASSIGNMENTS: seq<Assignment> := [HW, MT, FN]

  const SCORES: seq<Score> := [
    Score(0, Valid(12500000)),
    Score(1, Invalid(USERAW(-7000000), "late")),
    Score(1, Invalid(USENORM(60000000), "sick")),
    Score(2, Invalid(USELIKEAVG, "away")),
    Score(0, Invalid(USECLASSAVG, "gone")) ]

  const SECTIONS: seq<Section> := [
    Section("One", Some(Person("Lee", "Bo")), [Student("7", "Poe", "Cy", SCORES)]),
    Section("Two", None, []) ]

  const COURSE: Course := Course("CSE1", "Programs", Some(Person("Roe", "Ann")), ASSIGNMENTS, SECTIONS)

  function AssignmentLines(): string {
    " ASSIGNMENT hw HW\n" + "  WEIGHT 2.500000\n" + "  NORMALIZE QUANTILE BYSECTION\n"
    + (" ASSIGNMENT mt EX\n" + "  NORMALIZE SCALE 100.000000 BYCLASS\n" + "  MAXIMUM 50.000000\n"
       + " ASSIGNMENT fn EX\n")
  }

  function ScoreLines(): string {
    "   SCORE hw 12.500000\n" + ("   SCORE mt USERAW -7.000000 late\n" + ("   SCORE mt USENORM 60.000000 sick\n"
      + ("   SCORE fn USELIKEAVG away\n" + "   SCORE hw USECLASSAVG gone\n")))
  }

  function FileLines(): string {
    "COURSE CSE1 Programs\n" + " PROFESSOR Roe, Ann\n" + AssignmentLines()
    + (" SECTION One\n" + " ASSISTANT Lee, Bo\n" + ("  STUDENT 7 Poe, Cy\n" + ScoreLines()) + " SECTION Two\n")
  }

  lemma SixZeros()
    ensures Places(0, 6) == "000000"
  {
    assert Places(0, 1) == Places(0, 0) + "0" == "0";
    assert Places(0, 2) == Places(0, 1) + "0" && Places(0, 3) == Places(0, 2) + "0";
    assert Places(0, 4) == Places(0, 3) + "0" && Places(0, 5) == Places(0, 4) + "0";
    assert Places(0, 6) == Places(0, 5) + "0";
  }

  lemma Half()
    ensures Places(500000, 6) == "500000"
  {
    assert Places(5, 1) == Places(0, 0) + "5" == "5";
    assert Places(50, 2) == Places(5, 1) + "0" && Places(500, 3) == Places(50, 2) + "0";
    assert Places(5000, 4) == Places(500, 3) + "0" && Places(50000, 5) == Places(5000, 4) + "0";
    assert Places(500000, 6) == Places(50000, 5) + "0";
  }

  lemma Naturals()
    ensures Natural(2) == "2" && Natural(7) == "7" && Natural(12) == "12" && Natural(50) == "50" && Natural(60) == "60"
    ensures Natural(100) == "100"
  {
    assert Natural(1) == "1" && Natural(5) == "5" && Natural(6) == "6";
    assert Natural(10) == Natural(1) + "0" && Natural(100) == Natural(10) + "0";
  }

  lemma Printed()
    ensures PrintFixed(2500000) == "2.500000" && PrintFixed(12500000) == "12.500000"
    ensures PrintFixed(100000000) == "100.000000" && PrintFixed(50000000) == "50.000000"
    ensures PrintFixed(-7000000) == "-7.000000" && PrintFixed(60000000) == "60.000000"
  {
    hide Places, Natural;
    SixZeros();
    Half();
    Naturals();
  }

  lemma HwWritten()
    ensures AssignmentText(HW) == " ASSIGNMENT hw HW\n" + "  WEIGHT 2.500000\n" + "  NORMALIZE QUANTILE BYSECTION\n"
  {
    hide PrintFixed;
    Printed();
    assert WeightText(WeightOf(HW)) == "  WEIGHT 2.500000\n";
    assert PolicyText(PolicyOf(HW), HW.group) == "  NORMALIZE QUANTILE BYSECTION\n";
    assert MaximumText(HW.max) == "";
    hide WeightText, PolicyText, MaximumText;
  }

  lemma ScaleWritten()
    ensures PolicyText(PolicyOf(MT), MT.group) == "  NORMALIZE SCALE 100.000000 BYCLASS\n"
  {
    hide PrintFixed;
    Printed();
  }

  lemma MtWritten()
    ensures AssignmentText(MT) ==
      " ASSIGNMENT mt EX\n" + "  NORMALIZE SCALE 100.000000 BYCLASS\n" + "  MAXIMUM 50.000000\n"
  {
    hide PrintFixed, PolicyText;
    Printed();
    ScaleWritten();
    assert WeightText(WeightOf(MT)) == "" && MaximumText(MT.max) == "  MAXIMUM 50.000000\n";
    hide WeightText, MaximumText;
  }

  lemma FnWritten()
    ensures AssignmentText(FN) == " ASSIGNMENT fn EX\n"
  {
    assert WeightText(WeightOf(FN)) == "" && PolicyText(PolicyOf(FN), FN.group) == "" && MaximumText(FN.max) == "";
    hide WeightText, PolicyText, MaximumText;
  }

  lemma AssignmentsWritten()
    ensures AssignmentsText(ASSIGNMENTS) == AssignmentLines()
  {
    hide AssignmentText;
    HwWritten();
    MtWritten();
    FnWritten();
    AssignmentsTextAt(ASSIGNMENTS, 2);
    AssignmentsTextAt(ASSIGNMENTS, 1);
    AssignmentsTextAt(ASSIGNMENTS, 0);
    assert ASSIGNMENTS[3..] == [] && ASSIGNMENTS[0..] == ASSIGNMENTS;
    NoAssignmentsText(ASSIGNMENTS[3..]);
  }

  lemma ValidWritten()
    ensures ScoreText(SCORES[0], ASSIGNMENTS) == "   SCORE hw 12.500000\n"
  {
    hide PrintFixed;
    Printed();
  }

  lemma RawWritten()
    ensures ScoreText(SCORES[1], ASSIGNMENTS) == "   SCORE mt USERAW -7.000000 late\n"
  {
    hide PrintFixed;
    Printed();
    assert MarkText(SCORES[1].grade, PolicyOf(MT)) == " USERAW " + "-7.000000" + " " + "late";
  }

  lemma NormWritten()
    ensures ScoreText(SCORES[2], ASSIGNMENTS) == "   SCORE mt USENORM 60.000000 sick\n"
  {
    hide PrintFixed;
    Printed();
    assert MarkText(SCORES[2].grade, PolicyOf(MT)) == " USENORM " + "60.000000" + " " + "sick";
  }

  lemma LikeWritten()
    ensures ScoreText(SCORES[3], ASSIGNMENTS) == "   SCORE fn USELIKEAVG away\n"
  {
    assert MarkText(SCORES[3].grade, PolicyOf(FN)) == " USELIKEAVG" + " " + "away";
  }

  lemma AverageWritten()
    ensures ScoreText(SCORES[4], ASSIGNMENTS) == "   SCORE hw USECLASSAVG gone\n"
  {
    assert MarkText(SCORES[4].grade, PolicyOf(HW)) == " USECLASSAVG" + " " + "gone";
  }

  lemma ScoresWritten()
    ensures ScoresDeclared(SCORES, ASSIGNMENTS) && ScoresText(SCORES, ASSIGNMENTS) == ScoreLines()
  {
    hide ScoreText, ScoresText;
    ValidWritten();
    RawWritten();
    NormWritten();
    LikeWritten();
    AverageWritten();
    ScoresTextAt(SCORES, ASSIGNMENTS, 4);
    ScoresTextAt(SCORES, ASSIGNMENTS, 3);
    ScoresTextAt(SCORES, ASSIGNMENTS, 2);
    ScoresTextAt(SCORES, ASSIGNMENTS, 1);
    ScoresTextAt(SCORES, ASSIGNMENTS, 0);
    assert SCORES[5..] == [] && SCORES[0..] == SCORES;
    NoScoresText(SCORES[5..], ASSIGNMENTS);
  }

  lemma StudentWritten()
    ensures ScoresDeclared(SCORES, ASSIGNMENTS)
    ensures StudentText(Student("7", "Poe", "Cy", SCORES), ASSIGNMENTS, false) == "  STUDENT 7 Poe, Cy\n" + ScoreLines()
  {
    hide ScoresText, ScoreLines, ScoresDeclared;
    ScoresWritten();
  }

  lemma OneWritten()
    ensures RosterDeclared(SECTIONS[0].roster, ASSIGNMENTS)
    ensures SectionText(SECTIONS[0], ASSIGNMENTS, false) ==
      " SECTION One\n" + " ASSISTANT Lee, Bo\n" + ("  STUDENT 7 Poe, Cy\n" + ScoreLines())
  {
    hide StudentText, ScoreLines, ScoresDeclared;
    StudentWritten();
    var roster, lines := SECTIONS[0].roster, "  STUDENT 7 Poe, Cy\n" + ScoreLines();
    assert roster[1..] == [];
    assert RosterText(roster, ASSIGNMENTS, false) == lines + RosterText(roster[1..], ASSIGNMENTS, false) == lines;
    hide RosterText;
    assert AssistantText(SECTIONS[0].assistant) == " ASSISTANT Lee, Bo\n";
  }

  lemma TwoWritten()
    ensures RosterDeclared(SECTIONS[1].roster, ASSIGNMENTS)
    ensures SectionText(SECTIONS[1], ASSIGNMENTS, false) == " SECTION Two\n"
  {
  }

  lemma SectionsWritten()
    ensures Declared(SECTIONS, ASSIGNMENTS)
    ensures SectionsText(SECTIONS, ASSIGNMENTS, false) ==
      " SECTION One\n" + " ASSISTANT Lee, Bo\n" + ("  STUDENT 7 Poe, Cy\n" + ScoreLines()) + " SECTION Two\n"
  {
    hide SectionText, SectionsText, RosterDeclared, ScoreLines;
    OneWritten();
    TwoWritten();
    SectionsTextAt(SECTIONS, ASSIGNMENTS, false, 1);
    SectionsTextAt(SECTIONS, ASSIGNMENTS, false, 0);
    assert SECTIONS[2..] == [] && SECTIONS[0..] == SECTIONS;
    NoSectionsText(SECTIONS[2..], ASSIGNMENTS, false);
  }

  lemma NamesFound()
    ensures S.Lookup(ASSIGNMENTS, "hw") == 0 && S.Lookup(ASSIGNMENTS, "mt") == 1 && S.Lookup(ASSIGNMENTS, "fn") == 2
  {
    hide S.Lookup;
    assert ASSIGNMENTS[0].name == "hw" && ASSIGNMENTS[1].name == "mt" && ASSIGNMENTS[2].name == "fn";
  }

  lemma SampleScoresOk()
    ensures ScoresOk(SCORES, ASSIGNMENTS) && ScoresKept(SCORES, ASSIGNMENTS) && ScoresInRange(SCORES, ASSIGNMENTS)
  {
    hide S.Lookup;
    NamesFound();
    forall i | 0 <= i < |SCORES|
      ensures ScoreOk(SCORES[i], ASSIGNMENTS) && ScoreKept(SCORES[i], ASSIGNMENTS)
      ensures !OutOfRange(SCORES[i].grade, PolicyOf(ASSIGNMENTS[SCORES[i].asgt]))
    {
      assert i == 0 || i == 1 || i == 2 || i == 3 || i == 4;
    }
  }

  lemma SampleOk()
    ensures CourseOk(COURSE) && Faithful(COURSE) && InRange(COURSE) && Complete(COURSE)
  {
    hide ScoresOk, ScoresKept, ScoresInRange;
    SampleScoresOk();
    var s := SECTIONS[0].roster[0];
    assert StudentOk(s, ASSIGNMENTS);
    assert SectionOk(SECTIONS[0], ASSIGNMENTS) && SectionOk(SECTIONS[1], ASSIGNMENTS);
    hide StudentOk, SectionOk;
  }

  /** These lines are written for the course, and read as the course without a complaint. */
  lemma SampleFile()
    ensures Declared(SECTIONS, ASSIGNMENTS) && CourseText(COURSE, false) == FileLines()
    ensures S.ReadFile(FileLines()).Done? && S.ReadFile(FileLines()).value == COURSE
    ensures S.ReadFile(FileLines()).st.errors == 0
  {
    hide S.ReadFile, AssignmentsText, SectionsText, AssignmentLines, ScoreLines, Faithful, InRange, Complete, CourseOk;
    AssignmentsWritten();
    SectionsWritten();
    SampleOk();
    RoundTripExactly(COURSE);
    SilentExactly(COURSE);
  }
}

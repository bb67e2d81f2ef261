/** Grade database files through the program: written by the writer and read by the reader. */
module GradeFiles {
  import opened Decimals
  import opened GradeText
  import opened ReadingWords
  import opened ReadingScores
  import opened RoundTrip
  import opened RoundTripExact
  import opened ReaderProducts
  import opened ReadingDetails
  import opened ReadingFiles
  import GradeReader
  import S = ReaderSpec

  /** Writes a course and reads the text back.  Without a professor the writer fails.  Otherwise the course comes
      back exactly when it is faithful, and then without a complaint exactly when no word is missing and every
      substituted normalized score is possible. */
  method WriteThenRead(c: Course, nonames: bool) returns (written: bool, back: Course, errors: nat)
    requires CourseOk(c)
    ensures written <==> c.professor.Some?
    ensures written ==> back == CourseBack(c, nonames) && errors == CourseErrors(c, nonames)
    ensures written && !nonames ==> (back == c <==> Faithful(c))
    ensures written && !nonames && Faithful(c) ==> (errors == 0 <==> InRange(c) && Complete(c))
  {
    hide CourseOk, CourseText, CourseBack, CourseErrors, S.ReadFile, Faithful, InRange, Complete;
    back, errors := c, 0;
    CourseDeclared(c);
    var writer := new Writer();
    written := writer.WriteCourse(c, nonames);
    if !written {
      return;
    }
    CourseRead(c, nonames);
    assert "" + CourseText(c, nonames) == CourseText(c, nonames);
    var fatal;
    fatal, back, errors := GradeReader.ReadFile(writer.out);
    if !nonames {
      RoundTripExactly(c);
      if Faithful(c) { SilentExactly(c); }
    }
  }

  /** Reads a file, writes the course and reads it again.  Whatever the file, and however many complaints there
      are about it, the course can be taken apart again. */
  method ReadThenWrite(text: string) returns (read: bool, written: bool, c: Course, back: Course, errors: nat)
    ensures read <==> S.ReadFile(text).Done?
    ensures read ==> c == S.ReadFile(text).value && CourseOk(c) && (written <==> c.professor.Some?)
    ensures read && written ==> (back == c <==> Faithful(c))
    ensures read && written && Faithful(c) ==> (errors == 0 <==> InRange(c) && Complete(c))
  {
    hide CourseOk, CourseBack, CourseErrors, S.ReadFile, Faithful, InRange, Complete;
    FileProduced(text);
    var fatal;
    fatal, c, errors := GradeReader.ReadFile(text);
    read, written, back := !fatal, false, c;
    if fatal {
      return;
    }
    written, back, errors := WriteThenRead(c, false);
  }

  /** Reads a file with assignments declared by any lines and sections as they are written.  Every assignment is
      what the last word about each of its fields makes it. */
  method ReadDeclared(number: string, title: string, professor: Person, ds: seq<Declaration>, sections: seq<Section>)
      returns (c: Course, errors: nat)
    requires IsWord(number) && IsLine(title) && PersonOk(professor) && DeclarationsOk(ds)
    requires SectionsOk(sections, AllMade(ds)) && Declared(sections, AllMade(ds))
    ensures |c.assignments| == |ds| && forall i {:trigger ds[i]} | 0 <= i < |ds| ::
      Decided(S.NewAssignment(ds[i].name, ds[i].atype), SettingsOf(ds[i].lines), c.assignments[i])
    ensures c.number == number && c.title == title && c.professor == Some(professor)
    ensures c.sections == SectionsBack(sections, AllMade(ds), false)
    ensures forall i {:trigger ds[i]} | 0 <= i < |ds| :: Counted(SettingsOf(ds[i].lines))
    ensures errors == Missing(professor.surname) + DeclarationsComplaints(ds)
      + SectionsErrors(sections, AllMade(ds), AllMade(ds), false)
  {
    hide S.ReadFile, FileText, SectionsOk, DeclarationsOk, Decided, SectionsText, SectionsBack, SectionsErrors, Counted,
      DeclarationsComplaints, Declared, PersonOk;
    FileRead(number, title, professor, ds, sections);
    var fatal;
    fatal, c, errors :=
      GradeReader.ReadFile(FileText(number, title, professor, ds, SectionsText(sections, AllMade(ds), false)));
    forall i | 0 <= i < |ds|
      ensures Decided(S.NewAssignment(ds[i].name, ds[i].atype), SettingsOf(ds[i].lines), c.assignments[i])
    {
      assert c.assignments[i] == AllMade(ds)[i];
    }
  }

  // ----- files that are read without a complaint and do not come back

  /** A file with one assignment and one normalization line, and the course that is read from it. */
  function NormText(line: string): string {
    "COURSE C T\n" + (" PROFESSOR P, N\n" + (" ASSIGNMENT a HW\n" + ("  NORMALIZE" + line + "\n")))
  }

  function NormCourse(a: Assignment): Course {
    Course("C", "T", Some(Person("P", "N")), [a], [])
  }

  const FRESH: Assignment := S.NewAssignment("a", "HW")

  /** The line makes a of a new assignment, and is read to its end. */
  ghost predicate Makes(line: string, a: Assignment) {
    && line != "" && line[0] == ' ' && a.name == FRESH.name && a.atype == FRESH.atype
    && S.ReadNorm(S.State(line + "\n" + "", None, 0), FRESH) == (S.State("\n" + "", None, 0), a)
  }

  /** The file is read without a complaint, its course is written without an error, and another course is read
      from what is written. */
  ghost predicate Lost(line: string, a: Assignment) {
    && S.ReadFile(NormText(line)) == S.Done(S.State("", None, 0), NormCourse(a))
    && CourseOk(NormCourse(a)) && Declared([], [a]) && S.ReadFile(CourseText(NormCourse(a), false)).Done?
    && S.ReadFile(CourseText(NormCourse(a), false)).value != NormCourse(a)
  }

  lemma LostIfUnkept(line: string, a: Assignment)
    requires Makes(line, a) && !AssignmentKept(a)
    ensures Lost(line, a)
  {
    hide S.ReadFile, CourseText, Makes;
    NormRead(line, a);
    var c := NormCourse(a);
    NormOk(line, a);
    assert c.assignments[0] == a;
    RoundTripExactly(c);
  }

  /** The keyword of a standard linear policy is read, but another one is written. */
  lemma StandardIsLost()
    ensures Lost(" STDLINEAR", WithPolicy(FRESH, Policy.LINEAR(0, MILLION)))
  {
    hide Lost, S.AdvanceToken;
    var a := WithPolicy(FRESH, Policy.LINEAR(0, MILLION));
    assert " STDLINEAR" + "\n" + "" == " " + "STDLINEAR" + ("\n" + "");
    WordAhead(" ", "STDLINEAR", "\n" + "", 0);
    NormEnds("", 0, a, 1);
    LostIfUnkept(" STDLINEAR", a);
  }

  /** A line that gives a linear policy and then a scale. */
  function TwicePolicy(mean: int, stddev: int, scale: int): string {
    " GENLINEAR" + (" " + PrintFixed(mean) + ("," + PrintFixed(stddev))) + (" SCALE" + (" " + PrintFixed(scale)))
  }

  /** The mean and the deviation stay in the record, where a substituted class average still takes the mean, and
      they are not written: whatever the numbers, the file is read without a complaint and does not come back. */
  lemma LeftoverIsLost(mean: int, stddev: int, scale: int)
    ensures
      var a := WithPolicy(WithPolicy(FRESH, Policy.LINEAR(mean, stddev)), Policy.SCALE(scale));
      a.npolicy.SCALE? && a.mean == Some(mean) && Lost(TwicePolicy(mean, stddev, scale), a)
  {
    hide Lost, PrintFixed;
    var a := WithPolicy(WithPolicy(FRESH, Policy.LINEAR(mean, stddev)), Policy.SCALE(scale));
    TwiceMakes(mean, stddev, scale, a);
    LostIfUnkept(TwicePolicy(mean, stddev, scale), a);
  }

  lemma TwiceMakes(mean: int, stddev: int, scale: int, a: Assignment)
    requires a == WithPolicy(WithPolicy(FRESH, Policy.LINEAR(mean, stddev)), Policy.SCALE(scale))
    ensures Makes(TwicePolicy(mean, stddev, scale), a)
  {
    hide PrintFixed, S.ReadNumber, S.AdvanceToken, S.ReadNormWords;
    var line := TwicePolicy(mean, stddev, scale);
    var end := "\n" + "";
    var last := " " + PrintFixed(scale) + end;
    var scaled := " " + "SCALE" + last;
    var second := "," + PrintFixed(stddev) + scaled;
    var first := " " + PrintFixed(mean) + second;
    TwiceText(PrintFixed(mean), PrintFixed(stddev), PrintFixed(scale), end);
    assert line + "\n" + "" == " " + "GENLINEAR" + first;
    var b := WithPolicy(FRESH, Policy.LINEAR(mean, stddev));
    NumberRead(" ", mean, second, 0);
    NumberRead(",", stddev, scaled, 0);
    NumberRead(" ", scale, end, 0);
    GeneralRead(first, scaled, b, mean, stddev, S.State(second, None, 0));
    ScaledRead(last, end, b, scale);
    NormEnds("", 0, a, 2);
  }

  lemma TwiceText(m: string, d: string, v: string, end: string)
    requires end == "\n" + ""
    ensures " GENLINEAR" + (" " + m + ("," + d)) + (" SCALE" + (" " + v)) + "\n" + "" ==
      " " + "GENLINEAR" + (" " + m + ("," + d + (" " + "SCALE" + (" " + v + end))))
  {
    assert " GENLINEAR" == " " + "GENLINEAR" && " SCALE" == " " + "SCALE";
  }

  lemma GeneralRead(first: string, rest: string, b: Assignment, mean: int, stddev: int, st: S.State)
    requires b == WithPolicy(FRESH, Policy.LINEAR(mean, stddev)) && EndsWord(first)
    requires S.ReadNumber(S.State(first, None, 0)) == (st, Some(mean))
    requires S.ReadNumber(st) == (S.State(rest, None, 0), Some(stddev))
    ensures S.ReadNormWords(S.State(" " + "GENLINEAR" + first, None, 0), FRESH, 0) ==
      S.ReadNormWords(S.State(rest, None, 0), b, 1)
  {
    hide S.ReadNumber, S.AdvanceToken;
    WordAhead(" ", "GENLINEAR", first, 0);
  }

  lemma ScaledRead(last: string, rest: string, b: Assignment, scale: int)
    requires EndsWord(last) && S.ReadNumber(S.State(last, None, 0)) == (S.State(rest, None, 0), Some(scale))
    ensures S.ReadNormWords(S.State(" " + "SCALE" + last, None, 0), b, 1) ==
      S.ReadNormWords(S.State(rest, None, 0), WithPolicy(b, Policy.SCALE(scale)), 2)
  {
    hide S.ReadNumber, S.AdvanceToken;
    WordAhead(" ", "SCALE", last, 0);
  }

  lemma NormOk(line: string, a: Assignment)
    requires Makes(line, a)
    ensures CourseOk(NormCourse(a)) && Declared([], [a])
  {
    hide S.ReadNorm;
  }

  lemma NormRead(line: string, a: Assignment)
    requires Makes(line, a)
    ensures S.ReadFile(NormText(line)) == S.Done(S.State("", None, 0), NormCourse(a))
  {
    hide S.CheckToken, S.Peek, S.ReadWord, S.ReadName, S.ReadRole, S.ReadAssignments, S.ReadSections, S.ExpectToken,
      Makes;
    var c, p := NormCourse(a), Person("P", "N");
    var details := "  NORMALIZE" + line + "\n";
    var tail := " ASSIGNMENT a HW\n" + details;
    NormOk(line, a);
    assert NormText(line) == "COURSE " + c.number + " " + c.title + "\n" + (" PROFESSOR P, N\n" + tail);
    CourseHead(c, " PROFESSOR P, N\n" + tail);
    assert ProfessorText(p) == " PROFESSOR P, N\n";
    ProfessorRead(p, tail, 0);
    NormAssignments(line, a, details, tail);
    EmptySections(a);
  }

  lemma EmptySections(a: Assignment)
    ensures S.ReadSections(S.State("", None, 0), [a]) == S.Done(S.State("", None, 0), [])
  {
    hide S.Peek, S.CheckToken, S.ReadName, S.ReadRole, S.ReadStudents;
    AtEnd(0);
  }

  lemma NormAssignments(line: string, a: Assignment, details: string, tail: string)
    requires Makes(line, a) && details == "  NORMALIZE" + line + "\n" && tail == " ASSIGNMENT a HW\n" + details
    ensures S.ReadAssignments(S.State(tail, None, 0)) == S.Done(S.State("", None, 0), [a])
  {
    hide S.CheckToken, S.ReadWord, S.ReadDetails, S.ExpectNewline, S.Peek, S.NewAssignment, Makes;
    var st := S.State(tail, None, 0);
    DetailsStart(line, a, details);
    assert tail == " ASSIGNMENT " + a.name + " " + a.atype + "\n" + details;
    AssignmentHead(a, details, 0, st);
    NormDetails(line, a, details);
    NoMore();
    var none: seq<Assignment> := [];
    assert [a] + none == [a];
  }

  lemma DetailsStart(line: string, a: Assignment, details: string)
    requires Makes(line, a) && details == "  NORMALIZE" + line + "\n"
    ensures FreshLine(details) && AssignmentOk(a) && a.name == "a" && a.atype == "HW"
    ensures Missing(a.name) == 0 == Missing(a.atype) && FRESH == S.NewAssignment(a.name, a.atype)
  {
    hide S.ReadNorm;
  }

  lemma NoMore()
    ensures S.ReadAssignments(S.State("", None, 0)) == S.Done(S.State("", None, 0), [])
  {
    hide S.Peek, S.CheckToken, S.ReadWord, S.ReadDetails, S.ExpectNewline, NextWord;
    AtEnd(0);
    NothingNext();
    NoKey("", 0, "ASSIGNMENT", S.State("", None, 0));
  }

  lemma NormDetails(line: string, a: Assignment, details: string)
    requires Makes(line, a) && details == "  NORMALIZE" + line + "\n"
    ensures S.ReadDetails(S.State(details, None, 0), FRESH) == S.Done(S.State("", None, 0), a)
  {
    hide S.CheckToken, S.ReadNorm, S.ExpectNewline, S.Peek, NextWord;
    assert details == "  NORMALIZE" + line + "\n" + "";
    NormalizeAhead(line, "", 0, S.State(details, None, 0));
    AtLineEnd("", 0);
    AtEnd(0);
    NothingNext();
    NoDetails("", 0, S.State("", None, 0), a);
  }

  lemma NothingNext()
    ensures GoesOn("", DETAILS) && NextWord("") == ""
  {
  }
}

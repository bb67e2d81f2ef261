/** Whole files with assignments declared in any way. */
module ReadingFiles {
  import opened Decimals
  import opened GradeText
  import opened ReaderSpec
  import opened ReadingWords
  import opened ReadingScores
  import opened RoundTrip
  import opened ReadingDetails
  import opened ReadingLines

  // ----- the lines of one assignment

  lemma {:induction false} ComplaintsMore(ss: seq<Setting>, more: seq<Setting>)
    requires Counted(ss) && Counted(more)
    ensures Counted(ss + more) && Complaints(ss + more) == Complaints(ss) + Complaints(more)
  {
    if ss == [] {
      assert [] + more == more;
    } else {
      assert (ss + more)[1..] == ss[1..] + more;
      ComplaintsMore(ss[1..], more);
    }
  }

  lemma KeyBegins(w: Word, rest: string)
    requires Spaced(w) && w.blank[0] == ' ' && EndsWord(rest) && w.text[0] != '#'
    ensures Begins(WordText(w) + rest)
  {
    assert WordText(w) + rest == w.blank + (w.text + rest);
    SkipBlanks(w.blank, w.text + rest);
  }

  lemma LineBegins(l: Line, rest: string)
    requires LineOk(l)
    ensures Begins(LineText(l) + rest)
  {
    hide SettingsOk, SettingsText, NumbersText, SkipWhitespace, Begins;
    match l
    case NumberLine(s, end, filler) =>
      var st, end1 := OneNumber(s, end, filler + rest, 0);
      NumberLineText(l, rest);
      KeyBegins(s.key, NumbersText(s.numbers) + (end + "\n" + (filler + rest)));
    case NormLine(head, ss, end, filler) =>
      RestEndsWord(ss, end, filler + rest);
      NormLineText(l, rest);
      KeyBegins(head, SettingsText(ss) + (end + "\n" + (filler + rest)));
  }

  lemma LinesBegin(lines: seq<Line>, rest: string)
    requires LinesOk(lines) && Begins(rest)
    ensures Begins(LinesText(lines) + rest)
  {
    hide LineText, LineOk, Begins;
    if lines == [] {
      assert "" + rest == rest;
    } else {
      Associative(LineText(lines[0]), LinesText(lines[1..]), rest);
      LineBegins(lines[0], LinesText(lines[1..]) + rest);
    }
  }

  lemma {:induction false} LinesDone(lines: seq<Line>, rest: string, e: nat, st: State, a: Assignment)
    requires LinesOk(lines) && GoesOn(rest, DETAILS) && Begins(rest)
    requires Peek(st) == Peek(State(LinesText(lines) + rest, None, e))
    ensures Counted(SettingsOf(lines))
    ensures ReadDetails(st, a) ==
      Done(Peek(State(rest, None, e + Complaints(SettingsOf(lines)))), Applied(a, SettingsOf(lines)))
    decreases |lines|
  {
    hide ReadDetails, Peek, LineText, LineOk, Begins, GoesOn, Complaints, Applied, Counted;
    if lines == [] {
      assert "" + rest == rest;
      NoComplaints();
      NoSettings(a);
      NoDetails(rest, e, st, a);
    } else {
      var l, more := lines[0], lines[1..];
      var tail := LinesText(more) + rest;
      Associative(LineText(l), LinesText(more), rest);
      LinesBegin(more, rest);
      var st1 := LineDone(l, tail, e, st, a);
      var ss := SettingsOf([l]);
      LinesDone(more, rest, e + Complaints(ss), st1, Applied(a, ss));
      SettingsSplit(lines);
      AppliedMore(a, ss, SettingsOf(more));
      ComplaintsMore(ss, SettingsOf(more));
    }
  }

  lemma NoComplaints()
    ensures Counted([]) && Complaints([]) == 0
  {
  }

  lemma SettingsSplit(lines: seq<Line>)
    requires lines != []
    ensures SettingsOf(lines) == SettingsOf([lines[0]]) + SettingsOf(lines[1..])
  {
    assert [lines[0]][1..] == [];
    var none: seq<Setting> := SettingsOf([lines[0]][1..]);
    assert SettingsOf([lines[0]]) + SettingsOf(lines[1..]) == SettingsOf(lines);
  }

  // ----- declarations

  /** An assignment with the lines about it; filler are comments and blank lines behind its first line. */
  datatype Declaration = Declaration(name: string, atype: string, filler: string, lines: seq<Line>)

  predicate DeclarationOk(d: Declaration) {
    IsWord(d.name) && IsWord(d.atype) && IsFiller(d.filler) && LinesOk(d.lines)
  }

  predicate DeclarationsOk(ds: seq<Declaration>) {
    forall i {:trigger ds[i]} | 0 <= i < |ds| :: DeclarationOk(ds[i])
  }

  function DeclarationText(d: Declaration): string {
    " ASSIGNMENT " + d.name + " " + d.atype + "\n" + d.filler + LinesText(d.lines)
  }

  function DeclarationsText(ds: seq<Declaration>): string {
    if ds == [] then "" else DeclarationText(ds[0]) + DeclarationsText(ds[1..])
  }

  /** The assignments that come of them. */
  function Made(d: Declaration): Assignment {
    Applied(NewAssignment(d.name, d.atype), SettingsOf(d.lines))
  }

  function AllMade(ds: seq<Declaration>): (as': seq<Assignment>)
    ensures |as'| == |ds| && forall i {:trigger as'[i]} | 0 <= i < |ds| :: as'[i] == Made(ds[i])
  {
    if ds == [] then [] else [Made(ds[0])] + AllMade(ds[1..])
  }

  function DeclarationsComplaints(ds: seq<Declaration>): nat
    requires forall i {:trigger ds[i]} | 0 <= i < |ds| :: Counted(SettingsOf(ds[i].lines))
  {
    if ds == [] then 0 else Complaints(SettingsOf(ds[0].lines)) + DeclarationsComplaints(ds[1..])
  }

  lemma DeclarationHead(d: Declaration, rest: string, e: nat, st: State) returns (st1: State)
    requires DeclarationOk(d) && Begins(rest)
    requires Peek(st) == Peek(State(" ASSIGNMENT " + d.name + " " + d.atype + "\n" + (d.filler + rest), None, e))
    ensures
      var (s0, found) := CheckToken(st, "ASSIGNMENT");
      var (s1, name) := ReadWord(s0);
      var (s2, atype) := ReadWord(s1);
      found && name == d.name && atype == d.atype && ExpectNewline(s2) == Done(st1, ())
    ensures Peek(st1) == Peek(State(rest, None, e))
  {
    hide CheckToken, ReadWord, ExpectNewline, Peek, LinesOk, Begins;
    var end := "" + "\n" + (d.filler + rest);
    var after := " " + d.atype + end;
    assert " ASSIGNMENT " + d.name + " " + d.atype + "\n" + (d.filler + rest) ==
      " " + "ASSIGNMENT" + (" " + d.name + after);
    AssignmentWord();
    KeyAhead(" ", "ASSIGNMENT", " " + d.name + after, e, st);
    WordRead(" ", d.name, after, e);
    WordRead(" ", d.atype, end, e);
    st1 := LineEndRead("", d.filler, rest, e);
  }

  lemma {:induction false} DeclarationsRead(ds: seq<Declaration>, rest: string, e: nat, st: State) returns (e1: nat)
    requires DeclarationsOk(ds) && GoesOn(rest, AFTER_ASSIGNMENT) && Begins(rest)
    requires Peek(st) == Peek(State(DeclarationsText(ds) + rest, None, e))
    ensures forall i {:trigger ds[i]} | 0 <= i < |ds| :: Counted(SettingsOf(ds[i].lines))
    ensures e1 == e + DeclarationsComplaints(ds)
    ensures ReadAssignments(st) == Done(Peek(State(rest, None, e1)), AllMade(ds))
    decreases |ds|
  {
    hide CheckToken, Peek, ReadWord, ReadDetails, ExpectNewline, NextWord, NewAssignment, DeclarationText, Begins,
      Counted, Applied, DeclarationOk, Complaints, LinesOk, SettingsOf;
    if ds == [] {
      assert "" + rest == rest;
      NoKey(rest, e, "ASSIGNMENT", st);
      e1 := e;
    } else {
      var d, more := ds[0], ds[1..];
      var tail := DeclarationsText(more) + rest;
      DeclarationTextIs(d, DeclarationsText(more), rest);
      DeclarationsGoOn(more, rest);
      assert LinesOk(d.lines) by { DeclarationLines(d); }
      LinesBegin(d.lines, tail);
      var st1 := DeclarationHead(d, LinesText(d.lines) + tail, e, st);
      LinesDone(d.lines, tail, e, st1, NewAssignment(d.name, d.atype));
      var e2 := e + Complaints(SettingsOf(d.lines));
      PeekTwice(State(tail, None, e2));
      e1 := DeclarationsRead(more, rest, e2, Peek(State(tail, None, e2)));
    }
  }

  lemma DeclarationLines(d: Declaration)
    requires DeclarationOk(d)
    ensures LinesOk(d.lines)
  {
  }

  lemma DeclarationTextIs(d: Declaration, more: string, rest: string)
    ensures DeclarationText(d) + more + rest == " ASSIGNMENT " + d.name + " " + d.atype + "\n"
      + (d.filler + (LinesText(d.lines) + (more + rest)))
  {
    hide LinesText;
    var head := " ASSIGNMENT " + d.name + " " + d.atype + "\n";
    Associative(head + d.filler + LinesText(d.lines), more, rest);
    Associative(head + d.filler, LinesText(d.lines), more + rest);
    Associative(head, d.filler, LinesText(d.lines) + (more + rest));
  }

  lemma DeclarationsGoOn(ds: seq<Declaration>, rest: string)
    requires GoesOn(rest, AFTER_ASSIGNMENT) && Begins(rest)
    ensures GoesOn(DeclarationsText(ds) + rest, DETAILS) && Begins(DeclarationsText(ds) + rest)
  {
    hide NextWord, LinesText, Begins, DeclarationText;
    if ds == [] {
      assert "" + rest == rest;
    } else {
      var d, more := ds[0], DeclarationsText(ds[1..]);
      DeclarationTextIs(d, more, rest);
      StartsWithAssignment(d.name, d.atype, d.filler + (LinesText(d.lines) + (more + rest)));
    }
  }

  lemma StartsWithAssignment(name: string, atype: string, rest: string)
    ensures
      var text := " ASSIGNMENT " + name + " " + atype + "\n" + rest;
      FreshLine(text) && NextWord(text) == "ASSIGNMENT" && Begins(text)
  {
    hide NextWord, Begins;
    AssignmentStarts(name, atype, rest);
    var after := " " + name + " " + atype + "\n" + rest;
    assert " ASSIGNMENT " + name + " " + atype + "\n" + rest == " " + "ASSIGNMENT" + after;
    AssignmentWord();
    KeyBegins(Word(" ", "ASSIGNMENT"), after);
  }

  // ----- the file

  /** A file with a professor and with assignments declared by the lines given, and what comes then. */
  function FileText(number: string, title: string, professor: Person, ds: seq<Declaration>, rest: string): string {
    "COURSE " + number + " " + title + "\n" + (ProfessorText(professor) + (DeclarationsText(ds) + rest))
  }

  lemma SectionsBegin(sections: seq<Section>, assignments: seq<Assignment>)
    requires Declared(sections, assignments)
    ensures Begins(SectionsText(sections, assignments, false))
  {
    hide RosterText, AssistantText;
    if sections != [] {
      var text := SectionsText(sections, assignments, false);
      var after := text[|" SECTION"|..];
      assert text == " " + "SECTION" + after && after[0] == ' ';
      KeyBegins(Word(" ", "SECTION"), after);
    }
  }

  /** The reader gets to the sections with the assignments that the lines make. */
  lemma FileReadSoFar(number: string, title: string, professor: Person, ds: seq<Declaration>, rest: string)
      returns (e: nat)
    requires IsWord(number) && IsLine(title) && PersonOk(professor) && DeclarationsOk(ds)
    requires GoesOn(rest, AFTER_ASSIGNMENT) && Begins(rest)
    ensures forall i {:trigger ds[i]} | 0 <= i < |ds| :: Counted(SettingsOf(ds[i].lines))
    ensures e == Missing(professor.surname) + DeclarationsComplaints(ds)
    ensures ReadFile(FileText(number, title, professor, ds, rest)) ==
      Ended(number, title, professor, ds, ReadSections(Peek(State(rest, None, e)), AllMade(ds)))
  {
    hide CheckToken, Peek, ReadWord, ReadName, ReadRole, ReadAssignments, ReadSections, ExpectToken, DeclarationsOk,
      NextWord, DeclarationsText, ProfessorText, Counted, DeclarationsComplaints, Begins, SkipBlankLines;
    var after := DeclarationsText(ds) + rest;
    var tail := ProfessorText(professor) + after;
    DeclarationsGoOn(ds, rest);
    FileHead(number, title, professor, after, tail);
    ProfessorRead(professor, after, 0);
    var e0 := Missing(professor.surname);
    e := DeclarationsRead(ds, rest, e0, State(after, None, e0));
  }

  /** The end of the file, once the sections have been read. */
  function Ended(number: string, title: string, professor: Person, ds: seq<Declaration>, r: Step<seq<Section>>):
      Step<Course>
  {
    match r
    case Fatal => Fatal
    case Done(s, sections) =>
      match GobbleBlankLines(s)
      case Fatal => Fatal
      case Done(s1, _) => Done(ExpectEof(s1), Course(number, title, Some(professor), AllMade(ds), sections))
  }

  /** With sections as they are written the file is read to its end.  Every assignment is what the last word about
      each of its fields makes it, and there is a complaint for each number and each word that is missing, and no
      other about the assignments. */
  lemma FileRead(number: string, title: string, professor: Person, ds: seq<Declaration>, sections: seq<Section>)
    requires IsWord(number) && IsLine(title) && PersonOk(professor) && DeclarationsOk(ds)
    requires SectionsOk(sections, AllMade(ds)) && Declared(sections, AllMade(ds))
    ensures forall i {:trigger ds[i]} | 0 <= i < |ds| :: Counted(SettingsOf(ds[i].lines))
    ensures
      var made := AllMade(ds);
      && ReadFile(FileText(number, title, professor, ds, SectionsText(sections, made, false))) ==
        Done(State("", None,
              Missing(professor.surname) + DeclarationsComplaints(ds) + SectionsErrors(sections, made, made, false)),
            Course(number, title, Some(professor), made, SectionsBack(sections, made, false)))
      && forall i {:trigger made[i]} | 0 <= i < |ds| ::
        Decided(NewAssignment(ds[i].name, ds[i].atype), SettingsOf(ds[i].lines), made[i])
  {
    hide Peek, ReadSections, ReadFile, DeclarationsOk, SectionsOk, NextWord, SectionsText, SectionsBack, SectionsErrors,
      Decided, Counted, DeclarationsComplaints, Begins;
    var made := AllMade(ds);
    MadeAreDecided(ds);
    var rest := SectionsText(sections, made, false);
    SectionsGoOn(sections, made, false);
    SectionsBegin(sections, made);
    var e1 := FileReadSoFar(number, title, professor, ds, rest);
    PeekTwice(State(rest, None, e1));
    assert SameNames(made, made);
    var e2 := SectionsRead(sections, made, made, false, e1, Peek(State(rest, None, e1)));
  }

  lemma FileHead(number: string, title: string, professor: Person, after: string, tail: string)
    requires IsWord(number) && IsLine(title) && PersonOk(professor) && tail == ProfessorText(professor) + after
    ensures
      var text := "COURSE " + number + " " + title + "\n" + tail;
      var s := ExpectToken(State(text, None, 0), "COURSE");
      var (s1, n) := ReadWord(s);
      && n == number && ReadName(s1) == Done(State(tail, None, 0), title)
      && SkipBlankLines(text) == Some(text)
  {
    hide ReadWord, ReadName, ExpectToken;
    var c := Course(number, title, Some(professor), [], []);
    ProfessorFresh(professor, after);
    CourseHead(c, tail);
    assert ("COURSE " + number + " " + title + "\n" + tail)[0] == 'C';
  }

  lemma MadeAreDecided(ds: seq<Declaration>)
    requires DeclarationsOk(ds)
    ensures forall i {:trigger AllMade(ds)[i]} | 0 <= i < |ds| ::
      Decided(NewAssignment(ds[i].name, ds[i].atype), SettingsOf(ds[i].lines), AllMade(ds)[i])
  {
    hide Decided, Applied, LineOk;
    forall i | 0 <= i < |ds|
      ensures Decided(NewAssignment(ds[i].name, ds[i].atype), SettingsOf(ds[i].lines), AllMade(ds)[i])
    {
      assert LinesOk(ds[i].lines) by { assert DeclarationOk(ds[i]); }
      AllNumeric(ds[i].lines);
      LastDecides(NewAssignment(ds[i].name, ds[i].atype), SettingsOf(ds[i].lines));
    }
  }

  predicate NumbersScan(ss: seq<Setting>) {
    forall i {:trigger ss[i]} | 0 <= i < |ss| :: forall k {:trigger ss[i].numbers[k]} |
      0 <= k < |ss[i].numbers| :: ScanFixed(ss[i].numbers[k].text).Some?
  }

  lemma {:induction false} AllNumeric(lines: seq<Line>)
    requires LinesOk(lines)
    ensures NumbersScan(SettingsOf(lines))
  {
    hide ScanFixed;
    if lines != [] {
      AllNumeric(lines[1..]);
      assert LineOk(lines[0]);
    }
  }

  // ----- files that are not as they should be

  /** What follows the assignments and is no section is dropped with one complaint. */
  lemma ExcessIsDropped(number: string, title: string, professor: Person, ds: seq<Declaration>, w: string, more: string)
    requires IsWord(number) && IsLine(title) && PersonOk(professor) && DeclarationsOk(ds)
    requires IsWord(w) && EndsWord(more) && w !in AFTER_ASSIGNMENT && w != "SECTION" && w != "FILE" && w[0] != '#'
    ensures forall i {:trigger ds[i]} | 0 <= i < |ds| :: Counted(SettingsOf(ds[i].lines))
    ensures ReadFile(FileText(number, title, professor, ds, " " + w + more)) ==
      Done(State(more, None, Missing(professor.surname) + DeclarationsComplaints(ds) + 1),
           Course(number, title, Some(professor), AllMade(ds), []))
  {
    hide ReadFile, FileText, NextWord, Begins, DeclarationsOk, Counted, DeclarationsComplaints, Peek, ReadSections,
      IsWord, FreshLine, IsLine, PersonOk, GoesOn, AllMade, SettingsOf, EndsWord;
    var rest := " " + w + more;
    ExcessGoesOn(w, more);
    var e := FileReadSoFar(number, title, professor, ds, rest);
    NoSections(w, more, e, AllMade(ds));
  }

  lemma ExcessGoesOn(w: string, more: string)
    requires IsWord(w) && EndsWord(more) && w !in AFTER_ASSIGNMENT && w[0] != '#'
    ensures GoesOn(" " + w + more, AFTER_ASSIGNMENT) && Begins(" " + w + more)
  {
    hide NextWord, Begins;
    KeyWord(" ", w, more);
    KeyBegins(Word(" ", w), more);
  }

  lemma NoSections(w: string, more: string, e: nat, made: seq<Assignment>)
    requires IsWord(w) && EndsWord(more) && w != "SECTION" && w != "FILE"
    ensures ReadSections(Peek(State(" " + w + more, None, e)), made) == Done(State(more, Some(w), e), [])
  {
    hide AdvanceToken, ReadName, ReadRole, ReadStudents;
    WordAhead(" ", w, more, e);
  }

  /** A score for an assignment that has not been declared is fatal. */
  lemma ScoreUndeclared(name: string, more: string, e: nat, assignments: seq<Assignment>)
    requires IsWord(name) && EndsWord(more) && forall i | 0 <= i < |assignments| :: assignments[i].name != name
    ensures ReadScores(State("   SCORE " + name + more, None, e), assignments) == Fatal
  {
    hide AdvanceToken, ReadScores, CheckToken, IsWord, IsBlank, EndsWord, TokenLength, SkipWhitespace;
    var st, after := State("   SCORE " + name + more, None, e), " " + name + more;
    ScoreLineStarts(name, more);
    KeyAhead("   ", "SCORE", after, e, st);
    WordAhead(" ", name, more, e);
    ScoreFails(st, State(after, None, e), name, assignments);
  }

  lemma ScoreFails(st: State, s0: State, name: string, assignments: seq<Assignment>)
    requires CheckToken(st, "SCORE") == (s0, true) && Peek(s0).token == Some(name)
    requires forall i | 0 <= i < |assignments| :: assignments[i].name != name
    ensures ReadScores(st, assignments) == Fatal
  {
    hide Peek, Lookup, ReadGrade, CheckToken, ExpectNewline;
  }

  lemma ScoreLineStarts(name: string, more: string)
    ensures "   SCORE " + name + more == "   " + "SCORE" + (" " + name + more)
    ensures IsBlank("   ") && IsWord("SCORE") && IsBlank(" ") && EndsWord(" " + name + more)
  {
  }

  lemma UndeclaredIsFatal(number: string, title: string, professor: Person, ds: seq<Declaration>, section: string,
      s: Student, name: string, more: string)
    requires IsWord(number) && IsLine(title) && PersonOk(professor) && DeclarationsOk(ds) && IsLine(section)
    requires StudentOk(s, []) && IsWord(name) && EndsWord(more)
    requires forall i {:trigger ds[i]} | 0 <= i < |ds| :: ds[i].name != name
    ensures ReadFile(FileText(number, title, professor, ds,
      " SECTION " + section + "\n" + (StudentLine(s, false) + ("   SCORE " + name + more)))) == Fatal
  {
    hide ReadFile, FileText, NextWord, Begins, DeclarationsOk, Counted, DeclarationsComplaints, Peek, CheckToken,
      ReadWord, ReadName, ReadRole, ReadScores, StudentLine, StudentErrors, ReadSections, IsLine, IsWord, Applied;
    var made, scores := AllMade(ds), "   SCORE " + name + more;
    var tail := StudentLine(s, false) + scores;
    var rest := " SECTION " + section + "\n" + tail;
    SectionGoesOn(section, tail);
    var e := FileReadSoFar(number, title, professor, ds, rest);
    StudentIsNext(s, scores);
    SectionHead(section, tail, e, State(rest, None, e));
    NoAssistant(tail, e);
    PeekTwice(State(tail, None, e));
    var e1 := StudentLineRead(s, [], false, scores, e, Peek(State(tail, None, e)));
    MadeAreDecided(ds);
    MadeNamed(ds, name);
    ScoreUndeclared(name, more, e1, made);
    SectionFails(section, tail, rest, e, made);
  }

  lemma MadeNamed(ds: seq<Declaration>, name: string)
    requires forall i {:trigger AllMade(ds)[i]} | 0 <= i < |ds| ::
      Decided(NewAssignment(ds[i].name, ds[i].atype), SettingsOf(ds[i].lines), AllMade(ds)[i])
    requires forall i {:trigger ds[i]} | 0 <= i < |ds| :: ds[i].name != name
    ensures forall i | 0 <= i < |ds| :: AllMade(ds)[i].name != name
  {
    hide PolicyDecided, GroupDecided, LinearDecided, ScaleDecided, WeightDecided, MaximumDecided;
    forall i | 0 <= i < |ds|
      ensures AllMade(ds)[i].name != name
    {
      assert ds[i].name != name;
    }
  }

  lemma SectionGoesOn(section: string, tail: string)
    ensures
      var text := " SECTION " + section + "\n" + tail;
      GoesOn(text, AFTER_ASSIGNMENT) && Begins(text)
  {
    hide NextWord, Begins;
    var after := " " + section + "\n" + tail;
    assert " SECTION " + section + "\n" + tail == " " + "SECTION" + after;
    KeyWord(" ", "SECTION", after);
    KeyBegins(Word(" ", "SECTION"), after);
  }

  lemma StudentIsNext(s: Student, scores: string)
    ensures
      var text := StudentLine(s, false) + scores;
      FreshLine(text) && NextWord(text) == "STUDENT"
  {
    hide StudentLine, NextWord;
    StartsWithStudent(s, false, scores, "", "");
    assert StudentLine(s, false) + scores + "" + "" == StudentLine(s, false) + scores;
  }

  lemma NoAssistant(tail: string, e: nat)
    requires FreshLine(tail) && NextWord(tail) == "STUDENT"
    ensures ReadRole(State(tail, None, e), "ASSISTANT") == Done(Peek(State(tail, None, e)), None)
  {
    hide Peek, NextWord, ReadPerson;
    NoKey(tail, e, "ASSISTANT", State(tail, None, e));
  }

  lemma SectionFails(section: string, tail: string, rest: string, e: nat, made: seq<Assignment>)
    requires
      var s := Peek(State(rest, None, e));
      var (s0, found) := CheckToken(s, "SECTION");
      s.token == Some("SECTION") && found && ReadName(s0) == Done(State(tail, None, e), section)
    requires ReadRole(State(tail, None, e), "ASSISTANT") == Done(Peek(State(tail, None, e)), None)
    requires
      var (s0, found) := CheckToken(Peek(State(tail, None, e)), "STUDENT");
      var (s1, _) := ReadWord(s0);
      var (s2, _) := ReadWord(s1);
      found && ReadName(s2).Done? && ReadScores(ReadName(s2).st, made) == Fatal
    ensures ReadSections(Peek(State(rest, None, e)), made) == Fatal
  {
    hide CheckToken, ReadWord, ReadName, ReadRole, ReadScores, AdvanceToken;
    PeekTwice(State(rest, None, e));
  }
}

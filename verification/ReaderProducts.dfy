/** Every course that the reader takes from a file can be taken apart again when it is written. */
module ReaderProducts {
  import opened Decimals
  import opened GradeText
  import opened ReaderSpec
  import opened ReadingWords
  import opened RoundTrip
  import opened RoundTripExact

  predicate TokenOk(st: State) {
    st.token.Some? ==> IsWord(st.token.value)
  }

  /** st1 comes after st: complaints are not taken back, and what is read ahead is a word. */
  predicate Follows(st: State, st1: State) {
    st1.errors >= st.errors && TokenOk(st1)
  }

  lemma {:induction false} TokenChars(s: string)
    ensures forall i | 0 <= i < TokenLength(s) :: !IsWhitespace(s[i]) && s[i] != '\n'
  {
    if TokenLength(s) > 0 {
      TokenChars(s[1..]);
      forall i | 0 <= i < TokenLength(s)
        ensures !IsWhitespace(s[i]) && s[i] != '\n'
      {
        assert i > 0 ==> s[i] == s[1..][i - 1];
      }
    }
  }

  lemma {:induction false} LineChars(s: string)
    ensures forall i | 0 <= i < LineLength(s) :: s[i] != '\n'
  {
    if LineLength(s) > 0 {
      LineChars(s[1..]);
      forall i | 0 <= i < LineLength(s)
        ensures s[i] != '\n'
      {
        assert i > 0 ==> s[i] == s[1..][i - 1];
      }
    }
  }

  lemma AdvanceFollows(st: State)
    ensures Follows(st, AdvanceToken(st))
  {
    TokenChars(SkipWhitespace(st.input));
  }

  lemma CheckFollows(st: State, key: string)
    requires TokenOk(st)
    ensures Follows(st, Peek(st)) && Follows(st, CheckToken(st, key).0)
  {
    AdvanceFollows(st);
  }

  /** No token is left on the line. */
  predicate LineEnds(st: State) {
    st.token.None? && (st.input == "" || st.input[0] == '\n')
  }

  lemma NothingBehind(s: string)
    requires TokenLength(SkipWhitespace(s)) == 0
    ensures SkipWhitespace(s) == "" || SkipWhitespace(s)[0] == '\n'
  {
  }

  /** Behind a missing word the rest of the line is missing, too. */
  lemma WordAtEnd(st: State)
    requires LineEnds(st)
    ensures ReadWord(st).1 == "" && LineEnds(ReadWord(st).0)
    ensures ReadName(st).Done? ==> ReadName(st).value == ""
  {
    assert SkipWhitespace(st.input) == st.input && TokenLength(st.input) == 0 && st.input[0..] == st.input;
    assert st.input != "" ==> LineLength(st.input) == 0;
  }

  lemma WordProduced(st: State)
    requires TokenOk(st)
    ensures
      var (s, w) := ReadWord(st);
      Follows(st, s) && (IsWord(w) || (w == "" && LineEnds(s)))
  {
    AdvanceFollows(st);
    if st.token.None? && AdvanceToken(st).token.None? { NothingBehind(st.input); }
  }

  lemma NewlineFollows(st: State)
    requires TokenOk(st)
    ensures ExpectNewline(st).Done? ==> Follows(st, ExpectNewline(st).st)
  {
  }

  lemma LineProduced(st: State)
    ensures
      var r := AdvanceEol(st);
      r.Done? ==> r.st.errors >= st.errors && r.st.token.Some? && IsLine(r.st.token.value)
  {
    LineChars(SkipWhitespace(st.input));
  }

  lemma NameProduced(st: State)
    ensures
      var r := ReadName(st);
      r.Done? ==> Follows(st, r.st) && IsLine(r.value)
  {
    LineProduced(st);
    var r := AdvanceEol(st);
    if r.Done? { NewlineFollows(Flush(r.st)); }
  }

  lemma NumberFollows(st: State)
    requires TokenOk(st)
    ensures Follows(st, TakeNumber(st).0) && Follows(st, ReadNumber(st).0) && Follows(st, TakeNumber(Peek(st)).0)
  {
    AdvanceFollows(st);
  }

  lemma RoleProduced(st: State, key: string)
    requires TokenOk(st)
    ensures
      var r := ReadRole(st, key);
      r.Done? ==> Follows(st, r.st) && (r.value.Some? ==> PersonOk(r.value.value))
  {
    hide ReadWord, ReadName;
    CheckFollows(st, key);
    var (s, found) := CheckToken(st, key);
    if found {
      WordProduced(s);
      NameProduced(ReadWord(s).0);
      if ReadWord(s).1 == "" { WordAtEnd(ReadWord(s).0); }
    }
  }

  // ----- assignments

  lemma {:induction false} NormFollows(st: State, a: Assignment, found: nat)
    requires TokenOk(st)
    ensures
      var (s, b, _) := ReadNormWords(st, a, found);
      Follows(st, s) && b.name == a.name && b.atype == a.atype
    decreases Size(st)
  {
    hide CheckToken, Peek, ReadNumber, TokenOk;
    CheckFollows(st, "RAW");
    var (s1, raw) := CheckToken(st, "RAW");
    CheckFollows(s1, "STDLINEAR");
    var (s2, standard) := CheckToken(s1, "STDLINEAR");
    CheckFollows(s2, "GENLINEAR");
    var (s3, general) := CheckToken(s2, "GENLINEAR");
    NumberFollows(s3);
    var (s, mean) := ReadNumber(s3);
    NumberFollows(s);
    var (t, stddev) := ReadNumber(s);
    CheckFollows(s3, "QUANTILE");
    var (s4, quantile) := CheckToken(s3, "QUANTILE");
    CheckFollows(s4, "SCALE");
    var (s5, scale) := CheckToken(s4, "SCALE");
    NumberFollows(s5);
    var (u, v) := ReadNumber(s5);
    CheckFollows(s5, "BYCLASS");
    var (s6, byclass) := CheckToken(s5, "BYCLASS");
    CheckFollows(s6, "BYSECTION");
    var (s7, bysection) := CheckToken(s6, "BYSECTION");
    if raw { NormFollows(s1, WithPolicy(a, Policy.RAW), found + 1); }
    else if standard { NormFollows(s2, WithPolicy(a, Policy.LINEAR(0, MILLION)), found + 1); }
    else if general {
      NormFollows(t, WithPolicy(a, Policy.LINEAR(GetOr(mean, 0), GetOr(stddev, MILLION))), found + 1);
    }
    else if quantile { NormFollows(s4, WithPolicy(a, Policy.QUANTILE), found + 1); }
    else if scale { NormFollows(u, WithPolicy(a, Policy.SCALE(GetOr(v, 0))), found + 1); }
    else if byclass { NormFollows(s6, a.(group := BYCLASS), found + 1); }
    else if bysection { NormFollows(s7, a.(group := BYSECTION), found + 1); }
  }

  /** One line of an assignment. */
  lemma LineFollows(st: State, a: Assignment, s: State, b: Assignment)
    requires TokenOk(st)
    requires (s, b) == ReadWeight(st, a) || (s, b) == ReadNorm(st, a) || (s, b) == ReadMax(st, a)
    ensures Follows(st, s) && b.name == a.name && b.atype == a.atype
    ensures ExpectNewline(s).Done? ==> Follows(st, ExpectNewline(s).st)
  {
    hide ReadNormWords, ReadNumber;
    NumberFollows(st);
    NormFollows(st, a, 0);
    NewlineFollows(s);
  }

  lemma {:induction false} DetailsFollow(st: State, a: Assignment)
    requires TokenOk(st)
    ensures
      var r := ReadDetails(st, a);
      r.Done? ==> Follows(st, r.st) && r.value.name == a.name && r.value.atype == a.atype
    decreases Size(st)
  {
    hide CheckToken, ReadWeight, ReadNorm, ReadMax, ExpectNewline, TokenOk;
    CheckFollows(st, "WEIGHT");
    var (s1, weight) := CheckToken(st, "WEIGHT");
    CheckFollows(s1, "NORMALIZE");
    var (s2, norm) := CheckToken(s1, "NORMALIZE");
    CheckFollows(s2, "MAXIMUM");
    var (s3, max) := CheckToken(s2, "MAXIMUM");
    if weight {
      DetailFollows(s1, a, ReadWeight(s1, a).0, ReadWeight(s1, a).1);
    } else if norm {
      DetailFollows(s2, a, ReadNorm(s2, a).0, ReadNorm(s2, a).1);
    } else if max {
      DetailFollows(s3, a, ReadMax(s3, a).0, ReadMax(s3, a).1);
    }
  }

  lemma {:induction false} DetailFollows(st: State, a: Assignment, s: State, b: Assignment)
    requires TokenOk(st) && Size(s) <= Size(st)
    requires (s, b) == ReadWeight(st, a) || (s, b) == ReadNorm(st, a) || (s, b) == ReadMax(st, a)
    ensures
      var n := ExpectNewline(s);
      n.Done? ==>
        var r := ReadDetails(n.st, b);
        r.Done? ==> Follows(st, r.st) && r.value.name == a.name && r.value.atype == a.atype
    decreases Size(st), 1
  {
    hide CheckToken, ReadWeight, ReadNorm, ReadMax, ReadDetails, TokenOk;
    LineFollows(st, a, s, b);
    var n := ExpectNewline(s);
    if n.Done? { DetailsFollow(n.st, b); }
  }

  lemma {:induction false} AssignmentsProduced(st: State)
    requires TokenOk(st)
    ensures
      var r := ReadAssignments(st);
      r.Done? ==> Follows(st, r.st) && AssignmentsOk(r.value)
    decreases Size(st)
  {
    hide CheckToken, ReadWord, ReadDetails, ExpectNewline, TokenOk, NewAssignment;
    CheckFollows(st, "ASSIGNMENT");
    var (s0, found) := CheckToken(st, "ASSIGNMENT");
    if found {
      WordProduced(s0);
      var (s1, name) := ReadWord(s0);
      WordProduced(s1);
      var (s2, atype) := ReadWord(s1);
      if name == "" { WordAtEnd(s1); }
      NewlineFollows(s2);
      var n := ExpectNewline(s2);
      if n.Done? {
        NamesOfNew(name, atype);
        DetailsFollow(n.st, NewAssignment(name, atype));
        var d := ReadDetails(n.st, NewAssignment(name, atype));
        if d.Done? { AssignmentsProduced(d.st); }
      }
    }
  }

  lemma NamesOfNew(name: string, atype: string)
    ensures NewAssignment(name, atype).name == name && NewAssignment(name, atype).atype == atype
  {
  }

  // ----- scores, students and sections

  lemma CodeProduced(st: State, subst: Subst)
    ensures
      var r := ReadCode(st, subst);
      r.Done? ==> Follows(st, r.st) && GradeOk(r.value)
  {
    LineProduced(st);
  }

  lemma GradeProduced(st: State, policy: Policy)
    requires TokenOk(st)
    ensures
      var r := ReadGrade(st, policy);
      r.Done? ==> Follows(st, r.st) && GradeOk(r.value)
  {
    hide CheckToken, Peek, TakeNumber, ReadCode, TokenOk;
    CheckFollows(st, "USERAW");
    var (s1, raw) := CheckToken(st, "USERAW");
    CheckFollows(s1, "USENORM");
    var (s2, norm) := CheckToken(s1, "USENORM");
    CheckFollows(s2, "USELIKEAVG");
    var (s3, like) := CheckToken(s2, "USELIKEAVG");
    CheckFollows(s3, "USECLASSAVG");
    var (s4, average) := CheckToken(s3, "USECLASSAVG");
    NumberFollows(s1);
    NumberFollows(s2);
    NumberFollows(s4);
    var (u, v) := TakeNumber(Peek(s1));
    CodeProduced(u, USERAW(GetOr(v, 0)));
    var (x, y) := TakeNumber(Peek(s2));
    CodeProduced(match y case Some(n) => CheckNorm(x, n, policy) case None => x, USENORM(GetOr(y, 0)));
    CodeProduced(s3, USELIKEAVG);
    CodeProduced(s4, USECLASSAVG);
  }

  lemma {:induction false} ScoresProduced(st: State, assignments: seq<Assignment>)
    requires TokenOk(st)
    ensures
      var r := ReadScores(st, assignments);
      r.Done? ==> Follows(st, r.st) && ScoresOk(r.value, assignments)
    decreases Size(st)
  {
    hide CheckToken, ReadGrade, ExpectNewline, Lookup, TokenOk, GradeOk, AdvanceToken;
    CheckFollows(st, "SCORE");
    var (s0, found) := CheckToken(st, "SCORE");
    if found {
      CheckFollows(s0, "");
      var s1 := Peek(s0);
      if s1.token.Some? {
        var k := Lookup(assignments, s1.token.value);
        if k < |assignments| {
          FlushedOk(s1);
          TokenIsWord(s1);
          GradeProduced(Flush(s1), PolicyOf(assignments[k]));
          var g := ReadGrade(Flush(s1), PolicyOf(assignments[k]));
          if g.Done? {
            NewlineFollows(g.st);
            var n := ExpectNewline(g.st);
            if n.Done? { ScoresProduced(n.st, assignments); }
          }
        }
      }
    }
  }

  lemma TokenIsWord(st: State)
    requires TokenOk(st) && st.token.Some?
    ensures IsWord(st.token.value)
  {
  }

  lemma FlushedOk(st: State)
    ensures TokenOk(Flush(st))
  {
  }

  lemma {:induction false} RosterProduced(st: State, assignments: seq<Assignment>)
    requires TokenOk(st)
    ensures
      var r := ReadStudents(st, assignments);
      r.Done? ==> Follows(st, r.st) && RosterOk(r.value, assignments)
    decreases Size(st)
  {
    hide CheckToken, ReadWord, ReadName, ReadScores, TokenOk, ScoresOk;
    CheckFollows(st, "STUDENT");
    var (s0, found) := CheckToken(st, "STUDENT");
    if found {
      WordProduced(s0);
      var (s1, id) := ReadWord(s0);
      WordProduced(s1);
      var (s2, surname) := ReadWord(s1);
      NameProduced(s2);
      var n := ReadName(s2);
      if id == "" { WordAtEnd(s1); }
      if surname == "" { WordAtEnd(s2); }
      if n.Done? {
        ScoresProduced(n.st, assignments);
        var r := ReadScores(n.st, assignments);
        if r.Done? { RosterProduced(r.st, assignments); }
      }
    }
  }

  lemma {:induction false} SectionsProduced(st: State, assignments: seq<Assignment>)
    requires TokenOk(st)
    ensures
      var r := ReadSections(st, assignments);
      r.Done? ==> Follows(st, r.st) && SectionsOk(r.value, assignments)
    decreases Size(st)
  {
    hide CheckToken, Peek, ReadName, ReadRole, ReadStudents, TokenOk, RosterOk;
    CheckFollows(st, "SECTION");
    var s := Peek(st);
    if s.token.Some? && s.token != Some("FILE") {
      CheckFollows(s, "SECTION");
      var (s0, found) := CheckToken(s, "SECTION");
      if found {
        NameProduced(s0);
        var n := ReadName(s0);
        if n.Done? {
          RoleProduced(n.st, "ASSISTANT");
          var a := ReadRole(n.st, "ASSISTANT");
          if a.Done? {
            RosterProduced(a.st, assignments);
            var r := ReadStudents(a.st, assignments);
            if r.Done? { SectionsProduced(r.st, assignments); }
          }
        }
      }
    }
  }

  lemma CourseProduced(st: State)
    requires TokenOk(st)
    ensures
      var r := ReadCourse(st);
      r.Done? ==> Follows(st, r.st) && CourseOk(r.value)
  {
    hide CheckToken, ReadWord, ReadName, ReadRole, ReadAssignments, ReadSections, TokenOk, SectionsOk, AssignmentsOk;
    CheckFollows(st, "COURSE");
    var s0 := ExpectToken(st, "COURSE");
    assert Follows(st, s0) by { ComplaintFollows(CheckToken(st, "COURSE").0); }
    WordProduced(s0);
    var s1 := ReadWord(s0).0;
    NameProduced(s1);
    if ReadWord(s0).1 == "" { WordAtEnd(s1); }
    var n := ReadName(s1);
    if n.Done? {
      RoleProduced(n.st, "PROFESSOR");
      var p := ReadRole(n.st, "PROFESSOR");
      if p.Done? {
        AssignmentsProduced(p.st);
        var a := ReadAssignments(p.st);
        if a.Done? { SectionsProduced(a.st, a.value); }
      }
    }
  }

  lemma ComplaintFollows(st: State)
    requires TokenOk(st)
    ensures Follows(st, Complain(st))
  {
  }

  /** Every file that is read to its end gives a course whose text can be taken apart, complaints or not. */
  lemma FileProduced(text: string)
    ensures
      var r := ReadFile(text);
      r.Done? ==> CourseOk(r.value)
  {
    hide ReadCourse, CourseOk;
    var g := GobbleBlankLines(State(text, None, 0));
    if g.Done? {
      CourseProduced(g.st);
    }
  }

  /** Reading what is written for what was read: for every file whose course has a professor, the course comes
      back unchanged exactly when it is faithful, and then without a complaint exactly when no word is missing
      in it and every substituted normalized score is possible. */
  lemma ReadWriteRead(text: string)
    ensures
      var r := ReadFile(text);
      r.Done? && r.value.professor.Some? ==>
        && CourseOk(r.value) && Declared(r.value.sections, r.value.assignments)
        && var again := ReadFile(CourseText(r.value, false));
        && again.Done? && (again.value == r.value <==> Faithful(r.value))
        && (Faithful(r.value) ==> (again.st.errors == 0 <==> InRange(r.value) && Complete(r.value)))
  {
    hide ReadFile, CourseText;
    FileProduced(text);
    var r := ReadFile(text);
    if r.Done? && r.value.professor.Some? {
      RoundTripExactly(r.value);
      if Faithful(r.value) { SilentExactly(r.value); }
    }
  }
}

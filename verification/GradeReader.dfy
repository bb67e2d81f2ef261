/** The grade database reader: a token buffer over the input, and recursive descent. */
module GradeReader {
  import opened Decimals
  import opened GradeText
  import S = ReaderSpec

  lemma OneMore(s: string, k: nat)
    requires k < |s|
    ensures s[k..][1..] == s[k + 1..] && s[..k] + [s[k..][0]] == s[..k + 1]
  {
  }

  class Reader {
    var input: string
    var token: Option<string>
    var errors: nat

    constructor (text: string)
      ensures St() == S.State(text, None, 0)
    {
      input, token, errors := text, None, 0;
    }

    ghost function St(): S.State
      reads this
    {
      S.State(input, token, errors)
    }

    /** The outcome of a step that gives no value. */
    ghost predicate Came(r: S.Step<()>, fatal: bool)
      reads this
    {
      fatal == r.Fatal? && (!fatal ==> St() == r.st)
    }

    // ----- tokens

    method Error()
      modifies this
      ensures St() == S.Complain(old(St()))
    {
      errors := errors + 1;
    }

    method GobbleWhitespace()
      modifies this
      ensures St() == S.GobbleWhitespace(old(St()))
    {
      if token.Some? {
        return;
      }
      while input != "" && S.IsWhitespace(input[0])
        invariant token == old(token) && errors == old(errors)
        invariant S.SkipWhitespace(input) == S.SkipWhitespace(old(input))
        decreases |input|
      {
        input := input[1..];
      }
    }

    /** Drops the rest of the line and its end; at the end of the file that is fatal. */
    method SkipLine() returns (fatal: bool)
      modifies this`input
      ensures fatal <==> S.LineLength(old(input)) == |old(input)|
      ensures !fatal ==> input == old(input)[S.LineLength(old(input)) + 1..]
    {
      ghost var n := 0;
      while input != "" && input[0] != '\n'
        invariant 0 <= n <= |old(input)| && input == old(input)[n..]
        invariant S.LineLength(old(input)) == n + S.LineLength(input)
        decreases |input|
      {
        input := input[1..];
        n := n + 1;
      }
      fatal := input == "";
      if !fatal {
        input := input[1..];
      }
    }

    method GobbleBlankLines() returns (fatal: bool)
      modifies this
      ensures Came(S.GobbleBlankLines(old(St())), fatal)
    {
      if token.Some? {
        return false;
      }
      while true
        invariant token == None && errors == old(errors) && S.SkipBlankLines(input) == S.SkipBlankLines(old(input))
        decreases |input|
      {
        if input != "" && input[0] == '#' {
          fatal := SkipLine();
          if fatal {
            return;
          }
        } else if input != "" && input[0] == '\n' {
          input := input[1..];
          GobbleWhitespace();
        } else {
          return false;
        }
      }
    }

    method AdvanceToken()
      modifies this
      ensures St() == S.AdvanceToken(old(St()))
    {
      if token.Some? {
        Error();
      }
      token := None;
      GobbleWhitespace();
      ghost var s := input;
      var buf := "";
      while input != "" && !S.IsWhitespace(input[0]) && input[0] != '\n'
        invariant token == None && errors == old(errors) + if old(token).Some? then 1 else 0
        invariant |buf| <= |s| && buf == s[..|buf|] && input == s[|buf|..]
        invariant S.TokenLength(s) == |buf| + S.TokenLength(input)
        decreases |input|
      {
        OneMore(s, |buf|);
        buf := buf + [input[0]];
        input := input[1..];
      }
      if buf != "" {
        token := Some(buf);
      }
    }

    method AdvanceEol() returns (fatal: bool)
      modifies this
      ensures Came(S.AdvanceEol(old(St())), fatal)
    {
      if token.Some? {
        Error();
      }
      token := None;
      GobbleWhitespace();
      ghost var s := input;
      var buf := "";
      while input != "" && input[0] != '\n'
        invariant token == None && errors == old(errors) + if old(token).Some? then 1 else 0
        invariant |buf| <= |s| && buf == s[..|buf|] && input == s[|buf|..]
        invariant S.LineLength(s) == |buf| + S.LineLength(input)
        decreases |input|
      {
        OneMore(s, |buf|);
        buf := buf + [input[0]];
        input := input[1..];
      }
      if input == "" {
        return true;
      }
      token := Some(buf);
      fatal := false;
    }

    method CheckToken(key: string) returns (found: bool)
      modifies this
      ensures (St(), found) == S.CheckToken(old(St()), key)
    {
      if token.None? {
        AdvanceToken();
      }
      found := token == Some(key);
      if found {
        token := None;
      }
    }

    method ExpectToken(key: string)
      modifies this
      ensures St() == S.ExpectToken(old(St()), key)
    {
      var found := CheckToken(key);
      if !found {
        Error();
      }
    }

    method ExpectNewline() returns (fatal: bool)
      modifies this
      ensures Came(S.ExpectNewline(old(St())), fatal)
    {
      GobbleWhitespace();
      if token.None? {
        if input == "" {
          return true;
        }
        if input[0] == '\n' {
          input := input[1..];
          fatal := GobbleBlankLines();
          return;
        }
      }
      Error();
      token := None;
      fatal := SkipLine();
    }

    // ----- words, names and numbers

    /** readid, readsurname and readatype. */
    method ReadWord() returns (word: string)
      modifies this
      ensures (St(), word) == S.ReadWord(old(St()))
    {
      if token.None? {
        AdvanceToken();
      }
      match token {
        case Some(w) => word := w;
        case None =>
          Error();
          word := "";
      }
      token := None;
    }

    method ReadName() returns (fatal: bool, name: string)
      modifies this
      ensures var r := S.ReadName(old(St())); fatal == r.Fatal? && (!fatal ==> St() == r.st && name == r.value)
    {
      name := "";
      fatal := AdvanceEol();
      if fatal {
        return;
      }
      name := token.value;
      token := None;
      fatal := ExpectNewline();
    }

    /** A number from the token, which is left in place if it is none. */
    method TakeNumber() returns (v: Option<int>)
      modifies this
      ensures (St(), v) == S.TakeNumber(old(St()))
    {
      v := None;
      match token {
        case Some(t) =>
          v := ScanFixed(t);
          if v.Some? {
            token := None;
          } else {
            Error();
          }
        case None => Error();
      }
    }

    method ReadNumber() returns (v: Option<int>)
      modifies this
      ensures (St(), v) == S.ReadNumber(old(St()))
    {
      AdvanceToken();
      v := TakeNumber();
    }

    /** readprofessor and readassistant. */
    method ReadRole(key: string) returns (fatal: bool, person: Option<Person>)
      modifies this
      ensures var r := S.ReadRole(old(St()), key); fatal == r.Fatal? && (!fatal ==> St() == r.st && person == r.value)
    {
      person := None;
      var found := CheckToken(key);
      if !found {
        return false, None;
      }
      var surname := ReadWord();
      var name;
      fatal, name := ReadName();
      person := Some(Person(surname, name));
    }

    // ----- assignments

    method ReadNorm(a: Assignment) returns (b: Assignment)
      modifies this
      ensures (St(), b) == S.ReadNorm(old(St()), a)
    {
      hide S.CheckToken, S.ReadNumber;
      b := a;
      var found := 0;
      while true
        invariant S.ReadNormWords(St(), b, found) == S.ReadNormWords(old(St()), a, 0)
        decreases S.Size(St())
      {
        var given := CheckToken("RAW");
        if given {
          b, found := WithPolicy(b, Policy.RAW), found + 1;
          continue;
        }
        given := CheckToken("STDLINEAR");
        if given {
          b, found := WithPolicy(b, Policy.LINEAR(0, MILLION)), found + 1;
          continue;
        }
        given := CheckToken("GENLINEAR");
        if given {
          var mean := ReadNumber();
          var stddev := ReadNumber();
          b := WithPolicy(b, Policy.LINEAR(S.GetOr(mean, 0), S.GetOr(stddev, MILLION)));
          found := found + 1;
          continue;
        }
        given := CheckToken("QUANTILE");
        if given {
          b, found := WithPolicy(b, Policy.QUANTILE), found + 1;
          continue;
        }
        given := CheckToken("SCALE");
        if given {
          var scale := ReadNumber();
          b, found := WithPolicy(b, Policy.SCALE(S.GetOr(scale, 0))), found + 1;
          continue;
        }
        given := CheckToken("BYCLASS");
        if given {
          b, found := b.(group := BYCLASS), found + 1;
          continue;
        }
        given := CheckToken("BYSECTION");
        if given {
          b, found := b.(group := BYSECTION), found + 1;
          continue;
        }
        break;
      }
      if found == 0 {
        b := WithPolicy(b, Policy.RAW).(group := BYCLASS);
        Error();
      }
    }

    method ReadWeight(a: Assignment) returns (b: Assignment)
      modifies this
      ensures (St(), b) == S.ReadWeight(old(St()), a)
    {
      var w := ReadNumber();
      match w {
        case Some(v) => b := a.(weighted := true, weight := v);
        case None => b := a.(weighted := false);
      }
    }

    method ReadMax(a: Assignment) returns (b: Assignment)
      modifies this
      ensures (St(), b) == S.ReadMax(old(St()), a)
    {
      var m := ReadNumber();
      b := a.(max := S.GetOr(m, a.max));
    }

    /** The lines of one assignment. */
    method ReadDetails(a: Assignment) returns (fatal: bool, b: Assignment)
      modifies this
      ensures var r := S.ReadDetails(old(St()), a); fatal == r.Fatal? && (!fatal ==> St() == r.st && b == r.value)
    {
      hide S.CheckToken, S.ReadWeight, S.ReadNorm, S.ReadMax, S.ExpectNewline;
      b := a;
      while true
        invariant S.ReadDetails(St(), b) == S.ReadDetails(old(St()), a)
        decreases S.Size(St())
      {
        var given := CheckToken("WEIGHT");
        if given {
          b := ReadWeight(b);
          fatal := ExpectNewline();
          if fatal {
            return;
          }
          continue;
        }
        given := CheckToken("NORMALIZE");
        if given {
          b := ReadNorm(b);
          fatal := ExpectNewline();
          if fatal {
            return;
          }
          continue;
        }
        given := CheckToken("MAXIMUM");
        if given {
          b := ReadMax(b);
          fatal := ExpectNewline();
          if fatal {
            return;
          }
          continue;
        }
        return false, b;
      }
    }

    method ReadAssignments() returns (fatal: bool, assignments: seq<Assignment>)
      modifies this
      ensures
        var r := S.ReadAssignments(old(St()));
        fatal == r.Fatal? && (!fatal ==> St() == r.st && assignments == r.value)
      decreases S.Size(St())
    {
      hide S.CheckToken, S.ReadWord, S.ReadDetails, S.ExpectNewline, S.NewAssignment;
      assignments := [];
      fatal := false;
      var found := CheckToken("ASSIGNMENT");
      if !found {
        return;
      }
      var name := ReadWord();
      var atype := ReadWord();
      fatal := ExpectNewline();
      if fatal {
        return;
      }
      var a, more;
      fatal, a := ReadDetails(S.NewAssignment(name, atype));
      if fatal {
        return;
      }
      fatal, more := ReadAssignments();
      assignments := [a] + more;
    }

    // ----- scores

    method ReadGrade(policy: Policy) returns (fatal: bool, grade: Grade)
      modifies this
      ensures
        var r := S.ReadGrade(old(St()), policy);
        fatal == r.Fatal? && (!fatal ==> St() == r.st && grade == r.value)
    {
      hide S.CheckToken, S.TakeNumber, S.ReadCode, S.AdvanceToken;
      var raw := CheckToken("USERAW");
      if raw {
        var v := PeekNumber();
        fatal, grade := ReadCode(USERAW(S.GetOr(v, 0)));
        return;
      }
      var norm := CheckToken("USENORM");
      if norm {
        var v := PeekNumber();
        if v.Some? {
          CheckNorm(v.value, policy);
        }
        fatal, grade := ReadCode(USENORM(S.GetOr(v, 0)));
        return;
      }
      var like := CheckToken("USELIKEAVG");
      if like {
        fatal, grade := ReadCode(USELIKEAVG);
        return;
      }
      var average := CheckToken("USECLASSAVG");
      if average {
        fatal, grade := ReadCode(USECLASSAVG);
        return;
      }
      var v := PeekNumber();
      fatal, grade := false, Valid(S.GetOr(v, 0));
    }

    method PeekNumber() returns (v: Option<int>)
      modifies this
      ensures (St(), v) == S.TakeNumber(S.Peek(old(St())))
    {
      if token.None? {
        AdvanceToken();
      }
      v := TakeNumber();
    }

    method CheckNorm(norm: int, policy: Policy)
      modifies this
      ensures St() == S.CheckNorm(old(St()), norm, policy)
    {
      match policy {
        case QUANTILE =>
          if norm < 0 || norm > 100 * MILLION {
            Error();
          }
        case SCALE(scale) =>
          if norm < 0 || norm > scale {
            Error();
          }
        case _ =>
      }
    }

    method ReadCode(subst: Subst) returns (fatal: bool, grade: Grade)
      modifies this
      ensures var r := S.ReadCode(old(St()), subst); fatal == r.Fatal? && (!fatal ==> St() == r.st && grade == r.value)
    {
      grade := Valid(0);
      fatal := AdvanceEol();
      if fatal {
        return;
      }
      grade := Invalid(subst, token.value);
      token := None;
    }

    /** The first assignment of the given name. */
    method FindAssignment(assignments: seq<Assignment>, name: string) returns (k: nat)
      ensures k == S.Lookup(assignments, name)
    {
      k := 0;
      while k < |assignments|
        invariant 0 <= k <= |assignments| && S.Lookup(assignments, name) == k + S.Lookup(assignments[k..], name)
      {
        if assignments[k].name == name {
          return;
        }
        assert assignments[k..][1..] == assignments[k + 1..];
        k := k + 1;
      }
    }

    method ReadScores(assignments: seq<Assignment>) returns (fatal: bool, scores: seq<Score>)
      modifies this
      ensures
        var r := S.ReadScores(old(St()), assignments);
        fatal == r.Fatal? && (!fatal ==> St() == r.st && scores == r.value)
      decreases S.Size(St())
    {
      hide S.CheckToken, S.ReadGrade, S.ExpectNewline, S.Lookup, S.AdvanceToken;
      scores := [];
      fatal := false;
      var found := CheckToken("SCORE");
      if !found {
        return;
      }
      if token.None? {
        AdvanceToken();
      }
      if token.None? {
        return true, [];
      }
      var k := FindAssignment(assignments, token.value);
      if k == |assignments| {
        return true, [];
      }
      token := None;
      var grade, more;
      fatal, grade := ReadGrade(PolicyOf(assignments[k]));
      if fatal {
        return;
      }
      fatal := ExpectNewline();
      if fatal {
        return;
      }
      fatal, more := ReadScores(assignments);
      scores := [Score(k, grade)] + more;
    }

    // ----- students, sections and the course

    method ReadStudents(assignments: seq<Assignment>) returns (fatal: bool, roster: seq<Student>)
      modifies this
      ensures
        var r := S.ReadStudents(old(St()), assignments);
        fatal == r.Fatal? && (!fatal ==> St() == r.st && roster == r.value)
      decreases S.Size(St())
    {
      hide S.CheckToken, S.ReadWord, S.ReadName, S.ReadScores;
      roster := [];
      fatal := false;
      var found := CheckToken("STUDENT");
      if !found {
        return;
      }
      var id := ReadWord();
      var surname := ReadWord();
      var name, scores, more;
      fatal, name := ReadName();
      if fatal {
        return;
      }
      fatal, scores := ReadScores(assignments);
      if fatal {
        return;
      }
      fatal, more := ReadStudents(assignments);
      roster := [Student(id, surname, name, scores)] + more;
    }

    /** There is no other file to include: opening one is fatal. */
    method ReadSections(assignments: seq<Assignment>) returns (fatal: bool, sections: seq<Section>)
      modifies this
      ensures
        var r := S.ReadSections(old(St()), assignments);
        fatal == r.Fatal? && (!fatal ==> St() == r.st && sections == r.value)
      decreases S.Size(St())
    {
      hide S.CheckToken, S.ReadName, S.ReadRole, S.ReadStudents, S.AdvanceToken;
      sections := [];
      fatal := false;
      if token.None? {
        AdvanceToken();
        if token.None? {
          return;
        }
      }
      if token == Some("FILE") {
        return true, [];
      }
      var found := CheckToken("SECTION");
      if !found {
        return;
      }
      var name, assistant, roster, more;
      fatal, name := ReadName();
      if fatal {
        return;
      }
      fatal, assistant := ReadRole("ASSISTANT");
      if fatal {
        return;
      }
      fatal, roster := ReadStudents(assignments);
      if fatal {
        return;
      }
      fatal, more := ReadSections(assignments);
      sections := [Section(name, assistant, roster)] + more;
    }

    method ReadCourse() returns (fatal: bool, c: Course)
      modifies this
      ensures var r := S.ReadCourse(old(St())); fatal == r.Fatal? && (!fatal ==> St() == r.st && c == r.value)
    {
      hide S.ExpectToken, S.ReadWord, S.ReadName, S.ReadRole, S.ReadAssignments, S.ReadSections;
      c := Course("", "", None, [], []);
      ExpectToken("COURSE");
      var number := ReadWord();
      var title, professor, assignments, sections;
      fatal, title := ReadName();
      if fatal {
        return;
      }
      fatal, professor := ReadRole("PROFESSOR");
      if fatal {
        return;
      }
      fatal, assignments := ReadAssignments();
      if fatal {
        return;
      }
      fatal, sections := ReadSections(assignments);
      c := Course(number, title, professor, assignments, sections);
    }

    method ExpectEof()
      modifies this
      ensures St() == S.ExpectEof(old(St()))
    {
      if token.Some? || input != "" {
        Error();
        token := None;
      }
    }
  }

  /** readfile. */
  method ReadFile(text: string) returns (fatal: bool, c: Course, errors: nat)
    ensures var r := S.ReadFile(text); fatal == r.Fatal? && (!fatal ==> c == r.value && errors == r.st.errors)
  {
    c, errors := Course("", "", None, [], []), 0;
    var reader := new Reader(text);
    fatal := reader.GobbleBlankLines();
    if fatal {
      return;
    }
    fatal, c := reader.ReadCourse();
    if fatal {
      return;
    }
    fatal := reader.GobbleBlankLines();
    if fatal {
      return;
    }
    reader.ExpectEof();
    errors := reader.errors;
  }
}

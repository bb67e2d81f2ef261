/** What the grade database reader does, as functions on the input that is left, the token that has
    been read ahead and the number of errors reported. */
module ReaderSpec {
  import opened Decimals
  import opened GradeText

  datatype State = State(input: string, token: Option<string>, errors: nat)

  /** A step of the reader; a fatal error ends the program. */
  datatype Step<+T> = Fatal | Done(st: State, value: T) {
    predicate IsFailure() {
      Fatal?
    }
    function PropagateFailure<U>(): Step<U>
      requires IsFailure()
    {
      Fatal
    }
    function Extract(): (State, T)
      requires !IsFailure()
    {
      (st, value)
    }
  }

  /** What is left to read. */
  function Size(st: State): nat {
    |st.input| + match st.token case None => 0 case Some(t) => |t|
  }

  ghost predicate Shrinks<T>(st: State, r: Step<T>) {
    r.Done? ==> Size(r.st) <= Size(st)
  }

  function Complain(st: State): State {
    st.(errors := st.errors + 1)
  }

  // ----- characters

  predicate IsWhitespace(c: char) {
    c == ',' || c == ':' || c == ' ' || c == '\t' || c == '\U{000c}'
  }

  function SkipWhitespace(s: string): (r: string)
    ensures |r| <= |s| && (r != "" ==> !IsWhitespace(r[0]))
  {
    if s != "" && IsWhitespace(s[0]) then SkipWhitespace(s[1..]) else s
  }

  /** The length of the token that s starts with. */
  function TokenLength(s: string): (n: nat)
    ensures n <= |s|
  {
    if s == "" || IsWhitespace(s[0]) || s[0] == '\n' then 0 else 1 + TokenLength(s[1..])
  }

  /** The length of the line that s starts with; |s| if it is not ended. */
  function LineLength(s: string): (n: nat)
    ensures n <= |s| && (n < |s| ==> s[n] == '\n')
  {
    if s == "" || s[0] == '\n' then 0 else 1 + LineLength(s[1..])
  }

  /** gobbleblanklines: the input behind comment lines and blank lines; a comment must be ended. */
  function SkipBlankLines(s: string): (r: Option<string>)
    ensures r.Some? ==> |r.value| <= |s|
    decreases |s|
  {
    if s != "" && s[0] == '#' then
      var n := LineLength(s);
      if n == |s| then None else SkipBlankLines(s[n + 1..])
    else if s != "" && s[0] == '\n' then SkipBlankLines(SkipWhitespace(s[1..]))
    else Some(s)
  }

  // ----- tokens

  function GobbleWhitespace(st: State): State {
    if st.token.Some? then st else st.(input := SkipWhitespace(st.input))
  }

  function AdvanceToken(st: State): (r: State)
    ensures Size(r) <= Size(st)
  {
    var s := SkipWhitespace(st.input);
    var n := TokenLength(s);
    State(s[n..], if n == 0 then None else Some(s[..n]), st.errors + if st.token.Some? then 1 else 0)
  }

  /** A token is read ahead unless there is one. */
  function Peek(st: State): (r: State)
    ensures Size(r) <= Size(st)
  {
    if st.token.None? then AdvanceToken(st) else st
  }

  function Flush(st: State): State {
    st.(token := None)
  }

  /** The rest of the line, which must be ended; an unread token is lost. */
  function AdvanceEol(st: State): (r: Step<()>)
    ensures Shrinks(st, r) && (r.Done? ==> r.st.token.Some?)
  {
    var s := SkipWhitespace(st.input);
    var n := LineLength(s);
    if n == |s| then Fatal
    else Done(State(s[n..], Some(s[..n]), st.errors + if st.token.Some? then 1 else 0), ())
  }

  function CheckToken(st: State, key: string): (r: (State, bool))
    ensures Size(r.0) <= Size(st) && (r.1 && key != "" ==> Size(r.0) < Size(st))
  {
    var s := Peek(st);
    if s.token == Some(key) then (Flush(s), true) else (s, false)
  }

  function ExpectToken(st: State, key: string): (r: State)
    ensures Size(r) <= Size(st)
  {
    var (s, found) := CheckToken(st, key);
    if found then s else Complain(s)
  }

  /** The line must be at its end; what is left of it is skipped. */
  function ExpectNewline(st: State): (r: Step<()>)
    ensures Shrinks(st, r)
  {
    var s := GobbleWhitespace(st);
    if s.token.None? && s.input == "" then Fatal
    else if s.token.None? && s.input[0] == '\n' then
      match SkipBlankLines(s.input[1..])
      case None => Fatal
      case Some(rest) => Done(s.(input := rest), ())
    else
      var n := LineLength(s.input);
      if n == |s.input| then Fatal else Done(State(s.input[n + 1..], None, s.errors + 1), ())
  }

  // ----- words, names and numbers

  /** readid, readsurname and readatype. */
  function ReadWord(st: State): (r: (State, string))
    ensures Size(r.0) <= Size(st)
  {
    var s := Peek(st);
    match s.token
    case Some(word) => (Flush(s), word)
    case None => (Complain(s), "")
  }

  function ReadName(st: State): (r: Step<string>)
    ensures Shrinks(st, r)
  {
    var (s, _) :- AdvanceEol(st);
    var (s1, _) :- ExpectNewline(Flush(s));
    Done(s1, s.token.value)
  }

  /** The number in the token, if there is one; otherwise the token stays. */
  function TakeNumber(s: State): (r: (State, Option<int>))
    ensures Size(r.0) <= Size(s)
  {
    match s.token
    case None => (Complain(s), None)
    case Some(t) =>
      match ScanFixed(t)
      case None => (Complain(s), None)
      case Some(v) => (Flush(s), Some(v))
  }

  /** A number in the next token, whether or not a token has been read ahead. */
  function ReadNumber(st: State): (r: (State, Option<int>))
    ensures Size(r.0) <= Size(st)
  {
    TakeNumber(AdvanceToken(st))
  }

  function ReadPerson(st: State): (r: Step<Person>)
    ensures Shrinks(st, r)
  {
    var (s, surname) := ReadWord(st);
    var (s1, name) :- ReadName(s);
    Done(s1, Person(surname, name))
  }

  /** readprofessor and readassistant. */
  function ReadRole(st: State, key: string): (r: Step<Option<Person>>)
    ensures Shrinks(st, r)
  {
    var (s, found) := CheckToken(st, key);
    if !found then Done(s, None)
    else
      var (s1, p) :- ReadPerson(s);
      Done(s1, Some(p))
  }

  // ----- assignments

  /** The loop of readnorm, with the number of keywords found.  Numbers stay when another policy follows. */
  function ReadNormWords(st: State, a: Assignment, found: nat): (r: (State, Assignment, nat))
    ensures Size(r.0) <= Size(st) && r.2 >= found
    decreases Size(st)
  {
    var (s1, raw) := CheckToken(st, "RAW");
    if raw then ReadNormWords(s1, WithPolicy(a, Policy.RAW), found + 1)
    else
      var (s2, standard) := CheckToken(s1, "STDLINEAR");
      if standard then ReadNormWords(s2, WithPolicy(a, Policy.LINEAR(0, MILLION)), found + 1)
      else
        var (s3, general) := CheckToken(s2, "GENLINEAR");
        if general then
          var (s, mean) := ReadNumber(s3);
          var (t, stddev) := ReadNumber(s);
          ReadNormWords(t, WithPolicy(a, Policy.LINEAR(GetOr(mean, 0), GetOr(stddev, MILLION))), found + 1)
        else
          var (s4, quantile) := CheckToken(s3, "QUANTILE");
          if quantile then ReadNormWords(s4, WithPolicy(a, Policy.QUANTILE), found + 1)
          else
            var (s5, scale) := CheckToken(s4, "SCALE");
            if scale then
              var (s, v) := ReadNumber(s5);
              ReadNormWords(s, WithPolicy(a, Policy.SCALE(GetOr(v, 0))), found + 1)
            else
              var (s6, byclass) := CheckToken(s5, "BYCLASS");
              if byclass then ReadNormWords(s6, a.(group := BYCLASS), found + 1)
              else
                var (s7, bysection) := CheckToken(s6, "BYSECTION");
                if bysection then ReadNormWords(s7, a.(group := BYSECTION), found + 1)
                else (s7, a, found)
  }

  function GetOr(v: Option<int>, default: int): int {
    match v
    case None => default
    case Some(x) => x
  }

  function ReadNorm(st: State, a: Assignment): (r: (State, Assignment))
    ensures Size(r.0) <= Size(st)
  {
    var (s, b, found) := ReadNormWords(st, a, 0);
    if found == 0 then (Complain(s), WithPolicy(b, Policy.RAW).(group := BYCLASS)) else (s, b)
  }

  /** readweight. */
  function ReadWeight(st: State, a: Assignment): (r: (State, Assignment))
    ensures Size(r.0) <= Size(st)
  {
    var (s, w) := ReadNumber(st);
    match w
    case None => (s, a.(weighted := false))
    case Some(v) => (s, a.(weighted := true, weight := v))
  }

  /** readmax. */
  function ReadMax(st: State, a: Assignment): (r: (State, Assignment))
    ensures Size(r.0) <= Size(st)
  {
    var (s, m) := ReadNumber(st);
    (s, a.(max := GetOr(m, a.max)))
  }

  /** The loop of readassignments over the lines of one assignment. */
  function ReadDetails(st: State, a: Assignment): (r: Step<Assignment>)
    ensures Shrinks(st, r)
    decreases Size(st)
  {
    var (s1, weight) := CheckToken(st, "WEIGHT");
    if weight then
      var (s, b) := ReadWeight(s1, a);
      var (t, _) :- ExpectNewline(s);
      ReadDetails(t, b)
    else
      var (s2, norm) := CheckToken(s1, "NORMALIZE");
      if norm then
        var (s, b) := ReadNorm(s2, a);
        var (t, _) :- ExpectNewline(s);
        ReadDetails(t, b)
      else
        var (s3, max) := CheckToken(s2, "MAXIMUM");
        if max then
          var (s, b) := ReadMax(s3, a);
          var (t, _) :- ExpectNewline(s);
          ReadDetails(t, b)
        else Done(s3, a)
  }

  function NewAssignment(name: string, atype: string): Assignment {
    AssignmentRecord(name, atype, false, 0, Npolicy.RAW, 0, None, None, None, BYCLASS)
  }

  function ReadAssignments(st: State): (r: Step<seq<Assignment>>)
    ensures Shrinks(st, r)
    decreases Size(st)
  {
    var (s0, found) := CheckToken(st, "ASSIGNMENT");
    if !found then Done(s0, [])
    else
      var (s1, name) := ReadWord(s0);
      var (s2, atype) := ReadWord(s1);
      var (s3, _) :- ExpectNewline(s2);
      var (s4, a) :- ReadDetails(s3, NewAssignment(name, atype));
      var (s5, more) :- ReadAssignments(s4);
      Done(s5, [a] + more)
  }

  // ----- scores

  /** The first assignment of the given name; the number of assignments if there is none. */
  function Lookup(assignments: seq<Assignment>, name: string): (k: nat)
    ensures k <= |assignments| && (k < |assignments| ==> assignments[k].name == name)
    ensures forall i | 0 <= i < k :: assignments[i].name != name
  {
    if assignments == [] || assignments[0].name == name then 0 else 1 + Lookup(assignments[1..], name)
  }

  /** The complaint about a substituted normalized score that cannot be one. */
  function CheckNorm(st: State, norm: int, policy: Policy): State {
    if policy.QUANTILE? && (norm < 0 || norm > 100 * MILLION) then Complain(st)
    else if policy.SCALE? && (norm < 0 || norm > policy.scale) then Complain(st)
    else st
  }

  /** The end of readgrade for a score that is no number: the reason why. */
  function ReadCode(st: State, subst: Subst): (r: Step<Grade>)
    ensures Shrinks(st, r)
  {
    var (s, _) :- AdvanceEol(st);
    Done(Flush(s), Invalid(subst, s.token.value))
  }

  function ReadGrade(st: State, policy: Policy): (r: Step<Grade>)
    ensures Shrinks(st, r)
  {
    var (s1, raw) := CheckToken(st, "USERAW");
    if raw then
      var (s, v) := TakeNumber(Peek(s1));
      ReadCode(s, USERAW(GetOr(v, 0)))
    else
      var (s2, norm) := CheckToken(s1, "USENORM");
      if norm then
        var (s, v) := TakeNumber(Peek(s2));
        ReadCode(match v case Some(x) => CheckNorm(s, x, policy) case None => s, USENORM(GetOr(v, 0)))
      else
        var (s3, like) := CheckToken(s2, "USELIKEAVG");
        if like then ReadCode(s3, USELIKEAVG)
        else
          var (s4, average) := CheckToken(s3, "USECLASSAVG");
          if average then ReadCode(s4, USECLASSAVG)
          else
            var (s, v) := TakeNumber(Peek(s4));
            Done(s, Valid(GetOr(v, 0)))
  }

  function ReadScores(st: State, assignments: seq<Assignment>): (r: Step<seq<Score>>)
    ensures Shrinks(st, r)
    decreases Size(st)
  {
    var (s0, found) := CheckToken(st, "SCORE");
    if !found then Done(s0, [])
    else
      var s1 := Peek(s0);
      if s1.token.None? then Fatal
      else
        var k := Lookup(assignments, s1.token.value);
        if k == |assignments| then Fatal
        else
          var (s2, grade) :- ReadGrade(Flush(s1), PolicyOf(assignments[k]));
          var (s3, _) :- ExpectNewline(s2);
          var (s4, more) :- ReadScores(s3, assignments);
          Done(s4, [Score(k, grade)] + more)
  }

  // ----- students, sections and the course

  function ReadStudents(st: State, assignments: seq<Assignment>): (r: Step<seq<Student>>)
    ensures Shrinks(st, r)
    decreases Size(st)
  {
    var (s0, found) := CheckToken(st, "STUDENT");
    if !found then Done(s0, [])
    else
      var (s1, id) := ReadWord(s0);
      var (s2, surname) := ReadWord(s1);
      var (s3, name) :- ReadName(s2);
      var (s4, scores) :- ReadScores(s3, assignments);
      var (s5, more) :- ReadStudents(s4, assignments);
      Done(s5, [Student(id, surname, name, scores)] + more)
  }

  /** Another file can only be included if it can be opened; there is none here. */
  function ReadSections(st: State, assignments: seq<Assignment>): (r: Step<seq<Section>>)
    ensures Shrinks(st, r)
    decreases Size(st)
  {
    var s := Peek(st);
    if s.token.None? then Done(s, [])
    else if s.token == Some("FILE") then Fatal
    else
      var (s0, found) := CheckToken(s, "SECTION");
      if !found then Done(s0, [])
      else
        var (s1, name) :- ReadName(s0);
        var (s2, assistant) :- ReadRole(s1, "ASSISTANT");
        var (s3, roster) :- ReadStudents(s2, assignments);
        var (s4, more) :- ReadSections(s3, assignments);
        Done(s4, [Section(name, assistant, roster)] + more)
  }

  function ReadCourse(st: State): (r: Step<Course>)
    ensures Shrinks(st, r)
  {
    var (s1, number) := ReadWord(ExpectToken(st, "COURSE"));
    var (s2, title) :- ReadName(s1);
    var (s3, professor) :- ReadRole(s2, "PROFESSOR");
    var (s4, assignments) :- ReadAssignments(s3);
    var (s5, sections) :- ReadSections(s4, assignments);
    Done(s5, Course(number, title, professor, assignments, sections))
  }

  function GobbleBlankLines(st: State): (r: Step<()>) {
    if st.token.Some? then Done(st, ())
    else
      match SkipBlankLines(st.input)
      case None => Fatal
      case Some(rest) => Done(st.(input := rest), ())
  }

  function ExpectEof(st: State): State {
    if st.token.None? && st.input == "" then st else Complain(Flush(st))
  }

  /** readfile on a file with the given text. */
  function ReadFile(text: string): Step<Course> {
    var (s1, _) :- GobbleBlankLines(State(text, None, 0));
    var (s2, c) :- ReadCourse(s1);
    var (s3, _) :- GobbleBlankLines(s2);
    Done(ExpectEof(s3), c)
  }
}

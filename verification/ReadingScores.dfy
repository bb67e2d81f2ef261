/** What the reader makes of a score line, whatever it says: it never reads past the line. */
module ReadingScores {
  import opened Decimals
  import opened GradeText
  import opened ReaderSpec
  import opened ReadingWords

  predicate OneLine(t: string) {
    forall i | 0 <= i < |t| :: t[i] != '\n'
  }

  /** The next token of a line, and what follows it. */
  function Cut(t: string): (r: (string, string))
    requires OneLine(t)
    ensures OneLine(r.1) && |r.0| + |r.1| <= |t|
  {
    var s := SkipWhitespace(t);
    SkipKeepsLine(t);
    var n := TokenLength(s);
    (s[..n], s[n..])
  }

  lemma {:induction false} SkipKeepsLine(t: string)
    requires OneLine(t)
    ensures OneLine(SkipWhitespace(t))
  {
    if t != "" && IsWhitespace(t[0]) { SkipKeepsLine(t[1..]); }
  }

  /** What the text behind the assignment's name says about a score. */
  function LineGrade(line: string): Grade
    requires OneLine(line)
  {
    var (w, t) := Cut(line);
    var (v, u) := Cut(t);
    var number := GetOr(ScanFixed(v), 0);
    if w == "USERAW" then Invalid(USERAW(number), SkipWhitespace(u))
    else if w == "USENORM" then Invalid(USENORM(number), SkipWhitespace(u))
    else if w == "USELIKEAVG" then Invalid(USELIKEAVG, SkipWhitespace(t))
    else if w == "USECLASSAVG" then Invalid(USECLASSAVG, SkipWhitespace(t))
    else Valid(GetOr(ScanFixed(w), 0))
  }

  /** The complaints about a number token: a missing one, or one that is no number and gets lost. */
  function NumberErrors(v: string): nat {
    if ScanFixed(v).Some? then 0 else if v == "" then 1 else 2
  }

  function NormErrors(v: string, policy: Policy): nat {
    match ScanFixed(v)
    case None => 0
    case Some(x) =>
      if policy.QUANTILE? && (x < 0 || x > 100 * MILLION) then 1
      else if policy.SCALE? && (x < 0 || x > policy.scale) then 1 else 0
  }

  /** The errors reported for the line. */
  function LineErrors(line: string, policy: Policy): nat
    requires OneLine(line)
  {
    var (w, t) := Cut(line);
    var (v, u) := Cut(t);
    if w == "USERAW" then NumberErrors(v)
    else if w == "USENORM" then NumberErrors(v) + NormErrors(v, policy)
    else if w == "USELIKEAVG" || w == "USECLASSAVG" then 0
    else NumberErrors(w) + if ScanFixed(w).Some? && SkipWhitespace(t) != "" then 1 else 0
  }

  // ----- the reader within a line

  lemma {:induction false} SkipInLine(t: string, rest: string)
    requires OneLine(t)
    ensures SkipWhitespace(t + "\n" + rest) == SkipWhitespace(t) + "\n" + rest
  {
    if t == "" {
      assert t + "\n" + rest == "\n" + rest;
    } else {
      assert (t + "\n" + rest)[1..] == t[1..] + "\n" + rest;
      if IsWhitespace(t[0]) { SkipInLine(t[1..], rest); }
    }
  }

  lemma {:induction false} TokenInLine(s: string, rest: string)
    requires OneLine(s)
    ensures TokenLength(s + "\n" + rest) == TokenLength(s)
  {
    if s == "" {
      assert s + "\n" + rest == "\n" + rest;
    } else {
      assert (s + "\n" + rest)[1..] == s[1..] + "\n" + rest;
      TokenInLine(s[1..], rest);
    }
  }

  function MaybeToken(w: string): Option<string> {
    if w == "" then None else Some(w)
  }

  /** Reading ahead within a line. */
  lemma CutAhead(t: string, rest: string, e: nat)
    requires OneLine(t)
    ensures AdvanceToken(State(t + "\n" + rest, None, e)) == State(Cut(t).1 + "\n" + rest, MaybeToken(Cut(t).0), e)
  {
    var s := SkipWhitespace(t);
    SkipKeepsLine(t);
    SkipInLine(t, rest);
    TokenInLine(s, rest);
    var n := TokenLength(s);
    assert (s + "\n" + rest)[n..] == s[n..] + "\n" + rest && (s + "\n" + rest)[..n] == s[..n];
  }

  /** Taking a number from a line, or failing to. */
  lemma NumberInLine(t: string, rest: string, e: nat)
    requires OneLine(t)
    ensures
      var (v, u) := Cut(t);
      var (s, x) := TakeNumber(Peek(State(t + "\n" + rest, None, e)));
      && x == ScanFixed(v) && s.input == u + "\n" + rest && s.token == (if x.Some? then None else MaybeToken(v))
      && s.errors == e + if x.Some? then 0 else 1
  {
    CutAhead(t, rest, e);
  }

  lemma EolInLine(u: string, rest: string, token: Option<string>, e: nat)
    requires OneLine(u)
    ensures AdvanceEol(State(u + "\n" + rest, token, e)) ==
      Done(State("\n" + rest, Some(SkipWhitespace(u)), e + if token.Some? then 1 else 0), ())
  {
    hide SkipWhitespace, LineLength;
    SkipKeepsLine(u);
    SkipInLine(u, rest);
    var l := SkipWhitespace(u);
    LineOf(l, rest);
    assert (l + "\n" + rest)[|l|..] == "\n" + rest && (l + "\n" + rest)[..|l|] == l;
  }

  lemma AtLineEnd(rest: string, e: nat)
    requires FreshLine(rest)
    ensures ExpectNewline(State("\n" + rest, None, e)) == Done(State(rest, None, e), ())
  {
    assert "" + "\n" + rest == "\n" + rest;
    NewlineRead("", rest, e);
  }

  /** The code is the rest of the line; an unread token before it is lost. */
  lemma CodeInLine(u: string, rest: string, token: Option<string>, e: nat, subst: Subst)
    requires OneLine(u) && FreshLine(rest)
    ensures
      var r := ReadCode(State(u + "\n" + rest, token, e), subst);
      && r == Done(State("\n" + rest, None, e + if token.Some? then 1 else 0), Invalid(subst, SkipWhitespace(u)))
      && ExpectNewline(r.st) == Done(State(rest, None, r.st.errors), ())
  {
    hide AdvanceEol, ExpectNewline, SkipWhitespace;
    EolInLine(u, rest, token, e);
    AtLineEnd(rest, e + if token.Some? then 1 else 0);
  }

  /** Behind a number the line must end; else the rest of it is skipped with a complaint. */
  lemma EndInLine(u: string, rest: string, e: nat)
    requires OneLine(u) && FreshLine(rest)
    ensures ExpectNewline(State(u + "\n" + rest, None, e)) ==
      Done(State(rest, None, e + if SkipWhitespace(u) == "" then 0 else 1), ())
  {
    hide SkipWhitespace, LineLength;
    SkipKeepsLine(u);
    SkipInLine(u, rest);
    var l := SkipWhitespace(u);
    if l == "" {
      assert l + "\n" + rest == "\n" + rest && ("\n" + rest)[1..] == rest;
    } else {
      LineOf(l, rest);
      assert (l + "\n" + rest)[|l| + 1..] == rest;
    }
  }

  /** With a token unread the rest of the line is skipped with a complaint. */
  lemma SkipInLineEnd(u: string, rest: string, w: string, e: nat)
    requires OneLine(u)
    ensures ExpectNewline(State(u + "\n" + rest, Some(w), e)) == Done(State(rest, None, e + 1), ())
  {
    LineOf(u, rest);
    assert (u + "\n" + rest)[|u| + 1..] == rest;
  }

  /** The reader takes exactly the line. */
  ghost predicate TakesLine(line: string, rest: string, policy: Policy, e: nat)
    requires OneLine(line)
  {
    var r := ReadGrade(State(line + "\n" + rest, None, e), policy);
    && r.Done? && r.value == LineGrade(line)
    && ExpectNewline(r.st) == Done(State(rest, None, e + LineErrors(line, policy)), ())
  }

  /** Whatever a score line says, the reader takes exactly this line: the grade that the line stands
      for, the complaints it deserves, and the next line untouched. */
  lemma GradeLine(line: string, rest: string, policy: Policy, e: nat)
    requires OneLine(line) && FreshLine(rest)
    ensures TakesLine(line, rest, policy, e)
  {
    var w := Cut(line).0;
    if w == "USERAW" || w == "USENORM" {
      NumberLine(line, rest, policy, e);
    } else if w == "USELIKEAVG" || w == "USECLASSAVG" {
      AverageLine(line, rest, policy, e);
    } else {
      PlainLine(line, rest, policy, e);
    }
  }

  lemma NumberLine(line: string, rest: string, policy: Policy, e: nat)
    requires OneLine(line) && FreshLine(rest) && (Cut(line).0 == "USERAW" || Cut(line).0 == "USENORM")
    ensures TakesLine(line, rest, policy, e)
  {
    hide TakeNumber, ReadCode, ExpectNewline, Cut, SkipWhitespace, ScanFixed, AdvanceToken;
    var (w, t) := Cut(line);
    var (v, u) := Cut(t);
    CutAhead(line, rest, e);
    NumberInLine(t, rest, e);
    var s := TakeNumber(Peek(State(t + "\n" + rest, None, e))).0;
    if w == "USERAW" {
      CodeInLine(u, rest, s.token, s.errors, USERAW(GetOr(ScanFixed(v), 0)));
    } else {
      CodeInLine(u, rest, s.token, s.errors + NormErrors(v, policy), USENORM(GetOr(ScanFixed(v), 0)));
    }
  }

  lemma AverageLine(line: string, rest: string, policy: Policy, e: nat)
    requires OneLine(line) && FreshLine(rest) && (Cut(line).0 == "USELIKEAVG" || Cut(line).0 == "USECLASSAVG")
    ensures TakesLine(line, rest, policy, e)
  {
    hide TakeNumber, ReadCode, ExpectNewline, Cut, SkipWhitespace, ScanFixed, AdvanceToken;
    var (w, t) := Cut(line);
    CutAhead(line, rest, e);
    CodeInLine(t, rest, None, e, if w == "USELIKEAVG" then USELIKEAVG else USECLASSAVG);
  }

  lemma PlainLine(line: string, rest: string, policy: Policy, e: nat)
    requires OneLine(line) && FreshLine(rest)
    requires Cut(line).0 !in ["USERAW", "USENORM", "USELIKEAVG", "USECLASSAVG"]
    ensures TakesLine(line, rest, policy, e)
  {
    hide TakeNumber, ReadCode, ExpectNewline, Cut, SkipWhitespace, ScanFixed, AdvanceToken;
    var (w, t) := Cut(line);
    PlainInLine(line, rest, e);
    EndInLine(t, rest, e);
    if w == "" {
      NothingLeft(line);
      EndInLine(t, rest, e + 1);
    } else {
      SkipInLineEnd(t, rest, w, e + 1);
    }
  }

  lemma PlainInLine(line: string, rest: string, e: nat)
    requires OneLine(line)
    ensures
      var (w, t) := Cut(line);
      var s := Peek(State(line + "\n" + rest, None, e));
      && s == State(t + "\n" + rest, MaybeToken(w), e) && Peek(s) == s
      && TakeNumber(s) == (match ScanFixed(w)
                                 case Some(x) => (State(t + "\n" + rest, None, e), Some(x))
                                 case None => (State(t + "\n" + rest, MaybeToken(w), e + 1), None))
  {
    CutAhead(line, rest, e);
    PeekTwice(State(line + "\n" + rest, None, e));
    assert ScanFixed("").None?;
  }

  lemma NothingLeft(line: string)
    requires OneLine(line) && Cut(line).0 == ""
    ensures SkipWhitespace(Cut(line).1) == "" && ScanFixed("").None?
  {
    var s := SkipWhitespace(line);
    SkipKeepsLine(line);
    assert s == "";
  }
}

/** How the reader takes words, names and numbers out of text that was laid out for it. */
module ReadingWords {
  import opened Decimals
  import opened GradeText
  import opened ReaderSpec

  /** What is read as one token. */
  predicate IsWord(w: string) {
    w != "" && forall i | 0 <= i < |w| :: !IsWhitespace(w[i]) && w[i] != '\n'
  }

  /** What is read as the rest of a line. */
  predicate IsLine(l: string) {
    (forall i | 0 <= i < |l| :: l[i] != '\n') && (l != "" ==> !IsWhitespace(l[0]))
  }

  /** A token ends before this. */
  predicate EndsWord(rest: string) {
    rest == "" || IsWhitespace(rest[0]) || rest[0] == '\n'
  }

  /** A line that is neither blank nor a comment, or the end of the file. */
  predicate FreshLine(rest: string) {
    rest == "" || rest[0] == ' '
  }

  predicate IsBlank(ws: string) {
    forall i | 0 <= i < |ws| :: IsWhitespace(ws[i])
  }

  lemma {:induction false} SkipBlanks(ws: string, t: string)
    requires IsBlank(ws) && (t != "" ==> !IsWhitespace(t[0]))
    ensures SkipWhitespace(ws + t) == t
  {
    if ws == "" {
      assert ws + t == t;
    } else {
      assert (ws + t)[1..] == ws[1..] + t;
      SkipBlanks(ws[1..], t);
    }
  }

  lemma {:induction false} TokenOf(w: string, rest: string)
    requires (forall i | 0 <= i < |w| :: !IsWhitespace(w[i]) && w[i] != '\n') && EndsWord(rest)
    ensures TokenLength(w + rest) == |w|
  {
    if w == "" {
      assert w + rest == rest;
    } else {
      assert (w + rest)[1..] == w[1..] + rest;
      TokenOf(w[1..], rest);
    }
  }

  lemma {:induction false} LineOf(l: string, rest: string)
    requires forall i | 0 <= i < |l| :: l[i] != '\n'
    ensures LineLength(l + "\n" + rest) == |l|
  {
    if l == "" {
      assert l + "\n" + rest == "\n" + rest;
    } else {
      assert (l + "\n" + rest)[1..] == l[1..] + "\n" + rest;
      LineOf(l[1..], rest);
    }
  }

  /** A word behind blanks is the next token. */
  lemma WordAhead(ws: string, w: string, rest: string, e: nat)
    requires IsBlank(ws) && IsWord(w) && EndsWord(rest)
    ensures AdvanceToken(State(ws + w + rest, None, e)) == State(rest, Some(w), e)
  {
    assert ws + w + rest == ws + (w + rest);
    SkipBlanks(ws, w + rest);
    TokenOf(w, rest);
    assert (w + rest)[|w|..] == rest && (w + rest)[..|w|] == w;
  }

  /** At the end of a line, or of the file, there is no token. */
  lemma NoWordAhead(ws: string, rest: string, e: nat)
    requires IsBlank(ws) && (rest == "" || rest[0] == '\n')
    ensures AdvanceToken(State(ws + rest, None, e)) == State(rest, None, e)
  {
    SkipBlanks(ws, rest);
    assert rest[0..] == rest;
  }

  /** Reading ahead twice is reading ahead once. */
  lemma PeekTwice(st: State)
    ensures Peek(Peek(st)) == Peek(st)
  {
    if st.token.None? && Peek(st).token.None? {
      var s := SkipWhitespace(st.input);
      assert s[0..] == s;
      SkipBlanks("", s);
      assert "" + s == s;
    }
  }

  lemma KeyAhead(ws: string, key: string, rest: string, e: nat, st: State)
    requires IsBlank(ws) && IsWord(key) && EndsWord(rest) && Peek(st) == Peek(State(ws + key + rest, None, e))
    ensures CheckToken(st, key) == (State(rest, None, e), true)
    ensures forall other | other != key :: CheckToken(st, other) == (State(rest, Some(key), e), false)
  {
    WordAhead(ws, key, rest, e);
  }

  lemma WordRead(ws: string, w: string, rest: string, e: nat)
    requires IsBlank(ws) && IsWord(w) && EndsWord(rest)
    ensures ReadWord(State(ws + w + rest, None, e)) == (State(rest, None, e), w)
  {
    WordAhead(ws, w, rest, e);
  }

  lemma NewlineRead(ws: string, rest: string, e: nat)
    requires IsBlank(ws) && FreshLine(rest)
    ensures ExpectNewline(State(ws + "\n" + rest, None, e)) == Done(State(rest, None, e), ())
  {
    assert ws + "\n" + rest == ws + ("\n" + rest);
    SkipBlanks(ws, "\n" + rest);
    assert ("\n" + rest)[1..] == rest;
  }

  lemma NameRead(ws: string, l: string, rest: string, e: nat)
    requires IsBlank(ws) && IsLine(l) && FreshLine(rest)
    ensures ReadName(State(ws + l + "\n" + rest, None, e)) == Done(State(rest, None, e), l)
  {
    var t := l + "\n" + rest;
    assert ws + l + "\n" + rest == ws + t;
    SkipBlanks(ws, t);
    LineOf(l, rest);
    assert t[|l|..] == "\n" + rest && t[..|l|] == l;
    assert "" + "\n" + rest == "\n" + rest;
    NewlineRead("", rest, e);
  }

  lemma NumberRead(ws: string, v: int, rest: string, e: nat)
    requires IsBlank(ws) && EndsWord(rest)
    ensures ReadNumber(State(ws + PrintFixed(v) + rest, None, e)) == (State(rest, None, e), Some(v))
  {
    NumberIsWord(v);
    WordAhead(ws, PrintFixed(v), rest, e);
    FixedRoundTrip(v);
  }

  lemma NumberIsWord(v: int)
    ensures IsWord(PrintFixed(v))
  {
    PrintedChars(v);
  }

  /** A field that is a word, or missing together with everything behind it on its line. */
  predicate WordOrEnd(w: string, behind: string) {
    IsWord(w) || (w == "" && behind == "")
  }

  /** The complaint about a missing word. */
  function Missing(w: string): nat {
    if w == "" then 1 else 0
  }

  /** With nothing but blanks left on the line, a word and a name are missing. */
  lemma MissingRead(ws: string, tail: string, e: nat)
    requires IsBlank(ws) && FreshLine(tail)
    ensures ReadWord(State(ws + "\n" + tail, None, e)) == (State("\n" + tail, None, e + 1), "")
    ensures ReadWord(State("\n" + tail, None, e + 1)) == (State("\n" + tail, None, e + 2), "")
    ensures ReadName(State("\n" + tail, None, e + 1)) == Done(State(tail, None, e + 1), "")
    ensures ReadName(State("\n" + tail, None, e + 2)) == Done(State(tail, None, e + 2), "")
  {
    hide AdvanceToken, ReadName;
    assert ws + "\n" + tail == ws + ("\n" + tail);
    NoWordAhead(ws, "\n" + tail, e);
    assert "" + "" + "\n" + tail == "\n" + tail == "" + ("\n" + tail);
    NoWordAhead("", "\n" + tail, e + 1);
    NameRead("", "", tail, e + 1);
    NameRead("", "", tail, e + 2);
  }

  lemma PersonRead(ws: string, p: Person, rest: string, e: nat)
    requires IsBlank(ws) && WordOrEnd(p.surname, p.name) && IsLine(p.name) && FreshLine(rest)
    ensures ReadPerson(State(ws + p.surname + ", " + p.name + "\n" + rest, None, e)) ==
      Done(State(rest, None, e + Missing(p.surname)), p)
  {
    hide ReadWord, ReadName;
    if p.surname == "" {
      assert ws + p.surname + ", " + p.name + "\n" + rest == ws + ", " + "\n" + rest;
      MissingRead(ws + ", ", rest, e);
    } else {
      var tail := ", " + p.name + "\n" + rest;
      assert ws + p.surname + ", " + p.name + "\n" + rest == ws + p.surname + tail;
      WordRead(ws, p.surname, tail, e);
      NameRead(", ", p.name, rest, e);
    }
  }
}

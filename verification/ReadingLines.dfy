/** How the reader takes such lines apart. */
module ReadingLines {
  import opened Decimals
  import opened GradeText
  import opened ReaderSpec
  import opened ReadingWords
  import opened ReadingScores
  import opened RoundTrip
  import opened ReadingDetails

  // ----- comments and blank lines

  /** A line that starts with a blank and is neither blank nor, behind the blanks, a comment; or the end. */
  predicate Begins(rest: string) {
    rest == "" || (rest[0] == ' ' && var s := SkipWhitespace(rest); s == "" || (s[0] != '#' && s[0] != '\n'))
  }

  lemma {:induction false} LineLengthOf(f: string, rest: string)
    requires LineLength(f) < |f|
    ensures LineLength(f + rest) == LineLength(f)
  {
    if f[0] != '\n' {
      assert (f + rest)[1..] == f[1..] + rest;
      LineLengthOf(f[1..], rest);
    }
  }

  /** Comments and blank lines are skipped, whatever is in them. */
  lemma {:induction false} FillerSkipped(f: string, rest: string)
    requires IsFiller(f) && Begins(rest)
    ensures SkipBlankLines(f + rest).Some? && SkipWhitespace(SkipBlankLines(f + rest).value) == SkipWhitespace(rest)
    decreases |f|
  {
    hide LineLength;
    if f == "" {
      assert f + rest == rest;
    } else if f[0] == '\n' {
      assert (f + rest)[1..] == f[1..] + rest;
      if f[1..] == "" {
        assert f[1..] + rest == rest;
        Stripped(rest);
      } else {
        FillerSkipped(f[1..], rest);
      }
    } else {
      LineLengthOf(f, rest);
      var n := LineLength(f);
      assert (f + rest)[n + 1..] == f[n + 1..] + rest;
      FillerSkipped(f[n + 1..], rest);
    }
  }

  lemma Stripped(rest: string)
    requires Begins(rest)
    ensures
      var s := SkipWhitespace(rest);
      SkipBlankLines(s) == Some(s) && SkipWhitespace(s) == s
  {
    var s := SkipWhitespace(rest);
    assert "" + s == s;
    SkipBlanks("", s);
  }

  /** The end of a line, with the comments and blank lines behind it. */
  lemma LineEndRead(end: string, filler: string, rest: string, e: nat) returns (st: State)
    requires IsBlank(end) && IsFiller(filler) && Begins(rest)
    ensures ExpectNewline(State(end + "\n" + (filler + rest), None, e)) == Done(st, ())
    ensures Peek(st) == Peek(State(rest, None, e))
  {
    hide SkipBlankLines, TokenLength;
    var text := filler + rest;
    assert end + "\n" + text == end + ("\n" + text);
    SkipBlanks(end, "\n" + text);
    assert ("\n" + text)[1..] == text;
    FillerSkipped(filler, rest);
    st := State(SkipBlankLines(text).value, None, e);
  }

  // ----- numbers

  lemma NumericRead(w: Word, rest: string, e: nat)
    requires Numeric(w) && EndsWord(rest)
    ensures ReadNumber(State(WordText(w) + rest, None, e)) == (State(rest, None, e), ScanFixed(w.text))
  {
    hide ScanFixed;
    WordAhead(w.blank, w.text, rest, e);
  }

  lemma NumberMissing(end: string, after: string, e: nat)
    requires IsBlank(end)
    ensures ReadNumber(State(end + "\n" + after, None, e)) == (State("\n" + after, None, e + 1), None)
    ensures ReadNumber(State("\n" + after, None, e)) == (State("\n" + after, None, e + 1), None)
  {
    hide AdvanceToken;
    assert end + "\n" + after == end + ("\n" + after);
    NoWordAhead(end, "\n" + after, e);
    assert "" + ("\n" + after) == "\n" + after;
    NoWordAhead("", "\n" + after, e);
  }

  /** What is left of a line behind a setting. */
  lemma RestEndsWord(ss: seq<Setting>, end: string, after: string)
    requires SettingsOk(ss) && IsBlank(end)
    ensures EndsWord(SettingsText(ss) + (end + "\n" + after))
  {
    hide NumbersText;
    if ss == [] {
      assert "" + (end + "\n" + after) == end + "\n" + after;
    } else {
      assert SettingOk(ss[0], |ss| == 1);
    }
  }

  // ----- the words of a normalization line

  /** Behind the last word. */
  lemma WordsEnd(end: string, after: string, e: nat, a: Assignment, found: nat)
    requires IsBlank(end)
    ensures ReadNormWords(State(end + "\n" + after, None, e), a, found) == (State("\n" + after, None, e), a, found)
  {
    hide AdvanceToken;
    assert end + "\n" + after == end + ("\n" + after);
    NoWordAhead(end, "\n" + after, e);
    assert "" + ("\n" + after) == "\n" + after;
    NoWordAhead("", "\n" + after, e);
  }

  /** The reader at a keyword: it is found under its own name only. */
  lemma KeyFound(w: Word, rest: string, a: Assignment, found: nat, e: nat)
    requires Spaced(w) && EndsWord(rest) && w.text in NORM_WORDS
    ensures
      var st, t := State(WordText(w) + rest, None, e), State(rest, None, e);
      ReadNormWords(st, a, found) ==
        if w.text == "RAW" then ReadNormWords(t, WithPolicy(a, Policy.RAW), found + 1)
        else if w.text == "STDLINEAR" then ReadNormWords(t, WithPolicy(a, Policy.LINEAR(0, MILLION)), found + 1)
        else if w.text == "GENLINEAR" then
          var (s, mean) := ReadNumber(t);
          var (u, stddev) := ReadNumber(s);
          ReadNormWords(u, WithPolicy(a, Policy.LINEAR(GetOr(mean, 0), GetOr(stddev, MILLION))), found + 1)
        else if w.text == "QUANTILE" then ReadNormWords(t, WithPolicy(a, Policy.QUANTILE), found + 1)
        else if w.text == "SCALE" then
          var (s, v) := ReadNumber(t);
          ReadNormWords(s, WithPolicy(a, Policy.SCALE(GetOr(v, 0))), found + 1)
        else if w.text == "BYCLASS" then ReadNormWords(t, a.(group := BYCLASS), found + 1)
        else ReadNormWords(t, a.(group := BYSECTION), found + 1)
  {
    hide AdvanceToken, ReadNumber;
    WordAhead(w.blank, w.text, rest, e);
  }

  /** One setting with all its numbers. */
  lemma SettingRead(s: Setting, rest: string, e: nat, a: Assignment, found: nat)
    requires s.key.text in NORM_WORDS && SettingOk(s, false) && EndsWord(rest)
    ensures ReadNormWords(State(SettingText(s) + rest, None, e), a, found) ==
      ReadNormWords(State(rest, None, e), Set(a, s), found + 1)
  {
    hide ReadNormWords, ReadNumber, ScanFixed, WithPolicy;
    var numbers := NumbersText(s.numbers) + rest;
    assert SettingText(s) + rest == WordText(s.key) + numbers;
    if |s.numbers| == 0 {
      assert numbers == rest;
      KeyFound(s.key, rest, a, found, e);
    } else if |s.numbers| == 1 {
      var w := s.numbers[0];
      assert NumbersText(s.numbers) == WordText(w);
      KeyFound(s.key, numbers, a, found, e);
      NumericRead(w, rest, e);
    } else {
      var w, v := s.numbers[0], s.numbers[1];
      assert NumbersText(s.numbers[1..]) == WordText(v);
      assert numbers == WordText(w) + (WordText(v) + rest);
      KeyFound(s.key, numbers, a, found, e);
      NumericRead(w, WordText(v) + rest, e);
      NumericRead(v, rest, e);
    }
  }

  /** The last setting of a line, which may lack numbers. */
  lemma LastRead(s: Setting, end: string, after: string, e: nat, a: Assignment, found: nat)
    requires s.key.text in NORM_WORDS && SettingOk(s, true) && IsBlank(end)
    ensures ReadNormWords(State(SettingText(s) + (end + "\n" + after), None, e), a, found) ==
      (State("\n" + after, None, e + Wanted(s.key.text) - |s.numbers|), Set(a, s), found + 1)
  {
    hide ReadNormWords, ReadNumber, ScanFixed, WithPolicy;
    var rest := end + "\n" + after;
    if |s.numbers| == Wanted(s.key.text) {
      SettingRead(s, rest, e, a, found);
      WordsEnd(end, after, e, Set(a, s), found + 1);
    } else if |s.numbers| == 0 {
      assert SettingText(s) + rest == WordText(s.key) + rest;
      KeyFound(s.key, rest, a, found, e);
      NumberMissing(end, after, e);
      NumberMissing(end, after, e + 1);
      NormEnds(after, e + 1, Set(a, s), found + 1);
      NormEnds(after, e + 2, Set(a, s), found + 1);
    } else {
      var w := s.numbers[0];
      assert NumbersText(s.numbers) == WordText(w);
      assert SettingText(s) + rest == WordText(s.key) + (WordText(w) + rest);
      KeyFound(s.key, WordText(w) + rest, a, found, e);
      NumericRead(w, rest, e);
      NumberMissing(end, after, e);
      NormEnds(after, e + 1, Set(a, s), found + 1);
    }
  }

  lemma {:induction false} SettingsRead(ss: seq<Setting>, end: string, after: string, e: nat, a: Assignment, found: nat)
    requires SettingsOk(ss) && IsBlank(end)
    ensures Counted(ss)
    ensures ReadNormWords(State(SettingsText(ss) + (end + "\n" + after), None, e), a, found) ==
      (State("\n" + after, None, e + Complaints(ss)), Applied(a, ss), found + |ss|)
    decreases |ss|
  {
    hide ReadNormWords, Set, SettingText, SettingOk, Wanted;
    NumbersFit(ss);
    var rest := end + "\n" + after;
    if ss == [] {
      assert "" + rest == rest;
      WordsEnd(end, after, e, a, found);
    } else if |ss| == 1 {
      assert SettingsText(ss) == SettingText(ss[0]);
      LastRead(ss[0], end, after, e, a, found);
      assert Applied(a, ss) == Set(a, ss[0]);
      assert Complaints(ss[1..]) == 0;
    } else {
      var more := ss[1..];
      MoreOk(ss);
      RestEndsWord(more, end, after);
      Associative(SettingText(ss[0]), SettingsText(more), rest);
      SettingRead(ss[0], SettingsText(more) + rest, e, a, found);
      SettingsRead(more, end, after, e, Set(a, ss[0]), found + 1);
      AllThere(ss[0]);
    }
  }

  lemma NumbersFit(ss: seq<Setting>)
    requires SettingsOk(ss)
    ensures Counted(ss)
    ensures forall i {:trigger ss[i]} | 0 <= i < |ss| :: ss[i].key.text in NORM_WORDS && ss[i].key.text != "NORMALIZE"
  {
  }

  lemma MoreOk(ss: seq<Setting>)
    requires SettingsOk(ss) && |ss| > 1
    ensures SettingsOk(ss[1..]) && SettingOk(ss[0], false)
  {
    hide SettingOk;
    var more := ss[1..];
    forall i | 0 <= i < |more|
      ensures more[i].key.text in NORM_WORDS && SettingOk(more[i], i == |more| - 1)
    {
      assert more[i] == ss[i + 1];
    }
  }

  lemma AllThere(s: Setting)
    requires SettingOk(s, false)
    ensures |s.numbers| == Wanted(s.key.text)
  {
  }

  // ----- the lines of an assignment

  /** The number behind WEIGHT or MAXIMUM, if it is there. */
  lemma OneNumber(s: Setting, end: string, after: string, e: nat) returns (st: State, end1: string)
    requires s.key.text in ["WEIGHT", "MAXIMUM"] && SettingOk(s, true) && IsBlank(end)
    ensures IsBlank(end1) && st == State(end1 + "\n" + after, None, e + 1 - |s.numbers|) && |s.numbers| <= 1
    ensures ReadNumber(State(NumbersText(s.numbers) + (end + "\n" + after), None, e)) ==
      (st, if s.numbers == [] then None else ScanFixed(s.numbers[0].text))
    ensures EndsWord(NumbersText(s.numbers) + (end + "\n" + after))
  {
    hide ReadNumber, ScanFixed;
    var rest := end + "\n" + after;
    if s.numbers == [] {
      assert "" + rest == rest;
      NumberMissing(end, after, e);
      assert "\n" + after == "" + "\n" + after;
      st, end1 := State("\n" + after, None, e + 1), "";
    } else {
      var w := s.numbers[0];
      assert NumbersText(s.numbers) == WordText(w);
      NumericRead(w, rest, e);
      st, end1 := State(rest, None, e), end;
    }
  }

  lemma NumberLineDone(l: Line, rest: string, e: nat, st: State, a: Assignment) returns (st1: State)
    requires l.NumberLine? && LineOk(l) && Begins(rest) && Peek(st) == Peek(State(LineText(l) + rest, None, e))
    ensures ReadDetails(st, a) == ReadDetails(st1, Set(a, l.setting))
    ensures Peek(st1) == Peek(State(rest, None, e + 1 - |l.setting.numbers|)) && |l.setting.numbers| <= 1
  {
    hide ReadNumber, ExpectNewline, AdvanceToken, Peek, CheckToken, ReadDetails, ScanFixed;
    var s, after := l.setting, l.filler + rest;
    var numbers := NumbersText(s.numbers) + (l.end + "\n" + after);
    NumberLineText(l, rest);
    var st2, end1 := OneNumber(s, l.end, after, e);
    KeyAhead(s.key.blank, s.key.text, numbers, e, st);
    st1 := LineEndRead(end1, l.filler, rest, e + 1 - |s.numbers|);
    if s.key.text == "WEIGHT" {
      WeightLine(st, State(numbers, None, e), st2, st1, s, a);
    } else {
      KeyHeld(numbers, "MAXIMUM", e);
      MaximumLine(st, State(numbers, Some("MAXIMUM"), e), State(numbers, None, e), st2, st1, s, a);
    }
  }

  lemma KeyHeld(rest: string, key: string, e: nat)
    ensures CheckToken(State(rest, Some(key), e), key) == (State(rest, None, e), true)
    ensures forall other | other != key ::
      CheckToken(State(rest, Some(key), e), other) == (State(rest, Some(key), e), false)
  {
  }

  lemma NumberLineText(l: Line, rest: string)
    requires l.NumberLine?
    ensures LineText(l) + rest ==
      l.setting.key.blank + l.setting.key.text + (NumbersText(l.setting.numbers) + (l.end + "\n" + (l.filler + rest)))
  {
    var key, numbers := WordText(l.setting.key), NumbersText(l.setting.numbers);
    Associative(key + numbers + l.end + "\n", l.filler, rest);
    Associative(key + numbers, l.end + "\n", l.filler + rest);
    assert key + numbers + l.end + "\n" == key + numbers + (l.end + "\n");
    Associative(key, numbers, l.end + "\n" + (l.filler + rest));
  }

  lemma WeightLine(st: State, s1: State, s2: State, st1: State, s: Setting, a: Assignment)
    requires CheckToken(st, "WEIGHT") == (s1, true) && |s.numbers| <= 1 && s.key.text == "WEIGHT"
    requires ReadNumber(s1) == (s2, if s.numbers == [] then None else ScanFixed(s.numbers[0].text))
    requires forall i {:trigger s.numbers[i]} | 0 <= i < |s.numbers| :: Numeric(s.numbers[i])
    requires ExpectNewline(s2) == Done(st1, ())
    ensures ReadDetails(st, a) == ReadDetails(st1, Set(a, s))
  {
    hide ReadNumber, ExpectNewline, CheckToken, ScanFixed;
  }

  lemma MaximumLine(st: State, held: State, s1: State, s2: State, st1: State, s: Setting, a: Assignment)
    requires CheckToken(st, "WEIGHT") == (held, false) && CheckToken(held, "NORMALIZE") == (held, false)
    requires CheckToken(held, "MAXIMUM") == (s1, true) && |s.numbers| <= 1 && s.key.text == "MAXIMUM"
    requires ReadNumber(s1) == (s2, if s.numbers == [] then None else ScanFixed(s.numbers[0].text))
    requires forall i {:trigger s.numbers[i]} | 0 <= i < |s.numbers| :: Numeric(s.numbers[i])
    requires ExpectNewline(s2) == Done(st1, ())
    ensures ReadDetails(st, a) == ReadDetails(st1, Set(a, s))
  {
    hide ReadNumber, ExpectNewline, CheckToken, ScanFixed;
    assert a == a.(max := a.max);
  }

  lemma NormLineDone(l: Line, rest: string, e: nat, st: State, a: Assignment) returns (st1: State)
    requires l.NormLine? && LineOk(l) && Begins(rest) && Peek(st) == Peek(State(LineText(l) + rest, None, e))
    ensures Counted(l.settings)
    ensures ReadDetails(st, a) == ReadDetails(st1,
      if l.settings == [] then Set(a, Setting(l.head, [])) else Applied(a, l.settings))
    ensures Peek(st1) == Peek(State(rest, None, e + if l.settings == [] then 1 else Complaints(l.settings)))
  {
    hide ReadNormWords, ExpectNewline, AdvanceToken, Peek, CheckToken, ReadDetails, Applied, Complaints, SettingOk,
      SettingsText, LineText, Set, Wanted, Counted;
    var ss, after := l.settings, l.filler + rest;
    NumbersFit(ss);
    var words := SettingsText(ss) + (l.end + "\n" + after);
    NormLineText(l, rest);
    RestEndsWord(ss, l.end, after);
    KeyAhead(l.head.blank, "NORMALIZE", words, e, st);
    KeyHeld(words, "NORMALIZE", e);
    SettingsRead(ss, l.end, after, e, a, 0);
    var e1 := e + if ss == [] then 1 else Complaints(ss);
    assert "\n" + after == "" + "\n" + after;
    st1 := LineEndRead("", l.filler, rest, e1);
    NoSettings(a);
    NormalizeLineDone(st, State(words, Some("NORMALIZE"), e), State(words, None, e), State("\n" + after, None, e1), st1,
      l, a);
  }

  lemma NoSettings(a: Assignment)
    ensures Applied(a, []) == a && Counted([]) && Complaints([]) == 0
  {
  }

  lemma NormLineText(l: Line, rest: string)
    requires l.NormLine?
    ensures LineText(l) + rest ==
      l.head.blank + l.head.text + (SettingsText(l.settings) + (l.end + "\n" + (l.filler + rest)))
  {
    var key, words := WordText(l.head), SettingsText(l.settings);
    Associative(key + words + l.end + "\n", l.filler, rest);
    Associative(key + words, l.end + "\n", l.filler + rest);
    assert key + words + l.end + "\n" == key + words + (l.end + "\n");
    Associative(key, words, l.end + "\n" + (l.filler + rest));
  }

  lemma NormalizeLineDone(st: State, held: State, s1: State, s2: State, st1: State, l: Line, a: Assignment)
    requires l.NormLine? && l.head.text == "NORMALIZE"
    requires CheckToken(st, "WEIGHT") == (held, false) && CheckToken(held, "NORMALIZE") == (s1, true)
    requires
      var (s, b, found) := ReadNormWords(s1, a, 0);
      && (found == 0 <==> l.settings == []) && b == Applied(a, l.settings)
      && s2 == (if l.settings == [] then Complain(s) else s)
    requires ExpectNewline(s2) == Done(st1, ())
    ensures ReadDetails(st, a) == ReadDetails(st1,
      if l.settings == [] then Set(a, Setting(l.head, [])) else Applied(a, l.settings))
  {
    hide ReadNormWords, ExpectNewline, CheckToken, WithPolicy, ReadDetails;
    var b := if l.settings == [] then Set(a, Setting(l.head, [])) else Applied(a, l.settings);
    assert ReadNorm(s1, a) == (s2, b) by {
      if l.settings == [] { NoSettings(a); }
    }
    NormDetails(st, held, s1, s2, st1, a, b);
  }

  lemma NormDetails(st: State, held: State, s1: State, s2: State, st1: State, a: Assignment, b: Assignment)
    requires CheckToken(st, "WEIGHT") == (held, false) && CheckToken(held, "NORMALIZE") == (s1, true)
    requires ReadNorm(s1, a) == (s2, b) && ExpectNewline(s2) == Done(st1, ())
    ensures ReadDetails(st, a) == ReadDetails(st1, b)
  {
    hide ReadNorm, ExpectNewline, CheckToken;
  }

  lemma LineDone(l: Line, rest: string, e: nat, st: State, a: Assignment) returns (st1: State)
    requires LineOk(l) && Begins(rest) && Peek(st) == Peek(State(LineText(l) + rest, None, e))
    ensures Counted(SettingsOf([l]))
    ensures ReadDetails(st, a) == ReadDetails(st1, Applied(a, SettingsOf([l])))
    ensures Peek(st1) == Peek(State(rest, None, e + Complaints(SettingsOf([l]))))
  {
    hide ReadDetails, Set, Peek, LineText, Begins;
    OneLineSettings(l);
    match l
    case NumberLine(s, _, _) =>
      st1 := NumberLineDone(l, rest, e, st, a);
      OneSetting(a, s);
    case NormLine(head, ss, _, _) =>
      st1 := NormLineDone(l, rest, e, st, a);
      if ss == [] { OneSetting(a, Setting(head, [])); }
  }

  lemma OneLineSettings(l: Line)
    requires LineOk(l)
    ensures SettingsOf([l]) == match l
      case NumberLine(s, _, _) => [s]
      case NormLine(head, ss, _, _) => if ss == [] then [Setting(head, [])] else ss
    ensures Counted(SettingsOf([l]))
  {
    assert SettingsOf([l][1..]) == [];
    if l.NormLine? { NumbersFit(l.settings); }
  }

  lemma OneSetting(a: Assignment, s: Setting)
    requires |s.numbers| <= Wanted(s.key.text)
    ensures Applied(a, [s]) == Set(a, s) && Counted([s])
    ensures Complaints([s]) == Wanted(s.key.text) - |s.numbers| + if s.key.text == "NORMALIZE" then 1 else 0
  {
    hide Set;
    assert [s][1..] == [];
  }
}

/** Assignments as anyone may write them: weight, normalization and maximum lines in any order and number, comments
    and blank lines between them.  What is read is what the last word that says something about a field says. */
module ReadingDetails {
  import opened Decimals
  import opened GradeText
  import opened ReaderSpec
  import opened ReadingWords
  import opened ReadingScores
  import opened RoundTrip

  // ----- the lines

  /** A word and the blanks, commas and colons in front of it. */
  datatype Word = Word(blank: string, text: string)

  /** A keyword and the numbers behind it. */
  datatype Setting = Setting(key: Word, numbers: seq<Word>)

  /** end are blanks at the end of the line; filler are comments and blank lines behind it. */
  datatype Line =
    | NumberLine(setting: Setting, end: string, filler: string)
    | NormLine(head: Word, settings: seq<Setting>, end: string, filler: string)

  predicate Spaced(w: Word) {
    w.blank != "" && IsBlank(w.blank) && IsWord(w.text)
  }

  predicate Numeric(w: Word) {
    Spaced(w) && ScanFixed(w.text).Some?
  }

  const NORM_WORDS: seq<string> :=
    ["RAW", "STDLINEAR", "GENLINEAR", "QUANTILE", "SCALE", "BYCLASS", "BYSECTION"]

  /** How many numbers a keyword takes. */
  function Wanted(key: string): nat {
    if key == "GENLINEAR" then 2 else if key in ["SCALE", "WEIGHT", "MAXIMUM"] then 1 else 0
  }

  /** Numbers may be missing at the end of a line. */
  predicate SettingOk(s: Setting, last: bool) {
    && Spaced(s.key) && (forall i {:trigger s.numbers[i]} | 0 <= i < |s.numbers| :: Numeric(s.numbers[i]))
    && |s.numbers| <= Wanted(s.key.text) && (!last ==> |s.numbers| == Wanted(s.key.text))
  }

  predicate SettingsOk(ss: seq<Setting>) {
    forall i {:trigger ss[i]} | 0 <= i < |ss| :: ss[i].key.text in NORM_WORDS && SettingOk(ss[i], i == |ss| - 1)
  }

  predicate LineOk(l: Line) {
    && IsBlank(l.end) && IsFiller(l.filler)
    && match l
       case NumberLine(s, _, _) =>
         s.key.text in ["WEIGHT", "MAXIMUM"] && SettingOk(s, true) && s.key.blank[0] == ' '
       case NormLine(head, ss, _, _) =>
         head.text == "NORMALIZE" && Spaced(head) && head.blank[0] == ' ' && SettingsOk(ss)
  }

  predicate LinesOk(lines: seq<Line>) {
    forall i {:trigger lines[i]} | 0 <= i < |lines| :: LineOk(lines[i])
  }

  /** Blank lines, and lines that start with #. */
  predicate IsFiller(f: string)
    decreases |f|
  {
    || f == "" || (f[0] == '\n' && IsFiller(f[1..]))
    || (f[0] == '#' && LineLength(f) < |f| && IsFiller(f[LineLength(f) + 1..]))
  }

  function WordText(w: Word): string {
    w.blank + w.text
  }

  function NumbersText(numbers: seq<Word>): string {
    if numbers == [] then "" else WordText(numbers[0]) + NumbersText(numbers[1..])
  }

  function SettingText(s: Setting): string {
    WordText(s.key) + NumbersText(s.numbers)
  }

  function SettingsText(ss: seq<Setting>): string {
    if ss == [] then "" else SettingText(ss[0]) + SettingsText(ss[1..])
  }

  function LineText(l: Line): string {
    (match l
     case NumberLine(s, _, _) => SettingText(s)
     case NormLine(head, ss, _, _) => WordText(head) + SettingsText(ss)) + l.end + "\n" + l.filler
  }

  function LinesText(lines: seq<Line>): string {
    if lines == [] then "" else LineText(lines[0]) + LinesText(lines[1..])
  }

  // ----- what they say

  /** All that the lines say, in order; a normalization line without a word counts by its keyword. */
  function SettingsOf(lines: seq<Line>): seq<Setting> {
    if lines == [] then []
    else
      (match lines[0]
       case NumberLine(s, _, _) => [s]
       case NormLine(head, ss, _, _) => if ss == [] then [Setting(head, [])] else ss) + SettingsOf(lines[1..])
  }

  /** Setting i is the last with one of these keywords. */
  predicate LastOf(ss: seq<Setting>, keys: seq<string>, i: int) {
    && 0 <= i < |ss| && ss[i].key.text in keys
    && forall j {:trigger ss[j]} | i < j < |ss| :: ss[j].key.text !in keys
  }

  predicate NoneOf(ss: seq<Setting>, keys: seq<string>) {
    forall j {:trigger ss[j]} | 0 <= j < |ss| :: ss[j].key.text !in keys
  }

  /** Setting i is the last with this keyword that has its number. */
  predicate LastGiven(ss: seq<Setting>, key: string, i: int) {
    && 0 <= i < |ss| && ss[i].key.text == key && ss[i].numbers != []
    && forall j {:trigger ss[j]} | i < j < |ss| :: ss[j].key.text != key || ss[j].numbers == []
  }

  predicate NeverGiven(ss: seq<Setting>, key: string) {
    forall j {:trigger ss[j]} | 0 <= j < |ss| :: ss[j].key.text != key || ss[j].numbers == []
  }

  /** Number k of a setting, if it is there. */
  function NumberOr(s: Setting, k: nat, default: int): int {
    if k < |s.numbers| then GetOr(ScanFixed(s.numbers[k].text), default) else default
  }

  const POLICY_KEYS: seq<string> := ["RAW", "STDLINEAR", "GENLINEAR", "QUANTILE", "SCALE", "NORMALIZE"]
  const LINEAR_KEYS: seq<string> := ["STDLINEAR", "GENLINEAR"]
  const SCALE_KEY: seq<string> := ["SCALE"]
  const WEIGHT_KEY: seq<string> := ["WEIGHT"]
  const GROUP_KEYS: seq<string> := ["BYCLASS", "BYSECTION", "NORMALIZE"]

  /** The policy that a keyword stands for; a normalization line without words stands for RAW. */
  predicate Names(key: string, policy: Npolicy) {
    match policy
    case RAW => key == "RAW" || key == "NORMALIZE"
    case LINEAR => key == "STDLINEAR" || key == "GENLINEAR"
    case QUANTILE => key == "QUANTILE"
    case SCALE => key == "SCALE"
  }

  ghost predicate PolicyDecided(a: Assignment, ss: seq<Setting>, r: Assignment) {
    && (NoneOf(ss, POLICY_KEYS) ==> r.npolicy == a.npolicy)
    && forall i {:trigger LastOf(ss, POLICY_KEYS, i)} | LastOf(ss, POLICY_KEYS, i) :: Names(ss[i].key.text, r.npolicy)
  }

  ghost predicate GroupDecided(a: Assignment, ss: seq<Setting>, r: Assignment) {
    && (NoneOf(ss, GROUP_KEYS) ==> r.group == a.group)
    && forall i {:trigger LastOf(ss, GROUP_KEYS, i)} | LastOf(ss, GROUP_KEYS, i) ::
      r.group == if ss[i].key.text == "BYSECTION" then BYSECTION else BYCLASS
  }

  /** The mean and the deviation are 0 and 1 if they are not given. */
  ghost predicate LinearDecided(a: Assignment, ss: seq<Setting>, r: Assignment) {
    && (NoneOf(ss, LINEAR_KEYS) ==> r.mean == a.mean && r.stddev == a.stddev)
    && forall i {:trigger LastOf(ss, LINEAR_KEYS, i)} | LastOf(ss, LINEAR_KEYS, i) ::
      && r.mean == Some(if ss[i].key.text == "STDLINEAR" then 0 else NumberOr(ss[i], 0, 0))
      && r.stddev == Some(if ss[i].key.text == "STDLINEAR" then 1000000 else NumberOr(ss[i], 1, 1000000))
  }

  ghost predicate ScaleDecided(a: Assignment, ss: seq<Setting>, r: Assignment) {
    && (NoneOf(ss, SCALE_KEY) ==> r.scale == a.scale)
    && forall i {:trigger LastOf(ss, SCALE_KEY, i)} | LastOf(ss, SCALE_KEY, i) ::
      r.scale == Some(NumberOr(ss[i], 0, 0))
  }

  /** A weight that is not given takes the weighting back. */
  ghost predicate WeightDecided(a: Assignment, ss: seq<Setting>, r: Assignment) {
    && (NoneOf(ss, WEIGHT_KEY) ==> r.weighted == a.weighted)
    && (forall i {:trigger LastOf(ss, WEIGHT_KEY, i)} | LastOf(ss, WEIGHT_KEY, i) ::
          r.weighted <==> ss[i].numbers != [])
    && (NeverGiven(ss, "WEIGHT") ==> r.weight == a.weight)
    && forall i {:trigger LastGiven(ss, "WEIGHT", i)} | LastGiven(ss, "WEIGHT", i) :: r.weight == NumberOr(ss[i], 0, 0)
  }

  ghost predicate MaximumDecided(a: Assignment, ss: seq<Setting>, r: Assignment) {
    && (NeverGiven(ss, "MAXIMUM") ==> r.max == a.max)
    && forall i {:trigger LastGiven(ss, "MAXIMUM", i)} | LastGiven(ss, "MAXIMUM", i) :: r.max == NumberOr(ss[i], 0, 0)
  }

  /** r is a, but for what the settings say: for every field the last one that is about it decides. */
  ghost predicate Decided(a: Assignment, ss: seq<Setting>, r: Assignment) {
    && r.name == a.name && r.atype == a.atype
    && PolicyDecided(a, ss, r) && GroupDecided(a, ss, r) && LinearDecided(a, ss, r) && ScaleDecided(a, ss, r)
    && WeightDecided(a, ss, r) && MaximumDecided(a, ss, r)
  }

  /** No setting has too many numbers. */
  predicate Counted(ss: seq<Setting>) {
    forall i {:trigger ss[i]} | 0 <= i < |ss| :: |ss[i].numbers| <= Wanted(ss[i].key.text)
  }

  /** A complaint for each number that is missing, and for a normalization line without words. */
  function Complaints(ss: seq<Setting>): nat
    requires Counted(ss)
  {
    if ss == [] then 0
    else
      Wanted(ss[0].key.text) - |ss[0].numbers| + (if ss[0].key.text == "NORMALIZE" then 1 else 0)
      + Complaints(ss[1..])
  }

  // ----- one setting after the other

  function Set(a: Assignment, s: Setting): (r: Assignment) {
    var key := s.key.text;
    if key == "RAW" then WithPolicy(a, Policy.RAW)
    else if key == "STDLINEAR" then WithPolicy(a, Policy.LINEAR(0, MILLION))
    else if key == "GENLINEAR" then WithPolicy(a, Policy.LINEAR(NumberOr(s, 0, 0), NumberOr(s, 1, MILLION)))
    else if key == "QUANTILE" then WithPolicy(a, Policy.QUANTILE)
    else if key == "SCALE" then WithPolicy(a, Policy.SCALE(NumberOr(s, 0, 0)))
    else if key == "BYCLASS" then a.(group := BYCLASS)
    else if key == "BYSECTION" then a.(group := BYSECTION)
    else if key == "NORMALIZE" then WithPolicy(a, Policy.RAW).(group := BYCLASS)
    else if key == "WEIGHT" then
      if s.numbers == [] then a.(weighted := false) else a.(weighted := true, weight := NumberOr(s, 0, 0))
    else if key == "MAXIMUM" then a.(max := NumberOr(s, 0, a.max))
    else a
  }

  function Applied(a: Assignment, ss: seq<Setting>): Assignment
    decreases |ss|
  {
    if ss == [] then a else Applied(Set(a, ss[0]), ss[1..])
  }

  lemma {:induction false} AppliedMore(a: Assignment, ss: seq<Setting>, more: seq<Setting>)
    ensures Applied(a, ss + more) == Applied(Applied(a, ss), more)
    decreases |ss|
  {
    hide Set;
    if ss == [] {
      assert [] + more == more;
    } else {
      assert (ss + more)[1..] == ss[1..] + more;
      AppliedMore(Set(a, ss[0]), ss[1..], more);
    }
  }

  lemma {:induction false} LastDecides(a: Assignment, ss: seq<Setting>)
    requires forall i {:trigger ss[i]} | 0 <= i < |ss| :: forall k {:trigger ss[i].numbers[k]} |
      0 <= k < |ss[i].numbers| :: ScanFixed(ss[i].numbers[k].text).Some?
    ensures Decided(a, ss, Applied(a, ss))
    decreases |ss|
  {
    hide ScanFixed;
    if ss != [] {
      var s, more, b := ss[0], ss[1..], Set(a, ss[0]);
      LastDecides(b, more);
      DecidedMore(a, b, ss, Applied(b, more));
    }
  }

  lemma DecidedMore(a: Assignment, b: Assignment, ss: seq<Setting>, r: Assignment)
    requires ss != [] && b == Set(a, ss[0]) && Decided(b, ss[1..], r)
    requires forall k {:trigger ss[0].numbers[k]} | 0 <= k < |ss[0].numbers| :: ScanFixed(ss[0].numbers[k].text).Some?
    ensures Decided(a, ss, r)
  {
    hide PolicyDecided, GroupDecided, LinearDecided, ScaleDecided, WeightDecided, MaximumDecided;
    PolicyMore(a, b, ss, r);
    GroupMore(a, b, ss, r);
    LinearMore(a, b, ss, r);
    ScaleMore(a, b, ss, r);
    WeightMore(a, b, ss, r);
    MaximumMore(a, b, ss, r);
  }

  lemma PolicyMore(a: Assignment, b: Assignment, ss: seq<Setting>, r: Assignment)
    requires ss != [] && b == Set(a, ss[0]) && PolicyDecided(b, ss[1..], r)
    ensures PolicyDecided(a, ss, r)
  {
    hide NumberOr, NoneOf, LastOf;
    Later(ss, POLICY_KEYS);
    LastIsOne(ss, POLICY_KEYS);
  }

  lemma GroupMore(a: Assignment, b: Assignment, ss: seq<Setting>, r: Assignment)
    requires ss != [] && b == Set(a, ss[0]) && GroupDecided(b, ss[1..], r)
    ensures GroupDecided(a, ss, r)
  {
    hide NumberOr, NoneOf, LastOf;
    Later(ss, GROUP_KEYS);
    LastIsOne(ss, GROUP_KEYS);
  }

  lemma LinearMore(a: Assignment, b: Assignment, ss: seq<Setting>, r: Assignment)
    requires ss != [] && b == Set(a, ss[0]) && LinearDecided(b, ss[1..], r)
    ensures LinearDecided(a, ss, r)
  {
    hide NumberOr, NoneOf, LastOf;
    Later(ss, LINEAR_KEYS);
    LastIsOne(ss, LINEAR_KEYS);
  }

  lemma ScaleMore(a: Assignment, b: Assignment, ss: seq<Setting>, r: Assignment)
    requires ss != [] && b == Set(a, ss[0]) && ScaleDecided(b, ss[1..], r)
    ensures ScaleDecided(a, ss, r)
  {
    hide NumberOr, NoneOf, LastOf;
    Later(ss, SCALE_KEY);
    LastIsOne(ss, SCALE_KEY);
  }

  lemma WeightMore(a: Assignment, b: Assignment, ss: seq<Setting>, r: Assignment)
    requires ss != [] && b == Set(a, ss[0]) && WeightDecided(b, ss[1..], r)
    ensures WeightDecided(a, ss, r)
  {
    hide NumberOr, NoneOf, LastOf, NeverGiven, LastGiven;
    Later(ss, WEIGHT_KEY);
    LaterGiven(ss, "WEIGHT");
    LastIsOne(ss, WEIGHT_KEY);
    GivenIsOne(ss, "WEIGHT");
  }

  lemma MaximumMore(a: Assignment, b: Assignment, ss: seq<Setting>, r: Assignment)
    requires ss != [] && b == Set(a, ss[0]) && MaximumDecided(b, ss[1..], r)
    requires forall k {:trigger ss[0].numbers[k]} | 0 <= k < |ss[0].numbers| :: ScanFixed(ss[0].numbers[k].text).Some?
    ensures MaximumDecided(a, ss, r)
  {
    hide NoneOf, LastOf, NeverGiven, LastGiven, ScanFixed;
    LaterGiven(ss, "MAXIMUM");
    GivenIsOne(ss, "MAXIMUM");
    assert ss[0].numbers != [] ==> ScanFixed(ss[0].numbers[0].text).Some?;
  }

  lemma LastIsOne(ss: seq<Setting>, keys: seq<string>)
    ensures forall i {:trigger LastOf(ss, keys, i)} | LastOf(ss, keys, i) ::
      0 <= i < |ss| && (i > 0 ==> ss[i] == ss[1..][i - 1])
  {
  }

  lemma GivenIsOne(ss: seq<Setting>, key: string)
    ensures forall i {:trigger LastGiven(ss, key, i)} | LastGiven(ss, key, i) ::
      0 <= i < |ss| && (i > 0 ==> ss[i] == ss[1..][i - 1])
  {
  }

  /** The last one is the last of those behind the first, or the first. */
  lemma Later(ss: seq<Setting>, keys: seq<string>)
    requires ss != []
    ensures NoneOf(ss, keys) <==> ss[0].key.text !in keys && NoneOf(ss[1..], keys)
    ensures forall i {:trigger LastOf(ss, keys, i)} :: LastOf(ss, keys, i) <==>
      (i == 0 && ss[0].key.text in keys && NoneOf(ss[1..], keys)) || (i > 0 && LastOf(ss[1..], keys, i - 1))
  {
    var more := ss[1..];
    assert forall j {:trigger ss[j]} {:trigger more[j - 1]} | 0 < j < |ss| :: ss[j] == more[j - 1];
    assert forall j {:trigger more[j]} | 0 <= j < |more| :: more[j] == ss[j + 1];
  }

  lemma LaterGiven(ss: seq<Setting>, key: string)
    requires ss != []
    ensures NeverGiven(ss, key) <==> (ss[0].key.text != key || ss[0].numbers == []) && NeverGiven(ss[1..], key)
    ensures forall i {:trigger LastGiven(ss, key, i)} :: LastGiven(ss, key, i) <==>
      (i == 0 && ss[0].key.text == key && ss[0].numbers != [] && NeverGiven(ss[1..], key))
      || (i > 0 && LastGiven(ss[1..], key, i - 1))
  {
    var more := ss[1..];
    assert forall j {:trigger ss[j]} {:trigger more[j - 1]} | 0 < j < |ss| :: ss[j] == more[j - 1];
    assert forall j {:trigger more[j]} | 0 <= j < |more| :: more[j] == ss[j + 1];
  }
}

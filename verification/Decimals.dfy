/** Numbers as the grade database writes and reads them: six decimals, held as millionths. */
module Decimals {

  datatype Option<T> = None | Some(value: T)

  const MILLION: int := 1000000

  predicate IsDigit(c: char) {
    '0' <= c <= '9'
  }

  function Digit(d: nat): (c: char)
    requires d < 10
    ensures IsDigit(c) && DigitValue(c) == d
  {
    (48 + d) as char
  }

  function DigitValue(c: char): nat
    requires IsDigit(c)
  {
    c as nat - 48
  }

  // ----- printing: %f

  function Natural(n: nat): (s: string)
    ensures s != "" && forall i | 0 <= i < |s| :: IsDigit(s[i])
  {
    if n < 10 then [Digit(n)] else Natural(n / 10) + [Digit(n % 10)]
  }

  /** The last places digits of n, with leading zeros. */
  function Places(n: nat, places: nat): (s: string)
    ensures |s| == places && forall i | 0 <= i < |s| :: IsDigit(s[i])
  {
    if places == 0 then "" else Places(n / 10, places - 1) + [Digit(n % 10)]
  }

  function Abs(v: int): nat {
    if v < 0 then -v else v
  }

  function PrintFixed(v: int): string {
    (if v < 0 then "-" else "") + Natural(Abs(v) / MILLION) + "." + Places(Abs(v) % MILLION, 6)
  }

  // ----- scanning: sscanf with %f

  /** The number of leading digits. */
  function DigitRun(s: string): (n: nat)
    ensures n <= |s| && (forall i | 0 <= i < n :: IsDigit(s[i])) && (n < |s| ==> !IsDigit(s[n]))
  {
    if s == "" || !IsDigit(s[0]) then 0 else 1 + DigitRun(s[1..])
  }

  function Value(s: string): nat
    requires forall i | 0 <= i < |s| :: IsDigit(s[i])
  {
    if s == "" then 0 else 10 * Value(s[..|s| - 1]) + DigitValue(s[|s| - 1])
  }

  /** The first six decimals as millionths; what follows them is cut off. */
  function Millionths(s: string): nat
    requires forall i | 0 <= i < |s| :: IsDigit(s[i])
    decreases 6 - |s|
  {
    if |s| >= 6 then Value(s[..6]) else Millionths(s + "0")
  }

  /** Digits and a fraction, with at least one digit. */
  function ScanUnsigned(t: string): Option<int> {
    var n := DigitRun(t);
    var point := n < |t| && t[n] == '.';
    var m := if point then DigitRun(t[n + 1..]) else 0;
    if n + m == 0 then None
    else Some(Value(t[..n]) * MILLION + if point then Millionths(t[n + 1..][..m]) else 0)
  }

  /** The number that a token starts with: a sign, digits and a fraction. */
  function ScanFixed(s: string): Option<int> {
    if s != "" && s[0] == '-' then
      match ScanUnsigned(s[1..])
      case None => None
      case Some(v) => Some(-v)
    else if s != "" && s[0] == '+' then ScanUnsigned(s[1..])
    else ScanUnsigned(s)
  }

  // ----- round trip

  lemma {:induction false} NaturalValue(n: nat)
    ensures Value(Natural(n)) == n
  {
    if n >= 10 {
      var s := Natural(n);
      assert s[..|s| - 1] == Natural(n / 10);
      NaturalValue(n / 10);
    } else {
      assert Natural(n)[..0] == "";
    }
  }

  lemma {:induction false} PlacesValue(n: nat, places: nat)
    requires n < Power(places)
    ensures Value(Places(n, places)) == n
  {
    if places > 0 {
      var s := Places(n, places);
      assert s[..|s| - 1] == Places(n / 10, places - 1);
      PlacesValue(n / 10, places - 1);
    }
  }

  function Power(k: nat): nat {
    if k == 0 then 1 else 10 * Power(k - 1)
  }

  lemma {:induction false} RunOfDigits(s: string, t: string)
    requires (forall i | 0 <= i < |s| :: IsDigit(s[i])) && (t != "" ==> !IsDigit(t[0]))
    ensures DigitRun(s + t) == |s|
  {
    if s == "" {
      assert s + t == t;
    } else {
      assert (s + t)[1..] == s[1..] + t;
      RunOfDigits(s[1..], t);
    }
  }

  lemma UnsignedRoundTrip(whole: string, rest: string)
    requires whole != "" && |rest| == 6
    requires (forall i | 0 <= i < |whole| :: IsDigit(whole[i])) && forall i | 0 <= i < 6 :: IsDigit(rest[i])
    ensures ScanUnsigned(whole + "." + rest) == Some(Value(whole) * MILLION + Value(rest))
  {
    hide Value, DigitRun;
    var t := whole + "." + rest;
    assert t == whole + ("." + rest);
    RunOfDigits(whole, "." + rest);
    RunOfDigits(rest, "");
    assert rest + "" == rest;
    Parts(whole, rest);
    SixMillionths(rest);
  }

  lemma Parts(whole: string, rest: string)
    ensures
      var t := whole + "." + rest;
      && t[..|whole|] == whole && t[|whole|] == '.' && t[|whole| + 1..] == rest && rest[..|rest|] == rest
  {
  }

  lemma SixMillionths(rest: string)
    requires |rest| == 6 && forall i | 0 <= i < 6 :: IsDigit(rest[i])
    ensures Millionths(rest) == Value(rest)
  {
    hide Value;
    assert rest[..6] == rest;
  }

  /** What is printed is scanned as the same number. */
  lemma FixedRoundTrip(v: int)
    ensures ScanFixed(PrintFixed(v)) == Some(v)
  {
    hide ScanUnsigned, Natural, Places, Value;
    var whole, rest := Natural(Abs(v) / MILLION), Places(Abs(v) % MILLION, 6);
    var t := whole + "." + rest;
    var s := PrintFixed(v);
    assert v < 0 ==> s == "-" + whole + "." + rest && s[1..] == t;
    assert v >= 0 ==> s == t && t[0] == whole[0];
    UnsignedRoundTrip(whole, rest);
    NaturalValue(Abs(v) / MILLION);
    SixPlaces(Abs(v) % MILLION);
  }

  lemma SixPlaces(n: nat)
    requires n < MILLION
    ensures Value(Places(n, 6)) == n
  {
    assert Power(6) == 10 * Power(5) == 100 * Power(4) == 1000 * Power(3) == 10000 * Power(2);
    assert Power(2) == 10 * Power(1) == 100 * Power(0);
    PlacesValue(n, 6);
  }

  /** A printed number is a word: no blank, separator or line end in it. */
  lemma PrintedChars(v: int)
    ensures PrintFixed(v) != "" && forall i | 0 <= i < |PrintFixed(v)| ::
      IsDigit(PrintFixed(v)[i]) || PrintFixed(v)[i] == '.' || PrintFixed(v)[i] == '-'
  {
  }

  // ----- numbers as anyone may write them

  predicate Digits(s: string) {
    forall i | 0 <= i < |s| :: IsDigit(s[i])
  }

  /** The first digit counts as often as its place says. */
  lemma {:induction false} FirstDigit(s: string)
    requires Digits(s) && s != ""
    ensures Value(s) == DigitValue(s[0]) * Power(|s| - 1) + Value(s[1..])
  {
    var n := |s| - 1;
    if n > 0 {
      FirstDigit(s[..n]);
      assert s[1..][..n - 1] == s[..n][1..];
      assert s[1..][n - 1] == s[n];
      TenTimes(DigitValue(s[0]), Power(n - 1), Value(s[..n][1..]), DigitValue(s[n]));
    }
  }

  lemma TenTimes(a: nat, p: nat, v: nat, d: nat)
    ensures 10 * (a * p + v) + d == a * (10 * p) + (10 * v + d)
  {
  }

  lemma {:induction false} MillionthsOf(s: string)
    requires Digits(s) && |s| <= 6
    ensures Millionths(s) == Value(s) * Power(6 - |s|)
    decreases 6 - |s|
  {
    if |s| == 6 {
      assert s[..6] == s && Power(0) == 1;
    } else {
      var t := s + "0";
      assert Value(t) == 10 * Value(s) by { assert t[..|t| - 1] == s; }
      assert Power(6 - |s|) == 10 * Power(6 - |t|);
      MillionthsOf(t);
      hide Value, Power;
      TenFold(Value(s), Power(6 - |t|));
    }
  }

  lemma TenFold(v: nat, p: nat)
    ensures 10 * v * p == v * (10 * p)
  {
  }

  /** sscanf takes the sign, the digits and up to six decimals, and stops at what follows; s is "", "-" or "+". */
  lemma ScansAs(s: string, whole: string, rest: string)
    requires s in ["", "-", "+"] && Digits(whole) && whole != ""
    requires rest != "" ==> !IsDigit(rest[0]) && rest[0] != '.'
    ensures ScanFixed(s + whole + rest) == Some((if s == "-" then -1 else 1) * (Value(whole) * MILLION))
  {
    hide DigitRun, Value;
    var t := whole + rest;
    assert s + whole + rest == s + t;
    RunOfDigits(whole, rest);
    assert t[..|whole|] == whole && (|whole| < |t| ==> t[|whole|] == rest[0]);
    assert ScanUnsigned(t) == Some(Value(whole) * MILLION);
    Signed(s, t);
  }

  lemma DecimalScansAs(s: string, whole: string, decimals: string, rest: string)
    requires s in ["", "-", "+"] && Digits(whole) && Digits(decimals) && whole + decimals != "" && |decimals| <= 6
    requires rest != "" ==> !IsDigit(rest[0])
    ensures ScanFixed(s + (whole + ("." + (decimals + rest)))) ==
      Some((if s == "-" then -1 else 1) * (Value(whole) * MILLION + Value(decimals) * Power(6 - |decimals|)))
  {
    hide ScanUnsigned, ScanFixed, Value, Power, Digits;
    var t := whole + ("." + (decimals + rest));
    UnsignedScansAs(whole, decimals, rest);
    assert IsDigit(t[0]) || t[0] == '.' by { StartsNumber(whole, "." + (decimals + rest)); }
    Signed(s, t);
  }

  lemma StartsNumber(whole: string, rest: string)
    requires Digits(whole) && rest != "" && rest[0] == '.'
    ensures whole + rest != "" && (IsDigit((whole + rest)[0]) || (whole + rest)[0] == '.')
  {
  }

  lemma UnsignedScansAs(whole: string, decimals: string, rest: string)
    requires Digits(whole) && Digits(decimals) && whole + decimals != "" && |decimals| <= 6
    requires rest != "" ==> !IsDigit(rest[0])
    ensures ScanUnsigned(whole + ("." + (decimals + rest))) ==
      Some(Value(whole) * MILLION + Value(decimals) * Power(6 - |decimals|))
  {
    hide ScanUnsigned, Value, Millionths, Power;
    ScansInParts(whole, decimals, rest);
    MillionthsOf(decimals);
  }

  lemma ScansInParts(whole: string, decimals: string, rest: string)
    requires Digits(whole) && Digits(decimals) && whole + decimals != "" && (rest != "" ==> !IsDigit(rest[0]))
    ensures ScanUnsigned(whole + ("." + (decimals + rest))) == Some(Value(whole) * MILLION + Millionths(decimals))
  {
    hide DigitRun, Value, Millionths;
    var after := decimals + rest;
    var t := whole + ("." + after);
    RunOfDigits(whole, "." + after);
    RunOfDigits(decimals, rest);
    AfterPoint(whole, after);
    assert after[..|decimals|] == decimals;
  }

  lemma AfterPoint(whole: string, after: string)
    ensures
      var t := whole + ("." + after);
      t[..|whole|] == whole && t[|whole|] == '.' && t[|whole| + 1..] == after
  {
  }

  lemma Signed(s: string, t: string)
    requires s in ["", "-", "+"] && ScanUnsigned(t).Some? && t != "" && (IsDigit(t[0]) || t[0] == '.')
    ensures ScanFixed(s + t) == Some((if s == "-" then -1 else 1) * ScanUnsigned(t).value)
  {
    hide ScanUnsigned;
    if s == "" {
      assert s + t == t;
    } else {
      assert (s + t)[1..] == t;
    }
  }
}

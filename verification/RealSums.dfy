/** Finite sums of reals over the members of a set of node numbers below a bound. */
module RealSums {

  /** The sum of f(c) over the members c of s with 0 <= c < n. */
  ghost function SumOver(s: set<int>, n: nat, f: int -> real): real {
    if n == 0 then 0.0
    else SumOver(s, n - 1, f) + (if n - 1 in s then f(n - 1) else 0.0)
  }

  lemma {:induction false} SumCongruent(s: set<int>, t: set<int>, n: nat, f: int -> real, g: int -> real)
    requires forall c | 0 <= c < n :: (c in s <==> c in t) && (c in s ==> f(c) == g(c))
    ensures SumOver(s, n, f) == SumOver(t, n, g)
  {
    if n > 0 {
      SumCongruent(s, t, n - 1, f, g);
    }
  }

  lemma {:induction false} SumMonotone(s: set<int>, n: nat, f: int -> real, g: int -> real)
    requires forall c | 0 <= c < n && c in s :: f(c) <= g(c)
    ensures SumOver(s, n, f) <= SumOver(s, n, g)
  {
    if n > 0 {
      SumMonotone(s, n - 1, f, g);
    }
  }

  lemma {:induction false} SumAdds(s: set<int>, n: nat, f: int -> real, g: int -> real, h: int -> real)
    requires forall c | 0 <= c < n && c in s :: h(c) == f(c) + g(c)
    ensures SumOver(s, n, h) == SumOver(s, n, f) + SumOver(s, n, g)
  {
    if n > 0 {
      SumAdds(s, n - 1, f, g, h);
    }
  }

  lemma {:induction false} SumScales(s: set<int>, n: nat, a: real, f: int -> real, h: int -> real)
    requires forall c | 0 <= c < n && c in s :: h(c) == a * f(c)
    ensures SumOver(s, n, h) == a * SumOver(s, n, f)
  {
    if n > 0 {
      SumScales(s, n - 1, a, f, h);
    }
  }

  /** One member's term can be taken out of the sum. */
  lemma {:induction false} SumExtract(s: set<int>, n: nat, x: int, f: int -> real)
    requires x in s && 0 <= x < n
    ensures SumOver(s, n, f) == f(x) + SumOver(s - {x}, n, f)
  {
    if x == n - 1 {
      SumCongruent(s, s - {x}, n - 1, f, f);
    } else {
      SumExtract(s, n - 1, x, f);
    }
  }

  lemma {:induction false} SumConstant(s: set<int>, n: nat, a: real, f: int -> real)
    requires forall c | c in s :: 0 <= c < n && f(c) == a
    ensures SumOver(s, n, f) == a * (|s| as real)
  {
    if n == 0 {
      assert s == {};
    } else if n - 1 in s {
      SumConstant(s - {n - 1}, n - 1, a, f);
      SumCongruent(s, s - {n - 1}, n - 1, f, f);
    } else {
      SumConstant(s, n - 1, a, f);
    }
  }

  /** Terms that are at least b outside t and at least -b inside t. */
  lemma SumTwoSided(s: set<int>, t: set<int>, n: nat, b: real, f: int -> real)
    requires forall c | c in s :: 0 <= c < n
    requires forall c | c in s && c in t :: f(c) >= -b
    requires forall c | c in s && c !in t :: f(c) >= b
    ensures SumOver(s, n, f) >= Margin(b, |s - t|, |s * t|)
  {
    hide SumOver;
    var g := (c: int) => if c in t then -b else b;
    SumMonotone(s, n, g, f);
    SumSplit(s, t, n, g);
    SumConstant(s * t, n, -b, g);
    SumConstant(s - t, n, b, g);
    MarginParts(b, |s - t|, |s * t|);
  }

  /** p terms of b and q terms of -b. */
  ghost function Margin(b: real, p: int, q: int): real {
    b * (p as real - q as real)
  }

  lemma MarginParts(b: real, p: int, q: int)
    ensures Margin(b, p, q) == b * (p as real) + (-b) * (q as real)
    ensures b > 0.0 && p > q ==> Margin(b, p, q) > 0.0
  {
  }

  lemma {:induction false} SumSplit(s: set<int>, t: set<int>, n: nat, f: int -> real)
    ensures SumOver(s, n, f) == SumOver(s * t, n, f) + SumOver(s - t, n, f)
  {
    if n > 0 {
      SumSplit(s, t, n - 1, f);
    }
  }

  lemma {:induction false} SumConstantZero(s: set<int>, n: nat, f: int -> real)
    requires forall c | 0 <= c < n && c in s :: f(c) == 0.0
    ensures SumOver(s, n, f) == 0.0
  {
    if n > 0 {
      SumConstantZero(s, n - 1, f);
    }
  }

  /** Nonnegative terms, one of them positive. */
  lemma SumPositive(s: set<int>, n: nat, x: int, f: int -> real)
    requires forall c | 0 <= c < n && c in s :: f(c) >= 0.0
    requires x in s && 0 <= x < n && f(x) > 0.0
    ensures SumOver(s, n, f) > 0.0
  {
    SumExtract(s, n, x, f);
    var zero := (c: int) => 0.0;
    SumMonotone(s - {x}, n, zero, f);
    SumConstantZero(s - {x}, n, zero);
  }

  /** A finite nonempty set has an element on which f is largest. */
  lemma {:induction false} ArgMax<T(!new)>(s: set<T>, f: T -> real) returns (x: T)
    requires s != {}
    ensures x in s && forall y | y in s :: f(y) <= f(x)
  {
    x :| x in s;
    if s != {x} {
      var y := ArgMax(s - {x}, f);
      if f(x) < f(y) {
        x := y;
      }
    }
  }
}

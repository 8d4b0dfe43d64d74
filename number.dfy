/** The greatest common divisor that `math.gcd(*data)` computes. */
module Number {

  /** `d` divides `n`; only 0 is a multiple of 0. */
  predicate Divides(d: nat, n: nat)
  {
    if d == 0 then n == 0 else n % d == 0
  }

  /** Euclid's algorithm; gcd(a, 0) == a, as in Python. */
  function Gcd(a: nat, b: nat): (g: nat)
    decreases b
  {
    if b == 0 then a else Gcd(b, a % b)
  }

  /** `math.gcd` over a whole list: 0 for no arguments, and folding in each value. */
  function GcdSeq(s: seq<nat>): (g: nat)
  {
    if |s| == 0 then 0 else Gcd(GcdSeq(s[..|s| - 1]), s[|s| - 1])
  }

  lemma MultipleMod(d: nat, m: int)
    requires d > 0 && m >= 0
    ensures (d * m) % d == 0
  {
    var q, r := (d * m) / d, (d * m) % d;
    var k := m - q;
    assert d * k == r by {
      assert d * m == d * q + r;
      assert d * m - d * q == d * (m - q);
    }
    if k >= 1 {
      assert false;
    } else if k <= -1 {
      assert false;
    }
  }

  /** If `d` divides `a` and `b`, it divides every `a - q*b` that is a natural number. */
  lemma DividesCombination(d: nat, a: nat, b: nat, q: int)
    requires d > 0 && a % d == 0 && b % d == 0
    requires a - q * b >= 0
    ensures (a - q * b) % d == 0
  {
    var x, y := a / d, b / d;
    assert a == d * x;
    assert b == d * y;
    assert a - q * b == d * (x - q * y);
    MultipleMod(d, x - q * y);
  }

  /** Euclid's algorithm returns a common divisor of its arguments. */
  lemma {:induction false} GcdDivides(a: nat, b: nat)
    ensures Divides(Gcd(a, b), a) && Divides(Gcd(a, b), b)
    decreases b
  {
    if b > 0 {
      var r := a % b;
      GcdDivides(b, r);
      EuclidStep(a, b, Gcd(b, r));
    }
  }

  /** A divisor of `b` and of `a % b` divides `a`. */
  lemma EuclidStep(a: nat, b: nat, g: nat)
    requires b > 0 && Divides(g, b) && Divides(g, a % b)
    ensures Divides(g, a)
  {
    var q, r := a / b, a % b;
    assert g > 0;
    assert a == q * b + r;
    DividesCombination(g, r, b, -q);
    assert r - (-q) * b == a;
  }

  /** Every common divisor divides the result of Euclid's algorithm. */
  lemma {:induction false} GcdGreatest(a: nat, b: nat, d: nat)
    requires d > 0 && Divides(d, a) && Divides(d, b)
    ensures Divides(d, Gcd(a, b))
    decreases b
  {
    if b > 0 {
      var r := a % b;
      assert r == a - (a / b) * b;
      DividesCombination(d, a, b, a / b);
      GcdGreatest(b, r, d);
    }
  }

  lemma {:induction false} GcdZero(a: nat, b: nat)
    ensures Gcd(a, b) == 0 <==> a == 0 && b == 0
    decreases b
  {
    if b > 0 {
      GcdDivides(a, b);
    }
  }

  /** The GCD of a list divides every element of it. */
  lemma {:induction false} GcdSeqDivides(s: seq<nat>)
    ensures forall k :: 0 <= k < |s| ==> Divides(GcdSeq(s), s[k])
    decreases |s|
  {
    if |s| > 0 {
      var n := |s| - 1;
      var g0 := GcdSeq(s[..n]);
      var g := Gcd(g0, s[n]);
      GcdSeqDivides(s[..n]);
      GcdDivides(g0, s[n]);
      forall k | 0 <= k < n
        ensures Divides(g, s[k])
      {
        assert Divides(g0, s[..n][k]);
        DividesTransitive(g, g0, s[k]);
      }
    }
  }

  /** The GCD of a list is the greatest common divisor: every common divisor divides it. */
  lemma {:induction false} GcdSeqGreatest(s: seq<nat>, d: nat)
    requires d > 0
    requires forall k :: 0 <= k < |s| ==> Divides(d, s[k])
    ensures Divides(d, GcdSeq(s))
    decreases |s|
  {
    if |s| > 0 {
      var n := |s| - 1;
      assert forall k :: 0 <= k < n ==> s[..n][k] == s[k];
      GcdSeqGreatest(s[..n], d);
      GcdGreatest(GcdSeq(s[..n]), s[n], d);
    }
  }

  /** The GCD of a list is 0 exactly when every element is 0. */
  lemma {:induction false} GcdSeqZero(s: seq<nat>)
    ensures GcdSeq(s) == 0 <==> forall k :: 0 <= k < |s| ==> s[k] == 0
    decreases |s|
  {
    if |s| > 0 {
      var n := |s| - 1;
      GcdSeqZero(s[..n]);
      GcdZero(GcdSeq(s[..n]), s[n]);
      assert forall k :: 0 <= k < n ==> s[..n][k] == s[k];
    }
  }

  lemma DividesTransitive(a: nat, b: nat, c: nat)
    requires Divides(a, b) && Divides(b, c)
    ensures Divides(a, c)
  {
    if a > 0 && b > 0 {
      var x, y := b / a, c / b;
      assert b == a * x;
      assert c == b * y;
      assert c == a * (x * y);
      MultipleMod(a, x * y);
    }
  }

  /** A divisor of a positive number is at most that number. */
  lemma DivisorBound(d: nat, n: nat)
    requires n > 0 && Divides(d, n)
    ensures d <= n
  {
    var q := n / d;
    assert n == d * q;
    assert q >= 1;
  }

  lemma QuotientBelow(a: nat, g: nat)
    requires g > 0
    ensures (a / g) * g <= a
  {
  }

  lemma MulAtLeastTwice(x: nat, g: nat)
    requires g >= 2
    ensures x * g >= 2 * x
  {
    assert x * g == x * 2 + x * (g - 2);
  }

  lemma MulBelow(x: int, g: nat)
    requires g > 0 && x * g < g
    ensures x < 1
  {
    assert x * g == g + (x - 1) * g;
  }

  /** Dividing by more than 1 makes a positive number smaller. */
  lemma DivShrinks(a: nat, g: nat)
    requires a > 0 && g > 1
    ensures a / g < a
  {
    var q := a / g;
    QuotientBelow(a, g);
    MulAtLeastTwice(q, g);
  }

  /** Floor division is monotone in the dividend. */
  lemma DivMonotone(a: nat, b: nat, g: nat)
    requires a <= b && g > 0
    ensures a / g <= b / g
  {
    var qa, qb := a / g, b / g;
    assert qa * g + a % g == a;
    assert qb * g + b % g == b;
    assert (qa - qb) * g < g;
    MulBelow(qa - qb, g);
  }
}

/** Mouse-path synthesis of rsbot/mouse.py: the Pascal's-triangle row
    builder `__pascal_row`, the Bezier evaluator `__make_bezier`, and the
    path generator `__mouse_bez` that draws two random control points,
    samples the cubic curve through them and appends the destination. The
    `choice` and `randint` draws are parameters; the float arithmetic is
    real arithmetic. */
module Bezier {
  import opened Wrappers
  import opened Geometry

  // ---------------------------------------------------------------------
  // binomial coefficients

  /** C(n, k) by Pascal's rule. */
  function Binomial(n: nat, k: nat): nat
  {
    if k == 0 then 1
    else if n == 0 then 0
    else Binomial(n - 1, k - 1) + Binomial(n - 1, k)
  }

  lemma {:induction false} BinomialBeyond(n: nat, k: nat)
    requires k > n
    ensures Binomial(n, k) == 0
    decreases n
  {
    if n > 0 {
      BinomialBeyond(n - 1, k - 1);
      BinomialBeyond(n - 1, k);
    }
  }

  lemma {:induction false} BinomialDiagonal(n: nat)
    ensures Binomial(n, n) == 1
  {
    if n > 0 {
      BinomialDiagonal(n - 1);
      BinomialBeyond(n - 1, n);
    }
  }

  /** (k + 1) C(n, k + 1) = n C(n - 1, k). */
  lemma {:induction false} BinomialAbsorb(n: nat, k: nat)
    requires n >= 1
    ensures (k + 1) * Binomial(n, k + 1) == n * Binomial(n - 1, k)
    decreases n
  {
    var a, b := Binomial(n - 1, k), Binomial(n - 1, k + 1);
    assert Binomial(n, k + 1) == a + b;
    if n == 1 {
      BinomialBeyond(0, k + 1);
      if k > 0 {
        BinomialBeyond(0, k);
      }
    } else if k == 0 {
      BinomialAbsorb(n - 1, 0);
      assert b == n - 1;
    } else {
      BinomialAbsorb(n - 1, k);
      BinomialAbsorb(n - 1, k - 1);
      AbsorbArithmetic(n, k, a, b, Binomial(n - 2, k - 1), Binomial(n - 2, k));
    }
  }

  lemma AbsorbArithmetic(n: int, k: int, a: int, b: int, c: int, d: int)
    requires a == c + d && (k + 1) * b == (n - 1) * d && k * a == (n - 1) * c
    ensures (k + 1) * (a + b) == n * a
  {
    calc {
      (k + 1) * (a + b);
      k * a + a + (k + 1) * b;
      (n - 1) * c + a + (n - 1) * d;
      (n - 1) * (c + d) + a;
      n * a;
    }
  }

  /** (k + 1) C(n, k + 1) = (n - k) C(n, k): multiplying by the numerator
      n - k and dividing by the denominator k + 1 goes from one entry of the
      row to the next without remainder. */
  lemma BinomialStep(n: nat, k: nat)
    requires k < n
    ensures (k + 1) * Binomial(n, k + 1) == (n - k) * Binomial(n, k)
  {
    BinomialAbsorb(n, k);
    if k > 0 {
      BinomialAbsorb(n, k - 1);
      StepArithmetic(n, k, Binomial(n, k), Binomial(n - 1, k - 1), Binomial(n - 1, k));
    }
  }

  lemma StepArithmetic(n: int, k: int, e: int, c: int, d: int)
    requires e == c + d && k * e == n * c
    ensures (n - k) * e == n * d
  {
    calc {
      (n - k) * e;
      n * (c + d) - k * e;
      n * d;
    }
  }

  /** C(n, k) = C(n, n - k). */
  lemma {:induction false} BinomialSymmetric(n: nat, k: nat)
    requires k <= n
    ensures Binomial(n, k) == Binomial(n, n - k)
    decreases n
  {
    if k == 0 {
      BinomialDiagonal(n);
    } else if k == n {
      BinomialDiagonal(n);
    } else {
      BinomialSymmetric(n - 1, k - 1);
      BinomialSymmetric(n - 1, k);
      assert Binomial(n, n - k) == Binomial(n - 1, n - k - 1) + Binomial(n - 1, n - k);
    }
  }

  /** Row n of Pascal's triangle. */
  function BinomialRow(n: nat): seq<int>
  {
    seq(n + 1, k requires 0 <= k <= n => Binomial(n, k))
  }

  function Reversed(s: seq<int>): (r: seq<int>)
    ensures |r| == |s| && forall i :: 0 <= i < |s| ==> r[i] == s[|s| - 1 - i]
  {
    if s == [] then [] else Reversed(s[1..]) + [s[0]]
  }

  lemma ProductAtLeast(d: int, e: int)
    requires d > 0
    ensures e >= 1 ==> d * e >= d
    ensures e <= -1 ==> d * e <= -d
  {
  }

  lemma ExactDivision(a: int, d: int, q: int)
    requires d > 0 && a == d * q
    ensures a / d == q
  {
    var e := a / d - q;
    assert d * e == -(a % d);
    ProductAtLeast(d, e);
  }

  /** `__pascal_row(n)`: the running product `x * numerator / denominator`
      of the source is an exact integer (its float result is modelled as
      the integer it equals). For n >= 0 the row is C(n, 0), ..., C(n, n);
      for negative n the loop is empty and the mirror step gives [1] or
      [1, 1]. Every row reads the same backwards. */
  method PascalRow(n: int) returns (row: seq<int>)
    ensures n >= 0 ==> row == BinomialRow(n)
    ensures n < 0 ==> row == if n % 2 == 0 then [1] else [1, 1]
    ensures forall k :: 0 <= k < |row| ==> row[k] == row[|row| - 1 - k]
  {
    row := [1];
    var x, numerator := 1, n;
    var denominator := 1;
    while denominator <= n / 2
      invariant 1 <= denominator && (n < 2 ==> denominator == 1)
      invariant n >= 2 ==> denominator <= n / 2 + 1
      invariant numerator == n - denominator + 1
      invariant |row| == denominator && row[0] == 1 && x == row[denominator - 1]
      invariant n >= 0 ==> forall k :: 0 <= k < denominator ==> row[k] == Binomial(n, k)
    {
      BinomialStep(n, denominator - 1);
      x := x * numerator;
      ExactDivision(x, denominator, Binomial(n, denominator));
      x := x / denominator;
      row := row + [x];
      numerator := numerator - 1;
      denominator := denominator + 1;
    }
    ghost var half := row;
    if n % 2 == 0 {
      row := row + Reversed(row[..|row| - 1]);
    } else {
      row := row + Reversed(row);
    }
    if n >= 0 {
      MirroredRow(n, half);
    }
    BinomialRowSymmetric(n, row);
  }

  /** The first half of row n, C(n, 0) .. C(n, n / 2), with its mirror
      image appended (without repeating the middle entry when n is even),
      is the whole row. */
  lemma MirroredRow(n: nat, half: seq<int>)
    requires |half| == n / 2 + 1 && forall k :: 0 <= k < |half| ==> half[k] == Binomial(n, k)
    ensures n % 2 == 0 ==> half + Reversed(half[..|half| - 1]) == BinomialRow(n)
    ensures n % 2 == 1 ==> half + Reversed(half) == BinomialRow(n)
  {
    var row := if n % 2 == 0 then half + Reversed(half[..|half| - 1]) else half + Reversed(half);
    forall k | 0 <= k <= n
      ensures row[k] == Binomial(n, k)
    {
      if k >= |half| {
        BinomialSymmetric(n, k);
      }
    }
  }

  /** Every row PascalRow can return reads the same backwards. */
  lemma BinomialRowSymmetric(n: int, row: seq<int>)
    requires n >= 0 ==> row == BinomialRow(n)
    requires n < 0 ==> row == if n % 2 == 0 then [1] else [1, 1]
    ensures forall k :: 0 <= k < |row| ==> row[k] == row[|row| - 1 - k]
  {
    if n >= 0 {
      forall k | 0 <= k < |row|
        ensures row[k] == row[|row| - 1 - k]
      {
        BinomialSymmetric(n, k);
      }
    }
  }

  // ---------------------------------------------------------------------
  // the Bezier evaluator

  function Pow(x: real, n: nat): real
  {
    if n == 0 then 1.0 else x * Pow(x, n - 1)
  }

  /** `coefs` at parameter t, with u = 1 - t: entry i is
      `combinations[i] * t**i * u**(n - 1 - i)`. */
  function Coefficients(combinations: seq<int>, t: real, u: real): (ws: seq<real>)
    ensures |ws| == |combinations|
  {
    CoefficientsUpTo(combinations, t, u, |combinations|)
  }

  /** The first k coefficients. */
  function CoefficientsUpTo(combinations: seq<int>, t: real, u: real, k: nat): (ws: seq<real>)
    requires k <= |combinations|
    ensures |ws| == k
  {
    if k == 0 then [] else CoefficientsUpTo(combinations, t, u, k - 1) + [Coefficient(combinations, t, u, k - 1)]
  }

  function Coefficient(combinations: seq<int>, t: real, u: real, i: nat): real
    requires i < |combinations|
  {
    combinations[i] as real * Pow(t, i) * Pow(u, |combinations| - 1 - i)
  }

  lemma {:induction false} CoefficientAt(combinations: seq<int>, t: real, u: real, k: nat, i: nat)
    requires i < k <= |combinations|
    ensures CoefficientsUpTo(combinations, t, u, k)[i] == Coefficient(combinations, t, u, i)
  {
    if i < k - 1 {
      CoefficientAt(combinations, t, u, k - 1, i);
    }
  }

  /** Entry k of the coefficients of row m is C(m, k) t^k u^(m - k); the
      binomial c and the exponent e are passed in so that callers name them. */
  lemma CoefficientForm(m: nat, t: real, u: real, k: nat, c: int, e: nat)
    requires k <= m && c == Binomial(m, k) && e == m - k
    ensures IsTerm(Coefficients(BinomialRow(m), t, u)[k], c, t, k, u, e)
  {
    var row := BinomialRow(m);
    assert |row| == m + 1 && row[k] == c;
    EntryForm(row, t, u, k, c, e);
  }

  /** w is the term c t^k u^e. */
  ghost predicate IsTerm(w: real, c: int, t: real, k: nat, u: real, e: nat)
  {
    w == c as real * Pow(t, k) * Pow(u, e)
  }

  lemma EntryForm(row: seq<int>, t: real, u: real, k: nat, c: int, e: nat)
    requires k < |row| && row[k] == c && e == |row| - 1 - k
    ensures Coefficients(row, t, u)[k] == c as real * Pow(t, k) * Pow(u, e)
  {
    CoefficientAt(row, t, u, |row|, k);
  }

  /** The sum of the first k entries of ws. */
  function Total(ws: seq<real>, k: nat): real
    requires k <= |ws|
  {
    if k == 0 then 0.0 else Total(ws, k - 1) + ws[k - 1]
  }

  /** `sum(coef * p for coef, p in zip(coefs, ps))` over the first k
      entries of one coordinate column `ps`. */
  function Dot(ws: seq<real>, ps: seq<real>, k: nat): real
    requires |ws| == |ps| && k <= |ps|
  {
    if k == 0 then 0.0 else Dot(ws, ps, k - 1) + ws[k - 1] * ps[k - 1]
  }

  function Xs(pts: seq<Point>): (xs: seq<real>)
    ensures |xs| == |pts|
  {
    seq(|pts|, i requires 0 <= i < |pts| => pts[i].x)
  }

  function Ys(pts: seq<Point>): (ys: seq<real>)
    ensures |ys| == |pts|
  {
    seq(|pts|, i requires 0 <= i < |pts| => pts[i].y)
  }

  /** One point of the inner `bezier(ts)`: both coordinate columns weighted
      by the coefficients at t. */
  function Evaluate(combinations: seq<int>, pts: seq<Point>, t: real): Point
    requires |combinations| == |pts|
  {
    var ws := Coefficients(combinations, t, 1.0 - t);
    Point(Dot(ws, Xs(pts), |pts|), Dot(ws, Ys(pts), |pts|))
  }

  /** The Bezier curve through the control points `pts`, at t. */
  function Curve(pts: seq<Point>, t: real): Point
    requires |pts| > 0
  {
    Evaluate(BinomialRow(|pts| - 1), pts, t)
  }

  /** `__make_bezier(xys)(ts)`: row n - 1 of Pascal's triangle for n control
      points, then one curve point per parameter, in order. */
  method MakeBezier(pts: seq<Point>, ts: seq<real>) returns (result: seq<Point>)
    requires |pts| > 0
    ensures |result| == |ts|
    ensures forall i :: 0 <= i < |ts| ==> result[i] == Curve(pts, ts[i])
  {
    var n := |pts|;
    var combinations := PascalRow(n - 1);
    result := [];
    for i := 0 to |ts|
      invariant |result| == i
      invariant forall j :: 0 <= j < i ==> result[j] == Curve(pts, ts[j])
    {
      result := result + [Evaluate(combinations, pts, ts[i])];
    }
  }

  // ---------------------------------------------------------------------
  // the curve's end points

  lemma {:induction false} PowOne(n: nat)
    ensures Pow(1.0, n) == 1.0
  {
    if n > 0 {
      PowOne(n - 1);
    }
  }

  lemma PowZero(n: nat)
    requires n > 0
    ensures Pow(0.0, n) == 0.0
  {
  }

  /** A weighted sum whose only non-zero weight is a 1 at index j picks
      entry j. */
  lemma {:induction false} DotOfUnit(ws: seq<real>, ps: seq<real>, j: nat, k: nat)
    requires |ws| == |ps| && j < |ws| && k <= |ps|
    requires ws[j] == 1.0 && forall i :: 0 <= i < |ws| && i != j ==> ws[i] == 0.0
    ensures Dot(ws, ps, k) == if k > j then ps[j] else 0.0
  {
    if k > 0 {
      DotOfUnit(ws, ps, j, k - 1);
    }
  }

  /** At t = 0 the weights are 1, 0, ..., 0; at t = 1 they are 0, ..., 0, 1. */
  lemma EndWeights(m: nat)
    ensures var w0, w1 := Coefficients(BinomialRow(m), 0.0, 1.0), Coefficients(BinomialRow(m), 1.0, 0.0);
      && w0[0] == 1.0 && (forall i :: 0 < i <= m ==> w0[i] == 0.0)
      && w1[m] == 1.0 && (forall i :: 0 <= i < m ==> w1[i] == 0.0)
  {
    PowOne(m);
    BinomialDiagonal(m);
    CoefficientForm(m, 0.0, 1.0, 0, 1, m);
    CoefficientForm(m, 1.0, 0.0, m, 1, 0);
    forall i | 0 < i <= m
      ensures Coefficients(BinomialRow(m), 0.0, 1.0)[i] == 0.0
    {
      CoefficientForm(m, 0.0, 1.0, i, Binomial(m, i), m - i);
      PowZero(i);
    }
    forall i | 0 <= i < m
      ensures Coefficients(BinomialRow(m), 1.0, 0.0)[i] == 0.0
    {
      CoefficientForm(m, 1.0, 0.0, i, Binomial(m, i), m - i);
      PowZero(m - i);
    }
  }

  /** The curve starts at the first control point and ends at the last. */
  lemma CurveEnds(pts: seq<Point>)
    requires |pts| > 0
    ensures Curve(pts, 0.0) == pts[0]
    ensures Curve(pts, 1.0) == pts[|pts| - 1]
  {
    var n := |pts|;
    var w0, w1 := Coefficients(BinomialRow(n - 1), 0.0, 1.0), Coefficients(BinomialRow(n - 1), 1.0, 0.0);
    EndWeights(n - 1);
    DotOfUnit(w0, Xs(pts), 0, n);
    DotOfUnit(w0, Ys(pts), 0, n);
    DotOfUnit(w1, Xs(pts), n - 1, n);
    DotOfUnit(w1, Ys(pts), n - 1, n);
  }

  // ---------------------------------------------------------------------
  // the curve stays in the box of its control points for t in [0, 1]

  lemma PowStep(x: real, n: nat)
    requires n >= 1
    ensures Pow(x, n) == x * Pow(x, n - 1)
  {
  }

  lemma StepIdentity(t: real, u: real, c: real, c1: real, c2: real, pk: real, p: real, qk: real, q: real,
                     a: real, b: real, d: real)
    requires c == c1 + c2 && pk == t * p && qk == u * q
    requires a == c * pk * qk && b == c1 * p * qk && d == c2 * pk * q
    ensures a == t * b + u * d
  {
    calc {
      a;
      (c1 + c2) * (t * p) * (u * q);
      t * (c1 * p * (u * q)) + u * (c2 * (t * p) * q);
    }
  }

  /** The closed forms of weight k of row m and of weights k - 1 and k of
      row m - 1, with the binomials c = c1 + c2 of Pascal's rule. */
  lemma RowTerms(m: nat, t: real, u: real, k: nat, c: int, c1: int, c2: int)
    requires 1 <= k < m && c == Binomial(m, k) && c1 == Binomial(m - 1, k - 1) && c2 == Binomial(m - 1, k)
    ensures c == c1 + c2
    ensures |Coefficients(BinomialRow(m), t, u)| == m + 1 && |Coefficients(BinomialRow(m - 1), t, u)| == m
    ensures IsTerm(Coefficients(BinomialRow(m), t, u)[k], c, t, k, u, m - k)
    ensures IsTerm(Coefficients(BinomialRow(m - 1), t, u)[k - 1], c1, t, k - 1, u, m - k)
    ensures IsTerm(Coefficients(BinomialRow(m - 1), t, u)[k], c2, t, k, u, m - 1 - k)
  {
    CoefficientForm(m, t, u, k, c, m - k);
    CoefficientForm(m - 1, t, u, k - 1, c1, m - k);
    CoefficientForm(m - 1, t, u, k, c2, m - 1 - k);
  }

  /** One weight of a row obtained from two of the previous row, given
      their closed forms and Pascal's rule c = c1 + c2. */
  lemma WeightStep(ws: seq<real>, vs: seq<real>, t: real, u: real, m: nat, k: nat, c: int, c1: int, c2: int)
    requires 1 <= k < m && k < |ws| && k < |vs| && c == c1 + c2
    requires IsTerm(ws[k], c, t, k, u, m - k)
    requires IsTerm(vs[k - 1], c1, t, k - 1, u, m - k)
    requires IsTerm(vs[k], c2, t, k, u, m - 1 - k)
    ensures ws[k] == t * vs[k - 1] + u * vs[k]
  {
    PowStep(t, k);
    PowStep(u, m - k);
    StepIdentity(t, u, c as real, c1 as real, c2 as real,
                 Pow(t, k), Pow(t, k - 1), Pow(u, m - k), Pow(u, m - 1 - k), ws[k], vs[k - 1], vs[k]);
  }

  /** The first weight of row m is u times that of row m - 1, and the last
      is t times that of row m - 1. */
  lemma BernsteinEnds(m: nat, t: real, u: real)
    requires m >= 1
    ensures Coefficients(BinomialRow(m), t, u)[0] == u * Coefficients(BinomialRow(m - 1), t, u)[0]
    ensures Coefficients(BinomialRow(m), t, u)[m] == t * Coefficients(BinomialRow(m - 1), t, u)[m - 1]
  {
    BinomialDiagonal(m);
    BinomialDiagonal(m - 1);
    CoefficientForm(m, t, u, 0, 1, m);
    CoefficientForm(m - 1, t, u, 0, 1, m - 1);
    CoefficientForm(m, t, u, m, 1, 0);
    CoefficientForm(m - 1, t, u, m - 1, 1, 0);
    PowStep(u, m);
    PowStep(t, m);
  }

  /** Row ws of weights follows from row vs by Pascal's rule with
      multipliers t and u. */
  ghost predicate PascalRule(ws: seq<real>, vs: seq<real>, t: real, u: real)
  {
    && |vs| >= 1 && |ws| == |vs| + 1
    && ws[0] == u * vs[0]
    && (forall i {:trigger ws[i]} :: 1 <= i < |vs| ==> ws[i] == t * vs[i - 1] + u * vs[i])
    && ws[|vs|] == t * vs[|vs| - 1]
  }

  /** The weights of row m follow from those of row m - 1 by Pascal's rule
      carried to C(m, k) t^k u^(m - k). */
  lemma BernsteinRows(m: nat, t: real, u: real)
    requires m >= 1
    ensures PascalRule(Coefficients(BinomialRow(m), t, u), Coefficients(BinomialRow(m - 1), t, u), t, u)
  {
    var ws, vs := Coefficients(BinomialRow(m), t, u), Coefficients(BinomialRow(m - 1), t, u);
    forall i {:trigger ws[i]} | 1 <= i < m
      ensures ws[i] == t * vs[i - 1] + u * vs[i]
    {
      var c, c1, c2 := Binomial(m, i), Binomial(m - 1, i - 1), Binomial(m - 1, i);
      RowTerms(m, t, u, i, c, c1, c2);
      WeightStep(ws, vs, t, u, m, i, c, c1, c2);
    }
    BernsteinEnds(m, t, u);
  }

  lemma Regroup(t: real, u: real, a0: real, b: real, p0: real, b0: real, p1: real, b1: real)
    requires a0 == t * p0 + u * p1 && b == t * b0 + u * b1
    ensures a0 + b == t * (p0 + b0) + u * (p1 + b1)
  {
  }

  /** The first k weights of a row, split by Pascal's rule. */
  lemma {:induction false} TotalSplit(ws: seq<real>, vs: seq<real>, t: real, u: real, k: nat)
    requires PascalRule(ws, vs, t, u) && 1 <= k <= |vs|
    ensures Total(ws, k) == t * Total(vs, k - 1) + u * Total(vs, k)
  {
    if k == 1 {
      assert Total(vs, 1) == vs[0];
    } else {
      TotalSplit(ws, vs, t, u, k - 1);
      Regroup(t, u, Total(ws, k - 1), ws[k - 1], Total(vs, k - 2), vs[k - 2], Total(vs, k - 1), vs[k - 1]);
    }
  }

  lemma Collect(t: real, u: real, a: real, b: real, w: real)
    requires t + u == 1.0 && b == a + w
    ensures t * a + u * b + t * w == b
  {
  }

  /** Pascal's rule with t + u = 1 keeps the sum of a row. */
  lemma PascalTotal(ws: seq<real>, vs: seq<real>, t: real, u: real)
    requires PascalRule(ws, vs, t, u) && t + u == 1.0
    ensures Total(ws, |ws|) == Total(vs, |vs|)
  {
    var n := |vs|;
    TotalSplit(ws, vs, t, u, n);
    Collect(t, u, Total(vs, n - 1), Total(vs, n), vs[n - 1]);
  }

  /** The binomial theorem for (t + u)^m with t + u = 1: the weights of a
      row sum to 1. */
  lemma {:induction false} WeightsSumToOne(m: nat, t: real, u: real)
    requires t + u == 1.0
    ensures Total(Coefficients(BinomialRow(m), t, u), m + 1) == 1.0
  {
    var ws := Coefficients(BinomialRow(m), t, u);
    if m == 0 {
      CoefficientForm(0, t, u, 0, 1, 0);
      assert Total(ws, 1) == ws[0];
    } else {
      WeightsSumToOne(m - 1, t, u);
      BernsteinRows(m, t, u);
      PascalTotal(ws, Coefficients(BinomialRow(m - 1), t, u), t, u);
    }
  }

  lemma {:induction false} PowNonNegative(x: real, n: nat)
    requires x >= 0.0
    ensures Pow(x, n) >= 0.0
  {
    if n > 0 {
      PowNonNegative(x, n - 1);
      ProductNonNegative(x, Pow(x, n - 1));
    }
  }

  /** With t and u non-negative every weight is non-negative. */
  lemma CoefficientsNonNegative(m: nat, t: real, u: real)
    requires t >= 0.0 && u >= 0.0
    ensures forall i :: 0 <= i <= m ==> Coefficients(BinomialRow(m), t, u)[i] >= 0.0
  {
    forall i | 0 <= i <= m
      ensures Coefficients(BinomialRow(m), t, u)[i] >= 0.0
    {
      var c := Binomial(m, i);
      CoefficientForm(m, t, u, i, c, m - i);
      PowNonNegative(t, i);
      PowNonNegative(u, m - i);
      ProductNonNegative(c as real, Pow(t, i));
      ProductNonNegative(c as real * Pow(t, i), Pow(u, m - i));
    }
  }

  lemma BoundStep(lo: real, hi: real, total: real, sum: real, w: real, x: real)
    requires lo * total <= sum <= hi * total
    requires w >= 0.0 && lo <= x <= hi
    ensures lo * (total + w) <= sum + w * x <= hi * (total + w)
  {
    ProductNonNegative(w, x - lo);
    ProductNonNegative(w, hi - x);
  }

  /** With non-negative weights, a weighted sum of values in [lo, hi] lies
      between lo and hi times the total weight. */
  lemma {:induction false} DotBounded(ws: seq<real>, ps: seq<real>, k: nat, lo: real, hi: real)
    requires |ws| == |ps| && k <= |ps|
    requires forall i :: 0 <= i < |ws| ==> ws[i] >= 0.0
    requires forall i :: 0 <= i < |ps| ==> lo <= ps[i] <= hi
    ensures lo * Total(ws, k) <= Dot(ws, ps, k) <= hi * Total(ws, k)
  {
    if k > 0 {
      DotBounded(ws, ps, k - 1, lo, hi);
      BoundStep(lo, hi, Total(ws, k - 1), Dot(ws, ps, k - 1), ws[k - 1], ps[k - 1]);
    }
  }

  /** A weighted sum with non-negative weights that sum to 1 stays within
      the bounds of the values. */
  lemma ConvexDotBounded(ws: seq<real>, ps: seq<real>, lo: real, hi: real)
    requires |ws| == |ps|
    requires forall i :: 0 <= i < |ws| ==> ws[i] >= 0.0
    requires Total(ws, |ws|) == 1.0
    requires forall i :: 0 <= i < |ps| ==> lo <= ps[i] <= hi
    ensures lo <= Dot(ws, ps, |ps|) <= hi
  {
    DotBounded(ws, ps, |ps|, lo, hi);
  }

  /** For t in [0, 1] the curve lies in every box that holds its control
      points. */
  lemma CurveInBox(pts: seq<Point>, t: real, lo: Point, hi: Point)
    requires |pts| > 0 && 0.0 <= t <= 1.0
    requires forall i :: 0 <= i < |pts| ==> lo.x <= pts[i].x <= hi.x && lo.y <= pts[i].y <= hi.y
    ensures lo.x <= Curve(pts, t).x <= hi.x && lo.y <= Curve(pts, t).y <= hi.y
  {
    var m := |pts| - 1;
    var ws := Coefficients(BinomialRow(m), t, 1.0 - t);
    WeightsSumToOne(m, t, 1.0 - t);
    CoefficientsNonNegative(m, t, 1.0 - t);
    var xs, ys := Xs(pts), Ys(pts);
    ConvexDotBounded(ws, xs, lo.x, hi.x);
    ConvexDotBounded(ws, ys, lo.y, hi.y);
    assert Curve(pts, t) == Point(Dot(ws, xs, |pts|), Dot(ws, ys, |pts|));
  }

  // ---------------------------------------------------------------------
  // the mouse path

  /** `abs(x)` on integers. */
  function Abs(n: int): nat { if n < 0 then -n else n }

  function ToPoint(v: Vertex): Point { Point(v.x as real, v.y as real) }

  /** The draws one call to `__mouse_bez` makes: `choice((-1, 1))` and
      `randint(deviation // 2, deviation)` for x, then y, of the first
      control point, then of the second. */
  datatype ControlDraws = ControlDraws(signs: seq<int>, ks: seq<int>)

  /** Draws the two calls can return: four signs of -1 or 1, and (when
      `randint`'s range is not empty) four integers in the range. */
  predicate DrawsFit(d: ControlDraws, deviation: int)
  {
    && |d.signs| == 4 && |d.ks| == 4
    && (forall i :: 0 <= i < 4 ==> d.signs[i] == -1 || d.signs[i] == 1)
    && (deviation / 2 <= deviation ==> forall i :: 0 <= i < 4 ==> deviation / 2 <= d.ks[i] <= deviation)
  }

  /** `get_ctrl_point(idx)`: the start coordinate moved by a signed
      fraction of the distance to the destination on that axis. The
      positions are integers, so `ceil` leaves them unchanged. */
  function ControlCoord(init: int, fin: int, sign: int, k: int): real
  {
    init as real + sign as real * Abs(fin - init) as real * 0.01 * k as real
  }

  function ControlPoints(init: Vertex, fin: Vertex, d: ControlDraws): (Point, Point)
    requires |d.signs| == 4 && |d.ks| == 4
  {
    (Point(ControlCoord(init.x, fin.x, d.signs[0], d.ks[0]), ControlCoord(init.y, fin.y, d.signs[1], d.ks[1])),
     Point(ControlCoord(init.x, fin.x, d.signs[2], d.ks[2]), ControlCoord(init.y, fin.y, d.signs[3], d.ks[3])))
  }

  /** The curve sampled at each parameter, then the destination. */
  function Path(init: Vertex, fin: Vertex, c1: Point, c2: Point, ts: seq<real>): seq<Point>
  {
    seq(|ts|, i requires 0 <= i < |ts| => Curve([ToPoint(init), c1, c2, ToPoint(fin)], ts[i])) + [ToPoint(fin)]
  }

  /** `randint(deviation // 2, deviation)` on an empty range. */
  datatype BezError = EmptyDeviationRange

  /** `ts = [t / (speed * 100.0) for t in range(speed * 101)]`, as written. */
  function SampleParams(speed: int): seq<real>
  {
    var count := if speed * 101 > 0 then speed * 101 else 0;
    seq(count, t requires 0 <= t < count => t as real / (speed as real * 100.0))
  }

  /** `__mouse_bez(init_pos, fin_pos, deviation, speed)`, as written. */
  function MouseBez(init: Vertex, fin: Vertex, deviation: int, speed: int, d: ControlDraws): Result<seq<Point>, BezError>
    requires DrawsFit(d, deviation)
  {
    if deviation / 2 > deviation then Err(EmptyDeviationRange)
    else
      var cs := ControlPoints(init, fin, d);
      Ok(Path(init, fin, cs.0, cs.1, SampleParams(speed)))
  }

  /** A control coordinate moves the start by |delta| * k / 100 in the drawn
      direction, for any k `randint(deviation // 2, deviation)` can return:
      not at all on an axis where start and destination agree, and by at
      most |delta| * |deviation| / 100 otherwise. */
  lemma ControlCoordOffset(init: int, fin: int, sign: int, k: int, deviation: int)
    requires sign == -1 || sign == 1
    requires deviation / 2 <= k <= deviation
    ensures fin == init ==> ControlCoord(init, fin, sign, k) == init as real
    ensures -(Abs(fin - init) as real) * Abs(deviation) as real / 100.0 <= ControlCoord(init, fin, sign, k) - init as real
            <= Abs(fin - init) as real * Abs(deviation) as real / 100.0
  {
    var delta := Abs(fin - init) as real;
    assert Abs(k) <= Abs(deviation);
    ProductNonNegative(delta, (Abs(deviation) - Abs(k)) as real);
    ProductNonNegative(delta, Abs(k) as real);
    assert ControlCoord(init, fin, sign, k) - init as real == sign as real * (delta * k as real) / 100.0;
  }

  /** What the source promises of the path: it fails only when `randint`'s
      range is empty (deviation below -1); otherwise it has
      max(0, speed * 101) curve samples plus the destination, ends exactly
      at the destination, and (for a positive speed) starts at the start. */
  lemma MouseBezShape(init: Vertex, fin: Vertex, deviation: int, speed: int, d: ControlDraws)
    requires DrawsFit(d, deviation)
    ensures MouseBez(init, fin, deviation, speed, d).Err? <==> deviation < -1
    ensures MouseBez(init, fin, deviation, speed, d).Ok? ==>
      var path := MouseBez(init, fin, deviation, speed, d).value;
      && |path| == (if speed > 0 then speed * 101 else 0) + 1
      && path[|path| - 1] == ToPoint(fin)
      && (speed > 0 ==> path[0] == ToPoint(init))
  {
    if deviation / 2 <= deviation && speed > 0 {
      var cs := ControlPoints(init, fin, d);
      var pts := [ToPoint(init), cs.0, cs.1, ToPoint(fin)];
      CurveEnds(pts);
      assert SampleParams(speed)[0] == 0.0;
    }
  }

  // ---------------------------------------------------------------------
  // the sample parameters leave [0, 1]

  /** For speed >= 2 the last parameter is (speed * 101 - 1) / (speed * 100),
      which is above 1. */
  lemma SampleParamsOvershoot(speed: int)
    requires speed >= 2
    ensures |SampleParams(speed)| == speed * 101
    ensures SampleParams(speed)[speed * 101 - 1] > 1.0
  {
    var a, b := (speed * 101 - 1) as real, speed as real * 100.0;
    assert SampleParams(speed)[speed * 101 - 1] == a / b;
    QuotientAboveOne(a, b);
  }

  lemma QuotientAboveOne(a: real, b: real)
    requires 0.0 < b < a
    ensures a / b > 1.0
  {
    var q := a / b;
    assert q * b == a;
    assert (q - 1.0) * b == a - b;
  }

  /** `move((0, 0), (100, 0), 0, 2)`: with deviation 0 both control points
      are the start, and the sample at t = 201/200 lies at x > 100, past
      the destination, before the path jumps back to it. */
  lemma PathOvershootsDestination()
    ensures var d := ControlDraws([1, 1, 1, 1], [0, 0, 0, 0]);
      var path := MouseBez(Vertex(0, 0), Vertex(100, 0), 0, 2, d).value;
      && MouseBez(Vertex(0, 0), Vertex(100, 0), 0, 2, d).Ok?
      && |path| == 203
      && path[201].x > 100.0
  {
    var d := ControlDraws([1, 1, 1, 1], [0, 0, 0, 0]);
    var o := Point(0.0, 0.0);
    var f := Point(100.0, 0.0);
    var pts := [o, o, o, f];
    var t: real := 201.0 / 200.0;
    assert SampleParams(2)[201] == t;
    var row := BinomialRow(3);
    BinomialDiagonal(3);
    var xs := Xs(pts);
    var ws := Coefficients(row, t, 1.0 - t);
    assert xs[0] == 0.0 && xs[1] == 0.0 && xs[2] == 0.0 && xs[3] == 100.0;
    assert Dot(ws, xs, 1) == 0.0;
    assert Dot(ws, xs, 2) == 0.0;
    assert Dot(ws, xs, 3) == 0.0;
    CoefficientForm(3, t, 1.0 - t, 3, 1, 0);
    assert ws[3] == t * t * t;
    assert Curve(pts, t).x == t * t * t * 100.0;
    assert MouseBez(Vertex(0, 0), Vertex(100, 0), 0, 2, d).value[201] == Curve(pts, t);
  }

  /** The evidently intended parameters: speed * 100 + 1 evenly spaced
      values from 0 to 1 (none for a speed below 1). */
  function IntendedSampleParams(speed: int): seq<real>
  {
    var count := if speed > 0 then speed * 100 + 1 else 0;
    seq(count, t requires 0 <= t < count => t as real / (speed as real * 100.0))
  }

  /** The path built on the intended parameters. */
  function IntendedMouseBez(init: Vertex, fin: Vertex, deviation: int, speed: int, d: ControlDraws): Result<seq<Point>, BezError>
    requires DrawsFit(d, deviation)
  {
    if deviation / 2 > deviation then Err(EmptyDeviationRange)
    else
      var cs := ControlPoints(init, fin, d);
      Ok(Path(init, fin, cs.0, cs.1, IntendedSampleParams(speed)))
  }

  /** For speed >= 1 the intended parameters run from 0 to 1 in
      speed * 100 + 1 steps, all within [0, 1]. */
  lemma IntendedSampleParamsInRange(speed: int)
    requires speed >= 1
    ensures var ts := IntendedSampleParams(speed);
      && |ts| == speed * 100 + 1
      && ts[0] == 0.0 && ts[|ts| - 1] == 1.0
      && forall i :: 0 <= i < |ts| ==> 0.0 <= ts[i] <= 1.0
  {
    var ts := IntendedSampleParams(speed);
    var c := speed as real * 100.0;
    assert (speed * 100) as real == c;
    assert c > 0.0;
    assert ts[speed * 100] == c / c;
    SelfQuotient(c);
    assert ts[0] == 0.0 / c == 0.0;
    forall i | 0 <= i < |ts|
      ensures 0.0 <= ts[i] <= 1.0
    {
      assert ts[i] == i as real / c;
      QuotientInUnit(i as real, c);
    }
  }

  lemma SelfQuotient(c: real)
    requires c > 0.0
    ensures c / c == 1.0
  {
  }

  lemma QuotientInUnit(a: real, c: real)
    requires 0.0 <= a <= c && c > 0.0
    ensures 0.0 <= a / c <= 1.0
  {
    var q := a / c;
    assert q * c == a;
    assert (1.0 - q) * c == c - a;
  }

  /** The intended path has speed * 100 + 2 points, starts at the start,
      reaches the destination with its last curve sample and again with the
      appended point, and never leaves a box that holds the start, the
      destination and both control points. */
  lemma IntendedMouseBezShape(init: Vertex, fin: Vertex, deviation: int, speed: int, d: ControlDraws, lo: Point, hi: Point)
    requires DrawsFit(d, deviation) && deviation >= -1 && speed >= 1
    requires var cs := ControlPoints(init, fin, d);
      forall p :: p in [ToPoint(init), cs.0, cs.1, ToPoint(fin)] ==> lo.x <= p.x <= hi.x && lo.y <= p.y <= hi.y
    ensures IntendedMouseBez(init, fin, deviation, speed, d).Ok?
    ensures var path := IntendedMouseBez(init, fin, deviation, speed, d).value;
      && |path| == speed * 100 + 2
      && path[0] == ToPoint(init)
      && path[|path| - 2] == ToPoint(fin)
      && path[|path| - 1] == ToPoint(fin)
      && forall i :: 0 <= i < |path| ==> lo.x <= path[i].x <= hi.x && lo.y <= path[i].y <= hi.y
  {
    var cs := ControlPoints(init, fin, d);
    var pts := [ToPoint(init), cs.0, cs.1, ToPoint(fin)];
    var ts := IntendedSampleParams(speed);
    var path := IntendedMouseBez(init, fin, deviation, speed, d).value;
    IntendedSampleParamsInRange(speed);
    CurveEnds(pts);
    forall i | 0 <= i < |path|
      ensures lo.x <= path[i].x <= hi.x && lo.y <= path[i].y <= hi.y
    {
      if i < |ts| {
        assert pts[0] in pts && pts[1] in pts && pts[2] in pts && pts[3] in pts;
        CurveInBox(pts, ts[i], lo, hi);
      } else {
        assert pts[3] in pts;
      }
    }
  }
}

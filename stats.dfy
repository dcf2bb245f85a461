/** Column statistics as pandas computes them on exact reals: the mean and
    the sample variance (`Series.std()` squared, with `ddof=1`), together with
    Samuelson's bound on how far one value can lie from the mean. */
module Stats {

  function Sum(xs: seq<real>): real {
    if |xs| == 0 then 0.0 else Sum(xs[..|xs| - 1]) + xs[|xs| - 1]
  }

  /** `a ≤ l·q`, named so that the solver matches it as a whole instead of
      re-deriving the product. */
  predicate AtMost(a: real, l: real, q: real) {
    a <= l * q
  }

  function Sq(x: real): real {
    x * x
  }

  /** The sum of the squares. */
  function SumSq(xs: seq<real>): real {
    if |xs| == 0 then 0.0 else SumSq(xs[..|xs| - 1]) + Sq(xs[|xs| - 1])
  }

  /** `Series.mean()` */
  function Mean(xs: seq<real>): real
    requires |xs| > 0
  {
    Sum(xs) / (|xs| as real)
  }

  /** The deviations from `m`. */
  function Dev(xs: seq<real>, m: real): (ds: seq<real>)
    ensures |ds| == |xs| && forall i :: 0 <= i < |xs| ==> ds[i] == xs[i] - m
  {
    seq(|xs|, i requires 0 <= i < |xs| => xs[i] - m)
  }

  /** `Series.std() ** 2`: the sum of squared deviations over n - 1. */
  function Variance(xs: seq<real>): real
    requires |xs| >= 2
  {
    SumSq(Dev(xs, Mean(xs))) / ((|xs| - 1) as real)
  }

  /** `Series.abs()` */
  function Abs(xs: seq<real>): (ys: seq<real>)
    ensures |ys| == |xs| && forall i :: 0 <= i < |xs| ==> ys[i] == if xs[i] < 0.0 then -xs[i] else xs[i]
  {
    seq(|xs|, i requires 0 <= i < |xs| => if xs[i] < 0.0 then -xs[i] else xs[i])
  }

  lemma {:induction false} SumAppend(a: seq<real>, b: seq<real>)
    ensures Sum(a + b) == Sum(a) + Sum(b)
    decreases |b|
  {
    if |b| == 0 {
      assert a + b == a;
    } else {
      assert (a + b)[..|a + b| - 1] == a + b[..|b| - 1];
      SumAppend(a, b[..|b| - 1]);
    }
  }

  lemma {:induction false} SumSqAppend(a: seq<real>, b: seq<real>)
    ensures SumSq(a + b) == SumSq(a) + SumSq(b)
    decreases |b|
  {
    if |b| == 0 {
      assert a + b == a;
    } else {
      assert (a + b)[..|a + b| - 1] == a + b[..|b| - 1];
      SumSqAppend(a, b[..|b| - 1]);
    }
  }

  /** The deviations from the mean sum to zero. */
  lemma {:induction false} DevSum(xs: seq<real>, m: real)
    ensures Sum(Dev(xs, m)) == Sum(xs) - (|xs| as real) * m
  {
    if |xs| > 0 {
      var n := |xs| - 1;
      DevSum(xs[..n], m);
      assert Dev(xs, m)[..n] == Dev(xs[..n], m);
    }
  }

  /** Every value of a constant column is its mean. */
  lemma {:induction false} ConstantSum(xs: seq<real>, c: real)
    requires forall i :: 0 <= i < |xs| ==> xs[i] == c
    ensures Sum(xs) == (|xs| as real) * c
  {
    if |xs| > 0 {
      ConstantSum(xs[..|xs| - 1], c);
    }
  }

  lemma ConstantMean(xs: seq<real>, c: real)
    requires |xs| > 0 && forall i :: 0 <= i < |xs| ==> xs[i] == c
    ensures Mean(xs) == c
  {
    ConstantSum(xs, c);
  }

  lemma {:induction false} SumSqNonNegative(xs: seq<real>)
    ensures SumSq(xs) >= 0.0
  {
    if |xs| > 0 {
      var x := xs[|xs| - 1];
      SumSqNonNegative(xs[..|xs| - 1]);
      assert Sq(x) >= 0.0 by { if x < 0.0 { assert Sq(x) == (-x) * (-x); } }
    }
  }

  lemma VarianceNonNegative(xs: seq<real>)
    requires |xs| >= 2
    ensures Variance(xs) >= 0.0
  {
    SumSqNonNegative(Dev(xs, Mean(xs)));
  }

  /** A constant column has zero variance. */
  lemma ConstantVariance(xs: seq<real>, c: real)
    requires |xs| >= 2 && forall i :: 0 <= i < |xs| ==> xs[i] == c
    ensures Mean(xs) == c && Variance(xs) == 0.0
  {
    ConstantMean(xs, c);
    ZeroSumSq(Dev(xs, c));
  }

  lemma {:induction false} ZeroSumSq(ds: seq<real>)
    requires forall i :: 0 <= i < |ds| ==> ds[i] == 0.0
    ensures SumSq(ds) == 0.0
  {
    if |ds| > 0 {
      ZeroSumSq(ds[..|ds| - 1]);
      assert Sq(ds[|ds| - 1]) == 0.0;
    }
  }

  /** Values within `[lo, hi]` sum to between `n·lo` and `n·hi`. */
  lemma {:induction false} SumBounds(xs: seq<real>, lo: real, hi: real)
    requires forall i :: 0 <= i < |xs| ==> lo <= xs[i] <= hi
    ensures (|xs| as real) * lo <= Sum(xs) <= (|xs| as real) * hi
  {
    if |xs| > 0 {
      SumBounds(xs[..|xs| - 1], lo, hi);
    }
  }

  /** The mean lies between any lower and upper bound of the values. */
  lemma MeanWithinBounds(xs: seq<real>, lo: real, hi: real)
    requires |xs| > 0 && forall i :: 0 <= i < |xs| ==> lo <= xs[i] <= hi
    ensures lo <= Mean(xs) <= hi
  {
    SumBounds(xs, lo, hi);
    DivideBounds(Sum(xs), |xs| as real, lo, hi);
  }

  lemma DivideBounds(s: real, n: real, lo: real, hi: real)
    requires n > 0.0 && n * lo <= s <= n * hi
    ensures lo <= s / n <= hi
  {
    assert s / n * n == s;
    assert (s / n - lo) * n >= 0.0;
    assert (hi - s / n) * n >= 0.0;
  }

  /** The Cauchy-Schwarz inequality for a sum: `(Σ y)² ≤ n · Σ y²`. */
  lemma {:induction false} SumSquareBound(ys: seq<real>)
    ensures Sq(Sum(ys)) <= (|ys| as real) * SumSq(ys)
  {
    if |ys| == 1 {
      assert ys[..0] == [];
    } else if |ys| > 1 {
      var init := ys[..|ys| - 1];
      var y := ys[|ys| - 1];
      SumSquareBound(init);
      SumSqNonNegative(init);
      CrossTerm(Sum(init), SumSq(init), |init| as real, y);
    }
  }

  /** The inductive step: `(s + y)² ≤ (l + 1)(q + y²)` given `s² ≤ l·q`. */
  lemma CrossTerm(s: real, q: real, l: real, y: real)
    requires l > 0.0 && q >= 0.0 && Sq(s) <= l * q
    ensures Sq(s + y) <= (l + 1.0) * (q + Sq(y))
  {
    // 2·s·y ≤ l·y² + q, from (l·y - s)² ≥ 0.
    var d := l * y - s;
    assert d * d >= 0.0;
    assert l * l * y * y - 2.0 * l * s * y + s * s >= 0.0 by {
      assert d * d == l * l * y * y - 2.0 * l * s * y + s * s;
    }
    assert 2.0 * l * s * y <= l * l * y * y + l * q;
    assert l * (2.0 * s * y) <= l * (l * y * y + q);
    assert 2.0 * s * y <= l * y * y + q;
  }

  /** Samuelson's inequality: `n · (x_i - m)² ≤ (n - 1) · Σ (x_j - m)²`. */
  lemma Samuelson(xs: seq<real>, i: nat)
    requires i < |xs|
    ensures var m := Mean(xs);
            (|xs| as real) * Sq(xs[i] - m) <= ((|xs| as real) - 1.0) * SumSq(Dev(xs, m))
  {
    DevSumZero(xs);
    CenteredBound(Dev(xs, Mean(xs)), i);
  }

  /** Samuelson's inequality in terms of the sample variance:
      `n · (x_i - m)² ≤ (n - 1)² · var`. */
  lemma SamuelsonVariance(xs: seq<real>, i: nat)
    requires 2 <= |xs| && i < |xs|
    ensures (|xs| as real) * Sq(xs[i] - Mean(xs)) <= ((|xs| as real) - 1.0) * ((|xs| as real) - 1.0) * Variance(xs)
  {
    Samuelson(xs, i);
    var c := (|xs| as real) - 1.0;
    var ss := SumSq(Dev(xs, Mean(xs)));
    ScaleBound((|xs| as real) * Sq(xs[i] - Mean(xs)), c, ss);
  }

  /** `a ≤ c·s` with `c > 0` gives `a ≤ c·c·(s / c)`. */
  lemma ScaleBound(a: real, c: real, ss: real)
    requires c > 0.0 && a <= c * ss
    ensures a <= c * c * (ss / c)
  {
    assert c * (ss / c) == ss;
  }

  /** For values summing to zero, `n · d_i² ≤ (n - 1) · Σ d²`. */
  lemma CenteredBound(ds: seq<real>, i: nat)
    requires i < |ds| && Sum(ds) == 0.0
    ensures (|ds| as real) * Sq(ds[i]) <= ((|ds| as real) - 1.0) * SumSq(ds)
  {
    var n, dd, q := |ds| as real, Sq(ds[i]), SumSq(ds);
    RemoveOne(ds, i);
    SamuelsonStep(dd, q - dd, q, n);
  }

  /** Taking out the element at `i` of values summing to zero: the other
      `n - 1` values sum to `-ds[i]`, so by Cauchy-Schwarz
      `ds[i]² ≤ (n - 1) · (Σ d² - ds[i]²)`. */
  lemma RemoveOne(ds: seq<real>, i: nat)
    requires i < |ds| && Sum(ds) == 0.0
    ensures AtMost(Sq(ds[i]), (|ds| as real) - 1.0, SumSq(ds) - Sq(ds[i]))
  {
    var rest := ds[..i] + ds[i + 1..];
    assert Sum(rest) == -ds[i] by { RemoveOneSum(ds, i); }
    assert SumSq(rest) == SumSq(ds) - Sq(ds[i]) by { RemoveOneSumSq(ds, i); }
    CauchySchwarzAt(rest, ds[i], SumSq(ds) - Sq(ds[i]), (|ds| as real) - 1.0);
  }

  /** `SumSquareBound` for values summing to `-s`, with the sum of squares
      and the length named. */
  lemma CauchySchwarzAt(ys: seq<real>, s: real, q: real, l: real)
    requires -s == Sum(ys) && q == SumSq(ys) && l == |ys| as real
    ensures AtMost(Sq(s), l, q)
  {
    SumSquareBound(ys);
    assert Sq(-s) == Sq(s);
  }

  /** The deviations from the mean sum to zero. */
  lemma DevSumZero(xs: seq<real>)
    requires |xs| > 0
    ensures Sum(Dev(xs, Mean(xs))) == 0.0
  {
    var n := |xs| as real;
    DevSum(xs, Mean(xs));
    assert n * (Sum(xs) / n) == Sum(xs);
  }

  /** `dd ≤ (n-1)(q - dd)` rearranged. */
  lemma SamuelsonStep(dd: real, r: real, q: real, n: real)
    requires r == q - dd && AtMost(dd, n - 1.0, r)
    ensures n * dd <= (n - 1.0) * q
  {
    assert (n - 1.0) * r == (n - 1.0) * q - (n - 1.0) * dd;
    assert n * dd == dd + (n - 1.0) * dd;
  }

  lemma RemoveOneSum(ds: seq<real>, i: nat)
    requires i < |ds|
    ensures Sum(ds[..i] + ds[i + 1..]) == Sum(ds) - ds[i]
  {
    var a, d, b := ds[..i], ds[i], ds[i + 1..];
    assert ds[..i + 1] == a + [d];
    assert ds == ds[..i + 1] + b;
    SumAppend(a + [d], b);
    SumAppend(a, [d]);
    SumAppend(a, b);
    assert [d][..0] == [];
  }

  lemma RemoveOneSumSq(ds: seq<real>, i: nat)
    requires i < |ds|
    ensures SumSq(ds[..i] + ds[i + 1..]) == SumSq(ds) - Sq(ds[i])
  {
    var a, d, b := ds[..i], ds[i], ds[i + 1..];
    assert ds[..i + 1] == a + [d];
    assert ds == ds[..i + 1] + b;
    SumSqAppend(a + [d], b);
    SumSqAppend(a, [d]);
    SumSqAppend(a, b);
    assert [d][..0] == [];
  }
}

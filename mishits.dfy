/** The mishit classifier of docker/app.py `remove_mishits`: for every club
    with at least three rows, five strict outlier tests against the club's
    mean and sample standard deviation, on exact reals. The square root is
    avoided by squaring: `x < m - k·s` is `m - x > 0 ∧ (m - x)² > k²·var`
    (lemma `BelowIsThreshold`), and the upper and side tests likewise. */
module Mishits {
  import opened Sorting
  import opened Stats
  import opened ShotRows

  /** `x < m - k·s`, written with `k2 = k²` and `v = s²`. */
  predicate Below(x: real, m: real, k2: real, v: real) {
    m - x > 0.0 && Sq(m - x) > k2 * v
  }

  /** `x > m + k·s`, written with `k2 = k²` and `v = s²`. */
  predicate Above(x: real, m: real, k2: real, v: real) {
    x - m > 0.0 && Sq(x - m) > k2 * v
  }

  /** (2 σ)² and (2.5 σ)² */
  const TwoSigma: real := 4.0
  const TwoAndHalfSigma: real := 6.25

  function AbsValue(x: real): real { if x < 0.0 then -x else x }

  /** Test `metric` of `remove_mishits` on value `x` of group `g`:
      carry below m - 2s or above m + 2.5s; launch and spin outside m ± 2.5s;
      speed below m - 2s; |side| above mean|side| + 2·std(side). */
  predicate Outlier(g: seq<Row>, metric: Metric, x: real)
    requires |g| >= 2
  {
    var c := Column(g, metric);
    var m := Mean(c);
    var v := Variance(c);
    match metric
    case Carry => Below(x, m, TwoSigma, v) || Above(x, m, TwoAndHalfSigma, v)
    case Launch => Below(x, m, TwoAndHalfSigma, v) || Above(x, m, TwoAndHalfSigma, v)
    case Speed => Below(x, m, TwoSigma, v)
    case Spin => Below(x, m, TwoAndHalfSigma, v) || Above(x, m, TwoAndHalfSigma, v)
    case Side => Above(AbsValue(x), Mean(Abs(c)), TwoSigma, v)
  }

  /** Row `r` of club group `g` fails one of the tests whose column is present. */
  predicate Flagged(g: seq<Row>, columns: set<Metric>, r: Row)
    requires |g| >= 2
  {
    (Carry in columns && Outlier(g, Carry, r.rec.carry))
    || (Launch in columns && Outlier(g, Launch, r.rec.launch))
    || (Speed in columns && Outlier(g, Speed, r.rec.speed))
    || (Spin in columns && Outlier(g, Spin, r.rec.spin))
    || (Side in columns && Outlier(g, Side, r.rec.side))
  }

  /** `df[df['Club'] == club]` */
  function ClubRows(rows: seq<Row>, club: string): seq<Row> {
    Filter(rows, ClubIs(club))
  }

  function ClubIs(club: string): Row -> bool {
    (r: Row) => r.rec.club == club
  }

  /** `df['Club'].unique()`: the clubs in order of first appearance. */
  function Clubs(rows: seq<Row>): (cs: seq<string>)
    ensures forall k, l :: 0 <= k < l < |cs| ==> cs[k] != cs[l]
    ensures forall c :: c in cs <==> exists r :: r in rows && r.rec.club == c
  {
    if |rows| == 0 then []
    else
      var init := Clubs(rows[..|rows| - 1]);
      var c := rows[|rows| - 1].rec.club;
      assert forall r :: r in rows <==> r in rows[..|rows| - 1] || r == rows[|rows| - 1];
      if c in init then init else init + [c]
  }

  /** The ids `remove_mishits` collects: every row of a club with at least
      three rows that fails a test against its club. */
  function Mishits(rows: seq<Row>, columns: set<Metric>): set<int> {
    set r | r in rows && |ClubRows(rows, r.rec.club)| >= 3 && Flagged(ClubRows(rows, r.rec.club), columns, r)
      :: r.rowId
  }

  /** The ids flagged within one club group. */
  function GroupMishits(g: seq<Row>, columns: set<Metric>): set<int>
    requires |g| >= 2
  {
    set r | r in g && Flagged(g, columns, r) :: r.rowId
  }

  /** The rows of test `metric` in group `g`, as one comprehension of the source. */
  function TestHits(g: seq<Row>, metric: Metric): set<int>
    requires |g| >= 2
  {
    set r | r in g && Outlier(g, metric, Value(r, metric)) :: r.rowId
  }

  /** One club of the loop: the five `if column in club_data.columns` blocks,
      each adding its comprehension's ids. */
  method GroupTests(g: seq<Row>, columns: set<Metric>) returns (flagged: set<int>)
    requires |g| >= 3
    ensures flagged == GroupMishits(g, columns)
  {
    flagged := {};
    if Carry in columns {
      flagged := flagged + TestHits(g, Carry);
    }
    assert flagged == Picked(g, columns, Carry);
    if Launch in columns {
      flagged := flagged + TestHits(g, Launch);
    }
    assert flagged == Picked(g, columns, Carry) + Picked(g, columns, Launch);
    if Speed in columns {
      flagged := flagged + TestHits(g, Speed);
    }
    assert flagged == Picked(g, columns, Carry) + Picked(g, columns, Launch) + Picked(g, columns, Speed);
    if Spin in columns {
      flagged := flagged + TestHits(g, Spin);
    }
    if Side in columns {
      flagged := flagged + TestHits(g, Side);
    }
    GroupMishitsByTest(g, columns);
  }

  /** The hits of test `metric` when its column is present, else none. */
  function Picked(g: seq<Row>, columns: set<Metric>, metric: Metric): set<int>
    requires |g| >= 2
  {
    if metric in columns then TestHits(g, metric) else {}
  }

  lemma GroupMishitsByTest(g: seq<Row>, columns: set<Metric>)
    requires |g| >= 2
    ensures GroupMishits(g, columns)
         == Picked(g, columns, Carry) + Picked(g, columns, Launch) + Picked(g, columns, Speed)
          + Picked(g, columns, Spin) + Picked(g, columns, Side)
  {
    var rhs := Picked(g, columns, Carry) + Picked(g, columns, Launch) + Picked(g, columns, Speed)
             + Picked(g, columns, Spin) + Picked(g, columns, Side);
    forall id | id in GroupMishits(g, columns) ensures id in rhs {
      var r :| r in g && Flagged(g, columns, r) && r.rowId == id;
      TestsOfFlagged(g, columns, r);
    }
    forall id | id in rhs ensures id in GroupMishits(g, columns) {
      if id in Picked(g, columns, Carry) {
        FlaggedOfTest(g, columns, Carry, id);
      } else if id in Picked(g, columns, Launch) {
        FlaggedOfTest(g, columns, Launch, id);
      } else if id in Picked(g, columns, Speed) {
        FlaggedOfTest(g, columns, Speed, id);
      } else if id in Picked(g, columns, Spin) {
        FlaggedOfTest(g, columns, Spin, id);
      } else {
        FlaggedOfTest(g, columns, Side, id);
      }
    }
  }

  /** A flagged row is a hit of one of the tests whose column is present. */
  lemma TestsOfFlagged(g: seq<Row>, columns: set<Metric>, r: Row)
    requires |g| >= 2 && r in g && Flagged(g, columns, r)
    ensures r.rowId in Picked(g, columns, Carry) + Picked(g, columns, Launch) + Picked(g, columns, Speed)
                     + Picked(g, columns, Spin) + Picked(g, columns, Side)
  {
    var m :| m in columns && Outlier(g, m, Value(r, m));
    assert r.rowId in Picked(g, columns, m);
  }

  /** A hit of a test whose column is present is a flagged row of the group. */
  lemma FlaggedOfTest(g: seq<Row>, columns: set<Metric>, m: Metric, id: int)
    requires |g| >= 2 && id in Picked(g, columns, m)
    ensures id in GroupMishits(g, columns)
  {
    var r :| r in g && Outlier(g, m, Value(r, m)) && r.rowId == id;
    assert Flagged(g, columns, r);
  }

  /** `remove_mishits`' loop over `df['Club'].unique()`, skipping clubs with
      fewer than three rows. */
  method FindMishits(rows: seq<Row>, columns: set<Metric>) returns (flagged: set<int>)
    ensures flagged == Mishits(rows, columns)
  {
    var clubs := Clubs(rows);
    flagged := {};
    for i := 0 to |clubs|
      invariant flagged == ClubsMishits(rows, columns, clubs[..i])
    {
      var g := ClubRows(rows, clubs[i]);
      assert clubs[..i + 1] == clubs[..i] + [clubs[i]];
      ClubsMishitsStep(rows, columns, clubs[..i], clubs[i]);
      if |g| < 3 {
        continue;
      }
      var hits := GroupTests(g, columns);
      flagged := flagged + hits;
    }
    assert clubs[..|clubs|] == clubs;
    AllClubsMishits(rows, columns);
  }

  /** The ids flagged within the listed clubs. */
  function ClubsMishits(rows: seq<Row>, columns: set<Metric>, cs: seq<string>): set<int> {
    set r | r in rows && r.rec.club in cs && |ClubRows(rows, r.rec.club)| >= 3
              && Flagged(ClubRows(rows, r.rec.club), columns, r) :: r.rowId
  }

  lemma ClubsMishitsStep(rows: seq<Row>, columns: set<Metric>, cs: seq<string>, c: string)
    ensures ClubsMishits(rows, columns, cs + [c])
         == ClubsMishits(rows, columns, cs)
          + (if |ClubRows(rows, c)| >= 3 then GroupMishits(ClubRows(rows, c), columns) else {})
  {
    var g := ClubRows(rows, c);
    forall r | r in g ensures r in rows && r.rec.club == c {
      var k :| 0 <= k < |g| && g[k] == r;
    }
    forall r | r in rows && r.rec.club == c ensures r in g {
      var k :| 0 <= k < |rows| && rows[k] == r;
    }
  }

  lemma AllClubsMishits(rows: seq<Row>, columns: set<Metric>)
    ensures ClubsMishits(rows, columns, Clubs(rows)) == Mishits(rows, columns)
  {
  }

  // ---------------------------------------------------------------------
  // The squared tests are the source's thresholds.

  /** For `k, s ≥ 0`: `m - x > 0 ∧ (m - x)² > k²s²` iff `x < m - k·s`. */
  lemma BelowIsThreshold(x: real, m: real, k: real, s: real)
    requires k >= 0.0 && s >= 0.0
    ensures Below(x, m, k * k, s * s) <==> x < m - k * s
  {
    SquareOrder(m - x, k * s);
  }

  /** For `k, s ≥ 0`: `x - m > 0 ∧ (x - m)² > k²s²` iff `x > m + k·s`. */
  lemma AboveIsThreshold(x: real, m: real, k: real, s: real)
    requires k >= 0.0 && s >= 0.0
    ensures Above(x, m, k * k, s * s) <==> x > m + k * s
  {
    SquareOrder(x - m, k * s);
  }

  /** For `b ≥ 0`: `a > 0 ∧ a² > (k·s)²` iff `a > b`, with `b = k·s`. */
  lemma SquareOrder(a: real, b: real)
    requires b >= 0.0
    ensures (a > 0.0 && Sq(a) > b * b) <==> a > b
  {
    if a > b {
      assert Sq(a) - b * b == (a - b) * (a + b);
      PositiveProduct(a - b, a + b);
    } else if a > 0.0 {
      assert b * b - Sq(a) == (b - a) * (b + a);
      NonNegativeProduct(b - a, b + a);
    }
  }

  lemma PositiveProduct(a: real, b: real)
    requires a > 0.0 && b > 0.0
    ensures a * b > 0.0
  {
  }

  lemma NonNegativeProduct(a: real, b: real)
    requires a >= 0.0 && b >= 0.0
    ensures a * b >= 0.0
  {
  }

  // ---------------------------------------------------------------------
  // Samuelson's bound limits what small clubs can flag.

  /** A value of a column lies beyond `k` standard deviations of its mean
      only if `n·k² < (n - 1)²`. */
  lemma DeviationNeedsRows(c: seq<real>, i: nat, k2: real)
    requires 2 <= |c| && i < |c|
    ensures var n := |c| as real;
            (Below(c[i], Mean(c), k2, Variance(c)) || Above(c[i], Mean(c), k2, Variance(c)))
              ==> n * k2 < (n - 1.0) * (n - 1.0)
  {
    var n := |c| as real;
    var m := Mean(c);
    var v := Variance(c);
    if Below(c[i], m, k2, v) || Above(c[i], m, k2, v) {
      SamuelsonVariance(c, i);
      VarianceNonNegative(c);
      assert Sq(m - c[i]) == Sq(c[i] - m);
      SpreadBound(n, k2, Sq(c[i] - m), (n - 1.0) * (n - 1.0), v);
    }
  }

  /** From `n·q ≤ c·v` and `q > k2·v` with `n > 0`, `v ≥ 0`: `n·k2 < c`. */
  lemma SpreadBound(n: real, k2: real, q: real, c: real, v: real)
    requires n > 0.0 && v >= 0.0 && n * q <= c * v && q > k2 * v
    ensures n * k2 < c
  {
    assert n * (k2 * v) < n * q;
    assert (c - n * k2) * v == c * v - n * (k2 * v);
    PositiveFactor(c - n * k2, v);
  }

  lemma PositiveFactor(a: real, v: real)
    requires a * v > 0.0 && v >= 0.0
    ensures a > 0.0
  {
  }

  /** `(n - 1)² ≤ 4n` for `1 ≤ n ≤ 5`, and `(n - 1)² ≤ 6.25·n` for `1 ≤ n ≤ 8`. */
  lemma FewRowsArithmetic(n: nat)
    requires n >= 1
    ensures n <= 5 ==> ((n as real) - 1.0) * ((n as real) - 1.0) <= (n as real) * TwoSigma
    ensures n <= 8 ==> ((n as real) - 1.0) * ((n as real) - 1.0) <= (n as real) * TwoAndHalfSigma
  {
    if n == 1 {
    } else if n == 2 {
    } else if n == 3 {
    } else if n == 4 {
    } else if n == 5 {
    } else if n == 6 {
    } else if n == 7 {
    } else if n == 8 {
    }
  }

  /** A club with fewer than six rows is never flagged by a 2σ test
      (carry-low, speed). */
  lemma FewerThanSixNeverTwoSigma(g: seq<Row>, metric: Metric, r: Row)
    requires 2 <= |g| < 6 && r in g
    ensures var c := Column(g, metric);
            !Below(Value(r, metric), Mean(c), TwoSigma, Variance(c))
            && !Above(Value(r, metric), Mean(c), TwoSigma, Variance(c))
  {
    var i :| 0 <= i < |g| && g[i] == r;
    DeviationNeedsRows(Column(g, metric), i, TwoSigma);
    FewRowsArithmetic(|g|);
  }

  /** A club with fewer than nine rows is never flagged by a 2.5σ test
      (carry-high, launch, spin). */
  lemma FewerThanNineNeverTwoAndHalfSigma(g: seq<Row>, metric: Metric, r: Row)
    requires 2 <= |g| < 9 && r in g
    ensures var c := Column(g, metric);
            !Below(Value(r, metric), Mean(c), TwoAndHalfSigma, Variance(c))
            && !Above(Value(r, metric), Mean(c), TwoAndHalfSigma, Variance(c))
  {
    var i :| 0 <= i < |g| && g[i] == r;
    DeviationNeedsRows(Column(g, metric), i, TwoAndHalfSigma);
    FewRowsArithmetic(|g|);
  }

  /** In a club of three to five rows only the side test can flag a row. */
  lemma SmallClubOnlySide(g: seq<Row>, columns: set<Metric>, r: Row)
    requires 3 <= |g| < 6 && r in g
    ensures Flagged(g, columns, r) <==> Side in columns && Outlier(g, Side, r.rec.side)
  {
    FewerThanSixNeverTwoSigma(g, Carry, r);
    FewerThanSixNeverTwoSigma(g, Speed, r);
    FewerThanNineNeverTwoAndHalfSigma(g, Carry, r);
    FewerThanNineNeverTwoAndHalfSigma(g, Launch, r);
    FewerThanNineNeverTwoAndHalfSigma(g, Spin, r);
  }

  /** In a club of fewer than nine rows only carry-low, speed and the side
      test can flag a row. */
  lemma MidClubNoTwoAndHalfSigma(g: seq<Row>, columns: set<Metric>, r: Row)
    requires 3 <= |g| < 9 && r in g
    ensures var c := Column(g, Carry);
            Flagged(g, columns, r) <==>
              (Carry in columns && Below(r.rec.carry, Mean(c), TwoSigma, Variance(c)))
              || (Speed in columns && Outlier(g, Speed, r.rec.speed))
              || (Side in columns && Outlier(g, Side, r.rec.side))
  {
    FewerThanNineNeverTwoAndHalfSigma(g, Carry, r);
    FewerThanNineNeverTwoAndHalfSigma(g, Launch, r);
    FewerThanNineNeverTwoAndHalfSigma(g, Spin, r);
  }

  // ---------------------------------------------------------------------
  // Every comparison is strict.

  /** A value equal to every value of its column is never an outlier. */
  lemma ConstantColumnNeverOutlier(g: seq<Row>, metric: Metric, r: Row)
    requires |g| >= 2 && forall i :: 0 <= i < |g| ==> Value(g[i], metric) == Value(r, metric)
    ensures !Outlier(g, metric, Value(r, metric))
  {
    var c := Column(g, metric);
    var x := Value(r, metric);
    ConstantVariance(c, x);
    if metric == Side {
      ConstantMean(Abs(c), AbsValue(x));
    }
  }

  /** A club whose five measurements are all constant flags nothing. */
  lemma ConstantClubFlagsNothing(g: seq<Row>, columns: set<Metric>)
    requires |g| >= 3
    requires forall i :: 0 <= i < |g| ==>
               (g[i].rec.carry == g[0].rec.carry && g[i].rec.launch == g[0].rec.launch
                && g[i].rec.speed == g[0].rec.speed && g[i].rec.spin == g[0].rec.spin
                && g[i].rec.side == g[0].rec.side)
    ensures GroupMishits(g, columns) == {}
  {
    forall r | r in g ensures !Flagged(g, columns, r) {
      ConstantColumnNeverOutlier(g, Carry, r);
      ConstantColumnNeverOutlier(g, Launch, r);
      ConstantColumnNeverOutlier(g, Speed, r);
      ConstantColumnNeverOutlier(g, Spin, r);
      ConstantColumnNeverOutlier(g, Side, r);
    }
  }

  // ---------------------------------------------------------------------
  // The classifier reads measurements only.

  /** Rows with the same ids and records, whatever their flags and glyphs. */
  predicate SameRecords(a: seq<Row>, b: seq<Row>) {
    |a| == |b| && forall k :: 0 <= k < |a| ==> a[k].rowId == b[k].rowId && a[k].rec == b[k].rec
  }

  /** Deleted rows are classified like the others: the flagged set does not
      depend on the `deleted` flags or the glyphs. */
  lemma MishitsIgnoreDeletion(a: seq<Row>, b: seq<Row>, columns: set<Metric>)
    requires SameRecords(a, b)
    ensures Mishits(a, columns) == Mishits(b, columns)
  {
    MishitsIgnoreDeletionSubset(a, b, columns);
    MishitsIgnoreDeletionSubset(b, a, columns);
  }

  lemma MishitsIgnoreDeletionSubset(a: seq<Row>, b: seq<Row>, columns: set<Metric>)
    requires SameRecords(a, b)
    ensures Mishits(a, columns) <= Mishits(b, columns)
  {
    forall id | id in Mishits(a, columns) ensures id in Mishits(b, columns) {
      var r :| r in a && |ClubRows(a, r.rec.club)| >= 3 && Flagged(ClubRows(a, r.rec.club), columns, r) && r.rowId == id;
      var k :| 0 <= k < |a| && a[k] == r;
      var club := r.rec.club;
      ClubRowsSameRecords(a, b, club);
      FlaggedSameRecords(ClubRows(a, club), ClubRows(b, club), columns, r, b[k]);
      assert b[k] in b;
    }
  }

  lemma FlaggedSameRecords(g: seq<Row>, h: seq<Row>, columns: set<Metric>, r: Row, s: Row)
    requires SameRecords(g, h) && |g| >= 2 && r.rec == s.rec
    ensures Flagged(g, columns, r) == Flagged(h, columns, s)
  {
    ColumnsAgree(g, h);
  }

  lemma {:induction false} ClubRowsSameRecords(a: seq<Row>, b: seq<Row>, club: string)
    requires SameRecords(a, b)
    ensures SameRecords(ClubRows(a, club), ClubRows(b, club))
  {
    if |a| > 0 {
      var n := |a| - 1;
      ClubRowsSameRecords(a[..n], b[..n], club);
      SameRecordsAppend(ClubRows(a[..n], club), ClubRows(b[..n], club),
                        if a[n].rec.club == club then [a[n]] else [], if b[n].rec.club == club then [b[n]] else []);
    }
  }

  lemma SameRecordsAppend(x: seq<Row>, y: seq<Row>, u: seq<Row>, v: seq<Row>)
    requires SameRecords(x, y) && SameRecords(u, v)
    ensures SameRecords(x + u, y + v)
  {
  }

  lemma ColumnsAgree(g: seq<Row>, h: seq<Row>)
    requires SameRecords(g, h)
    ensures forall metric :: Column(g, metric) == Column(h, metric)
  {
    forall metric ensures Column(g, metric) == Column(h, metric) {
      assert forall i :: 0 <= i < |g| ==> Column(g, metric)[i] == Column(h, metric)[i];
    }
  }
}

/** The aggregation block of `generate_plot` in club-comparison mode
    (docker/app.py and app.py carry the same code). For each selected club
    and session with plotted shots, it computes the attribute's mean, its
    sample variance and the shot count. Clubs with at least one such session
    are ordered by the average of their session means. */
module Aggregate {
  import opened Text
  import opened Sorting
  import opened Stats
  import opened ShotRows

  /** One plotted shot: its club, its session and the chosen attribute. */
  datatype Point = Point(club: string, session: string, value: real)

  /** The plotted rows projected onto the attribute. */
  function Points(rows: seq<Row>, metric: Metric): (ps: seq<Point>)
    ensures |ps| == |rows|
    ensures forall i :: 0 <= i < |rows| ==>
              ps[i] == Point(rows[i].rec.club, rows[i].rec.session, Value(rows[i], metric))
  {
    seq(|rows|, i requires 0 <= i < |rows| => Point(rows[i].rec.club, rows[i].rec.session, Value(rows[i], metric)))
  }

  /** `(df['Club'] == club) & (df['Session ID'] == session)` */
  function InCell(club: string, session: string): Row -> bool {
    (r: Row) => r.rec.club == club && r.rec.session == session
  }

  /** `{'club', 'session', 'mean', 'std', 'count'}`; the spread is kept as the
      variance, and is absent (pandas gives NaN) for a single shot. */
  datatype SessionStat = SessionStat(club: string, session: string, mean: real, variance: Option<real>, count: nat)

  /** `{'club', 'avg_mean', 'data'}` */
  datatype ClubEntry = ClubEntry(club: string, avgMean: real, data: seq<SessionStat>)

  /** `df[(df['Club'] == club) & (df['Session ID'] == session)][attribute]` */
  function CellValues(points: seq<Point>, club: string, session: string): (xs: seq<real>)
    ensures |xs| <= |points|
  {
    if |points| == 0 then []
    else
      var p := points[|points| - 1];
      CellValues(points[..|points| - 1], club, session)
      + (if p.club == club && p.session == session then [p.value] else [])
  }

  lemma ColumnAppend(a: seq<Row>, b: seq<Row>, metric: Metric)
    ensures Column(a + b, metric) == Column(a, metric) + Column(b, metric)
  {
  }

  /** The values of a plotted cell are the attribute values of the rows with
      that club and session, in row order: what the frame filter selects. */
  lemma {:induction false} CellValuesOfPoints(rows: seq<Row>, metric: Metric, club: string, session: string)
    ensures CellValues(Points(rows, metric), club, session) == Column(Filter(rows, InCell(club, session)), metric)
    decreases |rows|
  {
    if |rows| > 0 {
      var n := |rows| - 1;
      var p := InCell(club, session);
      var fn := Filter(rows[..n], p);
      var tail := if p(rows[n]) then [Value(rows[n], metric)] else [];
      assert CellValues(Points(rows, metric), club, session) == CellValues(Points(rows[..n], metric), club, session) + tail by {
        CellValuesStep(rows, metric, club, session);
      }
      assert CellValues(Points(rows[..n], metric), club, session) == Column(fn, metric) by {
        CellValuesOfPoints(rows[..n], metric, club, session);
      }
      assert Column(Filter(rows, p), metric) == Column(fn, metric) + tail by {
        ColumnFilterStep(rows, p, metric);
      }
    }
  }

  lemma ColumnSingle(r: Row, metric: Metric)
    ensures Column([r], metric) == [Value(r, metric)]
  {
  }

  lemma ColumnFilterStep(rows: seq<Row>, p: Row -> bool, metric: Metric)
    requires |rows| > 0
    ensures p(rows[|rows| - 1]) ==>
              Column(Filter(rows, p), metric) == Column(Filter(rows[..|rows| - 1], p), metric) + [Value(rows[|rows| - 1], metric)]
    ensures !p(rows[|rows| - 1]) ==>
              Column(Filter(rows, p), metric) == Column(Filter(rows[..|rows| - 1], p), metric)
  {
    var n := |rows| - 1;
    var fn := Filter(rows[..n], p);
    FilterSnoc(rows, p);
    if p(rows[n]) {
      ColumnAppend(fn, [rows[n]], metric);
      ColumnSingle(rows[n], metric);
    } else {
      assert Filter(rows, p) == fn;
    }
  }

  lemma CellValuesStep(rows: seq<Row>, metric: Metric, club: string, session: string)
    requires |rows| > 0
    ensures var n := |rows| - 1;
            CellValues(Points(rows, metric), club, session)
            == CellValues(Points(rows[..n], metric), club, session)
               + (if InCell(club, session)(rows[n]) then [Value(rows[n], metric)] else [])
  {
    var n := |rows| - 1;
    assert Points(rows, metric)[..n] == Points(rows[..n], metric);
  }

  function Stat(club: string, session: string, cell: seq<real>): SessionStat
    requires |cell| > 0
  {
    SessionStat(club, session, Mean(cell), if |cell| >= 2 then Some(Variance(cell)) else None, |cell|)
  }

  /** `club_means`: one entry per session holding shots of the club, in
      session order. */
  function SessionStats(points: seq<Point>, club: string, sessions: seq<string>): seq<SessionStat> {
    if |sessions| == 0 then []
    else
      var s := sessions[|sessions| - 1];
      var cell := CellValues(points, club, s);
      SessionStats(points, club, sessions[..|sessions| - 1])
      + (if |cell| == 0 then [] else [Stat(club, s, cell)])
  }

  function Means(stats: seq<SessionStat>): (ms: seq<real>)
    ensures |ms| == |stats| && forall i :: 0 <= i < |stats| ==> ms[i] == stats[i].mean
  {
    seq(|stats|, i requires 0 <= i < |stats| => stats[i].mean)
  }

  /** `club_data`: one entry per club with data, in club order. */
  function ClubEntries(points: seq<Point>, clubs: seq<string>, sessions: seq<string>): seq<ClubEntry> {
    if |clubs| == 0 then []
    else
      var c := clubs[|clubs| - 1];
      var stats := SessionStats(points, c, sessions);
      ClubEntries(points, clubs[..|clubs| - 1], sessions)
      + (if |stats| == 0 then [] else [ClubEntry(c, Mean(Means(stats)), stats)])
  }

  /** The nested loops that build `club_data`. */
  method CollectClubData(points: seq<Point>, clubs: seq<string>, sessions: seq<string>)
    returns (clubData: seq<ClubEntry>)
    ensures clubData == ClubEntries(points, clubs, sessions)
  {
    clubData := [];
    for i := 0 to |clubs|
      invariant clubData == ClubEntries(points, clubs[..i], sessions)
    {
      var club := clubs[i];
      var clubMeans: seq<SessionStat> := [];
      for j := 0 to |sessions|
        invariant clubMeans == SessionStats(points, club, sessions[..j])
      {
        assert sessions[..j + 1][..j] == sessions[..j];
        var cell := CellValues(points, club, sessions[j]);
        if |cell| == 0 {
          continue;
        }
        clubMeans := clubMeans + [Stat(club, sessions[j], cell)];
      }
      assert sessions[..|sessions|] == sessions;
      assert clubs[..i + 1][..i] == clubs[..i];
      if |clubMeans| > 0 {
        var avgMean := Sum(Means(clubMeans)) / (|clubMeans| as real);
        clubData := clubData + [ClubEntry(club, avgMean, clubMeans)];
      }
    }
    assert clubs[..|clubs|] == clubs;
  }

  /** `key=lambda x: x['avg_mean']` */
  predicate ByAvgMean(a: ClubEntry, b: ClubEntry) { a.avgMean <= b.avgMean }

  function ClubsOf(entries: seq<ClubEntry>): (cs: seq<string>)
    ensures |cs| == |entries| && forall i :: 0 <= i < |entries| ==> cs[i] == entries[i].club
  {
    seq(|entries|, i requires 0 <= i < |entries| => entries[i].club)
  }

  /** `sorted_clubs` */
  function SortedClubs(points: seq<Point>, clubs: seq<string>, sessions: seq<string>): seq<string> {
    ClubsOf(SortBy(ClubEntries(points, clubs, sessions), ByAvgMean))
  }

  // ---------------------------------------------------------------------
  // Properties.

  /** Some plotted shot has the club and one of the sessions. */
  predicate HasData(points: seq<Point>, club: string, sessions: seq<string>) {
    exists i :: 0 <= i < |points| && points[i].club == club && points[i].session in sessions
  }

  /** A cell is empty exactly when no shot has that club and session. */
  lemma {:induction false} CellValuesEmpty(points: seq<Point>, club: string, session: string)
    ensures |CellValues(points, club, session)| == 0
            <==> forall i :: 0 <= i < |points| ==> !(points[i].club == club && points[i].session == session)
  {
    if |points| > 0 {
      var n := |points| - 1;
      CellValuesEmpty(points[..n], club, session);
      assert forall i :: 0 <= i < n ==> points[..n][i] == points[i];
    }
  }

  /** A club gets session statistics exactly when it has data. */
  lemma {:induction false} SessionStatsNonEmpty(points: seq<Point>, club: string, sessions: seq<string>)
    ensures |SessionStats(points, club, sessions)| > 0 <==> HasData(points, club, sessions)
  {
    if |sessions| > 0 {
      var n := |sessions| - 1;
      var s := sessions[n];
      SessionStatsNonEmpty(points, club, sessions[..n]);
      CellValuesEmpty(points, club, s);
      if HasData(points, club, sessions) && !HasData(points, club, sessions[..n]) {
        var i :| 0 <= i < |points| && points[i].club == club && points[i].session in sessions;
        assert points[i].session == s;
      }
      if |CellValues(points, club, s)| > 0 {
        var i :| 0 <= i < |points| && points[i].club == club && points[i].session == s;
        assert points[i].session in sessions;
      }
      if HasData(points, club, sessions[..n]) {
        var i :| 0 <= i < |points| && points[i].club == club && points[i].session in sessions[..n];
        assert points[i].session in sessions;
      }
    }
  }

  lemma ClubsOfAppend(a: seq<ClubEntry>, b: seq<ClubEntry>)
    ensures ClubsOf(a + b) == ClubsOf(a) + ClubsOf(b)
  {
  }

  /** The clubs of `club_data` are the selected clubs with data. */
  lemma {:induction false} ClubEntriesAreClubsWithData(points: seq<Point>, clubs: seq<string>, sessions: seq<string>)
    ensures forall c :: c in ClubsOf(ClubEntries(points, clubs, sessions)) <==> c in clubs && HasData(points, c, sessions)
  {
    if |clubs| > 0 {
      var n := |clubs| - 1;
      var last := clubs[n];
      ClubEntriesAreClubsWithData(points, clubs[..n], sessions);
      SessionStatsNonEmpty(points, last, sessions);
      var init := ClubEntries(points, clubs[..n], sessions);
      var stats := SessionStats(points, last, sessions);
      var tail := if |stats| == 0 then [] else [ClubEntry(last, Mean(Means(stats)), stats)];
      ClubsOfAppend(init, tail);
      assert clubs == clubs[..n] + [last];
      if |stats| == 0 {
        assert ClubsOf(tail) == [];
      } else {
        assert ClubsOf(tail) == [last];
      }
    }
  }

  lemma ByAvgMeanPreorder()
    ensures Preorder(ByAvgMean)
  {
  }

  /** `sorted_clubs` lists exactly the selected clubs with data, one per
      entry of `club_data`, with non-decreasing average means; clubs with
      equal averages keep their selection order. */
  lemma SortedClubsSpec(points: seq<Point>, clubs: seq<string>, sessions: seq<string>)
    ensures var entries := ClubEntries(points, clubs, sessions);
            var sorted := SortBy(entries, ByAvgMean);
            SortedClubs(points, clubs, sessions) == ClubsOf(sorted)
            && |sorted| == |entries|
            && (forall c :: c in ClubsOf(sorted) <==> c in clubs && HasData(points, c, sessions))
            && (forall i, j :: 0 <= i < j < |sorted| ==> sorted[i].avgMean <= sorted[j].avgMean)
  {
    var entries := ClubEntries(points, clubs, sessions);
    var sorted := SortBy(entries, ByAvgMean);
    ByAvgMeanPreorder();
    SortBySorted(entries, ByAvgMean);
    SortByPermutes(entries, ByAvgMean);
    ClubEntriesAreClubsWithData(points, clubs, sessions);
    SameClubs(sorted, entries);
  }

  /** Two lists of the same entries name the same clubs. */
  lemma SameClubs(xs: seq<ClubEntry>, ys: seq<ClubEntry>)
    requires multiset(xs) == multiset(ys)
    ensures forall c :: c in ClubsOf(xs) <==> c in ClubsOf(ys)
  {
    forall c ensures c in ClubsOf(xs) ==> c in ClubsOf(ys) {
      if c in ClubsOf(xs) {
        var k :| 0 <= k < |xs| && xs[k].club == c;
        assert xs[k] in multiset(ys);
        var m :| 0 <= m < |ys| && ys[m] == xs[k];
        assert ClubsOf(ys)[m] == c;
      }
    }
    forall c ensures c in ClubsOf(ys) ==> c in ClubsOf(xs) {
      if c in ClubsOf(ys) {
        var k :| 0 <= k < |ys| && ys[k].club == c;
        assert ys[k] in multiset(xs);
        var m :| 0 <= m < |xs| && xs[m] == ys[k];
        assert ClubsOf(xs)[m] == c;
      }
    }
  }

  /** Clubs with the same average keep their selection order. */
  lemma SortedClubsStable(points: seq<Point>, clubs: seq<string>, sessions: seq<string>, e: ClubEntry)
    ensures var entries := ClubEntries(points, clubs, sessions);
            Filter(SortBy(entries, ByAvgMean), x => Equivalent(ByAvgMean, x, e))
            == Filter(entries, x => Equivalent(ByAvgMean, x, e))
  {
    ByAvgMeanPreorder();
    SortByStable(ClubEntries(points, clubs, sessions), e, ByAvgMean);
  }

  /** The number of shots with the club whose session is in `sessions`. */
  function CountIn(points: seq<Point>, club: string, sessions: set<string>): nat {
    if |points| == 0 then 0
    else
      var p := points[|points| - 1];
      CountIn(points[..|points| - 1], club, sessions) + (if p.club == club && p.session in sessions then 1 else 0)
  }

  function TotalCount(stats: seq<SessionStat>): nat {
    if |stats| == 0 then 0 else TotalCount(stats[..|stats| - 1]) + stats[|stats| - 1].count
  }

  lemma {:induction false} CountInAddSession(points: seq<Point>, club: string, sessions: set<string>, s: string)
    requires s !in sessions
    ensures CountIn(points, club, sessions + {s}) == CountIn(points, club, sessions) + |CellValues(points, club, s)|
  {
    if |points| > 0 {
      CountInAddSession(points[..|points| - 1], club, sessions, s);
    }
  }

  lemma SessionSetSnoc(init: seq<string>, last: string)
    ensures (set s | s in init + [last]) == (set s | s in init) + {last}
  {
  }

  lemma TotalCountAppend(st: seq<SessionStat>, tail: seq<SessionStat>)
    requires |tail| <= 1
    ensures TotalCount(st + tail) == TotalCount(st) + (if |tail| == 0 then 0 else tail[0].count)
  {
    if |tail| == 0 {
      assert st + tail == st;
    } else {
      assert (st + tail)[..|st|] == st;
    }
  }

  /** The counts of a club's session statistics add up to its shots in the
      selected sessions: no shot is lost and none is counted twice. */
  lemma {:induction false} CountsCoverClubShots(points: seq<Point>, club: string, sessions: seq<string>)
    requires forall i, j :: 0 <= i < j < |sessions| ==> sessions[i] != sessions[j]
    ensures TotalCount(SessionStats(points, club, sessions)) == CountIn(points, club, set s | s in sessions)
  {
    if |sessions| == 0 {
      assert (set s | s in sessions) == {};
      CountInNone(points, club);
    } else {
      var n := |sessions| - 1;
      var init := sessions[..n];
      var last := sessions[n];
      var before := set s | s in init;
      var st := SessionStats(points, club, init);
      var cell := CellValues(points, club, last);
      assert (set s | s in sessions) == before + {last} by {
        assert sessions == init + [last];
        SessionSetSnoc(init, last);
      }
      assert TotalCount(st) == CountIn(points, club, before) by {
        CountsCoverClubShots(points, club, init);
      }
      assert CountIn(points, club, before + {last}) == CountIn(points, club, before) + |cell| by {
        assert last !in init;
        CountInAddSession(points, club, before, last);
      }
      assert TotalCount(SessionStats(points, club, sessions)) == TotalCount(st) + |cell| by {
        var tail := if |cell| == 0 then [] else [Stat(club, last, cell)];
        assert SessionStats(points, club, sessions) == st + tail;
        TotalCountAppend(st, tail);
      }
    }
  }

  lemma {:induction false} CountInNone(points: seq<Point>, club: string)
    ensures CountIn(points, club, {}) == 0
  {
    if |points| > 0 {
      CountInNone(points[..|points| - 1], club);
    }
  }

  /** Every session mean, and the club's average of them, lies within the
      range of the club's plotted values. */
  lemma ClubAverageWithinRange(points: seq<Point>, club: string, sessions: seq<string>, lo: real, hi: real)
    requires forall i :: 0 <= i < |points| && points[i].club == club ==> lo <= points[i].value <= hi
    requires HasData(points, club, sessions)
    ensures |SessionStats(points, club, sessions)| > 0
    ensures MeansWithin(SessionStats(points, club, sessions), lo, hi)
    ensures lo <= Mean(Means(SessionStats(points, club, sessions))) <= hi
  {
    var stats := SessionStats(points, club, sessions);
    SessionStatsNonEmpty(points, club, sessions);
    SessionMeansWithinRange(points, club, sessions, lo, hi);
    MeanWithinBounds(Means(stats), lo, hi);
  }

  predicate MeansWithin(stats: seq<SessionStat>, lo: real, hi: real) {
    forall k :: 0 <= k < |stats| ==> lo <= stats[k].mean <= hi
  }

  lemma {:induction false} SessionMeansWithinRange(points: seq<Point>, club: string, sessions: seq<string>, lo: real, hi: real)
    requires forall i :: 0 <= i < |points| && points[i].club == club ==> lo <= points[i].value <= hi
    ensures MeansWithin(SessionStats(points, club, sessions), lo, hi)
  {
    if |sessions| > 0 {
      var n := |sessions| - 1;
      SessionMeansWithinRange(points, club, sessions[..n], lo, hi);
      var cell := CellValues(points, club, sessions[n]);
      if |cell| > 0 {
        CellValuesWithinRange(points, club, sessions[n], lo, hi);
        MeanWithinBounds(cell, lo, hi);
        AppendWithin(SessionStats(points, club, sessions[..n]), Stat(club, sessions[n], cell), lo, hi);
      }
    }
  }

  lemma AppendWithin(stats: seq<SessionStat>, x: SessionStat, lo: real, hi: real)
    requires MeansWithin(stats, lo, hi) && lo <= x.mean <= hi
    ensures MeansWithin(stats + [x], lo, hi)
  {
  }

  predicate Within(xs: seq<real>, lo: real, hi: real) {
    forall k :: 0 <= k < |xs| ==> lo <= xs[k] <= hi
  }

  lemma {:induction false} CellValuesWithinRange(points: seq<Point>, club: string, session: string, lo: real, hi: real)
    requires forall i :: 0 <= i < |points| && points[i].club == club ==> lo <= points[i].value <= hi
    ensures Within(CellValues(points, club, session), lo, hi)
  {
    if |points| > 0 {
      var n := |points| - 1;
      assert forall i :: 0 <= i < n ==> points[..n][i] == points[i];
      CellValuesWithinRange(points[..n], club, session, lo, hi);
      var init := CellValues(points[..n], club, session);
      var xs := CellValues(points, club, session);
      forall k | 0 <= k < |xs| ensures lo <= xs[k] <= hi {
        if k < |init| {
          assert xs[k] == init[k];
        } else {
          assert xs[k] == points[n].value && points[n].club == club;
        }
      }
    }
  }
}

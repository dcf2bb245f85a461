/** The dropdown helpers of the Dash app: `update_sessions_and_clubs` (its
    selection part is the same in docker/app.py and app.py) and
    `select_all_clubs` (docker/app.py). The frame is given after the rows
    without the chosen attribute are dropped; a club of `None` is pandas'
    NaN. */
module Selection {
  import opened Text
  import opened Sorting

  datatype FrameRow = FrameRow(session: string, club: Option<string>)

  lemma StrLePreorder()
    ensures Preorder(StrLe)
  {
    forall a, b ensures StrLe(a, b) || StrLe(b, a) {
      StrLeTotal(a, b);
    }
    forall a, b, c | StrLe(a, b) && StrLe(b, c) ensures StrLe(a, c) {
      StrLeTrans(a, b, c);
    }
  }

  /** `sorted(column.unique())` */
  function SortedUnique(xs: seq<string>): seq<string> {
    SortBy(Unique(xs), StrLe)
  }

  /** Strictly increasing in Python's string order. */
  predicate Increasing(xs: seq<string>) {
    forall i, j :: 0 <= i < j < |xs| ==> StrLe(xs[i], xs[j]) && xs[i] != xs[j]
  }

  /** Sorting a duplicate-free list gives a strictly increasing list of the same values. */
  lemma SortDistinct(xs: seq<string>)
    requires Distinct(xs)
    ensures Increasing(SortBy(xs, StrLe))
    ensures forall x :: x in SortBy(xs, StrLe) <==> x in xs
  {
    StrLePreorder();
    SortBySorted(xs, StrLe);
    SortByPermutes(xs, StrLe);
    PermutationKeepsDistinct(xs, SortBy(xs, StrLe));
    forall x ensures x in SortBy(xs, StrLe) <==> x in xs {
      assert x in SortBy(xs, StrLe) <==> x in multiset(SortBy(xs, StrLe));
      assert x in xs <==> x in multiset(xs);
    }
  }

  /** `sorted(unique)` lists every value once, in increasing order. */
  lemma SortedUniqueSpec(xs: seq<string>)
    ensures Increasing(SortedUnique(xs))
    ensures forall x :: x in SortedUnique(xs) <==> x in xs
  {
    SortDistinct(Unique(xs));
  }

  function SessionsOf(df: seq<FrameRow>): (ss: seq<string>)
    ensures |ss| == |df| && forall i :: 0 <= i < |df| ==> ss[i] == df[i].session
  {
    seq(|df|, i requires 0 <= i < |df| => df[i].session)
  }

  /** `[s for s in selected_sessions if s in sessions]` */
  function KeepAvailable(selected: seq<string>, available: seq<string>): seq<string> {
    Filter(selected, s => s in available)
  }

  /** `df[df['Session ID'].isin(selected)]`, or the whole frame when nothing
      is selected. */
  function ClubPool(df: seq<FrameRow>, selected: seq<string>): seq<FrameRow> {
    if |selected| == 0 then df else InSessions(df, selected)
  }

  /** `df[df['Session ID'].isin(sessions)]` */
  function InSessions(df: seq<FrameRow>, sessions: seq<string>): seq<FrameRow> {
    Filter(df, (r: FrameRow) => r.session in sessions)
  }

  lemma InSessionsMembers(df: seq<FrameRow>, sessions: seq<string>)
    ensures forall r :: r in InSessions(df, sessions) <==> r in df && r.session in sessions
  {
    var pool := InSessions(df, sessions);
    forall r | r in pool ensures r in df && r.session in sessions {
      var k :| 0 <= k < |pool| && pool[k] == r;
    }
    forall r | r in df && r.session in sessions ensures r in pool {
      var i :| 0 <= i < |df| && df[i] == r;
    }
  }

  /** `[c for c in column if pd.notna(c)]` */
  function NonNullClubs(rows: seq<FrameRow>): seq<string> {
    if |rows| == 0 then []
    else
      var r := rows[|rows| - 1];
      NonNullClubs(rows[..|rows| - 1]) + (if r.club.Some? then [r.club.value] else [])
  }

  /** The outputs: session options, kept selection, club options, club value
      and whether the club dropdown is multi-select. */
  datatype Dropdowns = Dropdowns(sessions: seq<string>, selected: seq<string>, clubs: seq<string>,
                                 clubValue: seq<string>, multi: bool)

  /** `update_sessions_and_clubs` from the frame on. */
  function UpdateSessionsAndClubs(df: seq<FrameRow>, selected: seq<string>, mode: string): Dropdowns {
    var sessions := SortedUnique(SessionsOf(df));
    var kept := KeepAvailable(selected, sessions);
    var clubs := SortedUnique(NonNullClubs(ClubPool(df, kept)));
    Dropdowns(sessions, kept, clubs, if mode == "time" && |clubs| > 0 then [clubs[0]] else [], mode != "time")
  }

  lemma {:induction false} NonNullClubsMembers(rows: seq<FrameRow>)
    ensures forall c :: c in NonNullClubs(rows) <==> exists i :: 0 <= i < |rows| && rows[i].club == Some(c)
  {
    if |rows| > 0 {
      var n := |rows| - 1;
      NonNullClubsMembers(rows[..n]);
      forall c ensures c in NonNullClubs(rows) <==> exists i :: 0 <= i < |rows| && rows[i].club == Some(c) {
        if exists i :: 0 <= i < |rows| && rows[i].club == Some(c) {
          var i :| 0 <= i < |rows| && rows[i].club == Some(c);
          if i < n {
            assert rows[..n][i] == rows[i];
          }
        }
        if exists i :: 0 <= i < n && rows[..n][i].club == Some(c) {
          var i :| 0 <= i < n && rows[..n][i].club == Some(c);
          assert rows[i].club == Some(c);
        }
      }
    }
  }

  /** The session options list each session of the frame once, in order. */
  lemma SessionOptionsSpec(df: seq<FrameRow>, selected: seq<string>, mode: string)
    ensures var d := UpdateSessionsAndClubs(df, selected, mode);
            Increasing(d.sessions)
            && forall s :: s in d.sessions <==> exists i :: 0 <= i < |df| && df[i].session == s
  {
    SortedUniqueSpec(SessionsOf(df));
  }

  /** The kept selection is exactly the selected sessions that are options. */
  lemma KeptSelectionSpec(df: seq<FrameRow>, selected: seq<string>, mode: string)
    ensures var d := UpdateSessionsAndClubs(df, selected, mode);
            |d.selected| <= |selected|
            && forall s :: s in d.selected <==> s in selected && s in d.sessions
  {
  }

  lemma ClubPoolMembers(df: seq<FrameRow>, kept: seq<string>)
    ensures forall r :: r in ClubPool(df, kept) <==> r in df && (|kept| == 0 || r.session in kept)
  {
    InSessionsMembers(df, kept);
  }

  /** Some row of a kept session (of any session when none is kept) has
      club `c`. */
  predicate PlayedIn(df: seq<FrameRow>, kept: seq<string>, c: string) {
    exists i :: 0 <= i < |df| && df[i].club == Some(c) && (|kept| == 0 || df[i].session in kept)
  }

  lemma ClubsOfPool(df: seq<FrameRow>, kept: seq<string>)
    ensures forall c :: c in NonNullClubs(ClubPool(df, kept)) <==> PlayedIn(df, kept, c)
  {
    var pool := ClubPool(df, kept);
    NonNullClubsMembers(pool);
    ClubPoolMembers(df, kept);
    forall c ensures c in NonNullClubs(pool) <==> PlayedIn(df, kept, c) {
      if c in NonNullClubs(pool) {
        var k :| 0 <= k < |pool| && pool[k].club == Some(c);
        assert pool[k] in pool;
        var i :| 0 <= i < |df| && df[i] == pool[k];
      }
      if PlayedIn(df, kept, c) {
        var i :| 0 <= i < |df| && df[i].club == Some(c) && (|kept| == 0 || df[i].session in kept);
        assert df[i] in pool;
        var k :| 0 <= k < |pool| && pool[k] == df[i];
      }
    }
  }

  /** The club options are the non-null clubs of the rows of the kept
      sessions (of every row when none is kept), each once, in order. */
  lemma ClubOptionsSpec(df: seq<FrameRow>, selected: seq<string>, mode: string)
    ensures var d := UpdateSessionsAndClubs(df, selected, mode);
            Increasing(d.clubs) && forall c :: c in d.clubs <==> PlayedIn(df, d.selected, c)
  {
    var d := UpdateSessionsAndClubs(df, selected, mode);
    SortedUniqueSpec(NonNullClubs(ClubPool(df, d.selected)));
    ClubsOfPool(df, d.selected);
  }

  /** Outside time mode the club dropdown is multi-select and no club is
      preselected; in time mode the first club is preselected, when there is
      one. */
  lemma ClubValueByMode(df: seq<FrameRow>, selected: seq<string>, mode: string)
    ensures var d := UpdateSessionsAndClubs(df, selected, mode);
            d.multi == (mode != "time")
            && |d.clubValue| <= 1
            && (forall c :: c in d.clubValue ==> c in d.clubs)
            && (mode == "time" && |d.clubs| > 0 ==> d.clubValue == [d.clubs[0]])
  {
  }

  /** Re-running with the kept selection keeps it as it is. */
  lemma KeptSelectionIsStable(df: seq<FrameRow>, selected: seq<string>, mode: string)
    ensures var d := UpdateSessionsAndClubs(df, selected, mode);
            UpdateSessionsAndClubs(df, d.selected, mode) == d
  {
    var d := UpdateSessionsAndClubs(df, selected, mode);
    var p := s => s in d.sessions;
    forall i | 0 <= i < |d.selected| ensures p(d.selected[i]) {
    }
    FilterAll(d.selected, p);
  }

  /** `select_all_clubs`: `None` clicks keep the current value. */
  function SelectAllClubs(clicks: Option<nat>, options: seq<string>, current: seq<string>, mode: string): seq<string> {
    if clicks.None? then current
    else if mode == "time" && |options| > 0 then [options[0]]
    else options
  }

  /** Without a click the current value stays; a click selects every option
      outside time mode and only the first in time mode. */
  lemma SelectAllClubsSpec(clicks: nat, options: seq<string>, current: seq<string>, mode: string)
    ensures SelectAllClubs(None, options, current, mode) == current
    ensures var v := SelectAllClubs(Some(clicks), options, current, mode);
            (forall c :: c in v ==> c in options)
            && (mode != "time" ==> v == options)
            && (mode == "time" ==> |v| <= 1 && (|options| > 0 ==> v == [options[0]]))
  {
  }
}

/** The Tkinter front end (interface.py `TrackManGUI`): the activity list it
    numbers, the download-missing action it always runs for both ball
    types, and the analysis tab's session labels and club list. Widgets,
    threads and `self.after` callbacks are left out; each handler is one
    sequential method over the fields it reads and writes. */
module Gui {
  import opened Text
  import opened Sorting
  import opened Activities
  import opened FileNames
  import opened CsvExport
  import opened Inventory
  import opened Reconcile
  import opened Selection

  // ---------------------------------------------------------------------
  // The activities tab.

  /** The rows `update_activity_list` inserts for an already sorted list. */
  function Listed(acts: seq<Activity>): (rows: seq<SessionRow>)
    ensures |rows| == |acts|
  {
    seq(|acts|, i requires 0 <= i < |acts| => SessionRow(i + 1, acts[i], acts[i].totalCount.GetOr(0)))
  }

  /** Fetching and listing numbers the feed exactly as the web app does. */
  lemma ListedAfterFetch(feed: seq<Activity>)
    ensures Listed(Chronological(RangePractice(feed))) == SessionTable(feed)
  {
  }

  /** Listing again re-sorts the already sorted list, which changes nothing:
      no activity is renumbered by a second refresh. */
  lemma RelistKeepsNumbers(acts: seq<Activity>)
    ensures Chronological(Chronological(acts)) == Chronological(acts)
    ensures Listed(Chronological(Chronological(acts))) == Listed(Chronological(acts))
  {
    ByTimePreorder();
    SortByIdempotent(acts, ByTime);
  }

  // ---------------------------------------------------------------------
  // The analysis tab.

  /** Index of the first `ch` in `s`, if any (`str.find`). */
  function Find(s: string, ch: char): (r: Option<nat>)
    ensures r.Some? ==> r.value < |s| && s[r.value] == ch && forall i :: 0 <= i < r.value ==> s[i] != ch
    ensures r.None? ==> forall i :: 0 <= i < |s| ==> s[i] != ch
  {
    if |s| == 0 then None
    else if s[0] == ch then Some(0)
    else
      match Find(s[1..], ch)
      case None => None
      case Some(k) => Some(k + 1)
  }

  /** `s.replace('.', '', 1)` */
  function RemoveFirstDot(s: string): string {
    match Find(s, '.')
    case None => s
    case Some(k) => s[..k] + s[k + 1..]
  }

  /** `str.isdigit()` on ASCII: non-empty and all digits. */
  predicate PyIsDigit(s: string) { |s| > 0 && IsDigits(s) }

  /** The club filter: drop names starting with '-' and names that are all
      digits once one '.' is removed. */
  predicate KeepClub(c: string) {
    !(StartsWith(c, "-") || PyIsDigit(RemoveFirstDot(c)))
  }

  /** A plain or decimal number: digits, or digits '.' digits with at least one digit. */
  predicate IsDecimal(c: string) {
    PyIsDigit(c) || exists k :: 0 <= k < |c| && DecimalAt(c, k)
  }

  /** `c` is digits, a '.' at `k`, then digits, with at least one digit. */
  predicate DecimalAt(c: string, k: int) {
    0 <= k < |c| && c[k] == '.' && |c| > 1 && IsDigits(c[..k]) && IsDigits(c[k + 1..])
  }

  lemma DigitsAround(c: string, k: nat)
    requires k < |c|
    ensures IsDigits(c[..k] + c[k + 1..]) <==> IsDigits(c[..k]) && IsDigits(c[k + 1..])
  {
    var r := c[..k] + c[k + 1..];
    if IsDigits(c[..k]) && IsDigits(c[k + 1..]) {
      forall i | 0 <= i < |r| ensures IsDigit(r[i]) {
        if i < k {
          assert r[i] == c[..k][i];
        } else {
          assert r[i] == c[k + 1..][i - k];
        }
      }
    }
    if IsDigits(r) {
      forall i | 0 <= i < k ensures IsDigit(c[..k][i]) {
        assert r[i] == c[..k][i];
      }
      forall i | k + 1 <= i < |c| ensures IsDigit(c[i]) {
        assert r[i - 1] == c[i];
      }
    }
  }

  lemma PrefixDigits(c: string, j: int)
    requires 0 <= j <= |c| && IsDigits(c[..j])
    ensures forall i :: 0 <= i < j ==> IsDigit(c[i])
  {
    assert forall i :: 0 <= i < j ==> c[..j][i] == c[i];
  }

  /** The filter keeps a club exactly when it does not start with '-' and
      is not a number. */
  lemma KeepClubSpec(c: string)
    ensures KeepClub(c) <==> !StartsWith(c, "-") && !IsDecimal(c)
  {
    match Find(c, '.')
    case None =>
      assert RemoveFirstDot(c) == c;
      assert forall k :: 0 <= k < |c| ==> !DecimalAt(c, k);
    case Some(k) =>
      var r := c[..k] + c[k + 1..];
      assert RemoveFirstDot(c) == r;
      DigitsAround(c, k);
      assert !PyIsDigit(c) by {
        assert !IsDigit(c[k]);
      }
      assert PyIsDigit(r) <==> DecimalAt(c, k);
      forall k' | DecimalAt(c, k') ensures k' == k {
        PrefixDigits(c, k');
      }
  }

  /** The loop over the frame's unique clubs that keeps the real club names. */
  method FilterClubs(clubs: seq<string>) returns (kept: seq<string>)
    ensures kept == Filter(clubs, KeepClub)
  {
    kept := [];
    for i := 0 to |clubs|
      invariant kept == Filter(clubs[..i], KeepClub)
    {
      assert clubs[..i + 1][..i] == clubs[..i];
      if KeepClub(clubs[i]) {
        kept := kept + [clubs[i]];
      }
    }
    assert clubs[..|clubs|] == clubs;
  }

  /** `sorted(all_clubs)` after filtering the unique non-null clubs. */
  function ClubList(rows: seq<FrameRow>): seq<string> {
    SortBy(Filter(Unique(NonNullClubs(rows)), KeepClub), StrLe)
  }

  /** The club list holds every real club name of the rows once, in
      increasing order, and nothing else. */
  lemma ClubListSpec(rows: seq<FrameRow>)
    ensures Increasing(ClubList(rows))
    ensures forall c :: c in ClubList(rows) <==> KeepClub(c) && exists i :: 0 <= i < |rows| && rows[i].club == Some(c)
  {
    var u := Unique(NonNullClubs(rows));
    var f := Filter(u, KeepClub);
    FilterKeepsDistinct(u, KeepClub);
    SortDistinct(f);
    NonNullClubsMembers(rows);
    forall c ensures c in f <==> KeepClub(c) && c in u {
      if c in f {
        var k :| 0 <= k < |f| && f[k] == c;
      }
      if KeepClub(c) && c in u {
        var k :| 0 <= k < |u| && u[k] == c;
      }
    }
  }

  /** `f"{session} ({shot_count} shots)"` */
  function Label(session: string, count: nat): string {
    session + " (" + NatToString(count) + " shots)"
  }

  function Reverse<T>(s: seq<T>): (r: seq<T>)
    ensures |r| == |s| && forall i :: 0 <= i < |s| ==> r[i] == s[|s| - 1 - i]
  {
    seq(|s|, i requires 0 <= i < |s| => s[|s| - 1 - i])
  }

  /** `sorted(df['Session ID'].unique(), reverse=True)` */
  function NewestFirst(rows: seq<FrameRow>): seq<string> {
    Reverse(SortedUnique(SessionsOf(rows)))
  }

  /** The session list shows each session of the frame once, newest first. */
  lemma NewestFirstSpec(rows: seq<FrameRow>)
    ensures var ss := NewestFirst(rows);
            (forall i, j :: 0 <= i < j < |ss| ==> StrLe(ss[j], ss[i]) && ss[i] != ss[j])
            && forall s :: s in ss <==> exists i :: 0 <= i < |rows| && rows[i].session == s
  {
    var up := SortedUnique(SessionsOf(rows));
    SortedUniqueSpec(SessionsOf(rows));
    ReverseOfIncreasing(up);
    forall s | s in SessionsOf(rows) ensures exists i :: 0 <= i < |rows| && rows[i].session == s {
      var i :| 0 <= i < |rows| && SessionsOf(rows)[i] == s;
    }
  }

  /** Reversing a strictly increasing list gives a strictly decreasing
      list of the same elements. */
  lemma ReverseOfIncreasing(up: seq<string>)
    requires Increasing(up)
    ensures var ss := Reverse(up);
            (forall i, j :: 0 <= i < j < |ss| ==> StrLe(ss[j], ss[i]) && ss[i] != ss[j])
            && forall s :: s in ss <==> s in up
  {
    var ss := Reverse(up);
    forall i, j | 0 <= i < j < |ss| ensures StrLe(ss[j], ss[i]) && ss[i] != ss[j] {
      assert ss[i] == up[|up| - 1 - i] && ss[j] == up[|up| - 1 - j];
    }
    forall s | s in up ensures s in ss {
      var k :| 0 <= k < |up| && up[k] == s;
      assert ss[|up| - 1 - k] == s;
    }
  }

  /** `len(df[df['Session ID'] == session])` */
  function ShotCount(rows: seq<FrameRow>, session: string): nat {
    |Filter(rows, (r: FrameRow) => r.session == session)|
  }

  function SessionLabels(rows: seq<FrameRow>): (labels: seq<string>)
    ensures |labels| == |NewestFirst(rows)|
  {
    LabelsFor(rows, NewestFirst(rows))
  }

  /** Each session labelled with its shot count in `rows`. */
  function LabelsFor(rows: seq<FrameRow>, sessions: seq<string>): (labels: seq<string>)
    ensures |labels| == |sessions|
  {
    seq(|sessions|, i requires 0 <= i < |sessions| => Label(sessions[i], ShotCount(rows, sessions[i])))
  }

  /** The loop of `load_analysis` that labels each session with its shot count. */
  method BuildLabels(rows: seq<FrameRow>, sessions: seq<string>) returns (labels: seq<string>)
    ensures labels == LabelsFor(rows, sessions)
  {
    ghost var all := LabelsFor(rows, sessions);
    labels := [];
    for i := 0 to |sessions|
      invariant |labels| == i
      invariant forall k :: 0 <= k < i ==> labels[k] == all[k]
    {
      var count := ShotCount(rows, sessions[i]);
      LabelAt(rows, sessions, i);
      labels := labels + [Label(sessions[i], count)];
    }
  }

  lemma LabelAt(rows: seq<FrameRow>, sessions: seq<string>, i: nat)
    requires i < |sessions|
    ensures LabelsFor(rows, sessions)[i] == Label(sessions[i], ShotCount(rows, sessions[i]))
  {
  }

  /** `re.match(r"([^(]+\(Session \d+\))", label)` and `group(1).strip()`:
      a non-empty run without '(', then "(Session ", digits and ')'. */
  function ParseLabel(entry: string): Option<string> {
    match LabelEnd(entry)
    case None => None
    case Some(e) => Some(Strip(entry[..e]))
  }

  /** Where the match of the label pattern ends, if it matches. */
  function LabelEnd(entry: string): (e: Option<nat>)
    ensures e.Some? ==> e.value <= |entry|
  {
    match Find(entry, '(')
    case None => None
    case Some(k) =>
      if k == 0 || !StartsWith(entry[k..], "(Session ") then None
      else
        var j := k + 9;
        var d := DigitRun(entry[j..]);
        if d == 0 || j + d >= |entry| || entry[j + d] != ')' then None
        else Some(j + d + 1)
  }

  lemma FindAfter(pre: string, rest: string, ch: char)
    requires forall i :: 0 <= i < |pre| ==> pre[i] != ch
    requires |rest| > 0 && rest[0] == ch
    ensures Find(pre + rest, ch) == Some(|pre|)
  {
    var t := pre + rest;
    assert t[|pre|] == ch;
    assert forall i :: 0 <= i < |pre| ==> t[i] == pre[i];
  }

  /** Text that starts with a non-empty run without '(' followed by
      "(Session <digits>)" parses to that prefix, whatever follows. */
  lemma ParseLabelPrefix(pre: string, d: string, rest: string)
    requires |pre| > 0 && !IsSpace(pre[0]) && forall i :: 0 <= i < |pre| ==> pre[i] != '('
    requires |d| > 0 && IsDigits(d)
    ensures ParseLabel(pre + "(Session " + d + ")" + rest) == Some(pre + "(Session " + d + ")")
  {
    var s := pre + "(Session " + d + ")";
    var t := s + rest;
    LabelPrefixEnd(pre, d, rest);
    assert s[0] == pre[0] && s[|s| - 1] == ')';
    StripOfUnpadded(s);
    ParseLabelOfEnd(t, |s|, s);
  }

  /** On such text the match ends right after the ')' of the tag. */
  lemma LabelPrefixEnd(pre: string, d: string, rest: string)
    requires |pre| > 0 && forall i :: 0 <= i < |pre| ==> pre[i] != '('
    requires |d| > 0 && IsDigits(d)
    ensures var s := pre + "(Session " + d + ")";
            var t := s + rest;
            |s| <= |t| && t[..|s|] == s && LabelEnd(t).Some? && LabelEnd(t).value == |s|
  {
    var t := pre + "(Session " + d + ")" + rest;
    var k := |pre|;
    var u := "(Session " + (d + ")" + rest);
    assert t == pre + u;
    FindAfter(pre, u, '(');
    SessionTagFacts(d, rest);
    ConcatSlices(pre, u, 9 + |d| + 1);
    LabelEndAt(t, k, |d|);
  }

  /** The facts about "(Session <digits>)" the label pattern relies on. */
  lemma SessionTagFacts(d: string, rest: string)
    requires |d| > 0 && IsDigits(d)
    ensures var u := "(Session " + (d + ")" + rest);
            StartsWith(u, "(Session ") && 9 + |d| < |u| && DigitRun(u[9..]) == |d| && u[9 + |d|] == ')'
            && u[..9 + |d| + 1] == "(Session " + d + ")"
  {
    var u := "(Session " + (d + ")" + rest);
    assert u[9..] == d + (")" + rest);
    DigitRunOfDigits(d, ")" + rest);
  }

  /** Slicing `pre + u` past `pre` is slicing `u`. */
  lemma ConcatSlices(pre: string, u: string, m: nat)
    requires 9 <= m <= |u|
    ensures (pre + u)[|pre|..] == u
    ensures (pre + u)[|pre| + 9..] == u[9..]
    ensures (pre + u)[..|pre| + m] == pre + u[..m]
    ensures forall i :: 0 <= i < |u| ==> (pre + u)[|pre| + i] == u[i]
  {
  }

  lemma ParseLabelOfEnd(t: string, e: nat, s: string)
    requires LabelEnd(t).Some? && LabelEnd(t).value == e && e <= |t|
    requires t[..e] == s && Strip(s) == s
    ensures ParseLabel(t) == Some(s)
  {
  }

  /** The match ends after ')' once the '(' at `k` and the digit run of
      length `d` after "(Session " are known. */
  lemma LabelEndAt(t: string, k: nat, d: nat)
    requires Find(t, '(') == Some(k) && k > 0 && StartsWith(t[k..], "(Session ")
    requires k + 9 + d < |t| && DigitRun(t[k + 9..]) == d && d > 0 && t[k + 9 + d] == ')'
    ensures LabelEnd(t).Some? && LabelEnd(t).value == k + 9 + d + 1
  {
  }

  /** A label built from a session id of the form "<p> (Session <digits>)",
      where `p` holds no '(' and does not start with white space, parses
      back to that session id. */
  lemma ParseLabelOfSessionId(p: string, d: string, count: nat)
    requires |p| > 0 && !IsSpace(p[0]) && forall i :: 0 <= i < |p| ==> p[i] != '('
    requires |d| > 0 && IsDigits(d)
    ensures ParseLabel(Label(p + " (Session " + d + ")", count)) == Some(p + " (Session " + d + ")")
  {
    var pre := p + " ";
    assert forall i :: 0 <= i < |pre| ==> pre[i] != '(' by {
      assert forall i :: 0 <= i < |p| ==> pre[i] == p[i];
    }
    var rest := " (" + NatToString(count) + " shots)";
    assert p + " (Session " + d + ")" == pre + "(Session " + d + ")";
    assert Label(p + " (Session " + d + ")", count) == pre + "(Session " + d + ")" + rest;
    ParseLabelPrefix(pre, d, rest);
  }

  /** The session ids the loaders derive from a file name parse back from
      their labels. */
  lemma LoaderLabelParses(m: NameMatch, count: nat)
    requires IsDigits(m.date) && |m.session| > 0 && IsDigits(m.session)
    ensures ParseLabel(Label(SessionId(m), count)) == Some(SessionId(m))
  {
    var p := FormatDate(m.date);
    FormatDateChars(m.date);
    assert SessionId(m) == p + " (Session " + m.session + ")";
    ParseLabelOfSessionId(p, m.session, count);
  }

  /** The loop of `on_continue_sessions` over the chosen labels. */
  function ParsedSessions(labels: seq<string>): seq<string> {
    KeepParsed(labels, ParseLabel)
  }

  /** The parse results of the labels that parse, in order. */
  function KeepParsed(labels: seq<string>, parse: string -> Option<string>): seq<string> {
    if |labels| == 0 then []
    else
      var n := |labels| - 1;
      var r := parse(labels[n]);
      KeepParsed(labels[..n], parse) + (if r.Some? then [r.value] else [])
  }

  /** Labels that each parse to a session give exactly those sessions, in order. */
  lemma ParsedSessionsOfLabels(labels: seq<string>, ids: seq<string>)
    requires |labels| == |ids| && forall i :: 0 <= i < |labels| ==> ParseLabel(labels[i]) == Some(ids[i])
    ensures ParsedSessions(labels) == ids
  {
    KeepParsedAll(labels, ids, ParseLabel);
  }

  lemma {:induction false} KeepParsedAll(labels: seq<string>, ids: seq<string>, parse: string -> Option<string>)
    requires |labels| == |ids| && forall i :: 0 <= i < |labels| ==> parse(labels[i]) == Some(ids[i])
    ensures KeepParsed(labels, parse) == ids
  {
    if |labels| > 0 {
      var n := |labels| - 1;
      assert forall i :: 0 <= i < n ==> labels[..n][i] == labels[i] && ids[..n][i] == ids[i];
      KeepParsedAll(labels[..n], ids[..n], parse);
      assert ids == ids[..n] + [ids[n]];
    }
  }

  /** The GUI state the modelled handlers read and write. */
  class TrackManGui {
    var activities: seq<Activity>
    var scope: Scope
    var analysis: seq<FrameRow>
    var selectedForTime: seq<string>
    var selectedForClubs: seq<string>

    /** The ball-type box starts at "PREMIUM". The two session selections
        are never set in `__init__`; the plot handlers read them with
        `getattr(..., None)` and treat a missing attribute like an empty
        list (`if not selected_sessions`), so both start as `[]` here. */
    constructor ()
      ensures activities == [] && scope == PremiumOnly && analysis == []
      ensures selectedForTime == [] && selectedForClubs == []
    {
      activities := [];
      scope := PremiumOnly;
      analysis := [];
      selectedForTime := [];
      selectedForClubs := [];
    }

    /** `fetch_thread`: an empty feed changes nothing; otherwise the range
        practice activities replace the list. */
    method ReceiveActivities(feed: seq<Activity>)
      modifies this
      ensures activities == if |feed| == 0 then old(activities) else RangePractice(feed)
      ensures scope == old(scope) && analysis == old(analysis)
      ensures selectedForTime == old(selectedForTime) && selectedForClubs == old(selectedForClubs)
    {
      if |feed| > 0 {
        activities := Filter(feed, IsRangePractice);
      }
    }

    /** `update_activity_list`: re-sort the list by time and show row i as
        number i + 1 with its shot count. */
    method UpdateActivityList() returns (rows: seq<SessionRow>)
      modifies this
      ensures activities == Chronological(old(activities))
      ensures rows == Listed(activities)
      ensures scope == old(scope) && analysis == old(analysis)
      ensures selectedForTime == old(selectedForTime) && selectedForClubs == old(selectedForClubs)
    {
      activities := SortBy(activities, ByTime);
      var acts := activities;
      rows := [];
      for i := 0 to |acts|
        invariant |rows| == i
        invariant forall k :: 0 <= k < i ==> rows[k] == SessionRow(k + 1, acts[k], acts[k].totalCount.GetOr(0))
      {
        var totalShots := acts[i].totalCount.GetOr(0);
        rows := rows + [SessionRow(i + 1, acts[i], totalShots)];
      }
    }

    /** `download_missing` and `ask_download_missing`: with no activities
        nothing happens; otherwise the scope is forced to both ball types,
        the saved files are scanned, and every reported variant is fetched
        and saved with the combined writer. */
    method DownloadMissing(fs: Listing, username: string, fetch: Fetch, dateOf: string -> Option<DateStamp>)
      returns (missing: seq<Missing>, files: seq<(string, string)>)
      modifies this
      ensures |old(activities)| == 0 ==> scope == old(scope) && missing == [] && files == []
      ensures |old(activities)| > 0 ==>
                scope == Both
                && missing == FindMissing(activities, Both, Scanned(fs, username, Premium),
                                          Scanned(fs, username, Range), dateOf)
                && files == if |missing| == 0 then [] else GuiDownloadFiles(missing, fetch, username, dateOf)
      ensures activities == old(activities) && analysis == old(analysis)
      ensures selectedForTime == old(selectedForTime) && selectedForClubs == old(selectedForClubs)
    {
      missing, files := [], [];
      if |activities| == 0 {
        return;
      }
      if scope != Both {
        scope := Both;
      }
      var pro, range := GetExistingSessions(fs, username);
      missing := CheckMissing(activities, Both, pro, range, dateOf);
      if |missing| == 0 {
        return;
      }
      files := GuiDownload(missing, fetch, username, dateOf);
    }

    /** The tail of `load_data_for_analysis`: an empty frame leaves the
        state alone; otherwise it becomes the analysis frame and both list
        boxes are filled. */
    method LoadAnalysis(rows: seq<FrameRow>) returns (labels: seq<string>, clubs: seq<string>)
      modifies this
      ensures |rows| == 0 ==> analysis == old(analysis) && labels == [] && clubs == []
      ensures |rows| > 0 ==> analysis == rows && labels == SessionLabels(rows) && clubs == ClubList(rows)
      ensures activities == old(activities) && scope == old(scope)
      ensures selectedForTime == old(selectedForTime) && selectedForClubs == old(selectedForClubs)
    {
      labels, clubs := [], [];
      if |rows| == 0 {
        return;
      }
      analysis := rows;
      labels := BuildLabels(rows, NewestFirst(rows));
      var kept := FilterClubs(Unique(NonNullClubs(rows)));
      clubs := SortBy(kept, StrLe);
    }

    /** `on_continue_sessions`: with nothing chosen only a warning; otherwise
        the parsed sessions are stored for the current comparison mode and
        the club list is rebuilt from their rows. */
    method ContinueSessions(chosen: seq<string>, mode: string) returns (clubs: Option<seq<string>>)
      modifies this
      ensures |chosen| == 0 ==> clubs.None? && selectedForTime == old(selectedForTime)
                                && selectedForClubs == old(selectedForClubs)
      ensures |chosen| > 0 ==>
                var picked := ParsedSessions(chosen);
                (if mode == "time" then selectedForTime == picked && selectedForClubs == old(selectedForClubs)
                 else selectedForClubs == picked && selectedForTime == old(selectedForTime))
                && clubs == Some(ClubList(InSessions(analysis, picked)))
      ensures activities == old(activities) && scope == old(scope) && analysis == old(analysis)
    {
      if |chosen| == 0 {
        return None;
      }
      var picked: seq<string> := [];
      for i := 0 to |chosen|
        invariant picked == KeepParsed(chosen[..i], ParseLabel)
      {
        assert chosen[..i + 1][..i] == chosen[..i];
        var m := ParseLabel(chosen[i]);
        if m.Some? {
          picked := picked + [m.value];
        }
      }
      assert chosen[..|chosen|] == chosen;
      if mode == "time" {
        selectedForTime := picked;
      } else {
        selectedForClubs := picked;
      }
      var pool := InSessions(analysis, picked);
      var kept := FilterClubs(Unique(NonNullClubs(pool)));
      clubs := Some(SortBy(kept, StrLe));
    }
  }

  /** The clubs offered after choosing sessions are the real club names
      played in those sessions, and a subset of the clubs offered on load. */
  lemma ChosenClubsSpec(rows: seq<FrameRow>, picked: seq<string>)
    ensures forall c :: c in ClubList(InSessions(rows, picked)) <==>
              KeepClub(c) && exists i :: 0 <= i < |rows| && rows[i].club == Some(c) && rows[i].session in picked
    ensures forall c :: c in ClubList(InSessions(rows, picked)) ==> c in ClubList(rows)
  {
    var pool := InSessions(rows, picked);
    ClubListSpec(pool);
    ClubListSpec(rows);
    forall c ensures c in ClubList(pool) <==>
              KeepClub(c) && exists i :: 0 <= i < |rows| && rows[i].club == Some(c) && rows[i].session in picked
    {
      ClubInSessions(rows, picked, c);
    }
  }

  /** A club is played in the chosen sessions exactly when some row of
      those sessions carries it. */
  lemma ClubInSessions(rows: seq<FrameRow>, picked: seq<string>, c: string)
    ensures var pool := InSessions(rows, picked);
            (exists k :: 0 <= k < |pool| && pool[k].club == Some(c))
            <==> exists i :: 0 <= i < |rows| && rows[i].club == Some(c) && rows[i].session in picked
  {
    var pool := InSessions(rows, picked);
    InSessionsMembers(rows, picked);
    if exists k :: 0 <= k < |pool| && pool[k].club == Some(c) {
      var k :| 0 <= k < |pool| && pool[k].club == Some(c);
      assert pool[k] in pool;
      var i :| 0 <= i < |rows| && rows[i] == pool[k];
    }
    if exists i :: 0 <= i < |rows| && rows[i].club == Some(c) && rows[i].session in picked {
      var i :| 0 <= i < |rows| && rows[i].club == Some(c) && rows[i].session in picked;
      assert rows[i] in pool;
      var k :| 0 <= k < |pool| && pool[k] == rows[i];
    }
  }
}

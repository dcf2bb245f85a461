/** The premium-versus-range comparison script (testplot.py): which files
    it loads, the session key each file is filed under, and the per-club
    comparison it runs for one session. Directory listings, file contents
    and the console answer are parameters. */
module Comparison {
  import opened Text
  import opened Sorting
  import opened Stats
  import opened FileNames
  import opened Selection

  // ---------------------------------------------------------------------
  // Loading a file.

  /** What a loaded table offers: its column names, the `session` column
      (as strings) and the shots with club, carry and total distance. */
  datatype Frame = Frame(columns: set<string>, session: seq<string>, shots: seq<Shot>)

  datatype Shot = Shot(club: string, carry: real, total: real)

  datatype Kind = Csv | Excel | Unsupported

  /** `str.rfind('.')` */
  function LastDot(s: string): (r: Option<nat>)
    ensures r.Some? ==> r.value < |s| && s[r.value] == '.' && forall i :: r.value < i < |s| ==> s[i] != '.'
    ensures r.None? ==> forall i :: 0 <= i < |s| ==> s[i] != '.'
  {
    if |s| == 0 then None
    else if s[|s| - 1] == '.' then Some(|s| - 1)
    else LastDot(s[..|s| - 1])
  }

  /** `os.path.splitext(name)[1]`: from the last '.', unless only dots
      precede it. */
  function Extension(name: string): string {
    match LastDot(name)
    case None => ""
    case Some(k) => if exists i :: 0 <= i < k && name[i] != '.' then name[k..] else ""
  }

  /** The extension dispatch of `load_data_file`. */
  function KindOf(name: string): Kind {
    var ext := Lower(Extension(name));
    if ext == ".csv" then Csv
    else if ext == ".xlsx" || ext == ".xls" then Excel
    else Unsupported
  }

  /** `pd.read_csv`/`pd.read_excel` on a path: nothing when it raises. */
  type Reader = (string, Kind) -> Option<Frame>

  /** `load_data_file`: unsupported extensions and failed reads give nothing. */
  function LoadDataFile(path: string, name: string, read: Reader): (r: Option<Frame>)
    ensures KindOf(name) == Unsupported ==> r.None?
    ensures KindOf(name) != Unsupported ==> r == read(path, KindOf(name))
  {
    match KindOf(name)
    case Unsupported => None
    case k => read(path, k)
  }

  /** The extension of a name with a non-dot character before its final
      ".csv" is ".csv". */
  lemma CsvExtension(p: string)
    requires |p| > 0 && p[0] != '.'
    ensures Extension(p + ".csv") == ".csv"
    ensures KindOf(p + ".csv") == Csv
  {
    LowerCsv();
    var name := p + ".csv";
    assert name[|p|] == '.' && name[|p| + 1] == 'c' && name[|p| + 2] == 's' && name[|p| + 3] == 'v';
    assert LastDot(name) == Some(|p|);
    assert name[0] != '.';
    assert name[|p|..] == ".csv";
  }

  lemma LowerCsv()
    ensures Lower(".csv") == ".csv"
  {
  }

  /** Every name the writers produce ends in ".csv" and is read as CSV. */
  lemma WriterNamesAreCsv(date: Option<DateStamp>, session: string, b: BallType)
    ensures KindOf(SessionFileName(date, session, b)) == Csv
  {
    match date {
      case Some(d) =>
        var head := "trackman_" + d + "_session";
        assert (head + session + Suffix(b))[0] == head[0] == 't';
        CsvExtension(head + session + Suffix(b));
      case None =>
        var head := "trackman_session";
        assert (head + session + Suffix(b))[0] == head[0] == 't';
        CsvExtension(head + session + Suffix(b));
    }
  }

  /** The file of every name the writers produce is read as CSV. */
  lemma WriterFilesLoadAsCsv(path: string, date: Option<DateStamp>, session: string, b: BallType, read: Reader)
    ensures LoadDataFile(path, SessionFileName(date, session, b), read) == read(path, Csv)
  {
    WriterNamesAreCsv(date, session, b);
  }

  // ---------------------------------------------------------------------
  // The session key a file is filed under.

  /** `_session(\d+)_` anchored at the start of `t`: the whole match. */
  function KeyHere(t: string): Option<string> {
    match KeyEnd(t)
    case None => None
    case Some(e) => Some(t[..e])
  }

  /** Where that match ends, if `t` starts with one. */
  function KeyEnd(t: string): (e: Option<nat>)
    ensures e.Some? ==> e.value <= |t|
  {
    if !StartsWith(t, "_session") then None
    else
      var k := DigitRun(t[8..]);
      if k == 0 || 8 + k >= |t| || t[8 + k] != '_' then None
      else Some(8 + k + 1)
  }

  /** `session_pattern.search(filename)`: the leftmost match. */
  function SearchKey(t: string): Option<string>
    decreases |t|
  {
    match KeyHere(t)
    case Some(k) => Some(k)
    case None => if |t| == 0 then None else SearchKey(t[1..])
  }

  /** `name.split('.')[0]` */
  function BeforeFirstDot(name: string): string {
    Split(name, '.')[0]
  }

  /** The key of a loaded file: the literal `_sessionN_` of its name, else
      the first `session` value, else the name before its first '.'.
      Nothing when the `session` column is empty (`iloc[0]` raises). */
  function SessionKey(name: string, data: Frame): Option<string> {
    match SearchKey(name)
    case Some(k) => Some(k)
    case None =>
      if "session" in data.columns then
        if |data.session| == 0 then None else Some(data.session[0])
      else Some(BeforeFirstDot(name))
  }

  /** Position `i` of `pre` is a '_' that may begin `_session`. */
  predicate TagStartAt(pre: string, i: nat)
    requires i < |pre|
  {
    pre[i] == '_' && (i + 1 == |pre| || pre[i + 1] == 's')
  }

  /** No position of `pre` begins `_session`. */
  predicate NoTagStart(pre: string) {
    forall i :: 0 <= i < |pre| ==> !TagStartAt(pre, i)
  }

  lemma {:induction false} SearchSkips(pre: string, s: string)
    requires NoTagStart(pre)
    ensures SearchKey(pre + s) == SearchKey(s)
  {
    if |pre| > 0 {
      var t := pre + s;
      assert !TagStartAt(pre, 0);
      assert t[0] == pre[0] && (|pre| > 1 ==> t[1] == pre[1]);
      assert KeyHere(t).None?;
      assert SearchKey(t) == SearchKey(t[1..]);
      assert t[1..] == pre[1..] + s;
      assert NoTagStart(pre[1..]) by {
        forall i | 0 <= i < |pre| - 1 ensures !TagStartAt(pre[1..], i) {
          assert !TagStartAt(pre, i + 1);
          assert pre[1..][i] == pre[i + 1];
          if i + 1 < |pre| - 1 {
            assert pre[1..][i + 1] == pre[i + 2];
          }
        }
      }
      SearchSkips(pre[1..], s);
    } else {
      assert pre + s == s;
    }
  }

  lemma KeyAt(n: string, rest: string)
    requires |n| > 0 && IsDigits(n) && |rest| > 0 && rest[0] == '_'
    ensures SearchKey("_session" + n + rest) == Some("_session" + n + "_")
  {
    var t := "_session" + n + rest;
    KeyFacts(n, rest);
    KeyEndAt(t, |n|);
    SearchKeyAtStart(t, 8 + |n| + 1);
  }

  /** The facts about "_session<digits>_" the key pattern relies on. */
  lemma KeyFacts(n: string, rest: string)
    requires |n| > 0 && IsDigits(n) && |rest| > 0 && rest[0] == '_'
    ensures var t := "_session" + n + rest;
            StartsWith(t, "_session") && 8 + |n| < |t| && DigitRun(t[8..]) == |n| && t[8 + |n|] == '_'
            && t[..8 + |n| + 1] == "_session" + n + "_"
  {
    var t := "_session" + n + rest;
    assert t == "_session" + (n + rest);
    assert t[8..] == n + rest;
    DigitRunOfDigits(n, rest);
    assert t == ("_session" + n + "_") + rest[1..];
  }

  lemma KeyEndAt(t: string, k: nat)
    requires StartsWith(t, "_session") && 8 + k < |t| && DigitRun(t[8..]) == k && k > 0 && t[8 + k] == '_'
    ensures KeyEnd(t).Some? && KeyEnd(t).value == 8 + k + 1
  {
  }

  lemma SearchKeyAtStart(t: string, e: nat)
    requires KeyEnd(t).Some? && KeyEnd(t).value == e
    ensures SearchKey(t) == Some(t[..e])
  {
  }

  lemma DatedPrefix(d: DateStamp)
    ensures NoTagStart("trackman_" + d)
  {
    var pre := "trackman_" + d;
    forall i | 0 <= i < |pre| ensures !TagStartAt(pre, i) {
      if i >= 9 {
        assert pre[i] == d[i - 9];
      } else if i == 8 {
        assert pre[9] == d[0];
      }
    }
  }

  lemma KeyAfter(pre: string, n: string, rest: string)
    requires NoTagStart(pre)
    requires |n| > 0 && IsDigits(n) && |rest| > 0 && rest[0] == '_'
    ensures SearchKey(pre + "_session" + n + rest) == Some("_session" + n + "_")
  {
    var t := "_session" + n + rest;
    KeyAt(n, rest);
    ConcatAssoc(pre, "_session", n, rest);
    SearchSkips(pre, t);
  }

  lemma ConcatAssoc(a: string, b: string, c: string, d: string)
    ensures a + b + c + d == a + (b + c + d)
  {
  }

  /** A file the writers name for session `n`, premium or range, dated or
      not, is filed under `_session<n>_`: the key the comparison asks for. */
  lemma WriterNameKey(date: Option<DateStamp>, n: nat, b: BallType)
    ensures SearchKey(SessionFileName(date, NatToString(n), b)) == Some("_session" + NatToString(n) + "_")
  {
    var s := NatToString(n);
    var rest := Suffix(b) + ".csv";
    assert rest[0] == '_';
    var pre := match date case Some(d) => "trackman_" + d case None => "trackman";
    match date {
      case Some(d) => DatedPrefix(d);
      case None => UndatedPrefix();
    }
    assert SessionFileName(date, s, b) == pre + "_session" + s + Suffix(b) + ".csv";
    GroupTail(pre + "_session" + s, Suffix(b), ".csv");
    KeyAfter(pre, s, rest);
  }

  lemma UndatedPrefix()
    ensures NoTagStart("trackman")
  {
    forall i | 0 <= i < 8 ensures !TagStartAt("trackman", i) {
    }
  }

  // ---------------------------------------------------------------------
  // `find_session_files`.

  /** What `glob("*.*")` lists: names with a '.' that do not start with one. */
  predicate Globbed(name: string) {
    |name| > 0 && name[0] != '.' && exists i :: 0 <= i < |name| && name[i] == '.'
  }

  type Sessions = map<string, (string, Frame)>

  /** What one listed name contributes: nothing (not globbed, or not
      loaded), a crash (the key lookup raises), or an entry under a key. */
  datatype Step = Skip | Crash | Filed(key: string, path: string, data: Frame)

  function StepOf(dir: string, name: string, read: Reader): Step {
    if !Globbed(name) then Skip
    else
      var path := dir + "/" + name;
      match LoadDataFile(path, name, read)
      case None => Skip
      case Some(data) =>
        match SessionKey(name, data)
        case None => Crash
        case Some(k) => Filed(k, path, data)
  }

  function Steps(dir: string, names: seq<string>, read: Reader): (ss: seq<Step>)
    ensures |ss| == |names| && forall i :: 0 <= i < |names| ==> ss[i] == StepOf(dir, names[i], read)
  {
    seq(|names|, i requires 0 <= i < |names| => StepOf(dir, names[i], read))
  }

  /** The dictionary built step by step: a later entry replaces an earlier
      one under the same key; a crash ends everything. */
  function Fold(steps: seq<Step>): Option<Sessions> {
    if |steps| == 0 then Some(map[])
    else
      var n := |steps| - 1;
      match Fold(steps[..n])
      case None => None
      case Some(m) =>
        match steps[n]
        case Skip => Some(m)
        case Crash => None
        case Filed(k, path, data) => Some(m[k := (path, data)])
  }

  /** The files of one directory, keyed. */
  function Collect(dir: string, names: seq<string>, read: Reader): Option<Sessions> {
    Fold(Steps(dir, names, read))
  }

  /** The index of the last step filed under `k`. */
  function LastFiled(steps: seq<Step>, k: string): (r: Option<nat>)
    ensures r.Some? ==> r.value < |steps| && steps[r.value].Filed? && steps[r.value].key == k
  {
    if |steps| == 0 then None
    else if steps[|steps| - 1].Filed? && steps[|steps| - 1].key == k then Some(|steps| - 1)
    else LastFiled(steps[..|steps| - 1], k)
  }

  /** It is filed under `k` and no later step is; without it no step is. */
  lemma {:induction false} LastFiledSpec(steps: seq<Step>, k: string)
    ensures var r := LastFiled(steps, k);
            (r.Some? ==> steps[r.value].Filed? && steps[r.value].key == k
                         && forall j :: r.value < j < |steps| ==> !(steps[j].Filed? && steps[j].key == k))
            && (r.None? ==> forall j :: 0 <= j < |steps| ==> !(steps[j].Filed? && steps[j].key == k))
  {
    if |steps| > 0 {
      var n := |steps| - 1;
      if !(steps[n].Filed? && steps[n].key == k) {
        LastFiledSpec(steps[..n], k);
        assert forall j :: 0 <= j < n ==> steps[..n][j] == steps[j];
      }
    }
  }

  /** A key is present exactly when some step is filed under it, and it
      holds the last such step: later files replace earlier ones. */
  lemma {:induction false} FoldLastWins(steps: seq<Step>)
    requires Fold(steps).Some?
    ensures var m := Fold(steps).value;
            forall k :: (k in m <==> LastFiled(steps, k).Some?)
                        && (k in m ==> m[k] == (steps[LastFiled(steps, k).value].path, steps[LastFiled(steps, k).value].data))
  {
    if |steps| > 0 {
      var n := |steps| - 1;
      FoldLastWins(steps[..n]);
      var m0 := Fold(steps[..n]).value;
      forall k | k in m0 && LastFiled(steps, k) == LastFiled(steps[..n], k)
        ensures steps[..n][LastFiled(steps[..n], k).value] == steps[LastFiled(steps, k).value]
      {
      }
    }
  }

  /** Building fails exactly when some step crashes. */
  lemma {:induction false} FoldFails(steps: seq<Step>)
    ensures Fold(steps).None? <==> Crash in steps
  {
    if |steps| > 0 {
      var n := |steps| - 1;
      FoldFails(steps[..n]);
      assert steps == steps[..n] + [steps[n]];
    }
  }

  /** Each key of a directory holds its last file filed under that key,
      and a directory fails exactly when one of its loadable files has no
      key in its name and an empty `session` column. */
  lemma CollectSpec(dir: string, names: seq<string>, read: Reader)
    ensures Collect(dir, names, read).None? <==>
              exists i :: 0 <= i < |names| && StepOf(dir, names[i], read) == Crash
    ensures Collect(dir, names, read).Some? ==>
              var m := Collect(dir, names, read).value;
              var ss := Steps(dir, names, read);
              forall k :: (k in m <==> LastFiled(ss, k).Some?)
                          && (k in m ==> m[k] == (dir + "/" + names[LastFiled(ss, k).value], ss[LastFiled(ss, k).value].data))
  {
    var ss := Steps(dir, names, read);
    FoldFails(ss);
    if Fold(ss).Some? {
      FoldLastWins(ss);
      forall k | LastFiled(ss, k).Some?
        ensures ss[LastFiled(ss, k).value].path == dir + "/" + names[LastFiled(ss, k).value]
      {
      }
    }
  }

  /** A crash is the one step whose key lookup raises. */
  lemma CrashSpec(dir: string, name: string, read: Reader)
    ensures StepOf(dir, name, read) == Crash <==>
              Globbed(name) && var d := LoadDataFile(dir + "/" + name, name, read);
              d.Some? && SearchKey(name).None? && "session" in d.value.columns && |d.value.session| == 0
  {
  }

  /** The loop over one directory. */
  method CollectDir(dir: string, names: seq<string>, read: Reader) returns (r: Option<Sessions>)
    ensures r == Collect(dir, names, read)
  {
    var sessions: Sessions := map[];
    ghost var ss := Steps(dir, names, read);
    for i := 0 to |names|
      invariant Fold(ss[..i]) == Some(sessions)
    {
      FoldStep(ss, i, sessions);
      var name := names[i];
      if Globbed(name) {
        var path := dir + "/" + name;
        var data := LoadDataFile(path, name, read);
        if data.Some? {
          var key := SessionKey(name, data.value);
          if key.None? {
            assert ss[i] == Crash;
            FoldStops(ss, i + 1);
            return None;
          }
          assert ss[i] == Filed(key.value, path, data.value);
          sessions := sessions[key.value := (path, data.value)];
        } else {
          assert ss[i] == Skip;
        }
      } else {
        assert ss[i] == Skip;
      }
    }
    assert ss[..|names|] == ss;
    r := Some(sessions);
  }

  /** One more step of the fold from the dictionary built so far. */
  lemma FoldStep(steps: seq<Step>, i: nat, m: Sessions)
    requires i < |steps| && Fold(steps[..i]) == Some(m)
    ensures steps[i].Skip? ==> Fold(steps[..i + 1]) == Some(m)
    ensures steps[i].Crash? ==> Fold(steps[..i + 1]).None?
    ensures steps[i].Filed? ==> Fold(steps[..i + 1]) == Some(m[steps[i].key := (steps[i].path, steps[i].data)])
  {
    assert steps[..i + 1][..i] == steps[..i];
  }

  /** Once building has failed it stays failed. */
  lemma {:induction false} FoldStops(steps: seq<Step>, i: nat)
    requires i <= |steps| && Fold(steps[..i]).None?
    ensures Fold(steps).None?
    decreases |steps| - i
  {
    if i < |steps| {
      assert steps[..i + 1][..i] == steps[..i];
      FoldStops(steps, i + 1);
    } else {
      assert steps[..i] == steps;
    }
  }

  /** `Data/<user>/premium`: for a named user, the directory the writers
      save premium sessions to. */
  function PremiumDir(user: string): (d: string)
    ensures user != "" ==> d == SaveDir(user, Premium)
  {
    "Data/" + user + "/premium"
  }

  /** `Data/<user>/range`: for a named user, the directory the writers save
      range sessions to. */
  function RangeDir(user: string): (d: string)
    ensures user != "" ==> d == SaveDir(user, Range)
  {
    "Data/" + user + "/range"
  }

  /** `find_session_files`: premium files first, then range files. */
  method FindSessionFiles(user: string, premiumNames: seq<string>, rangeNames: seq<string>, read: Reader)
    returns (r: Option<(Sessions, Sessions)>)
    ensures r.Some? <==> Collect(PremiumDir(user), premiumNames, read).Some?
                         && Collect(RangeDir(user), rangeNames, read).Some?
    ensures r.Some? ==> r.value == (Collect(PremiumDir(user), premiumNames, read).value,
                                    Collect(RangeDir(user), rangeNames, read).value)
  {
    var premium := CollectDir(PremiumDir(user), premiumNames, read);
    if premium.None? {
      return None;
    }
    var range := CollectDir(RangeDir(user), rangeNames, read);
    if range.None? {
      return None;
    }
    r := Some((premium.value, range.value));
  }

  // ---------------------------------------------------------------------
  // `compare_carry_total_distances`.

  const Required: seq<string> := ["carryActual", "totalActual", "Club"]

  function ClubsOf(shots: seq<Shot>): (cs: seq<string>)
    ensures |cs| == |shots| && forall i :: 0 <= i < |shots| ==> cs[i] == shots[i].club
  {
    seq(|shots|, i requires 0 <= i < |shots| => shots[i].club)
  }

  /** `sorted(set(p) & set(r))` */
  function CommonClubs(p: Frame, r: Frame): seq<string> {
    var rc := ClubsOf(r.shots);
    SortBy(Filter(Unique(ClubsOf(p.shots)), c => c in rc), StrLe)
  }

  lemma CommonClubsSpec(p: Frame, r: Frame)
    ensures Increasing(CommonClubs(p, r))
    ensures forall c :: c in CommonClubs(p, r) <==> c in ClubsOf(p.shots) && c in ClubsOf(r.shots)
  {
    var rc := ClubsOf(r.shots);
    var u := Unique(ClubsOf(p.shots));
    var f := Filter(u, c => c in rc);
    FilterKeepsDistinct(u, c => c in rc);
    SortDistinct(f);
    forall c ensures c in f <==> c in u && c in rc {
      if c in f {
        var k :| 0 <= k < |f| && f[k] == c;
      }
      if c in u && c in rc {
        var k :| 0 <= k < |u| && u[k] == c;
      }
    }
  }

  /** Carry or total distances of the shots with one club. */
  function Distances(shots: seq<Shot>, club: string, carry: bool): (ds: seq<real>)
    ensures club in ClubsOf(shots) ==> |ds| > 0
  {
    if |shots| == 0 then []
    else
      var n := |shots| - 1;
      var init := Distances(shots[..n], club, carry);
      assert club in ClubsOf(shots) && shots[n].club != club ==> club in ClubsOf(shots[..n]) by {
        if club in ClubsOf(shots) && shots[n].club != club {
          var i :| 0 <= i < |shots| && ClubsOf(shots)[i] == club;
          assert ClubsOf(shots[..n])[i] == club;
        }
      }
      if shots[n].club == club then init + [if carry then shots[n].carry else shots[n].total] else init
  }

  /** `(diff / base * 100) if base != 0 else 0` */
  function Pct(diff: real, base: real): (r: real)
    ensures base == 0.0 ==> r == 0.0
    ensures base != 0.0 ==> r * base == diff * 100.0
  {
    if base != 0.0 then diff / base * 100.0 else 0.0
  }

  /** `Series.std()`, kept as the sample variance: absent for a single
      shot, where pandas gives NaN. */
  function Spread(ds: seq<real>): (v: Option<real>)
    ensures v.Some? <==> |ds| >= 2
    ensures v.Some? ==> v.value >= 0.0
  {
    if |ds| >= 2 then VarianceNonNegative(ds); Some(Variance(ds)) else None
  }

  /** One entry of `stats`, in the order of its keys. */
  datatype ClubStat = ClubStat(club: string,
                               premiumCarry: real, premiumCarrySpread: Option<real>,
                               rangeCarry: real, rangeCarrySpread: Option<real>,
                               premiumTotal: real, premiumTotalSpread: Option<real>,
                               rangeTotal: real, rangeTotalSpread: Option<real>,
                               carryDiff: real, carryPct: real, totalDiff: real, totalPct: real)

  /** The means, spreads and differences for one common club. */
  function StatOf(p: Frame, r: Frame, club: string): (s: ClubStat)
    requires club in ClubsOf(p.shots) && club in ClubsOf(r.shots)
    ensures s.club == club
    ensures s.carryDiff == s.premiumCarry - s.rangeCarry && s.totalDiff == s.premiumTotal - s.rangeTotal
    ensures s.carryPct == Pct(s.carryDiff, s.rangeCarry) && s.totalPct == Pct(s.totalDiff, s.rangeTotal)
  {
    var pc, rc := Distances(p.shots, club, true), Distances(r.shots, club, true);
    var pt, rt := Distances(p.shots, club, false), Distances(r.shots, club, false);
    ClubStat(club, Mean(pc), Spread(pc), Mean(rc), Spread(rc), Mean(pt), Spread(pt), Mean(rt), Spread(rt),
             Mean(pc) - Mean(rc), Pct(Mean(pc) - Mean(rc), Mean(rc)),
             Mean(pt) - Mean(rt), Pct(Mean(pt) - Mean(rt), Mean(rt)))
  }

  /** Each of the four spreads of a summary is present exactly when its
      table holds at least two shots of the club, and is then non-negative. */
  lemma StatSpreads(p: Frame, r: Frame, club: string)
    requires club in ClubsOf(p.shots) && club in ClubsOf(r.shots)
    ensures var s := StatOf(p, r, club);
            (s.premiumCarrySpread.Some? <==> |Distances(p.shots, club, true)| >= 2)
            && (s.rangeCarrySpread.Some? <==> |Distances(r.shots, club, true)| >= 2)
            && (s.premiumTotalSpread.Some? <==> |Distances(p.shots, club, false)| >= 2)
            && (s.rangeTotalSpread.Some? <==> |Distances(r.shots, club, false)| >= 2)
            && (s.premiumCarrySpread.Some? ==> s.premiumCarrySpread.value >= 0.0)
            && (s.rangeCarrySpread.Some? ==> s.rangeCarrySpread.value >= 0.0)
            && (s.premiumTotalSpread.Some? ==> s.premiumTotalSpread.value >= 0.0)
            && (s.rangeTotalSpread.Some? ==> s.rangeTotalSpread.value >= 0.0)
  {
  }

  /** The answer of one comparison. */
  datatype Outcome =
    | NotFound(inPremium: bool, inRange: bool)
    | MissingColumns(missing: seq<string>)
    | NoCommonClubs
    | Compared(stats: seq<ClubStat>)

  /** `[col for col in required_cols if col not in p.columns or col not in r.columns]` */
  function MissingColumnsOf(p: Frame, r: Frame): seq<string> {
    Filter(Required, c => c !in p.columns || c !in r.columns)
  }

  /** The loop appending one summary per common club, in sorted order. */
  method ClubStats(p: Frame, r: Frame, clubs: seq<string>) returns (stats: seq<ClubStat>)
    requires forall i :: 0 <= i < |clubs| ==> clubs[i] in ClubsOf(p.shots) && clubs[i] in ClubsOf(r.shots)
    ensures |stats| == |clubs| && forall i :: 0 <= i < |clubs| ==> stats[i] == StatOf(p, r, clubs[i])
    ensures stats == StatsOf(p, r, clubs)
  {
    stats := [];
    for i := 0 to |clubs|
      invariant |stats| == i && forall k :: 0 <= k < i ==> stats[k] == StatOf(p, r, clubs[k])
    {
      var s := SummarizeClub(p, r, clubs[i]);
      stats := stats + [s];
    }
    assert stats == StatsOf(p, r, clubs);
  }

  /** One pass of the loop body: the means, spreads and differences of one club. */
  method SummarizeClub(p: Frame, r: Frame, club: string) returns (s: ClubStat)
    requires club in ClubsOf(p.shots) && club in ClubsOf(r.shots)
    ensures s == StatOf(p, r, club)
  {
    var pc, rc := Distances(p.shots, club, true), Distances(r.shots, club, true);
    var pt, rt := Distances(p.shots, club, false), Distances(r.shots, club, false);
    var pcMean, rcMean, ptMean, rtMean := Mean(pc), Mean(rc), Mean(pt), Mean(rt);
    var carryDiff := pcMean - rcMean;
    var carryPct := if rcMean != 0.0 then carryDiff / rcMean * 100.0 else 0.0;
    var totalDiff := ptMean - rtMean;
    var totalPct := if rtMean != 0.0 then totalDiff / rtMean * 100.0 else 0.0;
    s := ClubStat(club, pcMean, Spread(pc), rcMean, Spread(rc), ptMean, Spread(pt), rtMean, Spread(rt),
                  carryDiff, carryPct, totalDiff, totalPct);
  }

  /** One summary per club, in the order of `clubs`. */
  function StatsOf(p: Frame, r: Frame, clubs: seq<string>): (stats: seq<ClubStat>)
    requires forall i :: 0 <= i < |clubs| ==> clubs[i] in ClubsOf(p.shots) && clubs[i] in ClubsOf(r.shots)
  {
    seq(|clubs|, i requires 0 <= i < |clubs| => StatOf(p, r, clubs[i]))
  }

  /** What the comparison for the answer `session` reports: it runs only
      when `_session<answer>_` is a key of both maps and both tables have
      the required columns, and it stops when the tables share no club. */
  function CompareOutcome(premium: Sessions, range: Sessions, session: string): Outcome {
    var id := "_session" + session + "_";
    if !(id in premium && id in range) then NotFound(id in premium, id in range)
    else
      var p := premium[id].1;
      var r := range[id].1;
      if |MissingColumnsOf(p, r)| > 0 then MissingColumns(MissingColumnsOf(p, r))
      else
        var common := CommonClubs(p, r);
        if |common| == 0 then NoCommonClubs
        else
          CommonClubsSpec(p, r);
          Compared(StatsOf(p, r, common))
  }

  /** `compare_carry_total_distances` once the two maps are built. */
  method Compare(premium: Sessions, range: Sessions, session: string) returns (out: Outcome)
    ensures out == CompareOutcome(premium, range, session)
  {
    var id := "_session" + session + "_";
    if !(id in premium && id in range) {
      return NotFound(id in premium, id in range);
    }
    var p := premium[id].1;
    var r := range[id].1;
    var missing := MissingColumnsOf(p, r);
    if |missing| > 0 {
      return MissingColumns(missing);
    }
    var common := CommonClubs(p, r);
    if |common| == 0 {
      return NoCommonClubs;
    }
    CommonClubsSpec(p, r);
    var stats := ClubStats(p, r, common);
    out := Compared(stats);
  }

  /** The comparison reports a session as missing exactly when a map lacks
      it, saying which; it names the missing columns when there are some;
      otherwise it summarises every club both tables share, each once, in
      increasing order, and reports no common club when there is none. */
  lemma OutcomeSpec(premium: Sessions, range: Sessions, session: string)
    ensures var id := "_session" + session + "_";
            var out := CompareOutcome(premium, range, session);
            (out.NotFound? <==> !(id in premium && id in range))
            && (out.NotFound? ==> out.inPremium == (id in premium) && out.inRange == (id in range))
            && (id in premium && id in range ==>
                  var p := premium[id].1;
                  var r := range[id].1;
                  (out.MissingColumns? <==> |MissingColumnsOf(p, r)| > 0)
                  && (out.MissingColumns? ==> out.missing == MissingColumnsOf(p, r))
                  && (|MissingColumnsOf(p, r)| == 0 ==>
                        (out == NoCommonClubs <==> |CommonClubs(p, r)| == 0)))
  {
  }

  /** When the comparison runs, its summaries follow the shared clubs in
      increasing order, each played in both tables. */
  lemma ComparedSpec(premium: Sessions, range: Sessions, session: string)
    requires CompareOutcome(premium, range, session).Compared?
    ensures var id := "_session" + session + "_";
            var stats := CompareOutcome(premium, range, session).stats;
            id in premium && id in range
            && |stats| == |CommonClubs(premium[id].1, range[id].1)| > 0
            && (forall i, j :: 0 <= i < j < |stats| ==> StrLe(stats[i].club, stats[j].club) && stats[i].club != stats[j].club)
            && forall i :: 0 <= i < |stats| ==>
                 stats[i].club in ClubsOf(premium[id].1.shots) && stats[i].club in ClubsOf(range[id].1.shots)
  {
    var id := "_session" + session + "_";
    var p := premium[id].1;
    var r := range[id].1;
    CommonClubsSpec(p, r);
    var common := CommonClubs(p, r);
    StatsFollowClubs(p, r, common);
  }

  lemma StatsFollowClubs(p: Frame, r: Frame, clubs: seq<string>)
    requires forall i :: 0 <= i < |clubs| ==> clubs[i] in ClubsOf(p.shots) && clubs[i] in ClubsOf(r.shots)
    ensures |StatsOf(p, r, clubs)| == |clubs| && forall i :: 0 <= i < |clubs| ==> StatsOf(p, r, clubs)[i].club == clubs[i]
  {
  }

  /** Some file named `name` is filed in `m` under the key of its name. */
  predicate FiledUnder(m: Sessions, name: string) {
    SearchKey(name).Some? && SearchKey(name).value in m
  }

  /** Whatever the writers saved for session `n`, in either directory and
      dated or not, is found by the answer `str(n)`. */
  lemma WriterSessionsAreCompared(premium: Sessions, range: Sessions, n: nat,
                                  pd: Option<DateStamp>, rd: Option<DateStamp>)
    requires FiledUnder(premium, SessionFileName(pd, NatToString(n), Premium))
    requires FiledUnder(range, SessionFileName(rd, NatToString(n), Range))
    ensures !CompareOutcome(premium, range, NatToString(n)).NotFound?
  {
    WriterNameKey(pd, n, Premium);
    WriterNameKey(rd, n, Range);
  }
}

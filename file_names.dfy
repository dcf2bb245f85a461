/** Session file names: the writer's `trackman_{YYYYMMDD}_session{N}{_range|_pro}.csv`
    (docker/trackman.py, docker/app.py), the loaders' start-anchored
    pattern `trackman_(\d+)_session(\d+)(?:_(?:range|premium|pro))?\.csv`
    (docker/app.py, app.py, interface.py, plot.py), the session id the loaders
    derive from it, and the scanner's suffix-specific search pattern
    (docker/trackman.py `get_existing_sessions`). */
module FileNames {
  import opened Text

  /** What `datetime.strftime("%Y%m%d")` yields: eight ASCII digits. */
  type DateStamp = s: string | |s| == 8 && IsDigits(s) witness "19700101"

  /** The measurement variants a file is saved under. */
  datatype BallType = Premium | Range

  function BallTypeName(b: BallType): string {
    match b
    case Premium => "PREMIUM"
    case Range => "RANGE"
  }

  /** `ball_type.lower()`: the directory a save goes to. */
  function SaveDirName(b: BallType): (r: string)
    ensures r == Lower(BallTypeName(b))
  {
    match b
    case Premium => "premium"
    case Range => "range"
  }

  /** `"_range" if ball_type == "RANGE" else "_pro"` */
  function Suffix(b: BallType): string {
    if b == Range then "_range" else "_pro"
  }

  /** The directory the scanner reads for a variant: `pro` and `range`. */
  function ScanDirName(b: BallType): string {
    match b
    case Premium => "pro"
    case Range => "range"
  }

  /** `Data`, or `Data/<username>` when a username is given. */
  function BaseDir(username: string): string {
    if username == "" then "Data" else "Data/" + username
  }

  function SaveDir(username: string, b: BallType): string { BaseDir(username) + "/" + SaveDirName(b) }

  function ScanDir(username: string, b: BallType): string { BaseDir(username) + "/" + ScanDirName(b) }

  /** The writers' file name; the date segment is left out when the session
      time is absent or could not be parsed. */
  function SessionFileName(date: Option<DateStamp>, session: string, b: BallType): string {
    match date
    case Some(d) => "trackman_" + d + "_session" + session + Suffix(b) + ".csv"
    case None => "trackman_session" + session + Suffix(b) + ".csv"
  }

  /** The two captured groups: date digits and session digits. */
  datatype NameMatch = NameMatch(date: string, session: string)

  const Head: string := "trackman_"
  const Middle: string := "_session"

  /** `trackman_(\d+)_session(\d+)` at the start of `s`, with what follows.
      Both digit runs are greedy; backtracking cannot shorten them because
      the next character of the pattern is never a digit. */
  function MatchStem(s: string): (r: Option<(NameMatch, string)>)
    ensures r.Some? ==> |r.value.0.date| > 0 && IsDigits(r.value.0.date)
    ensures r.Some? ==> |r.value.0.session| > 0 && IsDigits(r.value.0.session)
  {
    if !StartsWith(s, Head) then None
    else
      var r1 := s[|Head|..];
      var d := DigitRun(r1);
      if d == 0 then None
      else
        var r2 := r1[d..];
        if !StartsWith(r2, Middle) then None
        else
          var r3 := r2[|Middle|..];
          var n := DigitRun(r3);
          if n == 0 then None
          else Some((NameMatch(r1[..d], r3[..n]), r3[n..]))
  }

  /** `re.match(r'trackman_(\d+)_session(\d+)(?:_(?:range|premium|pro))?\.csv', name)` */
  function MatchSessionFile(name: string): Option<NameMatch> {
    match MatchStem(name)
    case None => None
    case Some((m, rest)) =>
      if StartsWith(rest, "_range.csv") || StartsWith(rest, "_premium.csv")
         || StartsWith(rest, "_pro.csv") || StartsWith(rest, ".csv")
      then Some(m) else None
  }

  /** A loader keeps a listed name when it ends in `.csv` and matches the pattern. */
  predicate LoaderAccepts(name: string) {
    EndsWith(name, ".csv") && MatchSessionFile(name).Some?
  }

  /** Python slice `s[a:b]` for 0 <= a <= b (indices past the end are clamped). */
  function Slice(s: string, a: nat, b: nat): string
    requires a <= b
  {
    var hi := if b <= |s| then b else |s|;
    var lo := if a <= hi then a else hi;
    s[lo..hi]
  }

  /** `f"{date_str[:4]}-{date_str[4:6]}-{date_str[6:8]}"` */
  function FormatDate(date: string): string {
    Slice(date, 0, 4) + "-" + Slice(date, 4, 6) + "-" + Slice(date, 6, 8)
  }

  /** `f"{formatted_date} (Session {session_num})"` */
  function SessionId(m: NameMatch): string {
    FormatDate(m.date) + " (Session " + m.session + ")"
  }

  /** The session id a loader attaches to the rows of `name`, if it reads it. */
  function SessionIdOf(name: string): Option<string> {
    if LoaderAccepts(name) then Some(SessionId(MatchSessionFile(name).value)) else None
  }

  /** `re.search(stem + tail, s)`: the leftmost position where the scanner's pattern matches. */
  function SearchSessionFile(s: string, tail: string): Option<NameMatch>
    decreases |s|
  {
    match MatchStem(s)
    case Some((m, rest)) =>
      if StartsWith(rest, tail) then Some(m)
      else if |s| == 0 then None else SearchSessionFile(s[1..], tail)
    case None => if |s| == 0 then None else SearchSessionFile(s[1..], tail)
  }

  /** The key the scanner records for `name` in the directory of variant `b`, if any. */
  function ScannedKey(name: string, b: BallType): Option<NameMatch> {
    var tail := Suffix(b) + ".csv";
    if StartsWith(name, Head) && EndsWith(name, tail) then SearchSessionFile(name, tail) else None
  }

  lemma ScannedKeyHasDate(name: string, b: BallType)
    ensures ScannedKey(name, b).Some? ==> ScannedKey(name, b).value.date != ""
  {
    if StartsWith(name, Head) && EndsWith(name, Suffix(b) + ".csv") {
      SearchHasDate(name, Suffix(b) + ".csv");
    }
  }

  lemma {:induction false} SearchHasDate(s: string, tail: string)
    ensures SearchSessionFile(s, tail).Some? ==> SearchSessionFile(s, tail).value.date != ""
    decreases |s|
  {
    if |s| > 0 { SearchHasDate(s[1..], tail); }
  }

  // ---------------------------------------------------------------------
  // Writer -> reader round trips.

  lemma StemOfDatedName(d: DateStamp, session: string, rest: string)
    requires |session| > 0 && IsDigits(session)
    requires |rest| == 0 || !IsDigit(rest[0])
    ensures MatchStem(Head + d + Middle + session + rest) == Some((NameMatch(d, session), rest))
  {
    var s := Head + d + Middle + session + rest;
    assert StartsWith(s, Head);
    var r1 := s[|Head|..];
    assert r1 == d + (Middle + session + rest);
    DigitRunOfDigits(d, Middle + session + rest);
    assert r1[..8] == d;
    var r2 := r1[8..];
    assert r2 == Middle + (session + rest);
    var r3 := r2[|Middle|..];
    assert r3 == session + rest;
    DigitRunOfDigits(session, rest);
    assert r3[..|session|] == session;
    assert r3[|session|..] == rest;
  }

  /** Every loader reads back the date and the session number the writer put in the name. */
  lemma LoaderReadsWriterName(d: DateStamp, n: nat, b: BallType)
    ensures LoaderAccepts(SessionFileName(Some(d), NatToString(n), b))
    ensures MatchSessionFile(SessionFileName(Some(d), NatToString(n), b)) == Some(NameMatch(d, NatToString(n)))
  {
    var rest := Suffix(b) + ".csv";
    var name := Head + d + Middle + NatToString(n) + rest;
    assert SessionFileName(Some(d), NatToString(n), b) == name;
    StemOfDatedName(d, NatToString(n), rest);
    AcceptedTail(name, NameMatch(d, NatToString(n)), b);
  }

  lemma AcceptedTail(name: string, m: NameMatch, b: BallType)
    requires MatchStem(name) == Some((m, Suffix(b) + ".csv"))
    ensures MatchSessionFile(name) == Some(m)
    ensures EndsWith(name, ".csv")
  {
    AcceptedRest(b);
    StemRestIsSuffix(name);
    EndsWithSuffix(name, Suffix(b), ".csv");
  }

  lemma AcceptedRest(b: BallType)
    ensures StartsWith(Suffix(b) + ".csv", "_range.csv") || StartsWith(Suffix(b) + ".csv", "_pro.csv")
  {
    if b == Range {
      assert Suffix(b) + ".csv" == "_range.csv";
    } else {
      assert Suffix(b) + ".csv" == "_pro.csv";
    }
  }

  /** What follows a stem match is a suffix of the name. */
  lemma StemRestIsSuffix(s: string)
    requires MatchStem(s).Some?
    ensures EndsWith(s, MatchStem(s).value.1)
  {
    var r1 := s[|Head|..];
    var d := DigitRun(r1);
    var r3 := r1[d..][|Middle|..];
    assert r3 == s[|Head| + d + |Middle|..];
    var n := DigitRun(r3);
    assert r3[n..] == s[|Head| + d + |Middle| + n..];
  }

  lemma EndsWithSuffix(s: string, a: string, c: string)
    requires EndsWith(s, a + c)
    ensures EndsWith(s, c)
  {
    assert s[|s| - |c|..] == (a + c)[|a|..];
  }

  /** ... and derives the session id `YYYY-MM-DD (Session N)` from it. */
  lemma SessionIdOfWriterName(d: DateStamp, n: nat, b: BallType)
    ensures SessionIdOf(SessionFileName(Some(d), NatToString(n), b))
         == Some(d[..4] + "-" + d[4..6] + "-" + d[6..8] + " (Session " + NatToString(n) + ")")
  {
    LoaderReadsWriterName(d, n, b);
  }

  /** A name written without a date is skipped by every loader and by the scanner. */
  lemma UndatedNameIsSkipped(session: string, b: BallType, c: BallType)
    requires IsDigits(session)
    ensures MatchSessionFile(SessionFileName(None, session, b)) == None
    ensures ScannedKey(SessionFileName(None, session, b), c) == None
  {
    var rest := Suffix(b) + ".csv";
    assert HasNoT(rest);
    GroupTail("trackman_session" + session, Suffix(b), ".csv");
    UndatedShape(session, rest);
    NoStemInUndated(SessionFileName(None, session, b), Suffix(c) + ".csv");
  }

  lemma GroupTail(a: string, b: string, c: string)
    ensures a + b + c == a + (b + c)
  {
  }

  /** An undated name has no stem, and no `t` past its first character. */
  lemma UndatedShape(session: string, rest: string)
    requires IsDigits(session) && HasNoT(rest)
    ensures MatchStem("trackman_session" + session + rest) == None
    ensures HasNoT(("trackman_session" + session + rest)[1..])
  {
    var name := "trackman_session" + session + rest;
    assert name[|Head|..][0] == 's';
    var tail := "rackman_session";
    assert name[1..] == tail + session + rest;
    assert HasNoT(tail);
    forall i | 0 <= i < |name[1..]| ensures name[1..][i] != 't' {
      if i < |tail| {
        assert name[1..][i] == tail[i];
      } else if i < |tail| + |session| {
        assert name[1..][i] == session[i - |tail|] && IsDigit(session[i - |tail|]);
      } else {
        assert name[1..][i] == rest[i - |tail| - |session|];
      }
    }
  }

  predicate HasNoT(s: string) { forall i :: 0 <= i < |s| ==> s[i] != 't' }

  lemma {:induction false} SearchWithoutT(s: string, tail: string)
    requires HasNoT(s)
    ensures SearchSessionFile(s, tail) == None
    decreases |s|
  {
    if |s| > 0 {
      assert !StartsWith(s, Head) by { assert s[0] != Head[0]; }
      SearchWithoutT(s[1..], tail);
    }
  }

  /** Past its first character an undated name holds no `t`, so the
      scanner's search cannot start a match anywhere. */
  lemma NoStemInUndated(name: string, tail: string)
    requires |name| > 0 && HasNoT(name[1..])
    requires MatchStem(name) == None
    ensures SearchSessionFile(name, tail) == None
  {
    SearchWithoutT(name[1..], tail);
  }

  /** The scanner finds a file saved with a date in the directory it reads. */
  lemma ScannerReadsWriterName(d: DateStamp, n: nat, b: BallType)
    ensures ScannedKey(SessionFileName(Some(d), NatToString(n), b), b) == Some(NameMatch(d, NatToString(n)))
  {
    var tail := Suffix(b) + ".csv";
    var name := Head + d + Middle + NatToString(n) + tail;
    assert SessionFileName(Some(d), NatToString(n), b) == name;
    StemOfDatedName(d, NatToString(n), tail);
    ScanHit(name, NameMatch(d, NatToString(n)), b);
  }

  lemma ScanHit(name: string, m: NameMatch, b: BallType)
    requires MatchStem(name) == Some((m, Suffix(b) + ".csv"))
    ensures ScannedKey(name, b) == Some(m)
  {
    var tail := Suffix(b) + ".csv";
    StemRestIsSuffix(name);
    assert StartsWith(tail, tail);
    assert StartsWith(name, Head);
  }

  /** A date formatted from digits holds only digits and '-', and starts
      with one of them. */
  lemma FormatDateChars(date: string)
    requires IsDigits(date)
    ensures |FormatDate(date)| > 0
    ensures forall i :: 0 <= i < |FormatDate(date)| ==> FormatDate(date)[i] == '-' || IsDigit(FormatDate(date)[i])
  {
    var p := FormatDate(date);
    var a, b, c := Slice(date, 0, 4), Slice(date, 4, 6), Slice(date, 6, 8);
    assert IsDigits(a) && IsDigits(b) && IsDigits(c);
    assert p == a + "-" + b + "-" + c;
    forall i | 0 <= i < |p| ensures p[i] == '-' || IsDigit(p[i]) {
      if i < |a| {
        assert p[i] == a[i];
      } else if i == |a| {
      } else if i < |a| + 1 + |b| {
        assert p[i] == b[i - |a| - 1];
      } else if i == |a| + 1 + |b| {
      } else {
        assert p[i] == c[i - |a| - |b| - 2];
      }
    }
  }
}

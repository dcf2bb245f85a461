/** The command-line plotting script (plot.py): its comma-separated index
    prompt, the choice of sessions it plots, the session numbers it puts in
    the output file name, its canonical club order and its ball-type
    choice. Console input is a parameter. */
module PlotScript {
  import opened Text
  import opened Sorting
  import opened FileNames

  // ---------------------------------------------------------------------
  // `get_multi_input`.

  /** `int(token)`: optional surrounding white space, an optional sign and
      ASCII digits. */
  function PyInt(token: string): (r: Option<int>)
    ensures r.Some? ==> Strip(token) != ""
  {
    IntLiteral(Strip(token))
  }

  /** The literal `int` accepts once the white space is stripped: an
      optional sign followed by at least one digit. */
  function IntLiteral(t: string): (r: Option<int>)
    ensures r.Some? ==> |t| > 0
    ensures |t| > 0 && IsDigits(t) ==> r == Some(DigitsValue(t) as int)
  {
    if |t| > 0 && (t[0] == '+' || t[0] == '-') then
      var body := t[1..];
      if |body| > 0 && IsDigits(body) then
        Some(if t[0] == '-' then -(DigitsValue(body) as int) else DigitsValue(body))
      else None
    else if |t| > 0 && IsDigits(t) then Some(DigitsValue(t))
    else None
  }

  /** `[int(idx.strip()) for idx in tokens]`, or nothing when one of them
      raises `ValueError`. */
  function ParseAll(tokens: seq<string>): (r: Option<seq<int>>)
    ensures r.Some? <==> forall i :: 0 <= i < |tokens| ==> PyInt(tokens[i]).Some?
    ensures r.Some? ==> |r.value| == |tokens|
                        && forall i :: 0 <= i < |tokens| ==> PyInt(tokens[i]) == Some(r.value[i])
  {
    ParseEach(tokens, PyInt)
  }

  /** The comprehension for any parser of one token: all results, or
      nothing as soon as one token fails. */
  function ParseEach(tokens: seq<string>, parse: string -> Option<int>): (r: Option<seq<int>>)
    ensures r.Some? <==> forall i :: 0 <= i < |tokens| ==> parse(tokens[i]).Some?
    ensures r.Some? ==> |r.value| == |tokens|
                        && forall i :: 0 <= i < |tokens| ==> parse(tokens[i]) == Some(r.value[i])
  {
    if |tokens| == 0 then Some([])
    else
      var n := |tokens| - 1;
      var init := ParseEach(tokens[..n], parse);
      var last := parse(tokens[n]);
      assert forall i :: 0 <= i < n ==> tokens[..n][i] == tokens[i];
      if init.Some? && last.Some? then Some(init.value + [last.value]) else None
  }

  /** Every index lies in 1..maxVal. */
  predicate InRange(xs: seq<int>, maxVal: int) {
    forall i :: 0 <= i < |xs| ==> 1 <= xs[i] <= maxVal
  }

  /** The prompt's answer: a single number (the default, or 0 for "all")
      or a list of 1-based indices. */
  datatype Answer = Number(n: int) | Indices(picks: seq<int>)

  function GetMultiInput(value: string, maxVal: int, default: int): Answer {
    if Strip(value) == "" then Number(default)
    else if value == "0" then Number(0)
    else
      match ParseAll(Split(value, ','))
      case None => Number(default)
      case Some(xs) => if InRange(xs, maxVal) then Indices(xs) else Number(default)
  }

  /** Indices come back only when every comma-separated token is an integer
      in 1..maxVal, one per token in input order; otherwise the answer is
      the default, or 0 for the exact input "0". */
  lemma GetMultiInputSpec(value: string, maxVal: int, default: int)
    ensures var a := GetMultiInput(value, maxVal, default);
            var ts := Split(value, ',');
            (a.Indices? <==> Strip(value) != "" && value != "0"
                             && forall i :: 0 <= i < |ts| ==> PyInt(ts[i]).Some? && 1 <= PyInt(ts[i]).value <= maxVal)
            && (a.Indices? ==> |a.picks| == |ts| && forall i :: 0 <= i < |ts| ==> Some(a.picks[i]) == PyInt(ts[i]))
            && (a.Number? ==> a.n == default || (a.n == 0 && value == "0"))
  {
    GetMultiInputCases(value, maxVal, default);
    var a := GetMultiInput(value, maxVal, default);
    var ts := Split(value, ',');
    if Strip(value) != "" && value != "0" {
      ParseEachInRange(ts, PyInt, maxVal);
    }
  }

  lemma GetMultiInputCases(value: string, maxVal: int, default: int)
    ensures var a := GetMultiInput(value, maxVal, default);
            var p := ParseAll(Split(value, ','));
            (a.Indices? <==> Strip(value) != "" && value != "0" && p.Some? && InRange(p.value, maxVal))
            && (a.Indices? ==> a.picks == p.value)
            && (a.Number? ==> a.n == default || (a.n == 0 && value == "0"))
  {
  }

  /** All tokens parse and lie in 1..maxVal exactly when the parsed list
      exists and is in range. */
  lemma ParseEachInRange(ts: seq<string>, parse: string -> Option<int>, maxVal: int)
    ensures var p := ParseEach(ts, parse);
            (p.Some? && InRange(p.value, maxVal))
            <==> forall i :: 0 <= i < |ts| ==> parse(ts[i]).Some? && 1 <= parse(ts[i]).value <= maxVal
  {
    var p := ParseEach(ts, parse);
    if p.Some? {
      assert forall i :: 0 <= i < |ts| ==> parse(ts[i]).value == p.value[i];
    }
  }

  /** Typing a list of indices in range, separated by commas, yields exactly
      that list. */
  lemma TypedIndicesRoundTrip(xs: seq<nat>, maxVal: int, default: int)
    requires |xs| > 0 && forall i :: 0 <= i < |xs| ==> 1 <= xs[i] <= maxVal
    ensures GetMultiInput(Join(Numerals(xs), ','), maxVal, default) == Indices(xs)
  {
    var parts := Numerals(xs);
    var value := Join(parts, ',');
    assert Split(value, ',') == parts by {
      NumeralsHaveNoComma(xs);
      SplitJoin(parts, ',');
    }
    ParseAllNumerals(xs);
    JoinedNumeralsShape(xs);
    assert InRange(xs, maxVal);
  }

  lemma NumeralsHaveNoComma(xs: seq<nat>)
    ensures forall i :: 0 <= i < |xs| ==> !Contains(Numerals(xs)[i], ',')
  {
    forall i | 0 <= i < |xs| ensures !Contains(Numerals(xs)[i], ',') {
      NumeralHasNoComma(xs[i]);
    }
  }

  lemma ParseAllNumerals(xs: seq<nat>)
    ensures ParseAll(Numerals(xs)) == Some(xs)
  {
    var parts := Numerals(xs);
    forall i | 0 <= i < |parts| ensures PyInt(parts[i]) == Some(xs[i] as int) {
      NumeralParses(xs[i]);
    }
    var r := ParseAll(parts);
    assert r.Some?;
    assert |r.value| == |xs|;
    forall i | 0 <= i < |xs| ensures r.value[i] == xs[i] {
      assert PyInt(parts[i]) == Some(r.value[i]);
    }
    assert r.value == xs;
  }

  lemma JoinedNumeralsShape(xs: seq<nat>)
    requires |xs| > 0 && xs[0] >= 1
    ensures Strip(Join(Numerals(xs), ',')) != "" && Join(Numerals(xs), ',') != "0"
  {
    var parts := Numerals(xs);
    var value := Join(parts, ',');
    var t := NatToString(xs[0]);
    JoinStartsWith(parts, ',');
    NumeralNotZero(xs[0]);
    PrefixedNotZero(value, t);
    StripOfNonSpaceStart(value);
  }

  /** The numeral of a positive number is not "0". */
  lemma NumeralNotZero(n: nat)
    requires n >= 1
    ensures NatToString(n) != "0" && IsDigit(NatToString(n)[0])
  {
    DigitsValueOfNatToString(n);
    assert DigitsValue("0") == 0;
  }

  /** A string that starts with a digit string other than "0" is not "0"
      and does not start with white space. */
  lemma PrefixedNotZero(value: string, t: string)
    requires |t| > 0 && |t| <= |value| && value[..|t|] == t && t != "0" && IsDigit(t[0])
    ensures value != "0" && !IsSpace(value[0])
  {
    assert value[0] == t[0];
    assert |value| == 1 ==> value == value[..|t|];
  }

  function Numerals(xs: seq<nat>): (ps: seq<string>)
    ensures |ps| == |xs| && forall i :: 0 <= i < |xs| ==> ps[i] == NatToString(xs[i])
  {
    seq(|xs|, i requires 0 <= i < |xs| => NatToString(xs[i]))
  }

  lemma NumeralHasNoComma(n: nat)
    ensures !Contains(NatToString(n), ',')
  {
    var s := NatToString(n);
    forall i | 0 <= i < |s| ensures s[i] != ',' {
      assert IsDigit(s[i]);
    }
  }

  lemma NumeralParses(n: nat)
    ensures PyInt(NatToString(n)) == Some(n as int)
  {
    var s := NatToString(n);
    assert IsDigit(s[0]) && IsDigit(s[|s| - 1]);
    StripOfUnpadded(s);
    DigitsValueOfNatToString(n);
  }

  lemma {:induction false} JoinStartsWith(parts: seq<string>, sep: char)
    requires |parts| > 0
    ensures |parts[0]| <= |Join(parts, sep)| && Join(parts, sep)[..|parts[0]|] == parts[0]
  {
    if |parts| > 1 {
      assert Join(parts, sep) == parts[0] + ([sep] + Join(parts[1..], sep));
    }
  }

  /** `[all_sessions[idx - 1] for idx in selected_indices]` */
  function SelectedSessions(all: seq<string>, picks: seq<int>): (r: seq<string>)
    requires InRange(picks, |all|)
    ensures |r| == |picks| && forall i :: 0 <= i < |picks| ==> r[i] in all
  {
    seq(|picks|, i requires 0 <= i < |picks| => all[picks[i] - 1])
  }

  // ---------------------------------------------------------------------
  // Session numbers for the output file name.

  /** `\(Session (\d+)\)` anchored at the start of `s`. */
  function TagHere(s: string): Option<string> {
    if !StartsWith(s, "(Session ") then None
    else
      var d := DigitRun(s[9..]);
      if d == 0 || 9 + d >= |s| || s[9 + d] != ')' then None
      else Some(s[9..9 + d])
  }

  /** `re.search(r'\(Session (\d+)\)', s).group(1)`: the leftmost match. */
  function SearchTag(s: string): Option<string>
    decreases |s|
  {
    match TagHere(s)
    case Some(n) => Some(n)
    case None => if |s| == 0 then None else SearchTag(s[1..])
  }

  /** The loop collecting the session numbers of the selected sessions;
      sessions without the pattern are skipped. */
  function NumbersOf(sessions: seq<string>): seq<string> {
    if |sessions| == 0 then []
    else
      var n := |sessions| - 1;
      var m := SearchTag(sessions[n]);
      NumbersOf(sessions[..n]) + (if m.Some? then [m.value] else [])
  }

  method SessionNumbers(sessions: seq<string>) returns (numbers: seq<string>)
    ensures numbers == NumbersOf(sessions)
  {
    numbers := [];
    for i := 0 to |sessions|
      invariant numbers == NumbersOf(sessions[..i])
    {
      assert sessions[..i + 1][..i] == sessions[..i];
      var m := SearchTag(sessions[i]);
      if m.Some? {
        numbers := numbers + [m.value];
      }
    }
    assert sessions[..|sessions|] == sessions;
  }

  /** `"sessions_" + "_".join(session_numbers)` */
  function SessionPart(sessions: seq<string>): string {
    "sessions_" + Join(NumbersOf(sessions), '_')
  }

  /** The search finds the number of the first "(Session N)" when nothing
      before it is a '('. */
  lemma {:induction false} SearchTagAfter(pre: string, d: string, rest: string)
    requires forall i :: 0 <= i < |pre| ==> pre[i] != '('
    requires |d| > 0 && IsDigits(d)
    ensures SearchTag(pre + "(Session " + d + ")" + rest) == Some(d)
    decreases |pre|
  {
    var s := pre + "(Session " + d + ")" + rest;
    if |pre| == 0 {
      assert s == "(Session " + (d + ")" + rest);
      TagHereAtStart(d, rest);
    } else {
      assert s[0] == pre[0];
      assert s[1..] == pre[1..] + "(Session " + d + ")" + rest;
      SearchTagAfter(pre[1..], d, rest);
    }
  }

  /** The pattern matches at the start of "(Session " + d + ")" + rest. */
  lemma TagHereAtStart(d: string, rest: string)
    requires |d| > 0 && IsDigits(d)
    ensures TagHere("(Session " + (d + ")" + rest)) == Some(d)
  {
    var s := "(Session " + (d + ")" + rest);
    assert StartsWith(s, "(Session ");
    assert s[9..] == d + (")" + rest);
    assert s[9..9 + |d|] == d;
    DigitRunOfDigits(d, ")" + rest);
    assert s[9 + |d|] == ')';
  }

  function SessionIds(ms: seq<NameMatch>): (ids: seq<string>)
    ensures |ids| == |ms| && forall i :: 0 <= i < |ms| ==> ids[i] == SessionId(ms[i])
  {
    seq(|ms|, i requires 0 <= i < |ms| => SessionId(ms[i]))
  }

  predicate LoaderShaped(m: NameMatch) {
    IsDigits(m.date) && |m.session| > 0 && IsDigits(m.session)
  }

  /** For session ids the loaders build, the file name lists exactly their
      session numbers, in selection order. */
  lemma NumbersOfLoaderIds(ms: seq<NameMatch>)
    requires forall i :: 0 <= i < |ms| ==> LoaderShaped(ms[i])
    ensures |NumbersOf(SessionIds(ms))| == |ms|
    ensures forall i :: 0 <= i < |ms| ==> NumbersOf(SessionIds(ms))[i] == ms[i].session
  {
    var ids := SessionIds(ms);
    var tags := seq(|ms|, i requires 0 <= i < |ms| => ms[i].session);
    forall i | 0 <= i < |ms| ensures SearchTag(ids[i]) == Some(tags[i]) {
      LoaderIdTag(ms[i]);
    }
    NumbersOfTagged(ids, tags);
  }

  /** When every session has a tag, the numbers are those tags in order. */
  lemma {:induction false} NumbersOfTagged(sessions: seq<string>, tags: seq<string>)
    requires |tags| == |sessions|
    requires forall i :: 0 <= i < |sessions| ==> SearchTag(sessions[i]) == Some(tags[i])
    ensures NumbersOf(sessions) == tags
  {
    if |sessions| > 0 {
      var n := |sessions| - 1;
      NumbersOfTagged(sessions[..n], tags[..n]);
      assert tags == tags[..n] + [tags[n]];
    }
  }

  /** The search finds the session number of a loader-built session id. */
  lemma LoaderIdTag(m: NameMatch)
    requires LoaderShaped(m)
    ensures SearchTag(SessionId(m)) == Some(m.session)
  {
    FormatDateChars(m.date);
    var pre := FormatDate(m.date) + " ";
    assert forall i :: 0 <= i < |pre| ==> pre[i] != '(' by {
      assert forall i :: 0 <= i < |FormatDate(m.date)| ==> pre[i] == FormatDate(m.date)[i];
    }
    assert SessionId(m) == pre + "(Session " + m.session + ")" + "";
    SearchTagAfter(pre, m.session, "");
  }

  // ---------------------------------------------------------------------
  // Club order.

  const ClubOrder: seq<string> := ["4Iron", "5Iron", "6Iron", "7Iron", "8Iron", "9Iron", "PitchingWedge", "60Wedge"]

  /** Canonical clubs present, in canonical order, then the other clubs in
      order of first appearance. */
  function OrderClubs(column: seq<string>): seq<string> {
    var u := Unique(column);
    Filter(ClubOrder, c => c in u) + Filter(u, c => c !in ClubOrder)
  }

  /** Position of `c` in the canonical order (its length when absent). */
  function Rank(c: string): (r: nat)
    ensures r <= |ClubOrder|
    ensures r < |ClubOrder| <==> c in ClubOrder
    ensures r < |ClubOrder| ==> ClubOrder[r] == c
  {
    RankIn(ClubOrder, c)
  }

  function RankIn(s: seq<string>, c: string): (r: nat)
    ensures r <= |s| && (r < |s| ==> s[r] == c) && forall i :: 0 <= i < r ==> s[i] != c
  {
    if |s| == 0 then 0
    else if s[0] == c then 0
    else 1 + RankIn(s[1..], c)
  }

  lemma ClubOrderDistinct()
    ensures Distinct(ClubOrder)
  {
  }

  lemma {:induction false} FilterMultiset<T>(s: seq<T>, p: T -> bool, x: T)
    ensures multiset(Filter(s, p))[x] == if p(x) then multiset(s)[x] else 0
  {
    if |s| > 0 {
      var n := |s| - 1;
      FilterMultiset(s[..n], p, x);
      assert s == s[..n] + [s[n]];
    }
  }

  lemma DistinctMultiset<T>(s: seq<T>, x: T)
    requires Distinct(s)
    ensures multiset(s)[x] == if x in s then 1 else 0
  {
    DistinctCount(s, x);
  }

  /** The plotted clubs are the distinct clubs of the data, each once. */
  lemma OrderClubsPermutation(column: seq<string>)
    ensures multiset(OrderClubs(column)) == multiset(Unique(column))
  {
    var u := Unique(column);
    var canon := Filter(ClubOrder, c => c in u);
    var rest := Filter(u, c => c !in ClubOrder);
    ClubOrderDistinct();
    forall x ensures multiset(OrderClubs(column))[x] == multiset(u)[x] {
      FilterMultiset(ClubOrder, c => c in u, x);
      FilterMultiset(u, c => c !in ClubOrder, x);
      DistinctMultiset(ClubOrder, x);
      DistinctMultiset(u, x);
    }
  }

  /** Canonical clubs come first, by canonical rank, and every other club
      after them. */
  lemma OrderClubsCanonicalFirst(column: seq<string>)
    ensures var r := OrderClubs(column);
            forall i, j :: 0 <= i < j < |r| && r[j] in ClubOrder ==> r[i] in ClubOrder && Rank(r[i]) < Rank(r[j])
  {
    var u := Unique(column);
    var canon := Filter(ClubOrder, c => c in u);
    var rest := Filter(u, c => c !in ClubOrder);
    var r := OrderClubs(column);
    ClubOrderSorted();
    FilterSorted(ClubOrder, RankBelow, c => c in u);
    assert r == canon + rest;
    assert forall k :: 0 <= k < |rest| ==> rest[k] !in ClubOrder;
    forall i, j | 0 <= i < j < |r| && r[j] in ClubOrder ensures r[i] in ClubOrder && Rank(r[i]) < Rank(r[j]) {
      assert j < |canon|;
      assert r[i] == canon[i] && r[j] == canon[j];
    }
  }

  predicate RankBelow(a: string, b: string) { Rank(a) < Rank(b) }

  /** The canonical order is sorted by its own rank. */
  lemma ClubOrderSorted()
    ensures Sorted(ClubOrder, RankBelow)
  {
    ClubOrderDistinct();
    forall i, j | 0 <= i < j < |ClubOrder| ensures RankBelow(ClubOrder[i], ClubOrder[j]) {
      RankOfDistinct(ClubOrder, i);
      RankOfDistinct(ClubOrder, j);
    }
  }

  lemma RankOfDistinct(s: seq<string>, i: nat)
    requires s == ClubOrder && Distinct(s) && i < |s|
    ensures Rank(s[i]) == i
  {
  }

  /** Filtering a sorted list keeps it sorted. */
  lemma {:induction false} FilterSorted<T>(s: seq<T>, le: (T, T) -> bool, p: T -> bool)
    requires Sorted(s, le)
    ensures Sorted(Filter(s, p), le)
  {
    if |s| > 0 {
      var n := |s| - 1;
      assert Sorted(s[..n], le);
      FilterSorted(s[..n], le, p);
      var init := Filter(s[..n], p);
      forall i | 0 <= i < |init| ensures le(init[i], s[n]) {
        var k :| 0 <= k < n && s[..n][k] == init[i];
      }
    }
  }

  // ---------------------------------------------------------------------
  // Ball type.

  /** `"premium"` for the input "premium" (after strip and lower), and the
      normalised `"range"` for anything else. */
  function BallChoice(input: string): (r: string) {
    if Lower(Strip(input)) == "premium" then "premium" else "range"
  }

  /** `os.path.join('Data', username, ball_type)` */
  function PlotDataDir(username: string, input: string): string {
    "Data/" + username + "/" + BallChoice(input)
  }

  /** The script reads the directory the writer saves that variant under. */
  lemma PlotReadsSaveDir(username: string, input: string)
    requires username != ""
    ensures BallChoice(input) == "premium" <==> Lower(Strip(input)) == "premium"
    ensures PlotDataDir(username, input)
         == SaveDir(username, if Lower(Strip(input)) == "premium" then Premium else Range)
  {
  }
}

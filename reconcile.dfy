/** Missing-session reconciliation: which numbered activities have no saved
    file yet, and the download that fills the gaps (app.py
    `handle_activities_actions`, interface.py `download_missing` and
    `ask_download_missing`, the "missing" branch of the docker/trackman.py
    command line). An activity numbered `i + 1` is looked up in the scanned
    key sets under `(date, str(i + 1))`. */
module Reconcile {
  import opened Text
  import opened Sorting
  import opened Activities
  import opened FileNames
  import opened CsvExport
  import opened Inventory

  /** The ball-type choice: one variant, or both. */
  datatype Scope = PremiumOnly | RangeOnly | Both

  /** Whether a scope looks at variant `b`. */
  predicate Checks(scope: Scope, b: BallType) {
    match scope
    case PremiumOnly => b == Premium
    case RangeOnly => b == Range
    case Both => true
  }

  /** The key set a variant is looked up in: pro for PREMIUM, range for RANGE. */
  function KeysFor(b: BallType, pro: set<NameMatch>, range: set<NameMatch>): set<NameMatch> {
    if b == Premium then pro else range
  }

  /** The date an activity is compared under: "" when its time is missing or
      empty, the parsed `%Y%m%d` date otherwise, and nothing (the activity is
      skipped) when the time does not parse. */
  function ActivityDate(a: Activity, dateOf: string -> Option<DateStamp>): (r: Option<string>)
    ensures r == Some("") <==> TimeKey(a) == ""
    ensures r.None? <==> TimeKey(a) != "" && dateOf(TimeKey(a)).None?
    ensures r.Some? && r.value != "" ==> dateOf(TimeKey(a)) == Some(r.value)
  {
    if TimeKey(a) == "" then Some("")
    else
      match dateOf(TimeKey(a))
      case Some(d) => Some(d)
      case None => None
  }

  /** `(activity_date, str(idx + 1))` */
  function KeyOf(i: nat, date: string): NameMatch { NameMatch(date, NatToString(i + 1)) }

  /** One reported activity: its index, the activity, and the variants to fetch. */
  datatype Missing = Missing(index: nat, activity: Activity, variants: seq<BallType>)

  /** The report for activity `i`, if any: the three branches on the scope. */
  function Entry(i: nat, a: Activity, scope: Scope, pro: set<NameMatch>, range: set<NameMatch>,
                 dateOf: string -> Option<DateStamp>): (r: Option<Missing>)
    ensures r.Some? <==>
              ActivityDate(a, dateOf).Some?
              && ((Checks(scope, Premium) && KeyOf(i, ActivityDate(a, dateOf).value) !in pro)
                  || (Checks(scope, Range) && KeyOf(i, ActivityDate(a, dateOf).value) !in range))
    ensures r.Some? ==> r.value.index == i && r.value.activity == a
    ensures r.Some? ==> r.value.variants in [[Premium], [Range], [Premium, Range]]
    ensures r.Some? ==> forall b :: b in r.value.variants <==>
              Checks(scope, b) && KeyOf(i, ActivityDate(a, dateOf).value) !in KeysFor(b, pro, range)
  {
    match ActivityDate(a, dateOf)
    case None => None
    case Some(date) =>
      var key := KeyOf(i, date);
      var proMissing := key !in pro;
      var rangeMissing := key !in range;
      match scope
      case PremiumOnly => if proMissing then Some(Missing(i, a, [Premium])) else None
      case RangeOnly => if rangeMissing then Some(Missing(i, a, [Range])) else None
      case Both =>
        if proMissing && rangeMissing then Some(Missing(i, a, [Premium, Range]))
        else if proMissing then Some(Missing(i, a, [Premium]))
        else if rangeMissing then Some(Missing(i, a, [Range]))
        else None
  }

  /** The reports for a list of numbered activities, in list order. */
  function FindMissing(acts: seq<Activity>, scope: Scope, pro: set<NameMatch>, range: set<NameMatch>,
                       dateOf: string -> Option<DateStamp>): seq<Missing>
  {
    Gather(acts, (i: nat, a: Activity) => Entry(i, a, scope, pro, range, dateOf))
  }

  /** The reports `f` gives for a list of numbered activities, in list order. */
  function Gather(acts: seq<Activity>, f: (nat, Activity) -> Option<Missing>): seq<Missing>
  {
    if |acts| == 0 then []
    else
      var n := |acts| - 1;
      var e := f(n, acts[n]);
      Gather(acts[..n], f) + (if e.Some? then [e.value] else [])
  }

  /** The report lists exactly the activities `Entry` reports, each once and in index order. */
  lemma FindMissingExact(acts: seq<Activity>, scope: Scope, pro: set<NameMatch>,
                         range: set<NameMatch>, dateOf: string -> Option<DateStamp>)
    ensures var m := FindMissing(acts, scope, pro, range, dateOf);
            forall e :: e in m <==> e.index < |acts| && Entry(e.index, acts[e.index], scope, pro, range, dateOf) == Some(e)
    ensures var m := FindMissing(acts, scope, pro, range, dateOf);
            forall j, k :: 0 <= j < k < |m| ==> m[j].index < m[k].index
    ensures var m := FindMissing(acts, scope, pro, range, dateOf);
            forall e :: e in m ==> e.index < |acts|
  {
    GatherExact(acts, (i: nat, a: Activity) => Entry(i, a, scope, pro, range, dateOf));
  }

  /** `Gather` keeps exactly what `f` reports, in index order, when every
      report carries the index it was made for. */
  lemma {:induction false} GatherExact(acts: seq<Activity>, f: (nat, Activity) -> Option<Missing>)
    requires forall i, a :: f(i, a).Some? ==> f(i, a).value.index == i
    ensures var m := Gather(acts, f);
            forall e :: e in m <==> e.index < |acts| && f(e.index, acts[e.index]) == Some(e)
    ensures var m := Gather(acts, f);
            forall j, k :: 0 <= j < k < |m| ==> m[j].index < m[k].index
    ensures var m := Gather(acts, f);
            forall e :: e in m ==> e.index < |acts|
  {
    if |acts| > 0 {
      var n := |acts| - 1;
      var init := acts[..n];
      GatherExact(init, f);
      assert forall i :: 0 <= i < n ==> init[i] == acts[i];
    }
  }

  /** The download-missing loop: walks the numbered activities and collects
      the reports. */
  method CheckMissing(acts: seq<Activity>, scope: Scope, pro: set<NameMatch>, range: set<NameMatch>,
                      dateOf: string -> Option<DateStamp>) returns (missing: seq<Missing>)
    ensures missing == FindMissing(acts, scope, pro, range, dateOf)
  {
    missing := [];
    for idx := 0 to |acts|
      invariant missing == FindMissing(acts[..idx], scope, pro, range, dateOf)
    {
      assert acts[..idx + 1][..idx] == acts[..idx];
      var activity := acts[idx];
      ghost var e := Entry(idx, activity, scope, pro, range, dateOf);
      assert FindMissing(acts[..idx + 1], scope, pro, range, dateOf) == missing + (if e.Some? then [e.value] else []);
      var activityTime := TimeKey(activity);
      var activityDate := "";
      if activityTime != "" {
        var parsed := dateOf(activityTime);
        if parsed.None? {
          continue;
        }
        activityDate := parsed.value;
      }
      assert ActivityDate(activity, dateOf) == Some(activityDate);
      var sessionNum := NatToString(idx + 1);
      var proMissing := NameMatch(activityDate, sessionNum) !in pro;
      var rangeMissing := NameMatch(activityDate, sessionNum) !in range;
      if scope == PremiumOnly && proMissing {
        missing := missing + [Missing(idx, activity, [Premium])];
      } else if scope == RangeOnly && rangeMissing {
        missing := missing + [Missing(idx, activity, [Range])];
      } else if scope == Both && (proMissing || rangeMissing) {
        var balls := [];
        if proMissing {
          balls := balls + [Premium];
        }
        if rangeMissing {
          balls := balls + [Range];
        }
        assert balls == if proMissing && rangeMissing then [Premium, Range]
                        else if proMissing then [Premium] else [Range];
        missing := missing + [Missing(idx, activity, balls)];
      }
    }
    assert acts[..|acts|] == acts;
  }

  /** The command-line variant records only `(idx, activity)`. */
  function Pairs(m: seq<Missing>): (ps: seq<(nat, Activity)>)
    ensures |ps| == |m| && forall k :: 0 <= k < |m| ==> ps[k] == (m[k].index, m[k].activity)
  {
    seq(|m|, k requires 0 <= k < |m| => (m[k].index, m[k].activity))
  }

  /** One more activity adds its pair when `Entry` reports it. */
  lemma PairsStep(acts: seq<Activity>, idx: nat, scope: Scope, pro: set<NameMatch>, range: set<NameMatch>,
                  dateOf: string -> Option<DateStamp>)
    requires idx < |acts|
    ensures Pairs(FindMissing(acts[..idx + 1], scope, pro, range, dateOf))
         == Pairs(FindMissing(acts[..idx], scope, pro, range, dateOf))
            + (if Entry(idx, acts[idx], scope, pro, range, dateOf).Some? then [(idx, acts[idx])] else [])
  {
    assert acts[..idx + 1][..idx] == acts[..idx];
    var m := FindMissing(acts[..idx], scope, pro, range, dateOf);
    var e := Entry(idx, acts[idx], scope, pro, range, dateOf);
    var tail := if e.Some? then [e.value] else [];
    assert FindMissing(acts[..idx + 1], scope, pro, range, dateOf) == m + tail;
    PairsAppend(m, tail);
  }

  lemma PairsAppend(m: seq<Missing>, tail: seq<Missing>)
    ensures Pairs(m + tail) == Pairs(m) + Pairs(tail)
  {
  }

  /** The command line's loop, with its `is_missing` flag. */
  method CliFindMissing(acts: seq<Activity>, scope: Scope, pro: set<NameMatch>, range: set<NameMatch>,
                        dateOf: string -> Option<DateStamp>) returns (missing: seq<(nat, Activity)>)
    ensures missing == Pairs(FindMissing(acts, scope, pro, range, dateOf))
  {
    missing := [];
    for idx := 0 to |acts|
      invariant missing == Pairs(FindMissing(acts[..idx], scope, pro, range, dateOf))
    {
      PairsStep(acts, idx, scope, pro, range, dateOf);
      var activity := acts[idx];
      var activityTime := TimeKey(activity);
      var activityDate := "";
      if activityTime != "" {
        var parsed := dateOf(activityTime);
        if parsed.None? {
          continue;
        }
        activityDate := parsed.value;
      }
      var key := NameMatch(activityDate, NatToString(idx + 1));
      var isMissing := false;
      if scope == PremiumOnly && key !in pro {
        isMissing := true;
      } else if scope == RangeOnly && key !in range {
        isMissing := true;
      } else if scope == Both && (key !in pro || key !in range) {
        isMissing := true;
      }
      if isMissing {
        missing := missing + [(idx, activity)];
      }
    }
    assert acts[..|acts|] == acts;
  }

  // ---------------------------------------------------------------------
  // Re-running the check.

  /** The keys of the reports naming variant `b`. */
  function Reported(m: seq<Missing>, b: BallType, dateOf: string -> Option<DateStamp>): set<NameMatch> {
    set e | e in m && b in e.variants && ActivityDate(e.activity, dateOf).Some?
          :: KeyOf(e.index, ActivityDate(e.activity, dateOf).value)
  }

  /** Once every reported key is in the set of its variant, the check reports nothing. */
  lemma RerunReportsNothing(acts: seq<Activity>, scope: Scope, pro: set<NameMatch>, range: set<NameMatch>,
                            dateOf: string -> Option<DateStamp>, pro': set<NameMatch>, range': set<NameMatch>)
    requires pro + Reported(FindMissing(acts, scope, pro, range, dateOf), Premium, dateOf) <= pro'
    requires range + Reported(FindMissing(acts, scope, pro, range, dateOf), Range, dateOf) <= range'
    ensures FindMissing(acts, scope, pro', range', dateOf) == []
  {
    var m := FindMissing(acts, scope, pro, range, dateOf);
    FindMissingExact(acts, scope, pro, range, dateOf);
    forall i | 0 <= i < |acts| ensures Entry(i, acts[i], scope, pro', range', dateOf).None? {
      if ActivityDate(acts[i], dateOf).Some? {
        var key := KeyOf(i, ActivityDate(acts[i], dateOf).value);
        var e := Entry(i, acts[i], scope, pro, range, dateOf);
        forall b | Checks(scope, b) ensures key in KeysFor(b, pro', range') {
          if key !in KeysFor(b, pro, range) {
            assert e.Some? && b in e.value.variants && e.value in m;
            assert key in Reported(m, b, dateOf);
          }
        }
      }
    }
    NothingReported(acts, scope, pro', range', dateOf);
  }

  lemma NothingReported(acts: seq<Activity>, scope: Scope, pro: set<NameMatch>,
                        range: set<NameMatch>, dateOf: string -> Option<DateStamp>)
    requires forall i :: 0 <= i < |acts| ==> Entry(i, acts[i], scope, pro, range, dateOf).None?
    ensures FindMissing(acts, scope, pro, range, dateOf) == []
  {
    GatherNothing(acts, (i: nat, a: Activity) => Entry(i, a, scope, pro, range, dateOf));
  }

  /** `Gather` is empty when `f` reports none of the activities. */
  lemma {:induction false} GatherNothing(acts: seq<Activity>, f: (nat, Activity) -> Option<Missing>)
    requires forall i :: 0 <= i < |acts| ==> f(i, acts[i]).None?
    ensures Gather(acts, f) == []
  {
    if |acts| > 0 {
      var n := |acts| - 1;
      assert forall i :: 0 <= i < n ==> acts[..n][i] == acts[i];
      GatherNothing(acts[..n], f);
    }
  }

  // ---------------------------------------------------------------------
  // The download.

  /** One fetch: session index, activity and variant. */
  datatype Request = Request(index: nat, activity: Activity, variant: BallType)

  function RequestsOf(e: Missing): (rs: seq<Request>)
    ensures |rs| == |e.variants|
    ensures forall k :: 0 <= k < |rs| ==> rs[k] == Request(e.index, e.activity, e.variants[k])
  {
    seq(|e.variants|, k requires 0 <= k < |e.variants| => Request(e.index, e.activity, e.variants[k]))
  }

  /** The fetches of a report, report by report and variant by variant. */
  function Requests(m: seq<Missing>): seq<Request> { FlatMap(m, RequestsOf) }

  /** Exactly the listed (activity, variant) pairs are fetched. */
  lemma {:induction false} RequestsExact(m: seq<Missing>)
    ensures forall r :: r in Requests(m) <==>
              exists e :: e in m && r.index == e.index && r.activity == e.activity && r.variant in e.variants
  {
    if |m| > 0 {
      var init := m[..|m| - 1];
      var last := m[|m| - 1];
      RequestsExact(init);
      assert m == init + [last];
      forall r | r in Requests(m)
        ensures exists e :: e in m && r.index == e.index && r.activity == e.activity && r.variant in e.variants
      {
        if r in Requests(init) {
          var e :| e in init && r.index == e.index && r.activity == e.activity && r.variant in e.variants;
          assert e in m;
        } else {
          var k :| 0 <= k < |RequestsOf(last)| && RequestsOf(last)[k] == r;
          assert last in m && r.variant == last.variants[k];
        }
      }
      forall r: Request | exists e :: e in m && r.index == e.index && r.activity == e.activity && r.variant in e.variants
        ensures r in Requests(m)
      {
        var e :| e in m && r.index == e.index && r.activity == e.activity && r.variant in e.variants;
        if e != last {
          assert e in init;
        } else {
          var k :| 0 <= k < |last.variants| && last.variants[k] == r.variant;
          assert RequestsOf(last)[k] == r;
        }
      }
    }
  }

  /** A report that names at least one variant gives at least one fetch, so a
      non-empty report always fetches something. */
  lemma {:induction false} RequestsCount(m: seq<Missing>)
    requires forall e :: e in m ==> |e.variants| > 0
    ensures |Requests(m)| >= |m|
  {
    if |m| > 0 {
      RequestsCount(m[..|m| - 1]);
      assert m[|m| - 1] in m;
    }
  }

  /** `activity.get("time")` as stored in a shot: `null` when absent. */
  function TimeValue(a: Activity): Value {
    match a.time
    case Some(t) => Str(t)
    case None => Null
  }

  /** The tags set on a fetched shot: `session_number = idx + 1` (an int),
      `session_time = activity.get("time")` and
      `session_kind = activity.get("kind")`. */
  function Tag(s: Shot, i: nat, a: Activity): (t: Shot)
    ensures t.sessionNumber.Some? && PyStr(t.sessionNumber.value) == NatToString(i + 1)
    ensures t.sessionTime == Some(TimeValue(a))
    ensures t.sessionKind == Some(Str(a.kind))
    ensures t.time == s.time && t.club == s.club && t.bay == s.bay && t.measurement == s.measurement
  {
    s.(sessionNumber := Some(Other(NatToString(i + 1))), sessionTime := Some(TimeValue(a)),
             sessionKind := Some(Str(a.kind)))
  }

  function TagAll(shots: seq<Shot>, i: nat, a: Activity): (ts: seq<Shot>)
    ensures |ts| == |shots| && forall k :: 0 <= k < |shots| ==> ts[k] == Tag(shots[k], i, a)
  {
    seq(|shots|, k requires 0 <= k < |shots| => Tag(shots[k], i, a))
  }

  /** The tagging loop over the fetched shots, in place. */
  method TagShots(d: ShotData, i: nat, a: Activity)
    modifies d
    ensures d.shots == TagAll(old(d.shots), i, a)
  {
    var k := 0;
    while k < |d.shots|
      invariant 0 <= k <= |d.shots| == |old(d.shots)|
      invariant forall j :: 0 <= j < k ==> d.shots[j] == Tag(old(d.shots)[j], i, a)
      invariant forall j :: k <= j < |d.shots| ==> d.shots[j] == old(d.shots)[j]
    {
      d.shots := d.shots[k := Tag(d.shots[k], i, a)];
      k := k + 1;
    }
  }

  /** The date segment a tagged session's file name gets. */
  function FileDate(a: Activity, dateOf: string -> Option<DateStamp>): Option<DateStamp> {
    if TimeKey(a) == "" then None else dateOf(TimeKey(a))
  }

  /** A tagged session is saved as `trackman_<date>_session<idx + 1>` in the
      directory of its variant, whichever writer and default number is used. */
  lemma TaggedPath(shots: seq<Shot>, i: nat, a: Activity, defaultNumber: string, b: BallType,
                   username: string, dateOf: string -> Option<DateStamp>)
    requires |shots| > 0
    ensures SessionPath(TagAll(shots, i, a)[0], defaultNumber, b, username, dateOf)
         == SaveDir(username, b) + "/" + SessionFileName(FileDate(a, dateOf), NatToString(i + 1), b)
  {
    var t := TagAll(shots, i, a)[0];
    assert t == Tag(shots[0], i, a);
    assert SessionDate(t.sessionTime, dateOf) == FileDate(a, dateOf);
  }

  /** `fetch(id, b)`: the post-processed shots of an activity for a variant
      (empty when the fetch yields nothing). */
  type Fetch = (string, BallType) -> seq<Shot>

  /** What one fetch leaves on disk through the single-session writer. */
  function DownloadFile(r: Request, fetch: Fetch, username: string, dateOf: string -> Option<DateStamp>)
    : (file: seq<(string, string)>)
    ensures |file| <= 1
  {
    var shots := TagAll(fetch(r.activity.id, r.variant), r.index, r.activity);
    if |shots| == 0 then []
    else [(SessionPath(shots[0], "1", r.variant, username, dateOf), SessionCsv(SortedByTime(shots)))]
  }

  /** The file a fetch writes is named after the activity's date and number,
      in the directory of the fetched variant. */
  lemma DownloadFilePath(r: Request, fetch: Fetch, username: string, dateOf: string -> Option<DateStamp>)
    requires |fetch(r.activity.id, r.variant)| > 0
    ensures DownloadFile(r, fetch, username, dateOf)[0].0
         == SaveDir(username, r.variant) + "/"
            + SessionFileName(FileDate(r.activity, dateOf), NatToString(r.index + 1), r.variant)
  {
    TaggedPath(fetch(r.activity.id, r.variant), r.index, r.activity, "1", r.variant, username, dateOf);
  }

  function DownloadFiles(rs: seq<Request>, fetch: Fetch, username: string, dateOf: string -> Option<DateStamp>)
    : seq<(string, string)>
  {
    FlatMap(rs, r => DownloadFile(r, fetch, username, dateOf))
  }

  /** The answer of the download-missing action. */
  datatype Outcome =
    | AllSaved
    | Downloaded(fetched: seq<Request>, files: seq<(string, string)>)

  /** app.py's download-missing branch: scan, check, then fetch, tag and
      save each listed (activity, variant) pair. */
  method DownloadMissing(fs: Listing, username: string, acts: seq<Activity>, scope: Scope, fetch: Fetch,
                         dateOf: string -> Option<DateStamp>) returns (out: Outcome)
    ensures var m := FindMissing(acts, scope, Scanned(fs, username, Premium), Scanned(fs, username, Range), dateOf);
            out == if |m| == 0 then AllSaved
                   else Downloaded(Requests(m), DownloadFiles(Requests(m), fetch, username, dateOf))
  {
    var pro, range := GetExistingSessions(fs, username);
    var missing := CheckMissing(acts, scope, pro, range, dateOf);
    if |missing| == 0 {
      return AllSaved;
    }
    var fetched: seq<Request> := [];
    var files: seq<(string, string)> := [];
    for k := 0 to |missing|
      invariant fetched == Requests(missing[..k])
      invariant files == DownloadFiles(fetched, fetch, username, dateOf)
    {
      var more, saved := DownloadEntry(missing[k], fetch, username, dateOf);
      RequestsStep(missing, k);
      DownloadFilesAppend(fetched, more, fetch, username, dateOf);
      fetched := fetched + more;
      files := files + saved;
    }
    assert missing[..|missing|] == missing;
    out := Downloaded(fetched, files);
  }

  /** One more report appends its fetches. */
  lemma RequestsStep(m: seq<Missing>, k: nat)
    requires k < |m|
    ensures Requests(m[..k + 1]) == Requests(m[..k]) + RequestsOf(m[k])
  {
    assert m[..k + 1][..k] == m[..k];
  }

  /** The files of two runs of fetches, one after the other. */
  lemma DownloadFilesAppend(a: seq<Request>, b: seq<Request>, fetch: Fetch, username: string,
                            dateOf: string -> Option<DateStamp>)
    ensures DownloadFiles(a + b, fetch, username, dateOf)
         == DownloadFiles(a, fetch, username, dateOf) + DownloadFiles(b, fetch, username, dateOf)
  {
    FlatMapAppend(a, b, r => DownloadFile(r, fetch, username, dateOf));
  }

  /** The inner loop over the variants of one report. */
  method DownloadEntry(e: Missing, fetch: Fetch, username: string, dateOf: string -> Option<DateStamp>)
    returns (fetched: seq<Request>, files: seq<(string, string)>)
    ensures fetched == RequestsOf(e)
    ensures files == DownloadFiles(fetched, fetch, username, dateOf)
  {
    var rs := RequestsOf(e);
    fetched := [];
    files := [];
    for j := 0 to |rs|
      invariant fetched == rs[..j]
      invariant files == DownloadFiles(fetched, fetch, username, dateOf)
    {
      var file := FetchAndSave(rs[j], fetch, username, dateOf);
      DownloadFilesStep(rs, j, fetch, username, dateOf);
      fetched := fetched + [rs[j]];
      files := files + file;
    }
    assert rs[..|rs|] == rs;
  }

  /** Fetching one more pair of the list appends that pair's file. */
  lemma DownloadFilesStep(rs: seq<Request>, j: nat, fetch: Fetch, username: string,
                          dateOf: string -> Option<DateStamp>)
    requires j < |rs|
    ensures rs[..j + 1] == rs[..j] + [rs[j]]
    ensures DownloadFiles(rs[..j + 1], fetch, username, dateOf)
         == DownloadFiles(rs[..j], fetch, username, dateOf) + DownloadFile(rs[j], fetch, username, dateOf)
  {
    assert rs[..j + 1][..j] == rs[..j];
  }

  /** One fetch: tag the shots when there are any, then save them. */
  method FetchAndSave(r: Request, fetch: Fetch, username: string, dateOf: string -> Option<DateStamp>)
    returns (file: seq<(string, string)>)
    ensures file == DownloadFile(r, fetch, username, dateOf)
  {
    var shots := fetch(r.activity.id, r.variant);
    if |shots| == 0 {
      return [];
    }
    var d := new ShotData.FromStrokes(shots);
    TagShots(d, r.index, r.activity);
    var saved := SaveShots(d, r.variant, username, dateOf);
    file := [saved.value];
  }

  // ---------------------------------------------------------------------
  // The GUI's download (interface.py `ask_download_missing`): every fetched
  // session is gathered per variant, then each list goes to the combined writer.

  /** The tagged session fetched for report `e` and variant `b`, if any. */
  function GatheredOf(e: Missing, b: BallType, fetch: Fetch): (ss: seq<seq<Shot>>)
    ensures |ss| <= 1
    ensures |ss| == 1 <==> b in e.variants && |fetch(e.activity.id, b)| > 0
  {
    if b in e.variants && |fetch(e.activity.id, b)| > 0
    then [TagAll(fetch(e.activity.id, b), e.index, e.activity)] else []
  }

  function Gathered(m: seq<Missing>, b: BallType, fetch: Fetch): seq<seq<Shot>> {
    FlatMap(m, e => GatheredOf(e, b, fetch))
  }

  /** The files the GUI's download writes: the PREMIUM sessions, then the RANGE ones. */
  function GuiDownloadFiles(m: seq<Missing>, fetch: Fetch, username: string,
                            dateOf: string -> Option<DateStamp>): seq<(string, string)>
  {
    CombinedFiles(Gathered(m, Premium, fetch), Premium, username, dateOf)
    + CombinedFiles(Gathered(m, Range, fetch), Range, username, dateOf)
  }

  /** The fetch of one variant of one report: a new, tagged session object
      when the variant is listed and the fetch yields shots. */
  method FetchTagged(e: Missing, b: BallType, fetch: Fetch) returns (d: Option<ShotData>)
    ensures d.Some? <==> b in e.variants && |fetch(e.activity.id, b)| > 0
    ensures d.Some? ==> fresh(d.value) && [d.value.shots] == GatheredOf(e, b, fetch)
  {
    if b !in e.variants {
      return None;
    }
    var shots := fetch(e.activity.id, b);
    if |shots| == 0 {
      return None;
    }
    var data := new ShotData.FromStrokes(shots);
    TagShots(data, e.index, e.activity);
    d := Some(data);
  }

  /** Distinct session objects, none shared between the two lists. */
  predicate Separate(pro: seq<ShotData>, range: seq<ShotData>) {
    (forall i, j :: 0 <= i < j < |pro| ==> pro[i] != pro[j])
    && (forall i, j :: 0 <= i < j < |range| ==> range[i] != range[j])
    && (forall i, j :: 0 <= i < |pro| && 0 <= j < |range| ==> pro[i] != range[j])
  }

  /** The gathering loop of `ask_download_missing`. */
  method GatherMissing(m: seq<Missing>, fetch: Fetch) returns (pro: seq<ShotData>, range: seq<ShotData>)
    ensures ShotLists(pro) == Gathered(m, Premium, fetch) && ShotLists(range) == Gathered(m, Range, fetch)
    ensures Separate(pro, range)
    ensures forall d :: d in pro || d in range ==> fresh(d)
  {
    pro := [];
    range := [];
    for k := 0 to |m|
      invariant ShotLists(pro) == Gathered(m[..k], Premium, fetch)
      invariant ShotLists(range) == Gathered(m[..k], Range, fetch)
      invariant Separate(pro, range)
      invariant forall d :: d in pro || d in range ==> fresh(d)
    {
      assert m[..k + 1][..k] == m[..k];
      pro, range := GatherStep(m[k], fetch, pro, range);
    }
    assert m[..|m|] == m;
  }

  /** One report's fetches, appended to the two lists. */
  method GatherStep(e: Missing, fetch: Fetch, pro: seq<ShotData>, range: seq<ShotData>)
    returns (pro': seq<ShotData>, range': seq<ShotData>)
    requires Separate(pro, range)
    ensures Separate(pro', range')
    ensures ShotLists(pro') == old(ShotLists(pro)) + GatheredOf(e, Premium, fetch)
    ensures ShotLists(range') == old(ShotLists(range)) + GatheredOf(e, Range, fetch)
    ensures forall d :: d in pro' || d in range' ==> d in pro || d in range || fresh(d)
  {
    pro' := AppendFetched(e, Premium, fetch, pro);
    range' := AppendFetched(e, Range, fetch, range);
    forall i, j | 0 <= i < |pro'| && 0 <= j < |range'| ensures pro'[i] != range'[j] {
      if i < |pro| && j < |range| { assert pro'[i] == pro[i] && range'[j] == range[j]; }
    }
  }

  /** The fetch of one variant, appended to that variant's list when it
      yields shots. */
  method AppendFetched(e: Missing, b: BallType, fetch: Fetch, list: seq<ShotData>) returns (list': seq<ShotData>)
    requires forall i, j :: 0 <= i < j < |list| ==> list[i] != list[j]
    ensures forall i, j :: 0 <= i < j < |list'| ==> list'[i] != list'[j]
    ensures ShotLists(list') == old(ShotLists(list)) + GatheredOf(e, b, fetch)
    ensures |list| <= |list'| <= |list| + 1 && list'[..|list|] == list
    ensures forall i :: |list| <= i < |list'| ==> fresh(list'[i])
  {
    list' := list;
    var d := FetchTagged(e, b, fetch);
    if d.Some? {
      ShotListsSnoc(list, d.value);
      list' := list + [d.value];
    }
  }

  /** `ask_download_missing`: gather, then save each non-empty list with the
      combined writer under its variant. */
  method GuiDownload(m: seq<Missing>, fetch: Fetch, username: string, dateOf: string -> Option<DateStamp>)
    returns (files: seq<(string, string)>)
    ensures files == GuiDownloadFiles(m, fetch, username, dateOf)
  {
    var pro, range := GatherMissing(m, fetch);
    ghost var rangeLists := ShotLists(range);
    var proFiles := SaveGathered(pro, Premium, username, dateOf);
    assert ShotLists(range) == rangeLists by {
      assert forall j :: 0 <= j < |range| ==> range[j] !in pro;
    }
    var rangeFiles := SaveGathered(range, Range, username, dateOf);
    files := proFiles + rangeFiles;
  }

  /** `if all_shot_data: save_combined_shots_to_csv(all_shot_data, ...)` */
  method SaveGathered(all: seq<ShotData>, b: BallType, username: string, dateOf: string -> Option<DateStamp>)
    returns (files: seq<(string, string)>)
    requires forall i, j :: 0 <= i < j < |all| ==> all[i] != all[j]
    modifies set d | d in all
    ensures files == CombinedFiles(old(ShotLists(all)), b, username, dateOf)
  {
    files := [];
    if |all| > 0 {
      files := SaveCombined(all, b, username, dateOf);
    }
  }

  // ---------------------------------------------------------------------
  // Saving, then scanning again.

  /** A RANGE file saved for a dated activity is found by the next scan: the
      activity is no longer missing its RANGE variant. */
  lemma RangeDownloadIsFound(acts: seq<Activity>, i: nat, scope: Scope, fs: Listing, username: string,
                             pro: set<NameMatch>, dateOf: string -> Option<DateStamp>)
    requires i < |acts| && TimeKey(acts[i]) != "" && dateOf(TimeKey(acts[i])).Some?
    ensures var fs' := WithFile(fs, SaveDir(username, Range),
                                SessionFileName(FileDate(acts[i], dateOf), NatToString(i + 1), Range));
            var e := Entry(i, acts[i], scope, pro, Scanned(fs', username, Range), dateOf);
            e.None? || Range !in e.value.variants
  {
    var d := dateOf(TimeKey(acts[i])).value;
    RangeSaveIsScanned(fs, username, d, i + 1);
    assert ActivityDate(acts[i], dateOf) == Some(d);
  }

  /** PREMIUM saves never change what the check reports. */
  lemma PremiumDownloadIsNeverFound(acts: seq<Activity>, scope: Scope, fs: Listing, username: string,
                                    name: string, dateOf: string -> Option<DateStamp>)
    ensures var fs' := WithFile(fs, SaveDir(username, Premium), name);
            FindMissing(acts, scope, Scanned(fs', username, Premium), Scanned(fs', username, Range), dateOf)
            == FindMissing(acts, scope, Scanned(fs, username, Premium), Scanned(fs, username, Range), dateOf)
  {
    PremiumSaveIsNeverScanned(fs, username, name);
  }

  /** An activity without a time is looked up under the date "", which no
      scanned key has: it is reported for every variant the scope checks,
      on every run. */
  lemma UndatedActivityIsAlwaysMissing(acts: seq<Activity>, i: nat, scope: Scope, fs: Listing, username: string,
                                       dateOf: string -> Option<DateStamp>)
    requires i < |acts| && TimeKey(acts[i]) == ""
    ensures var e := Entry(i, acts[i], scope, Scanned(fs, username, Premium), Scanned(fs, username, Range), dateOf);
            e.Some? && forall b :: b in e.value.variants <==> Checks(scope, b)
  {
    var key := KeyOf(i, "");
    if key in Scanned(fs, username, Premium) {
      ScannedKeysAreDigits(fs, username, Premium, key);
    }
    if key in Scanned(fs, username, Range) {
      ScannedKeysAreDigits(fs, username, Range, key);
    }
  }
}

/** Session numbering: the remote activity feed is filtered to range
    practice activities, stably sorted by the raw `time` string (a missing
    time sorts as ""), and numbered from 1 in that order
    (docker/app.py and app.py, `handle_activities_actions`). */
module Activities {
  import opened Text
  import opened Sorting

  /** One entry of the remote activity list; `time` and `totalCount` may be absent. */
  datatype Activity = Activity(id: string, time: Option<string>, kind: string, totalCount: Option<int>)

  const RangePracticeKind: string := "RANGE_PRACTICE"

  /** `activity.get("time", "")`, the sort key. */
  function TimeKey(a: Activity): string { a.time.GetOr("") }

  predicate ByTime(a: Activity, b: Activity) { StrLe(TimeKey(a), TimeKey(b)) }

  lemma ByTimePreorder()
    ensures Preorder(ByTime)
  {
    forall a, b ensures ByTime(a, b) || ByTime(b, a) {
      StrLeTotal(TimeKey(a), TimeKey(b));
    }
    forall a, b, c | ByTime(a, b) && ByTime(b, c) ensures ByTime(a, c) {
      StrLeTrans(TimeKey(a), TimeKey(b), TimeKey(c));
    }
  }

  predicate IsRangePractice(a: Activity) { a.kind == RangePracticeKind }

  function RangePractice(feed: seq<Activity>): seq<Activity> { Filter(feed, IsRangePractice) }

  /** `sorted(acts, key=lambda x: x.get("time", ""))` */
  function Chronological(acts: seq<Activity>): seq<Activity> { SortBy(acts, ByTime) }

  /** A row of the activities table: `ID`, the activity, and `TotalShots`. */
  datatype SessionRow = SessionRow(number: nat, activity: Activity, totalShots: int)

  function SessionTable(feed: seq<Activity>): (rows: seq<SessionRow>)
    ensures |rows| == |RangePractice(feed)|
    ensures forall i :: 0 <= i < |rows| ==>
              rows[i].number == i + 1 && IsRangePractice(rows[i].activity)
              && rows[i].totalShots == rows[i].activity.totalCount.GetOr(0)
  {
    var acts := Chronological(RangePractice(feed));
    SortByPermutes(RangePractice(feed), ByTime);
    forall i | 0 <= i < |acts| ensures IsRangePractice(acts[i]) {
      assert acts[i] in multiset(RangePractice(feed));
    }
    seq(|acts|, i requires 0 <= i < |acts| => SessionRow(i + 1, acts[i], acts[i].totalCount.GetOr(0)))
  }

  function ActivitiesOf(rows: seq<SessionRow>): (acts: seq<Activity>)
    ensures |acts| == |rows| && forall i :: 0 <= i < |rows| ==> acts[i] == rows[i].activity
  {
    seq(|rows|, i requires 0 <= i < |rows| => rows[i].activity)
  }

  /** The numbered activities are exactly the range practice activities of the feed. */
  lemma SessionTablePermutation(feed: seq<Activity>)
    ensures multiset(ActivitiesOf(SessionTable(feed))) == multiset(RangePractice(feed))
  {
    assert ActivitiesOf(SessionTable(feed)) == Chronological(RangePractice(feed));
    SortByPermutes(RangePractice(feed), ByTime);
  }

  /** Session numbers grow with the time string. */
  lemma SessionTableChronological(feed: seq<Activity>)
    ensures forall i, j :: 0 <= i < j < |SessionTable(feed)| ==>
              StrLe(TimeKey(SessionTable(feed)[i].activity), TimeKey(SessionTable(feed)[j].activity))
  {
    ByTimePreorder();
    SortBySorted(RangePractice(feed), ByTime);
  }

  /** Activities with the same time keep their feed order. */
  lemma SessionTableStable(feed: seq<Activity>, t: string)
    ensures Filter(ActivitiesOf(SessionTable(feed)), a => TimeKey(a) == t)
         == Filter(RangePractice(feed), a => TimeKey(a) == t)
  {
    var k := Activity("", Some(t), "", None);
    var acts := RangePractice(feed);
    var sorted := ActivitiesOf(SessionTable(feed));
    assert sorted == Chronological(acts);
    assert Filter(sorted, e => Equivalent(ByTime, e, k)) == Filter(acts, e => Equivalent(ByTime, e, k)) by {
      ByTimePreorder();
      SortByStable(acts, k, ByTime);
    }
    SameTimeIsEquivalent(sorted, t, k);
    SameTimeIsEquivalent(acts, t, k);
    FilterSamePredicate(sorted, e => Equivalent(ByTime, e, k), a => TimeKey(a) == t);
    FilterSamePredicate(acts, e => Equivalent(ByTime, e, k), a => TimeKey(a) == t);
  }

  lemma SameTimeIsEquivalent(s: seq<Activity>, t: string, k: Activity)
    requires TimeKey(k) == t
    ensures forall i :: 0 <= i < |s| ==> Equivalent(ByTime, s[i], k) == (TimeKey(s[i]) == t)
  {
    forall i | 0 <= i < |s| ensures Equivalent(ByTime, s[i], k) == (TimeKey(s[i]) == t) {
      if Equivalent(ByTime, s[i], k) { StrLeAntisym(TimeKey(s[i]), t); }
      if TimeKey(s[i]) == t { StrLeRefl(t); }
    }
  }

  /** Numbering the already numbered activities again changes nothing. */
  lemma SessionTableIdempotent(feed: seq<Activity>)
    ensures SessionTable(ActivitiesOf(SessionTable(feed))) == SessionTable(feed)
  {
    var acts := ActivitiesOf(SessionTable(feed));
    assert acts == Chronological(RangePractice(feed));
    assert RangePractice(acts) == acts by {
      FilterAll(acts, IsRangePractice);
    }
    ByTimePreorder();
    SortByIdempotent(RangePractice(feed), ByTime);
  }
}

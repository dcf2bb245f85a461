/** Shot post-processing and the per-session CSV writers
    (docker/trackman.py `get_range_practice_shots`, `save_shots_to_csv`,
    `save_combined_shots_to_csv`; docker/app.py module-level `save_shots_to_csv`,
    which builds the same text and returns it with the file name). */
module CsvExport {
  import opened Text
  import opened Sorting
  import opened FileNames

  /** A JSON value as the writers see it: `null`, a string, or any other value
      (number, boolean, list, object) carried as the text `str()` gives it;
      the empty list is `Other("[]")`. */
  datatype Value = Null | Str(s: string) | Other(repr: string)

  /** Python's `str(v)`. */
  function PyStr(v: Value): string {
    match v
    case Null => "None"
    case Str(s) => s
    case Other(r) => r
  }

  type Measurement = map<string, Value>

  /** One shot record. `None` in an optional field means the key is absent;
      `measurement` is also `None` when the key holds `null`. */
  datatype Shot = Shot(time: Option<string>, club: Option<Value>, bay: Option<Value>,
                       measurement: Option<Measurement>,
                       sessionNumber: Option<Value>, sessionTime: Option<Value>,
                       sessionKind: Option<Value>)

  const MeasurementFields: seq<string> := [
    "ballSpeed", "ballSpin", "carry", "carryActual", "carrySide", "carrySideActual",
    "curve", "curveActual", "curveTotal", "curveTotalActual", "launchAngle",
    "launchDirection", "maxHeight", "spinAxis", "total", "totalActual", "totalSide",
    "totalSideActual", "ballSpinEffective", "targetDistance", "distanceFromPin",
    "distanceFromPinActual", "distanceFromPinTotal", "distanceFromPinTotalActual",
    "landingAngle", "reducedAccuracy"]

  const Header: seq<string> := ["Shot Number", "Club", "Bay"] + MeasurementFields

  // ---------------------------------------------------------------------
  // Post-processing of fetched shots.

  /** The measurement dict after post-processing: `null` becomes `{}`,
      a `null` `ballSpinEffective` becomes the text "None", and
      `reducedAccuracy` is replaced by "Yes" or "No". */
  function Normalize(m: Option<Measurement>): (r: Measurement)
    ensures forall k :: k in r <==> k == "reducedAccuracy" || (m.Some? && k in m.value)
    ensures r["reducedAccuracy"] == Str("Yes") || r["reducedAccuracy"] == Str("No")
    ensures r["reducedAccuracy"] == Str("Yes") <==>
              m.Some? && "reducedAccuracy" in m.value
              && m.value["reducedAccuracy"] != Str("") && m.value["reducedAccuracy"] != Other("[]")
    ensures "ballSpinEffective" in r ==> r["ballSpinEffective"] != Null
    ensures forall k :: k in r && k != "reducedAccuracy" && k != "ballSpinEffective" ==> r[k] == m.value[k]
  {
    var base := m.GetOr(map[]);
    var spin := if "ballSpinEffective" in base && base["ballSpinEffective"] == Null
                then base["ballSpinEffective" := Str("None")] else base;
    var flag := "reducedAccuracy" in base
                && base["reducedAccuracy"] != Str("") && base["reducedAccuracy"] != Other("[]");
    spin["reducedAccuracy" := if flag then Str("Yes") else Str("No")]
  }

  function NormalizeShot(s: Shot): Shot { s.(measurement := Some(Normalize(s.measurement))) }

  /** Post-processing a second time turns a "No" into "Yes": the rewrite is
      not idempotent, since "No" itself is neither "" nor []. */
  lemma NormalizeTwiceFlipsNo(m: Option<Measurement>)
    requires Normalize(m)["reducedAccuracy"] == Str("No")
    ensures Normalize(Some(Normalize(m)))["reducedAccuracy"] == Str("Yes")
  {
  }

  /** The shots of one fetched session, updated in place by post-processing and saving. */
  class ShotData {
    var shots: seq<Shot>

    /** `data["shots"] = data.get("strokes", [])` */
    constructor FromStrokes(strokes: seq<Shot>)
      ensures shots == strokes
    {
      shots := strokes;
    }

    /** The post-processing loop over every shot's measurement. */
    method PostProcess()
      modifies this
      ensures |shots| == |old(shots)|
      ensures forall i :: 0 <= i < |shots| ==> shots[i] == NormalizeShot(old(shots)[i])
    {
      var i := 0;
      while i < |shots|
        invariant 0 <= i <= |shots| == |old(shots)|
        invariant forall j :: 0 <= j < i ==> shots[j] == NormalizeShot(old(shots)[j])
        invariant forall j :: i <= j < |shots| ==> shots[j] == old(shots)[j]
      {
        shots := shots[i := NormalizeShot(shots[i])];
        i := i + 1;
      }
    }
  }

  /** After post-processing every shot carries `reducedAccuracy` as "Yes" or "No". */
  lemma PostProcessedShotsFlagged(s: Shot)
    ensures NormalizeShot(s).measurement.Some?
    ensures "reducedAccuracy" in NormalizeShot(s).measurement.value
    ensures PyStr(NormalizeShot(s).measurement.value["reducedAccuracy"]) in {"Yes", "No"}
  {
  }

  // ---------------------------------------------------------------------
  // File name and sort order.

  /** `shot.get("time", "")`, the in-place sort key. */
  predicate ByShotTime(a: Shot, b: Shot) { StrLe(a.time.GetOr(""), b.time.GetOr("")) }

  lemma ByShotTimePreorder()
    ensures Preorder(ByShotTime)
  {
    forall a, b ensures ByShotTime(a, b) || ByShotTime(b, a) {
      StrLeTotal(a.time.GetOr(""), b.time.GetOr(""));
    }
    forall a, b, c | ByShotTime(a, b) && ByShotTime(b, c) ensures ByShotTime(a, c) {
      StrLeTrans(a.time.GetOr(""), b.time.GetOr(""), c.time.GetOr(""));
    }
  }

  /** The file date from the first shot's `session_time`: absent, `null`,
      non-text, empty or unparsable values leave the date out. */
  function SessionDate(t: Option<Value>, dateOf: string -> Option<DateStamp>): (r: Option<DateStamp>)
    ensures r.Some? ==> t.Some? && t.value.Str? && t.value.s != "" && r == dateOf(t.value.s)
  {
    match t
    case Some(Str(s)) => if s == "" then None else dateOf(s)
    case _ => None
  }

  /** `f"{ball_dir}/trackman_..._session{session_num}{suffix}.csv"` for a
      session whose first shot is `first`; `defaultNumber` is "1" for the
      single writer and "0" for the combined one. */
  function SessionPath(first: Shot, defaultNumber: string, b: BallType, username: string,
                       dateOf: string -> Option<DateStamp>): string
  {
    var number := if first.sessionNumber.Some? then PyStr(first.sessionNumber.value) else defaultNumber;
    SaveDir(username, b) + "/" + SessionFileName(SessionDate(first.sessionTime, dateOf), number, b)
  }

  // ---------------------------------------------------------------------
  // Rows of `save_shots_to_csv`.

  /** `club = shot.get("club", "")`, `None` replaced by "Unknown", then `str`. */
  function ClubCell(club: Option<Value>): string {
    match club
    case None => ""
    case Some(Null) => "Unknown"
    case Some(v) => PyStr(v)
  }

  /** `str(shot.get("bayName", ""))` */
  function BayCell(bay: Option<Value>): string {
    match bay
    case None => ""
    case Some(v) => PyStr(v)
  }

  /** `data.get(field, "")` with `None` written as "". */
  function FieldCell(m: Measurement, f: string): string {
    if f in m && m[f] != Null then PyStr(m[f]) else ""
  }

  function FieldCells(m: Measurement, fields: seq<string>): (cells: seq<string>)
    ensures |cells| == |fields|
    ensures forall k :: 0 <= k < |fields| ==> cells[k] == FieldCell(m, fields[k])
  {
    if |fields| == 0 then []
    else FieldCells(m, fields[..|fields| - 1]) + [FieldCell(m, fields[|fields| - 1])]
  }

  /** The row list of shot number `idx`: 29 cells, the cell under each
      measurement heading holding that field of the shot. */
  function RowCells(idx: nat, s: Shot): (cells: seq<string>)
    ensures |cells| == |Header| == 29
    ensures cells[0] == NatToString(idx) && cells[1] == ClubCell(s.club) && cells[2] == BayCell(s.bay)
    ensures forall j :: 3 <= j < 29 ==> cells[j] == FieldCell(s.measurement.GetOr(map[]), Header[j])
  {
    HeaderFields();
    [NatToString(idx), ClubCell(s.club), BayCell(s.bay)] + FieldCells(s.measurement.GetOr(map[]), MeasurementFields)
  }

  /** Past its first three headings the header is the list of measurement fields. */
  lemma HeaderFields()
    ensures |MeasurementFields| == 26 && |Header| == 29
    ensures forall j :: 3 <= j < 29 ==> Header[j] == MeasurementFields[j - 3]
  {
  }

  /** The inner loop over the measurement fields. */
  method BuildRow(idx: nat, s: Shot) returns (row: seq<string>)
    ensures row == RowCells(idx, s)
  {
    var data := s.measurement.GetOr(map[]);
    row := [NatToString(idx), ClubCell(s.club), BayCell(s.bay)];
    for k := 0 to |MeasurementFields|
      invariant row == [NatToString(idx), ClubCell(s.club), BayCell(s.bay)] + FieldCells(data, MeasurementFields[..k])
    {
      assert MeasurementFields[..k + 1][..k] == MeasurementFields[..k];
      row := row + [FieldCell(data, MeasurementFields[k])];
    }
    assert MeasurementFields[..|MeasurementFields|] == MeasurementFields;
  }

  function RowLines(shots: seq<Shot>): (lines: seq<string>)
    ensures |lines| == |shots|
  {
    seq(|shots|, i requires 0 <= i < |shots| => Join(RowCells(i + 1, shots[i]), ','))
  }

  /** The file text for shots already in their final order. */
  function SessionCsv(shots: seq<Shot>): string {
    Join([Join(Header, ',')] + RowLines(shots), '\n')
  }

  /** `save_shots_to_csv`: nothing for a missing or empty shot list; otherwise
      the shots are sorted in place by time and the path (from the first shot
      as it was before sorting) and text are returned. */
  method SaveShots(data: ShotData, b: BallType, username: string, dateOf: string -> Option<DateStamp>)
    returns (out: Option<(string, string)>)
    modifies data
    ensures |old(data.shots)| == 0 ==> out == None && data.shots == old(data.shots)
    ensures |old(data.shots)| > 0 ==>
              data.shots == SortBy(old(data.shots), ByShotTime)
              && out == Some((SessionPath(old(data.shots)[0], "1", b, username, dateOf), SessionCsv(data.shots)))
  {
    if |data.shots| == 0 {
      return None;
    }
    var path := SessionPath(data.shots[0], "1", b, username, dateOf);
    data.shots := SortBy(data.shots, ByShotTime);
    var text := RenderCsv(data.shots);
    out := Some((path, text));
  }

  /** The row loop: the header line, then one line per shot numbered from 1. */
  method RenderCsv(shots: seq<Shot>) returns (text: string)
    ensures text == SessionCsv(shots)
  {
    var rows := [Join(Header, ',')];
    for i := 0 to |shots|
      invariant rows == [Join(Header, ',')] + RowLines(shots[..i])
    {
      var row := BuildRow(i + 1, shots[i]);
      rows := rows + [Join(row, ',')];
      assert RowLines(shots[..i + 1]) == RowLines(shots[..i]) + [Join(row, ',')];
    }
    assert shots[..|shots|] == shots;
    text := Join(rows, '\n');
  }

  // ---------------------------------------------------------------------
  // Reading a written file back.

  predicate Clean(s: string) { !Contains(s, ',') && !Contains(s, '\n') }

  /** Every cell of every row but the shot number is free of separators. */
  predicate CleanShots(shots: seq<Shot>) {
    forall i :: 0 <= i < |shots| ==>
      Clean(ClubCell(shots[i].club)) && Clean(BayCell(shots[i].bay))
      && forall f :: f in shots[i].measurement.GetOr(map[]) ==> Clean(PyStr(shots[i].measurement.GetOr(map[])[f]))
  }

  lemma {:induction false} JoinKeepsOut(parts: seq<string>, sep: char, c: char)
    requires c != sep
    requires forall i :: 0 <= i < |parts| ==> !Contains(parts[i], c)
    ensures !Contains(Join(parts, sep), c)
  {
    if |parts| > 1 {
      JoinKeepsOut(parts[1..], sep, c);
      var t := parts[0] + [sep] + Join(parts[1..], sep);
      forall i | 0 <= i < |t| ensures t[i] != c {
        if i < |parts[0]| { assert t[i] == parts[0][i]; }
        else if i > |parts[0]| { assert t[i] == Join(parts[1..], sep)[i - |parts[0]| - 1]; }
      }
    }
  }

  lemma DigitsClean(s: string)
    requires IsDigits(s)
    ensures Clean(s)
  {
    forall i | 0 <= i < |s| ensures s[i] != ',' && s[i] != '\n' { assert IsDigit(s[i]); }
  }

  /** No heading holds a comma or a line break (checked a few headings at a time). */
  lemma HeaderClean()
    ensures forall j :: 0 <= j < |Header| ==> Clean(Header[j])
  {
    HeaderClean0(); HeaderClean1(); HeaderClean2(); HeaderClean3(); HeaderClean4();
  }

  lemma HeaderClean0()
    ensures forall j :: 0 <= j < 6 ==> Clean(Header[j])
  {
    assert Header[0] == "Shot Number";
    assert Header[1] == "Club";
    assert Header[2] == "Bay";
    assert Header[3] == "ballSpeed";
    assert Header[4] == "ballSpin";
    assert Header[5] == "carry";
  }

  lemma HeaderClean1()
    ensures forall j :: 6 <= j < 12 ==> Clean(Header[j])
  {
    assert Header[6] == "carryActual";
    assert Header[7] == "carrySide";
    assert Header[8] == "carrySideActual";
    assert Header[9] == "curve";
    assert Header[10] == "curveActual";
    assert Header[11] == "curveTotal";
  }

  lemma HeaderClean2()
    ensures forall j :: 12 <= j < 18 ==> Clean(Header[j])
  {
    assert Header[12] == "curveTotalActual";
    assert Header[13] == "launchAngle";
    assert Header[14] == "launchDirection";
    assert Header[15] == "maxHeight";
    assert Header[16] == "spinAxis";
    assert Header[17] == "total";
  }

  lemma HeaderClean3()
    ensures forall j :: 18 <= j < 24 ==> Clean(Header[j])
  {
    assert Header[18] == "totalActual";
    assert Header[19] == "totalSide";
    assert Header[20] == "totalSideActual";
    assert Header[21] == "ballSpinEffective";
    assert Header[22] == "targetDistance";
    assert Header[23] == "distanceFromPin";
  }

  lemma HeaderClean4()
    ensures forall j :: 24 <= j < 29 ==> Clean(Header[j])
  {
    assert Header[24] == "distanceFromPinActual";
    assert Header[25] == "distanceFromPinTotal";
    assert Header[26] == "distanceFromPinTotalActual";
    assert Header[27] == "landingAngle";
    assert Header[28] == "reducedAccuracy";
  }

  lemma RowCellsClean(idx: nat, s: Shot)
    requires CleanShots([s])
    ensures forall j :: 0 <= j < 29 ==> Clean(RowCells(idx, s)[j])
  {
    var cells := RowCells(idx, s);
    var m := s.measurement.GetOr(map[]);
    assert [s][0] == s;
    assert forall f :: f in m ==> Clean(PyStr(m[f]));
    DigitsClean(NatToString(idx));
    assert Clean("");
    forall j | 3 <= j < 29 ensures Clean(cells[j]) {
      assert cells[j] == FieldCell(m, Header[j]);
    }
  }

  /** A written file splits back into its lines, and each row into its 29 cells
      whose first cell is the shot number, counting from 1. */
  lemma {:induction false} SessionCsvReadsBack(shots: seq<Shot>)
    requires CleanShots(shots)
    ensures Split(SessionCsv(shots), '\n') == [Join(Header, ',')] + RowLines(shots)
    ensures Split(Join(Header, ','), ',') == Header
    ensures forall i :: 0 <= i < |shots| ==>
              Split(RowLines(shots)[i], ',') == RowCells(i + 1, shots[i])
              && DigitsValue(Split(RowLines(shots)[i], ',')[0]) == i + 1
  {
    HeaderClean();
    SplitJoin(Header, ',');
    JoinKeepsOut(Header, ',', '\n');
    forall i | 0 <= i < |shots|
      ensures Split(RowLines(shots)[i], ',') == RowCells(i + 1, shots[i])
      ensures DigitsValue(Split(RowLines(shots)[i], ',')[0]) == i + 1
      ensures !Contains(RowLines(shots)[i], '\n')
    {
      assert CleanShots([shots[i]]);
      RowCellsClean(i + 1, shots[i]);
      SplitJoin(RowCells(i + 1, shots[i]), ',');
      JoinKeepsOut(RowCells(i + 1, shots[i]), ',', '\n');
      DigitsValueOfNatToString(i + 1);
    }
    var lines := [Join(Header, ',')] + RowLines(shots);
    assert forall k :: 0 <= k < |lines| ==> !Contains(lines[k], '\n') by {
      forall k | 0 <= k < |lines| ensures !Contains(lines[k], '\n') {
        if k > 0 { assert lines[k] == RowLines(shots)[k - 1]; }
      }
    }
    SplitJoin(lines, '\n');
  }

  // ---------------------------------------------------------------------
  // Rows of `save_combined_shots_to_csv`.

  /** The measurement cells of a combined row: `null` values are left out
      (the row gets narrower), absent ones are written as "". */
  function CombinedFieldCells(m: Measurement, fields: seq<string>): seq<string> {
    if |fields| == 0 then []
    else
      var f := fields[|fields| - 1];
      CombinedFieldCells(m, fields[..|fields| - 1])
      + (if f in m && m[f] == Null then [] else [if f in m then PyStr(m[f]) else ""])
  }

  function NullCount(m: Measurement, fields: seq<string>): (n: nat)
    ensures n <= |fields|
  {
    if |fields| == 0 then 0
    else
      var f := fields[|fields| - 1];
      NullCount(m, fields[..|fields| - 1]) + (if f in m && m[f] == Null then 1 else 0)
  }

  /** The combined row for shot `idx`: the club and bay values go into the
      row as they are, and `",".join` fails (the row is skipped) unless both
      are text; `None` club still becomes "Unknown". */
  function CombinedRow(idx: nat, s: Shot): (r: Option<seq<string>>)
    ensures r.None? <==> (s.club.Some? && s.club.value.Other?) || (s.bay.Some? && !s.bay.value.Str?)
    ensures r.Some? ==> |r.value| == 29 - NullCount(s.measurement.GetOr(map[]), MeasurementFields)
    ensures r.Some? ==> r.value[0] == NatToString(idx)
  {
    var m := s.measurement.GetOr(map[]);
    CombinedWidth(m, MeasurementFields);
    if (s.club.Some? && s.club.value.Other?) || (s.bay.Some? && !s.bay.value.Str?) then None
    else Some([NatToString(idx), ClubCell(s.club), BayCell(s.bay)] + CombinedFieldCells(m, MeasurementFields))
  }

  lemma {:induction false} CombinedWidth(m: Measurement, fields: seq<string>)
    ensures |CombinedFieldCells(m, fields)| + NullCount(m, fields) == |fields|
  {
    if |fields| > 0 { CombinedWidth(m, fields[..|fields| - 1]); }
  }

  lemma {:induction false} CombinedCellsWithoutNulls(m: Measurement, fields: seq<string>)
    requires NullCount(m, fields) == 0
    ensures CombinedFieldCells(m, fields) == FieldCells(m, fields)
  {
    if |fields| > 0 { CombinedCellsWithoutNulls(m, fields[..|fields| - 1]); }
  }

  /** Without `null` measurement values and with text club and bay, the
      combined writer's row is the single writer's row. */
  lemma CombinedRowMatchesSingle(idx: nat, s: Shot)
    requires NullCount(s.measurement.GetOr(map[]), MeasurementFields) == 0
    requires s.club.None? || !s.club.value.Other?
    requires s.bay.None? || s.bay.value.Str?
    ensures CombinedRow(idx, s) == Some(RowCells(idx, s))
  {
    CombinedCellsWithoutNulls(s.measurement.GetOr(map[]), MeasurementFields);
  }

  lemma CombinedFieldCellsStep(m: Measurement, fields: seq<string>, k: nat)
    requires k < |fields|
    ensures var f := fields[k];
            CombinedFieldCells(m, fields[..k + 1])
            == CombinedFieldCells(m, fields[..k]) + (if f in m && m[f] == Null then [] else [if f in m then PyStr(m[f]) else ""])
  {
    assert fields[..k + 1][..k] == fields[..k];
  }

  /** The inner loop of the combined writer. */
  method BuildCombinedRow(idx: nat, s: Shot) returns (row: Option<seq<string>>)
    ensures row == CombinedRow(idx, s)
  {
    var data := s.measurement.GetOr(map[]);
    var cells := [NatToString(idx), ClubCell(s.club), BayCell(s.bay)];
    for k := 0 to |MeasurementFields|
      invariant cells == [NatToString(idx), ClubCell(s.club), BayCell(s.bay)]
                         + CombinedFieldCells(data, MeasurementFields[..k])
    {
      var f := MeasurementFields[k];
      CombinedFieldCellsStep(data, MeasurementFields, k);
      if !(f in data && data[f] == Null) {
        cells := cells + [if f in data then PyStr(data[f]) else ""];
      }
    }
    assert MeasurementFields[..|MeasurementFields|] == MeasurementFields;
    if (s.club.Some? && s.club.value.Other?) || (s.bay.Some? && !s.bay.value.Str?) {
      row := None;
    } else {
      row := Some(cells);
    }
  }

  /** The joined rows that survive, numbered by position in the sorted list. */
  function CombinedLines(shots: seq<Shot>): seq<string> {
    if |shots| == 0 then []
    else
      var n := |shots|;
      CombinedLines(shots[..n - 1])
      + (match CombinedRow(n, shots[n - 1]) case Some(r) => [Join(r, ',')] case None => [])
  }

  function CombinedCsv(shots: seq<Shot>): string {
    Join([Join(Header, ',')] + CombinedLines(shots), '\n')
  }

  /** The combined writer's row loop for one session. */
  method RenderCombinedCsv(shots: seq<Shot>) returns (text: string)
    ensures text == CombinedCsv(shots)
  {
    var lines := [];
    for k := 0 to |shots|
      invariant lines == CombinedLines(shots[..k])
    {
      assert shots[..k + 1][..k] == shots[..k];
      var row := BuildCombinedRow(k + 1, shots[k]);
      if row.Some? {
        lines := lines + [Join(row.value, ',')];
      }
    }
    assert shots[..|shots|] == shots;
    text := Join([Join(Header, ',')] + lines, '\n');
  }

  /** `shots.sort(key=lambda x: x.get("time", ""))` */
  function SortedByTime(shots: seq<Shot>): seq<Shot> { SortBy(shots, ByShotTime) }

  /** The file the combined writer produces for one session (the shot list
      as passed in): none when it is empty, else one named from its first
      shot and holding its rows in time order. */
  function SessionFile(shots: seq<Shot>, b: BallType, username: string,
                       dateOf: string -> Option<DateStamp>): (file: seq<(string, string)>)
    ensures |file| <= 1 && (|file| == 1 <==> |shots| > 0)
  {
    if |shots| == 0 then []
    else [(SessionPath(shots[0], "0", b, username, dateOf), CombinedCsv(SortBy(shots, ByShotTime)))]
  }

  /** The files for a list of sessions, in list order. */
  function CombinedFiles(sessions: seq<seq<Shot>>, b: BallType, username: string,
                         dateOf: string -> Option<DateStamp>): (files: seq<(string, string)>)
    ensures |files| <= |sessions|
  {
    if |sessions| == 0 then []
    else
      var n := |sessions| - 1;
      CombinedFiles(sessions[..n], b, username, dateOf) + SessionFile(sessions[n], b, username, dateOf)
  }

  /** The shot lists of the given session objects. */
  function ShotLists(all: seq<ShotData>): (ss: seq<seq<Shot>>)
    reads all
    ensures |ss| == |all| && forall i :: 0 <= i < |all| ==> ss[i] == all[i].shots
  {
    if |all| == 0 then [] else ShotLists(all[..|all| - 1]) + [all[|all| - 1].shots]
  }

  /** Appending a session object appends its shot list. */
  lemma ShotListsSnoc(all: seq<ShotData>, d: ShotData)
    ensures ShotLists(all + [d]) == ShotLists(all) + [d.shots]
  {
    assert (all + [d])[..|all|] == all;
  }

  /** `save_combined_shots_to_csv`: one file per session with shots, in list
      order; each session's shots are sorted in place first. */
  method SaveCombined(all: seq<ShotData>, b: BallType, username: string, dateOf: string -> Option<DateStamp>)
    returns (files: seq<(string, string)>)
    requires forall i, j :: 0 <= i < j < |all| ==> all[i] != all[j]
    modifies set d | d in all
    ensures forall i :: 0 <= i < |all| ==> all[i].shots == SortedByTime(old(all[i].shots))
    ensures files == CombinedFiles(old(ShotLists(all)), b, username, dateOf)
  {
    ghost var before := ShotLists(all);
    files := [];
    for i := 0 to |all|
      invariant forall j :: 0 <= j < i ==> all[j].shots == SortedByTime(before[j])
      invariant forall j :: i <= j < |all| ==> all[j].shots == before[j]
      invariant files == CombinedFiles(before[..i], b, username, dateOf)
    {
      var file := VisitSession(all, i, before, b, username, dateOf);
      CombinedFilesStep(before, i, b, username, dateOf);
      files := files + file;
    }
    assert before[..|all|] == before;
  }

  lemma CombinedFilesStep(ss: seq<seq<Shot>>, i: nat, b: BallType, username: string,
                          dateOf: string -> Option<DateStamp>)
    requires i < |ss|
    ensures CombinedFiles(ss[..i + 1], b, username, dateOf)
         == CombinedFiles(ss[..i], b, username, dateOf) + SessionFile(ss[i], b, username, dateOf)
  {
    assert ss[..i + 1][..i] == ss[..i];
  }

  /** The loop body of the combined writer: saves session `i`, the sessions
      before it being sorted already and those after it untouched. */
  method VisitSession(all: seq<ShotData>, i: nat, ghost before: seq<seq<Shot>>, b: BallType, username: string,
                      dateOf: string -> Option<DateStamp>) returns (file: seq<(string, string)>)
    requires forall i, j :: 0 <= i < j < |all| ==> all[i] != all[j]
    requires i < |all| == |before|
    requires forall j :: 0 <= j < i ==> all[j].shots == SortedByTime(before[j])
    requires forall j :: i <= j < |all| ==> all[j].shots == before[j]
    modifies all[i]
    ensures forall j :: 0 <= j <= i ==> all[j].shots == SortedByTime(before[j])
    ensures forall j :: i < j < |all| ==> all[j].shots == before[j]
    ensures file == SessionFile(before[i], b, username, dateOf)
  {
    var d := all[i];
    file := SaveSession(d, b, username, dateOf);
    forall j | 0 <= j < |all| && j != i ensures all[j] != d {
      if j < i { assert all[j] != all[i]; } else { assert all[i] != all[j]; }
    }
  }

  /** One iteration of the combined writer: the file for session `d`, if it has shots. */
  method SaveSession(d: ShotData, b: BallType, username: string, dateOf: string -> Option<DateStamp>)
    returns (file: seq<(string, string)>)
    modifies d
    ensures d.shots == SortedByTime(old(d.shots))
    ensures file == SessionFile(old(d.shots), b, username, dateOf)
  {
    if |d.shots| == 0 {
      return [];
    }
    var path := SessionPath(d.shots[0], "0", b, username, dateOf);
    d.shots := SortBy(d.shots, ByShotTime);
    var text := RenderCombinedCsv(d.shots);
    file := [(path, text)];
  }
}

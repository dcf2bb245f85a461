/** The rows of the shot-curation table (docker/app.py,
    `update_selected_shots_table`): each row of the loaded frame that belongs
    to a selected session and club becomes a row carrying its position in the
    frame as `row_id`, the delete glyph and the `deleted` flag. The same rows
    back both the visible table and the hidden store. Measurements are exact
    reals; only the columns the curation logic reads are kept. */
module ShotRows {

  /** One record of the loaded frame. */
  datatype Record = Record(session: string, club: string,
                           carry: real, side: real, launch: real, speed: real, spin: real)

  /** One row of the table or of the store: `row_id`, the record's fields,
      the `deleted` flag and the `Delete` column's glyph. */
  datatype Row = Row(rowId: int, rec: Record, deleted: bool, glyph: string)

  /** "❌", the delete button. */
  const DeleteGlyph: string := "❌"
  /** "↶", the undo button of a deleted row. */
  const UndoGlyph: string := "↶"

  /** The five measurement columns the mishit classifier reads:
      `carryActual`, `launchAngle`, `ballSpeed`, `ballSpin`, `carrySideActual`. */
  datatype Metric = Carry | Launch | Speed | Spin | Side

  function Value(r: Row, metric: Metric): real {
    match metric
    case Carry => r.rec.carry
    case Launch => r.rec.launch
    case Speed => r.rec.speed
    case Spin => r.rec.spin
    case Side => r.rec.side
  }

  /** The column `metric` of a group of rows. */
  function Column(g: seq<Row>, metric: Metric): (c: seq<real>)
    ensures |c| == |g| && forall i :: 0 <= i < |g| ==> c[i] == Value(g[i], metric)
  {
    seq(|g|, i requires 0 <= i < |g| => Value(g[i], metric))
  }

  /** `df[df["Session ID"].isin(sessions) & df["Club"].isin(clubs)]` after
      `reset_index()`: the kept records with their frame positions as ids,
      not deleted, showing the delete glyph. */
  function Seed(frame: seq<Record>, sessions: set<string>, clubs: set<string>): seq<Row> {
    if |frame| == 0 then []
    else
      var i := |frame| - 1;
      var init := Seed(frame[..i], sessions, clubs);
      if frame[i].session in sessions && frame[i].club in clubs then
        init + [Row(i, frame[i], false, DeleteGlyph)]
      else init
  }

  /** Each row is a selected record at its id, not deleted and showing the
      delete glyph. */
  predicate SelectedRows(frame: seq<Record>, sessions: set<string>, clubs: set<string>, rows: seq<Row>) {
    forall k :: 0 <= k < |rows| ==>
      0 <= rows[k].rowId < |frame| && rows[k].rec == frame[rows[k].rowId]
      && rows[k].rec.session in sessions && rows[k].rec.club in clubs
      && !rows[k].deleted && rows[k].glyph == DeleteGlyph
  }

  predicate IdsIncrease(rows: seq<Row>) {
    forall k, l :: 0 <= k < l < |rows| ==> rows[k].rowId < rows[l].rowId
  }

  lemma {:induction false} SeedRowsAreSelected(frame: seq<Record>, sessions: set<string>, clubs: set<string>)
    ensures SelectedRows(frame, sessions, clubs, Seed(frame, sessions, clubs))
  {
    if |frame| > 0 {
      var i := |frame| - 1;
      SeedRowsAreSelected(frame[..i], sessions, clubs);
      var init := Seed(frame[..i], sessions, clubs);
      var rows := Seed(frame, sessions, clubs);
      forall k | 0 <= k < |rows|
        ensures 0 <= rows[k].rowId < |frame| && rows[k].rec == frame[rows[k].rowId]
      {
        if k < |init| {
          assert rows[k] == init[k];
          assert frame[..i][init[k].rowId] == frame[init[k].rowId];
        }
      }
    }
  }

  /** Every selected record of the frame is seeded. */
  lemma {:induction false} SeedCoversSelected(frame: seq<Record>, sessions: set<string>, clubs: set<string>, j: nat)
    requires j < |frame| && frame[j].session in sessions && frame[j].club in clubs
    ensures exists k :: 0 <= k < |Seed(frame, sessions, clubs)| && Seed(frame, sessions, clubs)[k].rowId == j
  {
    var i := |frame| - 1;
    var rows := Seed(frame, sessions, clubs);
    if j < i {
      var init := Seed(frame[..i], sessions, clubs);
      assert frame[..i][j] == frame[j];
      SeedCoversSelected(frame[..i], sessions, clubs, j);
      var k :| 0 <= k < |init| && init[k].rowId == j;
      assert rows[k] == init[k];
    } else {
      assert rows[|rows| - 1].rowId == j;
    }
  }

  /** Seeded ids increase strictly, so they are distinct (frames are
      concatenated with `ignore_index=True`, and every position appears once). */
  lemma {:induction false} SeedIdsIncrease(frame: seq<Record>, sessions: set<string>, clubs: set<string>)
    ensures IdsIncrease(Seed(frame, sessions, clubs))
  {
    if |frame| > 0 {
      var i := |frame| - 1;
      SeedIdsIncrease(frame[..i], sessions, clubs);
      SeedRowsAreSelected(frame[..i], sessions, clubs);
    }
  }

  /** Row ids are pairwise distinct. */
  predicate UniqueIds(rows: seq<Row>) {
    forall k, l :: 0 <= k < l < |rows| ==> rows[k].rowId != rows[l].rowId
  }
}

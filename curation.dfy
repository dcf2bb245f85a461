/** The shot-curation store of docker/app.py. The visible table rows and the
    hidden store rows are built from the same frame. The callbacks
    `toggle_delete_shot`, `remove_mishits` and `reset_all_shots` rebuild both
    lists row by row, changing only the `deleted` flag and, in the table, the
    `Delete` glyph. app.py's older `delete_shot` removes the clicked row from
    both lists instead. */
module Curation {
  import opened Text
  import opened Sorting
  import opened ShotRows
  import opened Mishits

  /** The `Delete` glyph of a row whose `deleted` flag is `d`. */
  function Glyph(d: bool): string { if d then UndoGlyph else DeleteGlyph }

  /** The invariant the callbacks keep:
      - both lists have the same length and carry the same rows in the same order;
      - their `deleted` flags agree;
      - each table glyph shows its row's flag;
      - the store's `Delete` column keeps its initial glyph;
      - ids are distinct. */
  predicate Consistent(table: seq<Row>, store: seq<Row>) {
    |table| == |store| && UniqueIds(store)
    && forall k :: 0 <= k < |table| ==> Aligned(table[k], store[k])
  }

  // ---------------------------------------------------------------------
  // The per-row copy-and-assign of the three callbacks.

  /** What a callback does to each row it touches. */
  datatype Edit =
    | Toggle(id: int)       // flip the rows carrying `row_id == id`
    | Exclude(ids: set<int>) // mark the rows whose `row_id` is flagged
    | Restore               // clear every row

  predicate Targets(e: Edit, r: Row) {
    match e
    case Toggle(id) => r.rowId == id
    case Exclude(ids) => r.rowId in ids
    case Restore => true
  }

  function NewFlag(e: Edit, r: Row): bool {
    match e
    case Toggle(_) => !r.deleted
    case Exclude(_) => true
    case Restore => false
  }

  /** A store row's copy: only `deleted` is assigned. */
  function EditStoreRow(r: Row, e: Edit): Row {
    if Targets(e, r) then r.(deleted := NewFlag(e, r)) else r
  }

  /** A table row's copy: `deleted` and the glyph that shows it. */
  function EditTableRow(r: Row, e: Edit): Row {
    if Targets(e, r) then r.(deleted := NewFlag(e, r), glyph := Glyph(NewFlag(e, r))) else r
  }

  function TableAfter(rows: seq<Row>, e: Edit): seq<Row> {
    seq(|rows|, k requires 0 <= k < |rows| => EditTableRow(rows[k], e))
  }

  function StoreAfter(rows: seq<Row>, e: Edit): seq<Row> {
    seq(|rows|, k requires 0 <= k < |rows| => EditStoreRow(rows[k], e))
  }

  /** `updated_table_data`, built by appending each row's copy. */
  method RebuildTable(rows: seq<Row>, e: Edit) returns (updated: seq<Row>)
    ensures updated == TableAfter(rows, e)
  {
    updated := [];
    for k := 0 to |rows|
      invariant |updated| == k
      invariant forall j :: 0 <= j < k ==> updated[j] == EditTableRow(rows[j], e)
    {
      updated := updated + [EditTableRow(rows[k], e)];
    }
  }

  /** `updated_filtered_data`, built by appending each row's copy. */
  method RebuildStore(rows: seq<Row>, e: Edit) returns (updated: seq<Row>)
    ensures updated == StoreAfter(rows, e)
  {
    updated := [];
    for k := 0 to |rows|
      invariant |updated| == k
      invariant forall j :: 0 <= j < k ==> updated[j] == EditStoreRow(rows[j], e)
    {
      updated := updated + [EditStoreRow(rows[k], e)];
    }
  }

  // ---------------------------------------------------------------------
  // What the plot sees.

  predicate Active(r: Row) { !r.deleted }

  /** `[row for row in updated_filtered_data if not row.get("deleted", False)]` */
  function PlotRows(store: seq<Row>): seq<Row> {
    Filter(store, Active)
  }

  /** `sum(1 for row in filtered_data if row.get("deleted", False))` */
  function ExcludedCount(rows: seq<Row>): nat {
    if |rows| == 0 then 0
    else ExcludedCount(rows[..|rows| - 1]) + (if rows[|rows| - 1].deleted then 1 else 0)
  }

  /** Every store row is either plotted or counted as excluded. */
  lemma {:induction false} PlotAndExcludedPartition(rows: seq<Row>)
    ensures |PlotRows(rows)| + ExcludedCount(rows) == |rows|
  {
    if |rows| > 0 {
      PlotAndExcludedPartition(rows[..|rows| - 1]);
    }
  }

  // ---------------------------------------------------------------------
  // The class.

  /** A click on the table: the row index within the view and the column id. */
  datatype Cell = Cell(row: nat, column: string)

  /** The rows the click indexes: `derived_virtual_data`, or the table when
      that is empty. */
  function View(view: seq<Row>, table: seq<Row>): seq<Row> {
    if |view| > 0 then view else table
  }

  /** The `row_id` the toggle acts on; `None` when the callback gives no update. */
  function ClickedId(cell: Option<Cell>, view: seq<Row>, table: seq<Row>, store: seq<Row>): Option<int> {
    if cell.None? || |table| == 0 || |store| == 0 || cell.value.column != "Delete" then None
    else if cell.value.row >= |View(view, table)| then None
    else Some(View(view, table)[cell.value.row].rowId)
  }

  class ShotStore {
    /** `selected-shots-table.data` */
    var table: seq<Row>
    /** `filtered-data-store.data` */
    var store: seq<Row>

    predicate Valid()
      reads this
    {
      Consistent(table, store)
    }

    /** `update_selected_shots_table`: both lists are the seeded rows. */
    constructor Load(frame: seq<Record>, sessions: set<string>, clubs: set<string>)
      ensures table == Seed(frame, sessions, clubs) && store == table
      ensures Valid()
    {
      var rows := Seed(frame, sessions, clubs);
      SeedRowsAreSelected(frame, sessions, clubs);
      SeedIdsIncrease(frame, sessions, clubs);
      table := rows;
      store := rows;
    }

    method ApplyEdit(e: Edit)
      requires Valid()
      modifies this
      ensures table == TableAfter(old(table), e) && store == StoreAfter(old(store), e)
      ensures Valid()
    {
      EditKeepsConsistent(table, store, e);
      table := RebuildTable(table, e);
      store := RebuildStore(store, e);
    }

    /** `toggle_delete_shot` */
    method ToggleDelete(cell: Option<Cell>, view: seq<Row>) returns (updated: bool)
      requires Valid()
      modifies this
      ensures Valid()
      ensures updated == ClickedId(cell, view, old(table), old(store)).Some?
      ensures updated ==> var id := ClickedId(cell, view, old(table), old(store)).value;
                          table == TableAfter(old(table), Toggle(id)) && store == StoreAfter(old(store), Toggle(id))
      ensures !updated ==> table == old(table) && store == old(store)
    {
      if cell.None? || |table| == 0 || |store| == 0 {
        return false;
      }
      if cell.value.column != "Delete" {
        return false;
      }
      var rowIndex := cell.value.row;
      var current := if |view| > 0 then view else table;
      if rowIndex >= |current| {
        return false;
      }
      var id := current[rowIndex].rowId;
      ApplyEdit(Toggle(id));
      updated := true;
    }

    /** `remove_mishits`: classify every store row, then mark the hits. */
    method RemoveMishits(columns: set<Metric>) returns (flagged: set<int>)
      requires Valid()
      modifies this
      ensures Valid()
      ensures flagged == if |old(table)| == 0 || |old(store)| == 0 then {} else Mishits.Mishits(old(store), columns)
      ensures flagged == {} ==> table == old(table) && store == old(store)
      ensures flagged != {} ==> table == TableAfter(old(table), Exclude(flagged))
                                && store == StoreAfter(old(store), Exclude(flagged))
    {
      if |table| == 0 || |store| == 0 {
        return {};
      }
      flagged := FindMishits(store, columns);
      if flagged == {} {
        return;
      }
      ApplyEdit(Exclude(flagged));
    }

    /** `reset_all_shots`; returns the number of restored rows. */
    method ResetAll() returns (restored: nat)
      requires Valid()
      modifies this
      ensures Valid()
      ensures restored == if |old(table)| == 0 || |old(store)| == 0 then 0 else ExcludedCount(old(store))
      ensures restored == 0 ==> table == old(table) && store == old(store)
      ensures restored > 0 ==> table == TableAfter(old(table), Restore) && store == StoreAfter(old(store), Restore)
    {
      if |table| == 0 || |store| == 0 {
        return 0;
      }
      restored := ExcludedCount(store);
      if restored == 0 {
        return;
      }
      ApplyEdit(Restore);
    }
  }

  // ---------------------------------------------------------------------
  // Properties of the edits.

  /** Every edit keeps the two lists consistent. */
  lemma EditKeepsConsistent(table: seq<Row>, store: seq<Row>, e: Edit)
    requires Consistent(table, store)
    ensures Consistent(TableAfter(table, e), StoreAfter(store, e))
  {
    var t, s := TableAfter(table, e), StoreAfter(store, e);
    forall k | 0 <= k < |t|
      ensures t[k].rowId == s[k].rowId && t[k].rec == s[k].rec && t[k].deleted == s[k].deleted
      ensures t[k].glyph == Glyph(t[k].deleted) && s[k].glyph == DeleteGlyph
    {
      assert Targets(e, table[k]) == Targets(e, store[k]);
    }
    assert forall k :: 0 <= k < |s| ==> s[k].rowId == store[k].rowId;
  }

  /** An edit that targets no row changes nothing. */
  lemma UntargetedEditIsIdentity(table: seq<Row>, store: seq<Row>, e: Edit)
    requires forall k :: 0 <= k < |table| ==> !Targets(e, table[k])
    requires forall k :: 0 <= k < |store| ==> !Targets(e, store[k])
    ensures TableAfter(table, e) == table && StoreAfter(store, e) == store
  {
  }

  /** Clicking the same delete button twice restores both lists. */
  lemma ToggleTwiceRestores(table: seq<Row>, store: seq<Row>, id: int)
    requires Consistent(table, store)
    ensures TableAfter(TableAfter(table, Toggle(id)), Toggle(id)) == table
    ensures StoreAfter(StoreAfter(store, Toggle(id)), Toggle(id)) == store
  {
    var t := TableAfter(TableAfter(table, Toggle(id)), Toggle(id));
    forall k | 0 <= k < |table| ensures t[k] == table[k] {
      assert table[k].glyph == Glyph(table[k].deleted);
    }
  }

  /** Editing a prefix is the prefix of the edit. */
  lemma StoreAfterPrefix(rows: seq<Row>, e: Edit, n: nat)
    requires n <= |rows|
    ensures StoreAfter(rows, e)[..n] == StoreAfter(rows[..n], e)
  {
  }

  /** An edit that targets no row keeps the excluded count. */
  lemma {:induction false} UntargetedKeepsCount(rows: seq<Row>, e: Edit)
    requires forall k :: 0 <= k < |rows| ==> !Targets(e, rows[k])
    ensures ExcludedCount(StoreAfter(rows, e)) == ExcludedCount(rows)
  {
    if |rows| > 0 {
      var n := |rows| - 1;
      UntargetedKeepsCount(rows[..n], e);
      StoreAfterPrefix(rows, e, n);
    }
  }

  /** Toggling the row at `j` moves the excluded count by exactly one: down
      when the row was deleted, up when it was not. */
  lemma {:induction false} ToggleMovesCountByOne(rows: seq<Row>, j: nat)
    requires UniqueIds(rows) && j < |rows|
    ensures ExcludedCount(StoreAfter(rows, Toggle(rows[j].rowId)))
            == if rows[j].deleted then ExcludedCount(rows) - 1 else ExcludedCount(rows) + 1
  {
    var n := |rows| - 1;
    var e := Toggle(rows[j].rowId);
    StoreAfterPrefix(rows, e, n);
    if j < n {
      assert UniqueIds(rows[..n]);
      ToggleMovesCountByOne(rows[..n], j);
      assert rows[..n][j] == rows[j];
    } else {
      UntargetedKeepsCount(rows[..n], e);
    }
  }

  /** A toggled id is always one of the table's ids when the view shows table
      rows (the sorted view is a reordering of the table). */
  lemma ClickedRowIsInTable(cell: Option<Cell>, view: seq<Row>, table: seq<Row>, store: seq<Row>)
    requires forall i :: 0 <= i < |view| ==> view[i] in table
    requires ClickedId(cell, view, table, store).Some?
    ensures exists j :: 0 <= j < |table| && table[j].rowId == ClickedId(cell, view, table, store).value
  {
    var v := View(view, table);
    var r := v[cell.value.row];
    assert r in table;
  }

  /** Marking the same flagged set twice is the same as marking it once. */
  lemma ExcludeIdempotent(table: seq<Row>, store: seq<Row>, ids: set<int>)
    ensures TableAfter(TableAfter(table, Exclude(ids)), Exclude(ids)) == TableAfter(table, Exclude(ids))
    ensures StoreAfter(StoreAfter(store, Exclude(ids)), Exclude(ids)) == StoreAfter(store, Exclude(ids))
  {
  }

  /** Flagged rows leave the plot, and rows already deleted stay deleted. */
  lemma ExcludeHidesFlagged(store: seq<Row>, ids: set<int>)
    ensures forall r :: r in PlotRows(StoreAfter(store, Exclude(ids))) ==> r.rowId !in ids
    ensures forall k :: 0 <= k < |store| && store[k].deleted ==> StoreAfter(store, Exclude(ids))[k].deleted
  {
    var s := StoreAfter(store, Exclude(ids));
    forall r | r in PlotRows(s) ensures r.rowId !in ids {
      var k :| 0 <= k < |s| && s[k] == r;
    }
  }

  /** The classifier sees the same records after the exclusion, so running
      `remove_mishits` again flags the same rows and leaves both lists as
      they are. */
  lemma RemoveMishitsIdempotent(table: seq<Row>, store: seq<Row>, columns: set<Metric>)
    requires Consistent(table, store)
    ensures var ids := Mishits.Mishits(store, columns);
            var s := StoreAfter(store, Exclude(ids));
            Mishits.Mishits(s, columns) == ids
            && TableAfter(TableAfter(table, Exclude(ids)), Exclude(ids)) == TableAfter(table, Exclude(ids))
            && StoreAfter(s, Exclude(ids)) == s
  {
    var ids := Mishits.Mishits(store, columns);
    MishitsIgnoreDeletion(store, StoreAfter(store, Exclude(ids)), columns);
    ExcludeIdempotent(table, store, ids);
  }

  /** After a reset every store row is plotted, none is counted as excluded,
      and no row was removed. */
  lemma ResetRestoresEverything(store: seq<Row>)
    ensures PlotRows(StoreAfter(store, Restore)) == StoreAfter(store, Restore)
    ensures ExcludedCount(StoreAfter(store, Restore)) == 0
    ensures SameRecords(store, StoreAfter(store, Restore))
  {
    var s := StoreAfter(store, Restore);
    assert forall k :: 0 <= k < |s| ==> s[k] == store[k].(deleted := false);
    assert forall k :: 0 <= k < |s| ==> Active(s[k]);
    FilterAll(s, Active);
    PlotAndExcludedPartition(s);
  }

  // ---------------------------------------------------------------------
  // app.py: `delete_shot` removes the row outright.

  /** `[row for row in rows if row["row_id"] != id]`: only rows of the input,
      none carrying `id`. */
  function Without(rows: seq<Row>, id: int): (r: seq<Row>)
    ensures |r| <= |rows|
  {
    if |rows| == 0 then []
    else
      var last := rows[|rows| - 1];
      Without(rows[..|rows| - 1], id) + (if last.rowId != id then [last] else [])
  }

  /** The clicked row's `row_id` and both lists without it; `None` when the
      callback gives no update (no active cell, another column, or an index
      past the table's end). `page_current` defaults to 0. */
  function DeleteShot(cell: Option<Cell>, page: Option<nat>, pageSize: nat,
                      table: seq<Row>, filtered: seq<Row>): Option<(seq<Row>, seq<Row>)>
  {
    if cell.None? || cell.value.column != "Delete" then None
    else
      var index := page.GetOr(0) * pageSize + cell.value.row;
      if index >= |table| then None
      else
        var id := table[index].rowId;
        Some((Without(table, id), Without(filtered, id)))
  }

  /** A table row and the store row at the same position agree. */
  predicate Aligned(t: Row, s: Row) {
    t.rowId == s.rowId && t.rec == s.rec && t.deleted == s.deleted
    && t.glyph == Glyph(t.deleted) && s.glyph == DeleteGlyph
  }

  lemma {:induction false} WithoutSubset(rows: seq<Row>, id: int)
    ensures forall x :: x in Without(rows, id) ==> x in rows && x.rowId != id
  {
    if |rows| > 0 {
      var n := |rows| - 1;
      WithoutSubset(rows[..n], id);
      forall x | x in Without(rows[..n], id) ensures x in rows {
        assert x in rows[..n];
      }
    }
  }

  lemma {:induction false} WithoutKeepsAlignment(table: seq<Row>, store: seq<Row>, id: int)
    requires |table| == |store| && forall k :: 0 <= k < |table| ==> Aligned(table[k], store[k])
    ensures var t, s := Without(table, id), Without(store, id);
            |t| == |s| && forall k :: 0 <= k < |t| ==> Aligned(t[k], s[k])
  {
    if |table| > 0 {
      var n := |table| - 1;
      WithoutKeepsAlignment(table[..n], store[..n], id);
      var t, s := Without(table[..n], id), Without(store[..n], id);
      assert Aligned(table[n], store[n]);
      var u := if table[n].rowId != id then [table[n]] else [];
      var v := if store[n].rowId != id then [store[n]] else [];
      AlignedAppend(t, s, u, v);
    }
  }

  lemma AlignedAppend(t: seq<Row>, s: seq<Row>, u: seq<Row>, v: seq<Row>)
    requires |t| == |s| && forall k :: 0 <= k < |t| ==> Aligned(t[k], s[k])
    requires |u| == |v| && forall k :: 0 <= k < |u| ==> Aligned(u[k], v[k])
    ensures |t + u| == |s + v| && forall k :: 0 <= k < |t + u| ==> Aligned((t + u)[k], (s + v)[k])
  {
    forall k | 0 <= k < |t + u| ensures Aligned((t + u)[k], (s + v)[k]) {
      if k < |t| {
        assert (t + u)[k] == t[k] && (s + v)[k] == s[k];
      } else {
        assert (t + u)[k] == u[k - |t|] && (s + v)[k] == v[k - |t|];
      }
    }
  }

  lemma {:induction false} WithoutKeepsUniqueIds(rows: seq<Row>, id: int)
    requires UniqueIds(rows)
    ensures UniqueIds(Without(rows, id))
  {
    if |rows| > 0 {
      var n := |rows| - 1;
      WithoutKeepsUniqueIds(rows[..n], id);
      WithoutSubset(rows[..n], id);
      var w := Without(rows[..n], id);
      forall k | 0 <= k < |w| ensures w[k].rowId != rows[n].rowId {
        assert w[k] in rows[..n];
      }
    }
  }

  /** Removing an id that occurs once shortens a list by exactly one row. */
  lemma {:induction false} WithoutUniqueId(rows: seq<Row>, j: nat)
    requires UniqueIds(rows) && j < |rows|
    ensures |Without(rows, rows[j].rowId)| == |rows| - 1
  {
    var n := |rows| - 1;
    var id := rows[j].rowId;
    if j < n {
      assert UniqueIds(rows[..n]);
      assert rows[..n][j] == rows[j];
      WithoutUniqueId(rows[..n], j);
    } else {
      WithoutAbsent(rows[..n], id);
    }
  }

  /** Removing an id that does not occur changes nothing. */
  lemma {:induction false} WithoutAbsent(rows: seq<Row>, id: int)
    requires forall k :: 0 <= k < |rows| ==> rows[k].rowId != id
    ensures Without(rows, id) == rows
  {
    if |rows| > 0 {
      var n := |rows| - 1;
      WithoutAbsent(rows[..n], id);
      assert rows == rows[..n] + [rows[n]];
    }
  }

  /** Every row of the input without `id` survives. */
  lemma {:induction false} WithoutKeepsOthers(rows: seq<Row>, id: int, x: Row)
    requires x in rows && x.rowId != id
    ensures x in Without(rows, id)
  {
    var n := |rows| - 1;
    if x != rows[n] {
      WithoutKeepsOthers(rows[..n], id, x);
    }
  }

  /** `delete_shot` removes exactly the clicked row: both lists get one row
      shorter, the clicked id is gone, every other table row is kept, and the
      two lists stay consistent. */
  lemma DeleteShotRemovesClickedRow(cell: Option<Cell>, page: Option<nat>, pageSize: nat,
                                    table: seq<Row>, filtered: seq<Row>)
    requires Consistent(table, filtered)
    requires DeleteShot(cell, page, pageSize, table, filtered).Some?
    ensures var index := page.GetOr(0) * pageSize + cell.value.row;
            var (t, f) := DeleteShot(cell, page, pageSize, table, filtered).value;
            index < |table|
            && |t| == |table| - 1 && |f| == |filtered| - 1
            && (forall r :: r in t ==> r.rowId != table[index].rowId)
            && (forall r :: r in table && r.rowId != table[index].rowId ==> r in t)
            && Consistent(t, f)
  {
    var index := page.GetOr(0) * pageSize + cell.value.row;
    assert DeleteShot(cell, page, pageSize, table, filtered).value
        == (Without(table, table[index].rowId), Without(filtered, table[index].rowId));
    DeleteRowAt(table, filtered, index);
  }

  /** Removing the id of row `index` from two consistent lists. */
  lemma DeleteRowAt(table: seq<Row>, filtered: seq<Row>, index: nat)
    requires Consistent(table, filtered) && index < |table|
    ensures var id := table[index].rowId;
            var t, f := Without(table, id), Without(filtered, id);
            |t| == |table| - 1 && |f| == |filtered| - 1
            && (forall r :: r in t ==> r.rowId != id)
            && (forall r :: r in table && r.rowId != id ==> r in t)
            && Consistent(t, f)
  {
    var id := table[index].rowId;
    assert UniqueIds(table) by {
      forall k, l | 0 <= k < l < |table| ensures table[k].rowId != table[l].rowId {
        assert table[k].rowId == filtered[k].rowId && table[l].rowId == filtered[l].rowId;
      }
    }
    WithoutUniqueId(table, index);
    assert filtered[index].rowId == id;
    WithoutUniqueId(filtered, index);
    forall r | r in table && r.rowId != id ensures r in Without(table, id) {
      WithoutKeepsOthers(table, id, r);
    }
    WithoutSubset(table, id);
    WithoutKeepsAlignment(table, filtered, id);
    WithoutKeepsUniqueIds(filtered, id);
  }

  /** An index past the table's end changes nothing. */
  lemma DeleteShotOutOfRange(cell: Cell, page: Option<nat>, pageSize: nat, table: seq<Row>, filtered: seq<Row>)
    requires page.GetOr(0) * pageSize + cell.row >= |table|
    ensures DeleteShot(Some(cell), page, pageSize, table, filtered).None?
  {
  }
}

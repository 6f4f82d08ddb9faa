/**
 * The column shaping of `export_tasks`: the matching tasks become one row
 * each, under exactly twelve columns in a fixed order. Writing the workbook
 * and streaming it are outside the model.
 */
module Export {
  import opened Wrappers
  import opened Bson
  import opened Http
  import opened Query
  import opened Tasks

  const Columns: seq<string> := ["date", "owner_name", "user_id", "status",
                                 "total_pages_done", "assign_website", "task_updates",
                                 "planner", "task_assign_no", "other_tasks", "additional", "note"]

  /**
   * A cell of the frame: a stored value; NaN where this task lacks a field
   * that some other task has (the frame has that column already); or the
   * empty string the loop fills in for a column no task has.
   */
  datatype Cell = Stored(v: Value) | NaN | Blank

  /** The columns of `pd.DataFrame(tasks)`: every field of any task. */
  function FieldsOf(docs: seq<Doc>): set<string>
  {
    set i, c | 0 <= i < |docs| && c in docs[i].Keys :: c
  }

  predicate HasColumn(docs: seq<Doc>, col: string)
  {
    exists i :: 0 <= i < |docs| && col in docs[i]
  }

  /** The cell of task `i` in column `col` once the missing columns are added. */
  function ExportCell(docs: seq<Doc>, i: nat, col: string): (c: Cell)
    requires i < |docs|
    ensures c.Blank? <==> !HasColumn(docs, col)
    ensures c.NaN? <==> col !in docs[i] && HasColumn(docs, col)
    ensures c.Stored? ==> col in docs[i] && c.v == docs[i][col]
  {
    if col in docs[i] then Stored(docs[i][col]) else if HasColumn(docs, col) then NaN else Blank
  }

  /** The shaped table: one row per task, one cell per column of `Columns`. */
  function Sheet(docs: seq<Doc>): (r: seq<seq<Cell>>)
    ensures |r| == |docs|
    ensures forall i :: 0 <= i < |r| ==> |r[i]| == |Columns|
  {
    seq(|docs|, i requires 0 <= i < |docs| =>
      seq(|Columns|, j requires 0 <= j < |Columns| => ExportCell(docs, i, Columns[j])))
  }

  /**
   * Lines 276-291: build the frame, add each expected column the frame lacks
   * as a column of empty strings, then select the expected columns in order.
   */
  method ShapeRows(docs: seq<Doc>) returns (rows: seq<seq<Cell>>)
    ensures |rows| == |docs|
    ensures forall i :: 0 <= i < |docs| ==> |rows[i]| == |Columns|
    ensures forall i, j :: 0 <= i < |docs| && 0 <= j < |Columns| ==> rows[i][j] == ExportCell(docs, i, Columns[j])
    ensures rows == Sheet(docs)
  {
    var n := |docs|;
    var frame: map<string, seq<Cell>> :=
      map c | c in FieldsOf(docs) :: seq(n, i requires 0 <= i < n => if c in docs[i] then Stored(docs[i][c]) else NaN);
    var j := 0;
    while j < |Columns|
      invariant 0 <= j <= |Columns|
      invariant forall k :: 0 <= k < j ==> Columns[k] in frame
      invariant FieldsOf(docs) <= frame.Keys
      invariant forall c :: c in frame ==> |frame[c]| == n
      invariant forall c, i :: c in frame && 0 <= i < n ==> frame[c][i] == ExportCell(docs, i, c)
    {
      var col := Columns[j];
      if col !in frame {
        frame := frame[col := seq(n, _ => Blank)];
      }
      j := j + 1;
    }
    rows := seq(n, i requires 0 <= i < n =>
      seq(|Columns|, k requires 0 <= k < |Columns| => frame[Columns[k]][i]));
    assert forall i :: 0 <= i < n ==> rows[i] == Sheet(docs)[i];
  }

  /** The workbook: its file name, the header row and the data rows. */
  datatype Workbook = Workbook(filename: string, header: seq<string>, rows: seq<seq<Cell>>)

  const NoTasks := HttpError(NotFound, "No tasks found")

  function ExportName(date: Option<string>, today: string): string
  {
    if date.Some? && date.value != "" then "tasks_" + date.value + ".xlsx" else "tasks_all_" + today + ".xlsx"
  }

  /** `export_tasks`: all tasks, or those of one date, latest first; a 404 when there are none. */
  ghost function ExportTasks(t: Table, date: Option<string>, today: string): (r: Result<Workbook, HttpError>)
    ensures r.Err? ==> r.error == NoTasks
    ensures r.Ok? ==> r.value.filename == ExportName(date, today) && r.value.header == Columns && r.value.rows != []
  {
    var docs := Find(t.Values, AdminFilter(date, None), Unlimited);
    if docs == [] then Err(NoTasks) else Ok(Workbook(ExportName(date, today), Columns, Sheet(docs)))
  }

  /**
   * The export is a 404 exactly when no task matches the filter; otherwise
   * each row is one matching task, every matching task has exactly one row,
   * and each row has the twelve columns in order, a column no task has
   * reading as the empty string.
   */
  lemma ExportLaw(t: Table, date: Option<string>, today: string)
    ensures var f := AdminFilter(date, None);
            ExportTasks(t, date, today) == Err(NoTasks) <==> forall d :: d in t.Values ==> !Matches(d, f)
    ensures var f := AdminFilter(date, None);
            var docs := Find(t.Values, f, Unlimited);
            var r := ExportTasks(t, date, today);
            r.Ok? ==>
              && r.value.header == Columns
              && |r.value.rows| == |docs| == |MatchSet(t.Values, f)|
              && Distinct(docs)
              && (forall d :: d in t.Values && Matches(d, f) ==> d in docs)
              && (forall i :: 0 <= i < |docs| ==> docs[i] in t.Values && Matches(docs[i], f))
              && (forall i :: 0 <= i < |docs| ==> |r.value.rows[i]| == 12)
              && (forall i, j :: 0 <= i < |docs| && 0 <= j < 12 ==> r.value.rows[i][j] == ExportCell(docs, i, Columns[j]))
  {
    var f := AdminFilter(date, None);
    var docs := Find(t.Values, f, Unlimited);
    if d :| d in t.Values && Matches(d, f) {
      assert d in MatchSet(t.Values, f);
    }
  }
}

/** Which statements leave tables that survive being saved and loaded. */
module SavableRuns {
  import opened Sequences
  import opened Numbers
  import opened Ast
  import opened Relational
  import opened StatementLaws
  import opened RunLaws
  import opened Tokens
  import opened TableFormat
  import opened TableRoundTrip

  // ---------------------------------------------------------- row by row

  predicate Full(row: Row) {
    |RowText(row)| == LINE_MAX
  }

  /** Every row is kept and fits its line, and behind a line that just fits there
      are empty rows only. */
  ghost predicate RowsFine(columns: seq<Column>, rows: seq<Row>) {
    && (forall i | 0 <= i < |rows| :: RowFine(columns, rows[i]))
    && (forall i, j | 0 <= i < j < |rows| :: Full(rows[i]) ==> rows[j] == [])
  }

  predicate RowFine(columns: seq<Column>, row: Row) {
    RowKept(columns, row) && |RowText(row)| <= LINE_MAX
  }

  lemma {:induction false} RowsKeptIff(columns: seq<Column>, rows: seq<Row>)
    ensures RowsKept(columns, rows) <==> RowsFine(columns, rows)
    decreases |rows|
  {
    if rows != [] {
      RowsKeptIff(columns, rows[1..]);
      if RowsKept(columns, rows) {
        FineCons(columns, rows);
      }
      if RowsFine(columns, rows) {
        FineTail(columns, rows);
      }
    }
  }

  lemma {:induction false} FineCons(columns: seq<Column>, rows: seq<Row>)
    requires rows != [] && RowFine(columns, rows[0]) && RowsFine(columns, rows[1..])
    requires Full(rows[0]) ==> AllEmpty(rows[1..])
    ensures RowsFine(columns, rows)
  {
    var others := rows[1..];
    forall i | 0 <= i < |rows|
      ensures RowFine(columns, rows[i])
    {
      assert i > 0 ==> rows[i] == others[i - 1];
    }
    forall i, j | 0 <= i < j < |rows| && Full(rows[i])
      ensures rows[j] == []
    {
      assert rows[j] == others[j - 1] && (i > 0 ==> rows[i] == others[i - 1]);
    }
  }

  lemma {:induction false} FineTail(columns: seq<Column>, rows: seq<Row>)
    requires rows != [] && RowsFine(columns, rows)
    ensures RowFine(columns, rows[0]) && RowsFine(columns, rows[1..])
    ensures Full(rows[0]) ==> AllEmpty(rows[1..])
  {
    var others := rows[1..];
    assert forall i | 0 <= i < |others| :: others[i] == rows[i + 1];
  }

  /** A literal that a column of that type gives back. */
  predicate LiteralKept(ty: ColumnType, l: Literal) {
    if l.isInt then ty.IntType? else ty.StringType? && Clean(RowDelim, l.text)
  }

  lemma {:induction false} RowKeptIff(columns: seq<Column>, row: Row)
    requires |row| == |columns|
    ensures RowKept(columns, row) <==> forall j | 0 <= j < |row| :: CellKept(columns[j].ty, row[j])
    decreases |row|
  {
    if row != [] {
      var cols, cells := columns[1..], row[1..];
      RowKeptIff(cols, cells);
      assert forall j | 0 <= j < |cells| :: cells[j] == row[j + 1] && cols[j] == columns[j + 1];
      if RowKept(columns, row) {
        forall j | 0 <= j < |row|
          ensures CellKept(columns[j].ty, row[j])
        {
          assert j > 0 ==> CellKept(cols[j - 1].ty, cells[j - 1]);
        }
      }
    }
  }

  // ------------------------------------------------------------ statements

  /** An INSERT that goes through must bring literals of the columns' types, no
      empty string and none with a bar or a line end, in a line that fits, and
      not behind a line that just fits. */
  predicate RowSavable(t: TableState, values: seq<Literal>) {
    InsertInto(t, values).1.Done? ==>
      && (forall j | 0 <= j < |values| :: LiteralKept(t.columns[j].ty, values[j]))
      && |RowText(RowOf(values))| <= LINE_MAX
      && ColumnsKept(t.columns, false)
      && (forall i | 0 <= i < |t.rows| :: Full(t.rows[i]) ==> values == [])
  }

  /** The literal suits its column and row i still fits its line with it, only the
      last row filling it. */
  predicate SetFine(t: TableState, s: Statement, col: nat, i: nat)
    requires s.Update? && col < |t.columns| && i < |t.rows|
  {
    && LiteralKept(t.columns[col].ty, s.value)
    && var n := |RowText(SetCell(t.rows[i], col, LiteralValue(s.value)))|;
       n < LINE_MAX || (n == LINE_MAX && i == |t.rows| - 1)
  }

  /** An UPDATE must suit every row it picks. */
  predicate CellSavable(t: TableState, s: Statement)
    requires s.Update?
  {
    UpdateIn(t, s.column, s.value, s.cond).1.Done? ==>
      var p := Picks(t.columns, s.cond);
      forall i | 0 <= i < |t.rows| && p(t.rows[i]) :: SetFine(t, s, FindColumn(t.columns, s.column), i)
  }

  predicate KeepsReloadable(t: TableState, s: Statement) {
    match s
    case Insert(_, values) => RowSavable(t, values)
    case Update(_, _, _, _) => CellSavable(t, s)
    case _ => true
  }

  lemma {:induction false} LiteralRow(columns: seq<Column>, values: seq<Literal>)
    requires |values| == |columns|
    ensures RowKept(columns, RowOf(values)) <==> forall j | 0 <= j < |values| :: LiteralKept(columns[j].ty, values[j])
  {
    var row := RowOf(values);
    RowKeptIff(columns, row);
    assert forall j | 0 <= j < |values| :: CellKept(columns[j].ty, row[j]) <==> LiteralKept(columns[j].ty, values[j]);
  }

  lemma {:induction false} FineSnoc(columns: seq<Column>, rows: seq<Row>, row: Row)
    requires RowsFine(columns, rows)
    ensures RowsFine(columns, rows + [row]) <==>
            RowFine(columns, row) && forall i | 0 <= i < |rows| :: Full(rows[i]) ==> row == []
  {
    var more := rows + [row];
    assert more[|rows|] == row && forall i | 0 <= i < |rows| :: more[i] == rows[i];
  }

  lemma {:induction false} InsertSavable(t: TableState, values: seq<Literal>)
    requires RowsFit(t) && Reloadable(t.columns, t.rows)
    ensures Reloadable(t.columns, InsertInto(t, values).0.rows) <==> RowSavable(t, values)
  {
    if InsertInto(t, values).1.Done? {
      var row := RowOf(values);
      RowsKeptIff(t.columns, t.rows);
      RowsKeptIff(t.columns, t.rows + [row]);
      FineSnoc(t.columns, t.rows, row);
      LiteralRow(t.columns, values);
    }
  }

  /** Rows that pass a filter keep their order. */
  lemma {:induction false} FilterInOrder<T>(p: T -> bool, s: seq<T>, i: nat, j: nat)
    requires i < |s| && j < |s| && p(s[i]) && p(s[j])
    requires |Filter(p, s[..i])| < |Filter(p, s[..j])|
    ensures i < j
  {
    if j < i {
      assert s[..i][..j] == s[..j] && s[..i][j] == s[j];
      FilterPosition(p, s[..i], j);
    }
  }

  lemma {:induction false} FilterFine(p: Row -> bool, columns: seq<Column>, rows: seq<Row>)
    requires RowsFine(columns, rows)
    ensures RowsFine(columns, Filter(p, rows))
  {
    var kept := Filter(p, rows);
    forall i | 0 <= i < |kept|
      ensures RowFine(columns, kept[i])
    {
      var o := FilterOrigin(p, rows, i);
    }
    forall i, j | 0 <= i < j < |kept| && Full(kept[i])
      ensures kept[j] == []
    {
      var a := FilterOrigin(p, rows, i);
      var b := FilterOrigin(p, rows, j);
      FilterInOrder(p, rows, a, b);
    }
  }

  lemma {:induction false} DeleteSavable(t: TableState, cond: Condition)
    requires Reloadable(t.columns, t.rows)
    ensures Reloadable(t.columns, DeleteFrom(t, cond).0.rows)
  {
    if KnownCondition(t.columns, cond) {
      var kept := DeleteFrom(t, cond).0.rows;
      RowsKeptIff(t.columns, t.rows);
      RowsKeptIff(t.columns, kept);
      FilterFine(Not(Picks(t.columns, cond)), t.columns, t.rows);
      if t.rows != [] {
        ColumnsKeptAnyway(t.columns);
      }
    }
  }

  /** A row with one cell set. */
  lemma {:induction false} CellRow(columns: seq<Column>, row: Row, col: nat, l: Literal)
    requires |row| == |columns| && col < |row| && RowKept(columns, row)
    ensures RowKept(columns, SetCell(row, col, LiteralValue(l))) <==> LiteralKept(columns[col].ty, l)
  {
    var row' := SetCell(row, col, LiteralValue(l));
    RowKeptIff(columns, row);
    RowKeptIff(columns, row');
    assert CellKept(columns[col].ty, row'[col]) <==> LiteralKept(columns[col].ty, l);
    assert forall j | 0 <= j < |row| && j != col :: row'[j] == row[j];
  }

  /** The row is fine at its place, when no row is empty: only the last line may
      just fit. */
  predicate FineAt(columns: seq<Column>, rows: seq<Row>, i: nat)
    requires i < |rows|
  {
    RowFine(columns, rows[i]) && (Full(rows[i]) ==> i == |rows| - 1)
  }

  lemma {:induction false} FineThere(columns: seq<Column>, rows: seq<Row>, i: nat)
    requires RowsFine(columns, rows) && i < |rows| && forall k | 0 <= k < |rows| :: rows[k] != []
    ensures FineAt(columns, rows, i)
  {
    if i < |rows| - 1 {
      assert rows[i + 1] != [];
    }
  }

  lemma {:induction false} FineEverywhere(columns: seq<Column>, rows: seq<Row>)
    requires forall i | 0 <= i < |rows| :: FineAt(columns, rows, i)
    ensures RowsFine(columns, rows)
  {
    forall i | 0 <= i < |rows|
      ensures RowFine(columns, rows[i])
    {
      assert FineAt(columns, rows, i);
    }
    forall i, j | 0 <= i < j < |rows|
      ensures Full(rows[i]) ==> rows[j] == []
    {
      assert FineAt(columns, rows, i);
    }
  }

  lemma {:induction false} KeptWhenWide(columns: seq<Column>, rows: seq<Row>)
    requires forall i | 0 <= i < |rows| :: rows[i] != []
    ensures RowsKept(columns, rows) <==> forall i | 0 <= i < |rows| :: FineAt(columns, rows, i)
  {
    RowsKeptIff(columns, rows);
    if RowsFine(columns, rows) {
      forall i | 0 <= i < |rows|
        ensures FineAt(columns, rows, i)
      {
        FineThere(columns, rows, i);
      }
    }
    if forall i | 0 <= i < |rows| :: FineAt(columns, rows, i) {
      FineEverywhere(columns, rows);
    }
  }

  lemma {:induction false} UpdateSavable(t: TableState, s: Statement)
    requires s.Update? && RowsFit(t) && Reloadable(t.columns, t.rows)
    ensures Reloadable(t.columns, UpdateIn(t, s.column, s.value, s.cond).0.rows) <==> CellSavable(t, s)
  {
    if UpdateIn(t, s.column, s.value, s.cond).1.Done? {
      var col, p := FindColumn(t.columns, s.column), Picks(t.columns, s.cond);
      var rows' := SetCells(p, t.rows, col, LiteralValue(s.value));
      KeptWhenWide(t.columns, t.rows);
      KeptWhenWide(t.columns, rows');
      RowByRow(t, s, rows');
    }
  }

  lemma {:induction false} RowByRow(t: TableState, s: Statement, rows': seq<Row>)
    requires s.Update? && UpdateIn(t, s.column, s.value, s.cond).1.Done? && RowsFit(t)
    requires rows' == SetCells(Picks(t.columns, s.cond), t.rows, FindColumn(t.columns, s.column), LiteralValue(s.value))
    requires forall i | 0 <= i < |t.rows| :: FineAt(t.columns, t.rows, i)
    ensures (forall i | 0 <= i < |rows'| :: FineAt(t.columns, rows', i)) <==> CellSavable(t, s)
  {
    var col, p := FindColumn(t.columns, s.column), Picks(t.columns, s.cond);
    forall i | 0 <= i < |t.rows|
      ensures FineAt(t.columns, rows', i) <==> p(t.rows[i]) ==> SetFine(t, s, col, i)
    {
      assert FineAt(t.columns, t.rows, i);
      if p(t.rows[i]) {
        CellRow(t.columns, t.rows[i], col, s.value);
      }
    }
  }

  /** A statement keeps a table reloadable if and only if its literals and the
      lengths of the lines they make meet the condition. */
  lemma {:induction false} ReloadableIff(t: TableState, s: Statement)
    requires OnTable(s) && RowsFit(t) && Reloadable(t.columns, t.rows)
    ensures Reloadable(t.columns, TableStep(t, s).0.rows) <==> KeepsReloadable(t, s)
  {
    match s
    case Select(_, _, _) =>
    case Delete(_, cond) => DeleteSavable(t, cond);
    case Insert(_, values) => InsertSavable(t, values);
    case Update(_, _, _, _) => UpdateSavable(t, s);
  }

  // ------------------------------------------------------------------ runs

  /** A table that survives being saved if its schema does. */
  predicate Savable(t: TableState) {
    ColumnsKept(t.columns, true) ==> Reloadable(t.columns, t.rows)
  }

  predicate KeepsSavable(t: TableState, s: Statement) {
    ColumnsKept(t.columns, true) ==> KeepsReloadable(t, s)
  }

  /** All tables are savable all along a run if and only if every statement keeps
      its table reloadable. */
  lemma {:induction false} SavableOverRuns(db: DbState, script: seq<TableStatement>)
    requires AllTables(Savable, db)
    ensures Throughout(Savable, db, script) <==> EveryStep(KeepsSavable, db, script)
  {
    forall t: TableState, s: Statement | OnTable(s) && RowsFit(t) && Savable(t)
      ensures Savable(TableStep(t, s).0) <==> KeepsSavable(t, s)
    {
      TableStepFits(t, s);
      if ColumnsKept(t.columns, true) {
        ReloadableIff(t, s);
      }
    }
    RunLaw(Savable, KeepsSavable, db, script);
  }

  /** After such a run from the empty database every table whose schema survives
      comes back from its file. */
  lemma {:induction false} SavedAfterRun(script: seq<TableStatement>, i: nat,
                                         oldColumns: seq<Column>, oldRows: seq<Row>)
    requires EveryStep(KeepsSavable, [], script)
    requires var db := Run([], script).0;
             && i < |db| && ColumnsKept(db[i].columns, true)
             && |db[i].columns| <= INT_MAX && |db[i].rows| <= INT_MAX
    ensures var t := Run([], script).0[i];
            Load(FileText(t.columns, t.rows), oldColumns, oldRows) == Loaded(true, t.columns, t.rows)
  {
    SavableOverRuns([], script);
    GoodAtTheEnd(Savable, [], script);
    var t := Run([], script).0[i];
    SaveLoadRoundTrip(t.columns, t.rows, oldColumns, oldRows);
  }

  /** Column names of SQL text are words, and words survive when they are not longer
      than a line has room for. */
  lemma {:induction false} WordsAreKept(columns: seq<Column>, noRows: bool)
    requires forall i | 0 <= i < |columns| ::
               && columns[i].name != "" && All(IsWordChar, columns[i].name)
               && |columns[i].name| + 4 < LINE_MAX
    ensures ColumnsKept(columns, noRows)
    decreases |columns|
  {
    if columns != [] {
      WordIsClean(columns[0].name);
      ColumnCleanIsOneLine(columns[0]);
      WordsAreKept(columns[1..], noRows);
    }
  }

  lemma {:induction false} WordIsClean(s: string)
    requires s != "" && All(IsWordChar, s)
    ensures Clean(ColumnDelim, s)
  {
    forall i | 0 <= i < |s|
      ensures Not(ColumnDelim)(s[i])
    {
      assert IsWordChar(s[i]) && !ColumnDelim(s[i]);
    }
  }
}

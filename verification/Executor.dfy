/** Statement execution on the tables and indexes of the selected database. */
module Execution {
  import opened Sequences
  import opened Values
  import opened Ast
  import opened Relational
  import opened Tables
  import opened PrimaryIndex
  import opened Databases

  class Executor {
    const db: Database

    ghost predicate Valid()
      reads db, db.tables, db.indexes
    {
      && db.Valid()
      && forall t | t in db.tables :: t.RowsFit()
    }

    ghost function State(): DbState
      requires db.Valid()
      reads db, db.tables, db.indexes
    {
      db.State()
    }

    /** USE on a fresh database. */
    constructor ()
      ensures Valid() && State() == []
      ensures fresh(db) && db.tables == [] && db.indexes == []
    {
      db := new Database();
    }

    /** Runs one statement. The new state and the reply are those of Step. */
    method Execute(stmt: TableStatement) returns (reply: Reply)
      requires Valid()
      modifies db, db.tables, db.indexes
      ensures Valid() && (State(), reply) == Step(old(State()), stmt)
      ensures forall t | t in db.tables :: t in old(db.tables) || fresh(t)
      ensures forall x | x in db.indexes :: x in old(db.indexes) || fresh(x)
    {
      match stmt
      case CreateTable(table, columns) => reply := ExecCreateTable(table, columns);
      case DropTable(table) => reply := ExecDropTable(table);
      case Select(table, column, cond) => reply := ExecSelect(table, column, cond);
      case Delete(table, cond) => reply := ExecDelete(table, cond);
      case Insert(table, values) => reply := ExecInsert(table, values);
      case Update(table, column, value, cond) => reply := ExecUpdate(table, column, value, cond);
      case Invalid => reply := Failed(NotAStatement);
    }

    method ExecCreateTable(table: string, defs: seq<ColumnDef>) returns (reply: Reply)
      requires Valid()
      modifies db
      ensures Valid() && (State(), reply) == Create(old(State()), table, defs)
      ensures forall t | t in db.tables :: t in old(db.tables) || fresh(t)
      ensures forall x | x in db.indexes :: x in old(db.indexes) || fresh(x)
    {
      var columns: seq<Column> := [];
      var i := 0;
      while i < |defs|
        invariant 0 <= i <= |defs|
        invariant columns == ColumnsOf(defs)[..i]
      {
        assert ColumnsOf(defs)[..i + 1] == ColumnsOf(defs)[..i] + [ColumnsOf(defs)[i]];
        columns := columns + [Column(defs[i].name, TypeFromText(defs[i].ty), defs[i].primary)];
        i := i + 1;
      }
      assert columns == ColumnsOf(defs);
      var ok := db.CreateTable(table, columns);
      reply := if ok then Done(0) else Failed(TableExists);
    }

    method ExecDropTable(table: string) returns (reply: Reply)
      requires Valid()
      modifies db
      ensures Valid() && (State(), reply) == Drop(old(State()), table)
      ensures forall t | t in db.tables :: t in old(db.tables)
      ensures forall x | x in db.indexes :: x in old(db.indexes)
    {
      var ok := db.DropTable(table);
      reply := if ok then Done(0) else Failed(NoSuchTable);
    }

    method ExecSelect(name: string, column: string, cond: Condition) returns (reply: Reply)
      requires Valid()
      ensures (State(), reply) == StepOn(State(), Select(name, column, cond))
    {
      var table := db.GetTable(name);
      if table == null {
        return Failed(NoSuchTable);
      }
      ghost var was, at := State(), Locate(State(), name);
      reply := SelectFrom(table, column, cond);
      assert was[at := was[at]] == was;
    }

    method SelectFrom(table: Table, column: string, cond: Condition) returns (reply: Reply)
      requires table.RowsFit()
      ensures reply == SelectReply(table.columns, table.rows, column, cond)
    {
      var selectAll := column == "*";
      var targetCol := -1;
      if !selectAll {
        targetCol := table.ColumnNumber(column);
      }
      if !selectAll && targetCol < 0 {
        return Failed(NoSuchColumn(column));
      }
      var whereCol := -1;
      if cond.Compare? {
        whereCol := table.ColumnNumber(cond.column);
        if whereCol < 0 {
          return Failed(NoSuchColumn(cond.column));
        }
      }
      var result := new Table("__result__");
      if selectAll {
        var i := 0;
        while i < |table.columns|
          invariant 0 <= i <= |table.columns|
          invariant result.columns == table.columns[..i] && result.rows == []
          modifies result
        {
          result.AddColumn(table.columns[i]);
          i := i + 1;
        }
        assert table.columns[..i] == table.columns;
      } else {
        result.AddColumn(table.columns[targetCol]);
      }
      CopyMatching(table, result, targetCol, whereCol, cond);
      reply := ResultSet(result.columns, result.rows);
    }

    /** The row loop of SELECT: appends the picked rows, or one cell of each, to
        `result`. A negative column number stands for all columns. */
    method CopyMatching(table: Table, result: Table, targetCol: int, whereCol: int, cond: Condition)
      requires table != result && result.rows == []
      requires forall k | 0 <= k < |table.rows| :: targetCol < |table.rows[k]|
      modifies result
      ensures result.columns == old(result.columns)
      ensures result.rows == Shown(Filter(Selects(whereCol, cond), table.rows), targetCol)
    {
      var i := 0;
      while i < |table.rows|
        invariant 0 <= i <= |table.rows|
        invariant result.columns == old(result.columns)
        invariant result.rows == Shown(Filter(Selects(whereCol, cond), table.rows[..i]), targetCol)
      {
        CopyStep(Selects(whereCol, cond), table.rows, i, targetCol);
        if cond.Always? || Selects(whereCol, cond)(table.rows[i]) {
          var newRow := CopyRow(table.rows[i], targetCol);
          result.InsertRow(newRow);
        }
        i := i + 1;
      }
      assert table.rows[..i] == table.rows;
    }

    /** The cells of a row that SELECT shows. */
    static method CopyRow(row: Row, targetCol: int) returns (newRow: Row)
      requires targetCol < |row|
      ensures newRow == if targetCol < 0 then row else [row[targetCol]]
    {
      newRow := [];
      if targetCol < 0 {
        var j := 0;
        while j < |row|
          invariant 0 <= j <= |row| && newRow == row[..j]
        {
          newRow := newRow + [row[j]];
          j := j + 1;
        }
        assert row[..j] == row;
      } else {
        newRow := [row[targetCol]];
      }
    }

    method ExecDelete(name: string, cond: Condition) returns (reply: Reply)
      requires Valid()
      modifies db.tables, db.indexes
      ensures Valid() && (State(), reply) == StepOn(old(State()), Delete(name, cond))
    {
      var table := db.GetTable(name);
      if table == null {
        return Failed(NoSuchTable);
      }
      ghost var at := Locate(State(), name);
      var index := db.GetIndex(name);
      reply := DeleteSlot(at, table, index, cond);
    }

    /** A DELETE on the table in slot `at`. */
    method DeleteSlot(ghost at: nat, table: Table, index: Index, cond: Condition) returns (reply: Reply)
      requires Valid() && at < |db.names| && table == db.tables[at] && index == db.indexes[at]
      modifies table, index
      ensures Valid()
      ensures var (next, answer) := DeleteFrom(old(State())[at], cond);
              State() == old(State())[at := next] && reply == answer
    {
      ghost var was := State();
      assert index in db.indexes;
      ghost var next := DeleteFrom(was[at], cond).0;
      reply := DeleteRows(db.names[at], table, index, cond);
      Replaced(was, at, next);
    }

    method DeleteRows(ghost name: string, table: Table, index: Index, cond: Condition) returns (reply: Reply)
      requires index.Valid() && table.RowsFit()
      modifies table, index
      ensures index.Valid() && table.RowsFit()
      ensures (View(name, table, index), reply) == DeleteFrom(old(View(name, table, index)), cond)
    {
      var whereCol := -1;
      var key := table.PrimaryKeyIndex();
      if cond.Compare? {
        whereCol := table.ColumnNumber(cond.column);
        if whereCol < 0 {
          return Failed(NoSuchColumn(cond.column));
        }
      }
      FilterMembers(Not(Selects(whereCol, cond)), table.rows);
      var deleted := DeleteMatching(table, index, whereCol, cond, key);
      reply := Done(deleted);
    }

    /** The backward loop of DELETE. */
    method DeleteMatching(table: Table, index: Index, whereCol: int, cond: Condition, key: int)
      returns (deleted: nat)
      requires index.Valid()
      requires forall k | 0 <= k < |table.rows| :: key < |table.rows[k]|
      modifies table, index
      ensures index.Valid() && table.columns == old(table.columns)
      ensures table.rows == Filter(Not(Selects(whereCol, cond)), old(table.rows))
      ensures index.Contents() == Unfile(old(index.Contents()), Selects(whereCol, cond), old(table.rows), key)
      ensures deleted == |Filter(Selects(whereCol, cond), old(table.rows))|
    {
      ghost var p := Selects(whereCol, cond);
      ghost var was, map0 := table.rows, index.Contents();
      ghost var kept := [];
      deleted := 0;
      var i := |table.rows| - 1;
      ghost var above := |was|;
      while i >= 0
        invariant above == i + 1 && 0 <= above <= |was|
        invariant index.Valid() && table.columns == old(table.columns)
        invariant kept == Filter(Not(p), was[above..]) && table.rows == was[..above] + kept
        invariant index.Contents() == Unfile(map0, p, was[above..], key)
        invariant deleted == |Filter(p, was[above..])|
      {
        DeleteStep(p, was, i, above, key, map0);
        Seam(was, i, above, kept);
        if cond.Compare? && !Selects(whereCol, cond)(table.rows[i]) {
          kept := [was[i]] + kept;
        } else {
          DeleteRow(table, index, i, key);
          deleted := deleted + 1;
        }
        above, i := i, i - 1;
      }
      assert was[0..] == was;
    }

    /** One deletion: the key leaves the index, the row leaves the table. */
    method DeleteRow(table: Table, index: Index, i: nat, key: int)
      requires index.Valid() && i < |table.rows| && key < |table.rows[i]|
      modifies table, index
      ensures index.Valid() && table.columns == old(table.columns)
      ensures table.rows == Remove(old(table.rows), i)
      ensures index.Contents() == old(index.Contents()) - CellKey(old(table.rows)[i], key)
    {
      if key >= 0 {
        var keyVal := table.rows[i][key];
        if keyVal.Int? {
          var _ := index.Remove(keyVal.n);
        }
      }
      table.RemoveRow(i);
    }

    method ExecInsert(name: string, values: seq<Literal>) returns (reply: Reply)
      requires Valid()
      modifies db.tables, db.indexes
      ensures Valid() && (State(), reply) == StepOn(old(State()), Insert(name, values))
    {
      var table := db.GetTable(name);
      if table == null {
        return Failed(NoSuchTable);
      }
      ghost var at := Locate(State(), name);
      var index := db.GetIndex(name);
      reply := InsertSlot(at, table, index, values);
    }

    /** An INSERT into the table in slot `at`. */
    method InsertSlot(ghost at: nat, table: Table, index: Index, values: seq<Literal>) returns (reply: Reply)
      requires Valid() && at < |db.names| && table == db.tables[at] && index == db.indexes[at]
      modifies table, index
      ensures Valid()
      ensures var (next, answer) := InsertInto(old(State())[at], values);
              State() == old(State())[at := next] && reply == answer
    {
      ghost var was := State();
      assert index in db.indexes;
      ghost var next := InsertInto(was[at], values).0;
      reply := InsertValues(db.names[at], table, index, values);
      Replaced(was, at, next);
    }

    method InsertValues(ghost name: string, table: Table, index: Index, values: seq<Literal>) returns (reply: Reply)
      requires index.Valid() && table.RowsFit()
      modifies table, index
      ensures index.Valid() && table.RowsFit()
      ensures (View(name, table, index), reply) == InsertInto(old(View(name, table, index)), values)
    {
      if |values| != |table.columns| {
        return Failed(WidthMismatch(|table.columns|, |values|));
      }
      var row: Row := [];
      var key := table.PrimaryKeyIndex();
      var keyVal := 0;
      var i := 0;
      while i < |values|
        invariant 0 <= i <= |values|
        invariant row == RowOf(values)[..i]
      {
        row := row + [LiteralValue(values[i])];
        i := i + 1;
      }
      assert row == RowOf(values);
      if key >= 0 {
        if row[key].Int? {
          keyVal := row[key].n;
          var found, _ := index.Find(keyVal);
          if found {
            return Failed(DuplicateKey(keyVal));
          }
        }
      }
      var rowIdx := |table.rows|;
      table.InsertRow(row);
      if key >= 0 {
        index.Insert(keyVal, rowIdx);
      }
      reply := Done(1);
    }

    method ExecUpdate(name: string, column: string, value: Literal, cond: Condition) returns (reply: Reply)
      requires Valid()
      modifies db.tables, db.indexes
      ensures Valid() && (State(), reply) == StepOn(old(State()), Update(name, column, value, cond))
    {
      var table := db.GetTable(name);
      if table == null {
        return Failed(NoSuchTable);
      }
      ghost var at := Locate(State(), name);
      var index := db.GetIndex(name);
      reply := UpdateSlot(at, table, index, column, value, cond);
    }

    /** An UPDATE of the table in slot `at`. */
    method UpdateSlot(ghost at: nat, table: Table, index: Index, column: string, value: Literal, cond: Condition)
      returns (reply: Reply)
      requires Valid() && at < |db.names| && table == db.tables[at] && index == db.indexes[at]
      modifies table, index
      ensures Valid()
      ensures var (next, answer) := UpdateIn(old(State())[at], column, value, cond);
              State() == old(State())[at := next] && reply == answer
    {
      ghost var was := State();
      assert index in db.indexes;
      ghost var next := UpdateIn(was[at], column, value, cond).0;
      reply := UpdateRows(db.names[at], table, index, column, value, cond);
      Replaced(was, at, next);
    }

    method UpdateRows(ghost name: string, table: Table, index: Index, column: string, value: Literal, cond: Condition)
      returns (reply: Reply)
      requires index.Valid() && table.RowsFit()
      modifies table, index
      ensures index.Valid() && table.RowsFit()
      ensures (View(name, table, index), reply) == UpdateIn(old(View(name, table, index)), column, value, cond)
    {
      var setCol := table.ColumnNumber(column);
      if setCol < 0 {
        return Failed(NoSuchColumn(column));
      }
      var whereCol := -1;
      if cond.Compare? {
        whereCol := table.ColumnNumber(cond.column);
        if whereCol < 0 {
          return Failed(NoSuchColumn(cond.column));
        }
      }
      var newVal := LiteralValue(value);
      var key := table.PrimaryKeyIndex();
      var updated := UpdateMatching(table, index, setCol, newVal, whereCol, cond, key);
      reply := Done(updated);
    }

    /** The loop of UPDATE. */
    method UpdateMatching(table: Table, index: Index, setCol: nat, newVal: Value,
                          whereCol: int, cond: Condition, key: int) returns (updated: nat)
      requires index.Valid()
      requires forall k | 0 <= k < |table.rows| :: setCol < |table.rows[k]|
      modifies table, index
      ensures index.Valid() && table.columns == old(table.columns)
      ensures table.rows == SetCells(Selects(whereCol, cond), old(table.rows), setCol, newVal)
      ensures index.Contents() ==
              UpdatedIndex(old(index.Contents()), Selects(whereCol, cond), old(table.rows), setCol, key, newVal)
      ensures updated == |Filter(Selects(whereCol, cond), old(table.rows))|
    {
      ghost var p := Selects(whereCol, cond);
      ghost var was, map0 := table.rows, index.Contents();
      updated := 0;
      var i := 0;
      UpdateStarts(p, was, setCol, key, newVal, map0);
      while i < |table.rows|
        invariant 0 <= i <= |table.rows| == |was|
        invariant index.Valid() && table.columns == old(table.columns)
        invariant UpdatedSoFar(p, was, i, setCol, key, newVal, map0, table.rows, index.Contents(), updated)
      {
        UpdateStep(p, was, i, setCol, key, newVal, map0, table.rows, index.Contents(), updated);
        assert cond.Always? ==> p(was[i]);
        if cond.Always? || Selects(whereCol, cond)(table.rows[i]) {
          UpdateRow(table, index, i, setCol, newVal, key);
          updated := updated + 1;
        }
        i := i + 1;
      }
      UpdateEnds(p, was, setCol, key, newVal, map0, table.rows, index.Contents(), updated);
    }

    /** When the views of all other slots are as before, the state is known. */
    lemma {:induction false} Replaced(was: DbState, at: nat, view: TableState)
      requires db.Valid() && at < |was| == |db.names|
      requires View(db.names[at], db.tables[at], db.indexes[at]) == view
      requires forall k | 0 <= k < |was| && k != at :: View(db.names[k], db.tables[k], db.indexes[k]) == was[k]
      ensures State() == was[at := view]
    {
    }

    /** One update: the cell, then the index when the cell is the key. */
    method UpdateRow(table: Table, index: Index, i: nat, setCol: nat, newVal: Value, key: int)
      requires index.Valid() && i < |table.rows| && setCol < |table.rows[i]|
      modifies table, index
      ensures index.Valid() && table.columns == old(table.columns)
      ensures table.rows == old(table.rows)[i := SetCell(old(table.rows)[i], setCol, newVal)]
      ensures index.Contents() ==
              if setCol == key && newVal.Int? then old(index.Contents())[newVal.n := i] else old(index.Contents())
    {
      table.SetValue(i, setCol, newVal);
      if setCol == key && newVal.Int? {
        index.Insert(newVal.n, i);
      }
    }
  }

  /** What SELECT shows of the rows it picks. */
  function Shown(picked: seq<Row>, targetCol: int): seq<Row> {
    if targetCol < 0 then picked else Project(picked, targetCol)
  }

  lemma {:induction false} CopyStep(p: Row -> bool, rows: seq<Row>, i: nat, targetCol: int)
    requires i < |rows| && targetCol < |rows[i]|
    ensures Shown(Filter(p, rows[..i + 1]), targetCol) ==
            Shown(Filter(p, rows[..i]), targetCol) +
            (if p(rows[i]) then [if targetCol < 0 then rows[i] else [rows[i][targetCol]]] else [])
  {
    var front := rows[..i];
    assert rows[..i + 1][..i] == front;
    if p(rows[i]) {
      assert Filter(p, rows[..i + 1]) == Filter(p, front) + [rows[i]];
    }
  }

  /** Taking element i of `s` into account when filtering what follows it. */
  lemma {:induction false} FilterFirst<T>(p: T -> bool, s: seq<T>, i: nat)
    requires i < |s|
    ensures Filter(p, s[i..]) == (if p(s[i]) then [s[i]] else []) + Filter(p, s[i + 1..])
  {
    assert s[i..] == [s[i]] + s[i + 1..];
    FilterSplit(p, [s[i]], s[i + 1..]);
  }

  /** The three ways the backward loop looks at the rows around position i. */
  lemma {:induction false} Seam<T>(s: seq<T>, i: nat, above: nat, tail: seq<T>)
    requires i + 1 == above <= |s|
    ensures (s[..above] + tail)[i] == s[i]
    ensures s[..above] + tail == s[..i] + ([s[i]] + tail)
    ensures Remove(s[..above] + tail, i) == s[..i] + tail
  {
  }

  /** The loop of UPDATE has done the rows before position i. */
  ghost predicate UpdatedSoFar(p: Row -> bool, was: seq<Row>, i: nat, col: nat, key: int, v: Value, m: map<int, int>,
                               rows: seq<Row>, index: map<int, int>, updated: int) {
    && i <= |was|
    && rows == SetCells(p, was[..i], col, v) + was[i..]
    && index == UpdatedIndex(m, p, was[..i], col, key, v)
    && updated == |Filter(p, was[..i])|
  }

  lemma {:induction false} UpdateStarts(p: Row -> bool, was: seq<Row>, col: nat, key: int, v: Value, m: map<int, int>)
    ensures UpdatedSoFar(p, was, 0, col, key, v, m, was, m, 0)
  {
  }

  lemma {:induction false} UpdateEnds(p: Row -> bool, was: seq<Row>, col: nat, key: int, v: Value, m: map<int, int>,
                                      rows: seq<Row>, index: map<int, int>, updated: int)
    requires UpdatedSoFar(p, was, |was|, col, key, v, m, rows, index, updated)
    ensures rows == SetCells(p, was, col, v) && index == UpdatedIndex(m, p, was, col, key, v)
    ensures updated == |Filter(p, was)|
  {
    assert was[..|was|] == was;
  }

  /** What row i adds to the result of an UPDATE of the rows before it. */
  lemma {:induction false} UpdateStep(p: Row -> bool, was: seq<Row>, i: nat, col: nat, key: int, v: Value,
                                      m: map<int, int>,
                                      rows: seq<Row>, index: map<int, int>, updated: int)
    requires i < |was| && UpdatedSoFar(p, was, i, col, key, v, m, rows, index, updated)
    ensures |rows| == |was| && rows[i] == was[i]
    ensures if p(was[i]) then
              UpdatedSoFar(p, was, i + 1, col, key, v, m, rows[i := SetCell(was[i], col, v)],
                           if col == key && v.Int? then index[v.n := i] else index, updated + 1)
            else
              UpdatedSoFar(p, was, i + 1, col, key, v, m, rows, index, updated)
  {
    var front, row := was[..i], was[i];
    assert was[..i + 1][..i] == front;
    var cell := if p(row) then SetCell(row, col, v) else row;
    assert SetCells(p, was[..i + 1], col, v) == SetCells(p, front, col, v) + [cell];
    assert rows[i := cell] == SetCells(p, front, col, v) + [cell] + was[i + 1..];
    assert rows[i := row] == rows;
  }

  /** What taking row i into account adds to the kept rows, the deleted ones
      and the deleted keys. */
  lemma {:induction false} DeleteStep(p: Row -> bool, rows: seq<Row>, i: nat, above: nat, key: int, m: map<int, int>)
    requires i + 1 == above <= |rows|
    ensures Filter(Not(p), rows[i..]) == (if p(rows[i]) then [] else [rows[i]]) + Filter(Not(p), rows[above..])
    ensures |Filter(p, rows[i..])| == (if p(rows[i]) then 1 else 0) + |Filter(p, rows[above..])|
    ensures Unfile(m, p, rows[i..], key) ==
            Unfile(m, p, rows[above..], key) - (if p(rows[i]) then CellKey(rows[i], key) else {})
  {
    FilterFirst(p, rows, i);
    FilterFirst(Not(p), rows, i);
    var all, rest := rows[i..], rows[above..];
    assert forall k | 0 <= k < |rest| :: rest[k] == all[k + 1];
    assert all[0] == rows[i];
    assert KeysOf(p, all, key) == (if p(rows[i]) then CellKey(rows[i], key) else {}) + KeysOf(p, rest, key);
  }
}

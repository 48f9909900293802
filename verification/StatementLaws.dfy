/** Laws of single statements: what they conserve, repeat and leave alone. */
module StatementLaws {
  import opened Sequences
  import opened Numbers
  import opened Values
  import opened Ast
  import opened Relational

  lemma {:induction false} FilterCounts<T>(p: T -> bool, s: seq<T>)
    ensures |Filter(p, s)| + |Filter(Not(p), s)| == |s|
  {
    if s != [] {
      FilterCounts(p, s[..|s| - 1]);
    }
  }

  /** Rows a SELECT * shows and rows the same DELETE leaves make up the table;
      the DELETE counts what the SELECT showed, and nothing is left to select. */
  lemma {:induction false} SelectAndDeleteConserveRows(t: TableState, cond: Condition)
    requires KnownCondition(t.columns, cond)
    ensures var shown := SelectReply(t.columns, t.rows, "*", cond);
            var (after, reply) := DeleteFrom(t, cond);
            && shown.ResultSet? && shown.columns == t.columns
            && multiset(shown.rows) + multiset(after.rows) == multiset(t.rows)
            && reply == Done(|shown.rows|)
            && SelectReply(after.columns, after.rows, "*", cond) == ResultSet(t.columns, [])
  {
    var p := Picks(t.columns, cond);
    FilterPartition(p, t.rows);
    FilterMembers(Not(p), t.rows);
    FilterExtremes(p, Filter(Not(p), t.rows));
  }

  /** `p`, `q` and `r` each hold where the other two do not. */
  ghost predicate OneOfThree<T>(p: T -> bool, q: T -> bool, r: T -> bool, x: T) {
    (p(x) && !q(x) && !r(x)) || (!p(x) && q(x) && !r(x)) || (!p(x) && !q(x) && r(x))
  }

  lemma {:induction false} FilterInThree<T>(p: T -> bool, q: T -> bool, r: T -> bool, s: seq<T>)
    requires forall x | x in s :: OneOfThree(p, q, r, x)
    ensures multiset(Filter(p, s)) + multiset(Filter(q, s)) + multiset(Filter(r, s)) == multiset(s)
  {
    if s != [] {
      var front, x := s[..|s| - 1], s[|s| - 1];
      assert OneOfThree(p, q, r, x);
      FilterInThree(p, q, r, front);
      assert s == front + [x];
    }
  }

  /** What a condition picks, for a cell `v` of the column it names: NONE comes
      before everything, integers before strings, integers by size and strings as
      in a dictionary. No other operator picks anything, no condition everything. */
  lemma {:induction false} WhereMeans(t: TableState, column: string, op: string, l: Literal, row: Row)
    requires RowsFit(t) && row in t.rows && FindColumn(t.columns, column) >= 0
    ensures var v, picked := row[FindColumn(t.columns, column)], Picks(t.columns, Compare(column, op, l))(row);
            && (op == "=" ==> (picked <==> if l.isInt then v == Int(Atoi(l.text)) else v == Str(l.text)))
            && (op == "<" ==> (picked <==>
                  if l.isInt then v.None? || (v.Int? && v.n < Atoi(l.text))
                  else v.None? || v.Int? || Precedes(v.s, l.text)))
            && (op == ">" ==> (picked <==>
                  if l.isInt then v.Str? || (v.Int? && v.n > Atoi(l.text))
                  else v.Str? && Precedes(l.text, v.s)))
            && (op != "=" && op != "<" && op != ">" ==> !picked)
    ensures Picks(t.columns, Always)(row)
  {
    var cell := row[FindColumn(t.columns, column)];
    CompareIsTotalOrder(cell, LiteralValue(l), cell);
  }

  /** For any column and literal the conditions <, = and > split the rows of a
      table into those whose cell comes before the literal's value, those that hold
      it and those whose cell comes after it: every row passes exactly one, so the
      three SELECTs together show each row once. */
  lemma {:induction false} WhereTrichotomy(t: TableState, column: string, l: Literal)
    requires RowsFit(t) && FindColumn(t.columns, column) >= 0
    ensures var lt, eq, gt := Compare(column, "<", l), Compare(column, "=", l), Compare(column, ">", l);
            && (forall row | row in t.rows ::
                  OneOfThree(Picks(t.columns, lt), Picks(t.columns, eq), Picks(t.columns, gt), row))
            && (forall row | row in t.rows :: var cell := row[FindColumn(t.columns, column)];
                  && (Picks(t.columns, lt)(row) <==> Before(cell, LiteralValue(l)))
                  && (Picks(t.columns, gt)(row) <==> Before(LiteralValue(l), cell)))
            && multiset(SelectReply(t.columns, t.rows, "*", lt).rows)
               + multiset(SelectReply(t.columns, t.rows, "*", eq).rows)
               + multiset(SelectReply(t.columns, t.rows, "*", gt).rows) == multiset(t.rows)
  {
    var lt, eq, gt := Compare(column, "<", l), Compare(column, "=", l), Compare(column, ">", l);
    forall row | row in t.rows
      ensures var cell := row[FindColumn(t.columns, column)];
              && (Picks(t.columns, lt)(row) <==> Before(cell, LiteralValue(l)))
              && (Picks(t.columns, gt)(row) <==> Before(LiteralValue(l), cell))
    {
      var cell := row[FindColumn(t.columns, column)];
      CompareIsTotalOrder(cell, LiteralValue(l), cell);
    }
    FilterInThree(Picks(t.columns, lt), Picks(t.columns, eq), Picks(t.columns, gt), t.rows);
  }

  /** An equality condition picks exactly the rows that hold the literal's value. */
  lemma {:induction false} WhereEqualsPicks(t: TableState, column: string, l: Literal, row: Row)
    requires RowsFit(t) && row in t.rows && FindColumn(t.columns, column) >= 0
    ensures Picks(t.columns, Compare(column, "=", l))(row) <==>
            row[FindColumn(t.columns, column)] == LiteralValue(l)
  {
    var cell := row[FindColumn(t.columns, column)];
    CompareIsTotalOrder(cell, LiteralValue(l), cell);
  }

  // ---------------------------------------------------------------- UPDATE

  /** After an UPDATE either all rows it set are still picked, because the
      condition is on another column, or all of them are in the same case,
      because they now hold the same value there. */
  lemma {:induction false} PickedAfterUpdate(cond: Condition, wcol: int, col: nat, v: Value, row: Row, other: Row)
    requires col < |row| && col < |other|
    requires Selects(wcol, cond)(row) && Selects(wcol, cond)(other)
    ensures wcol != col ==> Selects(wcol, cond)(SetCell(row, col, v))
    ensures wcol == col ==> Selects(wcol, cond)(SetCell(row, col, v)) == Selects(wcol, cond)(SetCell(other, col, v))
  {
  }

  /** The last picked row after the update is the same one, or none is picked. */
  lemma {:induction false} LastAfterUpdate(cond: Condition, wcol: int, rows: seq<Row>, col: nat, v: Value)
    requires forall r | r in rows :: col < |r|
    ensures var p := Selects(wcol, cond);
            var last := LastWhere(p, SetCells(p, rows, col, v));
            last == -1 || last == LastWhere(p, rows)
  {
    var p := Selects(wcol, cond);
    var after := SetCells(p, rows, col, v);
    var first, last := LastWhere(p, rows), LastWhere(p, after);
    if last >= 0 {
      if first < last {
        LastWhereIsLast(p, rows, last);
        assert false;
      } else if last < first {
        LastWhereIsLast(p, after, first);
        PickedAfterUpdate(cond, wcol, col, v, rows[first], rows[last]);
        assert false;
      }
    }
  }

  lemma {:induction false} SetCellsTwice(cond: Condition, wcol: int, rows: seq<Row>, col: nat, v: Value)
    requires forall r | r in rows :: col < |r|
    ensures var p := Selects(wcol, cond);
            SetCells(p, SetCells(p, rows, col, v), col, v) == SetCells(p, rows, col, v)
  {
    var p := Selects(wcol, cond);
    var after := SetCells(p, rows, col, v);
    forall i | 0 <= i < |after|
      ensures SetCells(p, after, col, v)[i] == after[i]
    {
      if p(rows[i]) {
        assert after[i][col] == v;
      }
    }
  }

  /** Running an UPDATE twice leaves the table and its index as running it once,
      also when the set column is the one the condition tests. */
  lemma {:induction false} UpdateIsIdempotent(t: TableState, column: string, value: Literal, cond: Condition)
    requires RowsFit(t)
    ensures var once := UpdateIn(t, column, value, cond).0;
            UpdateIn(once, column, value, cond).0 == once
  {
    var col := FindColumn(t.columns, column);
    if col >= 0 && KnownCondition(t.columns, cond) {
      SetCellsTwice(cond, ConditionColumn(t.columns, cond), t.rows, col, LiteralValue(value));
      LastAfterUpdate(cond, ConditionColumn(t.columns, cond), t.rows, col, LiteralValue(value));
    }
  }

  /** An UPDATE keeps the number and order of rows and every cell outside the
      set column, and sets that cell exactly in the rows the condition picks. */
  lemma {:induction false} UpdateFrame(t: TableState, column: string, value: Literal, cond: Condition, i: nat, j: nat)
    requires RowsFit(t) && i < |t.rows| && j < |t.columns|
    requires UpdateIn(t, column, value, cond).1.Done?
    ensures var after := UpdateIn(t, column, value, cond).0;
            && |after.rows| == |t.rows| && after.columns == t.columns && |after.rows[i]| == |t.columns|
            && after.rows[i][j] ==
               if j == FindColumn(t.columns, column) && Picks(t.columns, cond)(t.rows[i])
               then LiteralValue(value) else t.rows[i][j]
  {
  }

  // -------------------------------------------------------------- database

  ghost predicate DistinctNames(db: DbState) {
    forall i, j | 0 <= i < j < |db| :: db[i].name != db[j].name
  }

  /** What every reachable state satisfies. */
  ghost predicate Sound(db: DbState) {
    DistinctNames(db) && forall i | 0 <= i < |db| :: RowsFit(db[i])
  }

  lemma {:induction false} TableStepFits(t: TableState, s: Statement)
    requires RowsFit(t) && OnTable(s)
    ensures RowsFit(TableStep(t, s).0)
    ensures TableStep(t, s).0.name == t.name && TableStep(t, s).0.columns == t.columns
  {
    if s.Delete? {
      FilterMembers(Not(Picks(t.columns, s.cond)), t.rows);
    }
  }

  lemma {:induction false} SoundReplaced(db: DbState, i: nat, t: TableState)
    requires Sound(db) && i < |db| && t.name == db[i].name && RowsFit(t)
    ensures Sound(db[i := t])
  {
  }

  lemma {:induction false} SoundRemoved(db: DbState, i: nat)
    requires Sound(db) && i < |db|
    ensures Sound(Remove(db, i))
  {
  }

  lemma {:induction false} SoundAppended(db: DbState, t: TableState)
    requires Sound(db) && Locate(db, t.name) < 0 && RowsFit(t)
    ensures Sound(db + [t])
  {
    forall k | 0 <= k < |db|
      ensures db[k].name != t.name
    {
      FirstWhereIsFirst(Called(t.name), db, k);
    }
  }

  /** Every statement keeps table names distinct and rows as wide as their
      schema. */
  lemma {:induction false} StepIsSound(db: DbState, s: TableStatement)
    requires Sound(db)
    ensures Sound(Step(db, s).0)
  {
    if s.Invalid? {
      return;
    }
    var i := Locate(db, s.table);
    if s.CreateTable? {
      if i < 0 {
        SoundAppended(db, TableState(s.table, ColumnsOf(s.columns), [], map[]));
      }
    } else if i >= 0 {
      if s.DropTable? {
        SoundRemoved(db, i);
      } else {
        TableStepFits(db[i], s);
        SoundReplaced(db, i, TableStep(db[i], s).0);
      }
    }
  }

  // What a statement does to the list of tables, kind by kind.

  /** A statement that names no table it can work on. */
  predicate Idle(db: DbState, s: TableStatement) {
    s.Invalid? || (s.CreateTable? <==> Locate(db, s.table) >= 0)
  }

  lemma {:induction false} StepIdle(db: DbState, s: TableStatement)
    requires Idle(db, s)
    ensures Step(db, s).0 == db
  {
  }

  lemma {:induction false} StepCreates(db: DbState, s: TableStatement)
    requires s.CreateTable? && !Idle(db, s)
    ensures Step(db, s).0 == db + [TableState(s.table, ColumnsOf(s.columns), [], map[])]
  {
  }

  lemma {:induction false} StepDrops(db: DbState, s: TableStatement)
    requires s.DropTable? && !Idle(db, s)
    ensures Step(db, s).0 == Remove(db, Locate(db, s.table))
  {
  }

  lemma {:induction false} StepChanges(db: DbState, s: TableStatement)
    requires OnTable(s) && !Idle(db, s)
    ensures var i := Locate(db, s.table); Step(db, s).0 == db[i := TableStep(db[i], s).0]
  {
  }

  /** Where table `t` of the state after a statement comes from: slot `o` of the
      state before, changed if the statement works on it, or nowhere when it is
      the new empty table. */
  predicate ComesFrom(db: DbState, s: TableStatement, t: TableState, o: int) {
    || (0 <= o < |db| && t == db[o])
    || (OnTable(s) && 0 <= o == Locate(db, s.table) && t == TableStep(db[o], s).0)
    || (s.CreateTable? && t == TableState(s.table, ColumnsOf(s.columns), [], map[]))
  }

  /** What the lemmas above say of the list of tables after a statement. */
  predicate Outcome(db: DbState, s: TableStatement, db': DbState) {
    || (db' == db)
    || (s.CreateTable? && db' == db + [TableState(s.table, ColumnsOf(s.columns), [], map[])])
    || (s.DropTable? && Locate(db, s.table) >= 0 && db' == Remove(db, Locate(db, s.table)))
    || (OnTable(s) && Locate(db, s.table) >= 0
        && db' == db[Locate(db, s.table) := TableStep(db[Locate(db, s.table)], s).0])
  }

  lemma {:induction false} StepOutcome(db: DbState, s: TableStatement)
    ensures Outcome(db, s, Step(db, s).0)
  {
    if Idle(db, s) {
      StepIdle(db, s);
    } else if s.CreateTable? {
      StepCreates(db, s);
    } else if s.DropTable? {
      StepDrops(db, s);
    } else {
      StepChanges(db, s);
    }
  }

  lemma {:induction false} OriginIn(db: DbState, s: TableStatement, db': DbState, j: nat) returns (o: int)
    requires Outcome(db, s, db') && j < |db'|
    ensures ComesFrom(db, s, db'[j], o)
  {
    o := if s.DropTable? && db' != db && j >= Locate(db, s.table) then j + 1 else j;
  }

  /** Every table after a statement is an old one, the one the statement works
      on, or a new empty one. */
  lemma {:induction false} StepOrigin(db: DbState, s: TableStatement, j: nat) returns (o: int)
    requires j < |Step(db, s).0|
    ensures ComesFrom(db, s, Step(db, s).0[j], o)
  {
    StepOutcome(db, s);
    o := OriginIn(db, s, Step(db, s).0, j);
  }

  lemma {:induction false} RunIsSound(db: DbState, script: seq<TableStatement>)
    requires Sound(db)
    ensures Sound(Run(db, script).0)
    decreases |script|
  {
    if script != [] {
      StepIsSound(db, script[0]);
      RunIsSound(Step(db, script[0]).0, script[1..]);
    }
  }

  /** A run answers every statement, each with the reply of its own step from the
      state that the statements before it leave. */
  lemma {:induction false} RunReplies(db: DbState, script: seq<TableStatement>, i: nat)
    requires i < |script|
    ensures |Run(db, script).1| == |script|
    ensures Run(db, script).1[i] == Step(Run(db, script[..i]).0, script[i]).1
    decreases |script|
  {
    RunLength(db, script);
    var next := Step(db, script[0]).0;
    if i > 0 {
      RunReplies(next, script[1..], i - 1);
      assert script[..i][0] == script[0] && script[..i][1..] == script[1..][..i - 1];
    }
  }

  lemma {:induction false} RunLength(db: DbState, script: seq<TableStatement>)
    ensures |Run(db, script).1| == |script|
    decreases |script|
  {
    if script != [] {
      RunLength(Step(db, script[0]).0, script[1..]);
    }
  }

  /** A statement that fails changes nothing. */
  lemma {:induction false} FailureChangesNothing(db: DbState, s: TableStatement)
    requires Step(db, s).1.Failed?
    ensures Step(db, s).0 == db
  {
  }

  lemma {:induction false} LocateKnown(db: DbState, i: nat, name: string)
    requires DistinctNames(db) && i < |db|
    ensures db[i].name == name ==> Locate(db, name) == i
  {
    var l := Locate(db, name);
    if db[i].name == name && l != i {
      if i < l || l < 0 {
        FirstWhereIsFirst(Called(name), db, i);
      }
    }
  }

  lemma {:induction false} FilterAround<T>(p: T -> bool, a: seq<T>, x: T, b: seq<T>)
    requires !p(x)
    ensures Filter(p, a + [x] + b) == Filter(p, a + b)
  {
    FilterSplit(p, a + [x], b);
    FilterSplit(p, a, [x]);
    FilterSplit(p, a, b);
  }

  lemma {:induction false} FilterReplaced<T>(p: T -> bool, s: seq<T>, i: nat, x: T)
    requires i < |s| && !p(s[i]) && !p(x)
    ensures Filter(p, s[i := x]) == Filter(p, s)
    ensures Filter(p, Remove(s, i)) == Filter(p, s)
  {
    FilterAround(p, s[..i], s[i], s[i + 1..]);
    FilterAround(p, s[..i], x, s[i + 1..]);
    assert s == s[..i] + [s[i]] + s[i + 1..];
    assert s[i := x] == s[..i] + [x] + s[i + 1..];
  }

  /** The tables a statement does not name stay as they are and keep their
      order; a DROP only closes the gap. */
  lemma {:induction false} OtherTablesUntouched(db: DbState, s: TableStatement)
    requires !s.Invalid?
    ensures Filter(Not(Called(s.table)), Step(db, s).0) == Filter(Not(Called(s.table)), db)
  {
    var p := Not(Called(s.table));
    var i := Locate(db, s.table);
    if s.CreateTable? {
      if i < 0 {
        FilterSplit(p, db, [TableState(s.table, ColumnsOf(s.columns), [], map[])]);
      }
    } else if i >= 0 {
      if s.DropTable? {
        FilterReplaced(p, db, i, db[i]);
      } else {
        FilterReplaced(p, db, i, TableStep(db[i], s).0);
      }
    }
  }
}

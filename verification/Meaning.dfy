/** What statements mean on a relation: an account by column names and by rows
    that knows no column numbers, no conditions as predicates, no comparing and
    no index. The executor's steps are shown to give the same. */
module Meaning {
  import opened Sequences
  import opened Numbers
  import opened Values
  import opened Ast
  import opened Relational

  /** A relation is its schema and its rows. */
  datatype Relation = Relation(columns: seq<Column>, rows: seq<Row>)

  // ----------------------------------------------------------- one row by names

  /** What a literal stands for. */
  function Meant(l: Literal): Value {
    match l
    case Literal(text, true) => Int(Atoi(text))
    case Literal(text, false) => Str(text)
  }

  predicate HasColumn(columns: seq<Column>, name: string) {
    exists i :: 0 <= i < |columns| && columns[i].name == name
  }

  /** The cell under the first column of that name. */
  function CellOf(columns: seq<Column>, row: Row, name: string): Value {
    if columns == [] || row == [] then None
    else if columns[0].name == name then row[0]
    else CellOf(columns[1..], row[1..], name)
  }

  /** The cell under the first primary column; NONE when there is none. */
  function KeyCell(columns: seq<Column>, row: Row): Value {
    if columns == [] || row == [] then None
    else if columns[0].primary then row[0]
    else KeyCell(columns[1..], row[1..])
  }

  /** The row with another value under the first column of that name. */
  function WithCell(columns: seq<Column>, row: Row, name: string, v: Value): Row {
    if columns == [] || row == [] then row
    else if columns[0].name == name then [v] + row[1..]
    else [row[0]] + WithCell(columns[1..], row[1..], name, v)
  }

  /** Whether a row meets a condition. */
  ghost predicate Meets(columns: seq<Column>, row: Row, cond: Condition) {
    match cond
    case Always => true
    case Compare(column, op, literal) =>
      var cell, value := CellOf(columns, row, column), Meant(literal);
      || (op == "=" && cell == value)
      || (op == "<" && Before(cell, value))
      || (op == ">" && Before(value, cell))
  }

  /** The condition speaks of a column there is. */
  predicate Answerable(columns: seq<Column>, cond: Condition) {
    cond.Compare? ==> HasColumn(columns, cond.column)
  }

  // ------------------------------------------------------------------ all rows

  /** The columns a SELECT answers with. */
  function Header(columns: seq<Column>, column: string): seq<Column> {
    if column == "*" || columns == [] then columns
    else if columns[0].name == column then [columns[0]]
    else Header(columns[1..], column)
  }

  /** The rows it answers with: those that meet the condition, whole or one cell. */
  ghost function Shown(columns: seq<Column>, rows: seq<Row>, column: string, cond: Condition): seq<Row> {
    if rows == [] then []
    else
      var front, row := rows[..|rows| - 1], rows[|rows| - 1];
      var part := if column == "*" then row else [CellOf(columns, row, column)];
      Shown(columns, front, column, cond) + if Meets(columns, row, cond) then [part] else []
  }

  /** The rows a DELETE leaves. */
  ghost function Spared(columns: seq<Column>, rows: seq<Row>, cond: Condition): seq<Row> {
    if rows == [] then []
    else
      var front, row := rows[..|rows| - 1], rows[|rows| - 1];
      Spared(columns, front, cond) + if Meets(columns, row, cond) then [] else [row]
  }

  /** The rows after an UPDATE. */
  ghost function Changed(columns: seq<Column>, rows: seq<Row>, column: string, v: Value, cond: Condition): seq<Row> {
    if rows == [] then []
    else
      var front, row := rows[..|rows| - 1], rows[|rows| - 1];
      Changed(columns, front, column, v, cond)
      + [if Meets(columns, row, cond) then WithCell(columns, row, column, v) else row]
  }

  /** The row an INSERT adds. */
  function NewRow(values: seq<Literal>): Row {
    if values == [] then [] else [Meant(values[0])] + NewRow(values[1..])
  }

  /** The schema of a new table: a column holds integers when its type is spelled
      "int", and strings otherwise. */
  function Schema(defs: seq<ColumnDef>): seq<Column> {
    if defs == [] then []
    else
      [Column(defs[0].name, if defs[0].ty == "int" then IntType else StringType, defs[0].primary)] + Schema(defs[1..])
  }

  /** The relation after a statement and the reply, when the keys in `taken` are
      refused by INSERT. */
  ghost function MeantOn(r: Relation, s: Statement, taken: set<int>): (Relation, Reply)
    requires OnTable(s)
  {
    match s
    case Insert(_, values) => MeantInsert(r, values, taken)
    case Select(_, column, cond) =>
      (r, if column != "*" && !HasColumn(r.columns, column) then Failed(NoSuchColumn(column))
          else if !Answerable(r.columns, cond) then Failed(NoSuchColumn(cond.column))
          else ResultSet(Header(r.columns, column), Shown(r.columns, r.rows, column, cond)))
    case Delete(_, cond) =>
      if !Answerable(r.columns, cond) then (r, Failed(NoSuchColumn(cond.column)))
      else
        (Relation(r.columns, Spared(r.columns, r.rows, cond)), Done(|Shown(r.columns, r.rows, "*", cond)|))
    case Update(_, column, value, cond) =>
      if !HasColumn(r.columns, column) then (r, Failed(NoSuchColumn(column)))
      else if !Answerable(r.columns, cond) then (r, Failed(NoSuchColumn(cond.column)))
      else
        (Relation(r.columns, Changed(r.columns, r.rows, column, Meant(value), cond)),
         Done(|Shown(r.columns, r.rows, "*", cond)|))
  }

  ghost function MeantInsert(r: Relation, values: seq<Literal>, taken: set<int>): (Relation, Reply) {
    var row := NewRow(values);
    var key := KeyCell(r.columns, row);
    if |values| != |r.columns| then (r, Failed(WidthMismatch(|r.columns|, |values|)))
    else if key.Int? && key.n in taken then (r, Failed(DuplicateKey(key.n)))
    else (Relation(r.columns, r.rows + [row]), Done(1))
  }

  // ------------------------------------------------- the executor does the same

  lemma {:induction false} ColumnFound(columns: seq<Column>, name: string)
    ensures FindColumn(columns, name) >= 0 <==> HasColumn(columns, name)
  {
    if i :| 0 <= i < |columns| && columns[i].name == name && FindColumn(columns, name) < 0 {
      FirstWhereIsFirst(Named(name), columns, i);
    }
  }

  lemma {:induction false} CellFound(columns: seq<Column>, row: Row, name: string)
    requires |row| == |columns| && FindColumn(columns, name) >= 0
    ensures CellOf(columns, row, name) == row[FindColumn(columns, name)]
    decreases |columns|
  {
    FirstWhereCons(Named(name), columns);
    if columns[0].name != name {
      CellFound(columns[1..], row[1..], name);
    }
  }

  lemma {:induction false} CellSet(columns: seq<Column>, row: Row, name: string, v: Value)
    requires |row| == |columns|
    ensures WithCell(columns, row, name, v) == SetCell(row, FindColumn(columns, name), v)
    decreases |columns|
  {
    if columns != [] {
      FirstWhereCons(Named(name), columns);
      if columns[0].name == name {
        assert [v] + row[1..] == row[0 := v];
      } else {
        CellSet(columns[1..], row[1..], name, v);
        SetBehind(row, FindColumn(columns[1..], name), v);
      }
    }
  }

  lemma {:induction false} SetBehind(row: Row, col: int, v: Value)
    requires row != [] && -1 <= col
    ensures [row[0]] + SetCell(row[1..], col, v) == if col < 0 then row else SetCell(row, col + 1, v)
  {
  }

  lemma {:induction false} HeaderFound(columns: seq<Column>, name: string)
    requires HasColumn(columns, name) && name != "*"
    ensures FindColumn(columns, name) >= 0 && Header(columns, name) == [columns[FindColumn(columns, name)]]
    decreases |columns|
  {
    ColumnFound(columns, name);
    FirstWhereCons(Named(name), columns);
    if columns[0].name != name {
      var k :| 0 <= k < |columns| && columns[k].name == name;
      assert columns[1..][k - 1].name == name;
      HeaderFound(columns[1..], name);
    }
  }

  lemma {:induction false} KeyFound(columns: seq<Column>, row: Row)
    requires |row| == |columns|
    ensures KeyCell(columns, row) == if KeyColumn(columns) >= 0 then row[KeyColumn(columns)] else None
    decreases |columns|
  {
    if columns != [] {
      FirstWhereCons(IsPrimary(), columns);
      KeyFound(columns[1..], row[1..]);
    }
  }

  lemma {:induction false} NewRowIs(values: seq<Literal>)
    ensures NewRow(values) == RowOf(values)
    decreases |values|
  {
    if values != [] {
      NewRowIs(values[1..]);
      assert RowOf(values) == [Meant(values[0])] + RowOf(values[1..]);
    }
  }

  lemma {:induction false} SchemaIs(defs: seq<ColumnDef>)
    ensures Schema(defs) == ColumnsOf(defs)
    decreases |defs|
  {
    if defs != [] {
      SchemaIs(defs[1..]);
      assert ColumnsOf(defs) == [ColumnsOf(defs)[0]] + ColumnsOf(defs[1..]);
    }
  }

  lemma {:induction false} AnswerableIs(columns: seq<Column>, cond: Condition)
    ensures Answerable(columns, cond) <==> KnownCondition(columns, cond)
  {
    if cond.Compare? {
      ColumnFound(columns, cond.column);
    }
  }

  lemma {:induction false} MeetsIs(columns: seq<Column>, row: Row, cond: Condition)
    requires |row| == |columns| && Answerable(columns, cond)
    ensures Meets(columns, row, cond) <==> Picks(columns, cond)(row)
  {
    if cond.Compare? {
      ColumnFound(columns, cond.column);
      CellFound(columns, row, cond.column);
      CompareIsTotalOrder(CellOf(columns, row, cond.column), Meant(cond.literal), None);
    }
  }

  lemma {:induction false} ShownIs(columns: seq<Column>, rows: seq<Row>, column: string, cond: Condition)
    requires (forall r | r in rows :: |r| == |columns|) && Answerable(columns, cond)
    requires column == "*" || HasColumn(columns, column)
    ensures var picked := Filter(Picks(columns, cond), rows);
            Shown(columns, rows, column, cond) ==
            if column == "*" then picked else Project(picked, FindColumn(columns, column))
  {
    if rows != [] {
      var front, row := rows[..|rows| - 1], rows[|rows| - 1];
      ShownIs(columns, front, column, cond);
      MeetsIs(columns, row, cond);
      if column != "*" && Meets(columns, row, cond) {
        ColumnFound(columns, column);
        CellFound(columns, row, column);
        ProjectSnoc(Filter(Picks(columns, cond), front), row, FindColumn(columns, column));
      }
    }
  }

  lemma {:induction false} ProjectSnoc(rows: seq<Row>, row: Row, col: nat)
    requires col < |row|
    ensures Project(rows + [row], col) == Project(rows, col) + [[row[col]]]
  {
  }

  lemma {:induction false} SparedIs(columns: seq<Column>, rows: seq<Row>, cond: Condition)
    requires (forall r | r in rows :: |r| == |columns|) && Answerable(columns, cond)
    ensures Spared(columns, rows, cond) == Filter(Not(Picks(columns, cond)), rows)
  {
    if rows != [] {
      SparedIs(columns, rows[..|rows| - 1], cond);
      MeetsIs(columns, rows[|rows| - 1], cond);
    }
  }

  lemma {:induction false} ChangedIs(columns: seq<Column>, rows: seq<Row>, column: string, v: Value, cond: Condition)
    requires (forall r | r in rows :: |r| == |columns|) && Answerable(columns, cond)
    ensures Changed(columns, rows, column, v, cond) ==
            SetCells(Picks(columns, cond), rows, FindColumn(columns, column), v)
  {
    if rows != [] {
      var front, row := rows[..|rows| - 1], rows[|rows| - 1];
      ChangedIs(columns, front, column, v, cond);
      MeetsIs(columns, row, cond);
      CellSet(columns, row, column, v);
      SetCellsSnoc(Picks(columns, cond), front, row, FindColumn(columns, column), v);
      LastApart(rows);
    }
  }

  lemma {:induction false} LastApart<T>(s: seq<T>)
    requires s != []
    ensures s == s[..|s| - 1] + [s[|s| - 1]]
  {
  }

  lemma {:induction false} SetCellsSnoc(p: Row -> bool, rows: seq<Row>, row: Row, col: int, v: Value)
    ensures SetCells(p, rows + [row], col, v) ==
            SetCells(p, rows, col, v) + [if p(row) then SetCell(row, col, v) else row]
  {
  }

  function RelationOf(t: TableState): Relation {
    Relation(t.columns, t.rows)
  }

  /** The step is the one meant, when the keys in the index are the taken ones. */
  ghost predicate AsMeant(t: TableState, s: Statement)
    requires OnTable(s)
  {
    var (t', reply) := TableStep(t, s);
    MeantOn(RelationOf(t), s, t.index.Keys) == (RelationOf(t'), reply)
  }

  lemma {:induction false} SelectMeans(t: TableState, s: Statement)
    requires s.Select? && RowsFit(t)
    ensures AsMeant(t, s)
  {
    AnswerableIs(t.columns, s.cond);
    ColumnFound(t.columns, s.column);
    if Answerable(t.columns, s.cond) && (s.column == "*" || HasColumn(t.columns, s.column)) {
      ShownIs(t.columns, t.rows, s.column, s.cond);
      if s.column != "*" {
        HeaderFound(t.columns, s.column);
      }
    }
  }

  lemma {:induction false} DeleteMeans(t: TableState, s: Statement)
    requires s.Delete? && RowsFit(t)
    ensures AsMeant(t, s)
  {
    AnswerableIs(t.columns, s.cond);
    if Answerable(t.columns, s.cond) {
      ShownIs(t.columns, t.rows, "*", s.cond);
      SparedIs(t.columns, t.rows, s.cond);
    }
  }

  lemma {:induction false} UpdateMeans(t: TableState, s: Statement)
    requires s.Update? && RowsFit(t)
    ensures AsMeant(t, s)
  {
    AnswerableIs(t.columns, s.cond);
    ColumnFound(t.columns, s.column);
    if Answerable(t.columns, s.cond) && HasColumn(t.columns, s.column) {
      ShownIs(t.columns, t.rows, "*", s.cond);
      ChangedIs(t.columns, t.rows, s.column, Meant(s.value), s.cond);
    }
  }

  lemma {:induction false} InsertMeans(t: TableState, s: Statement)
    requires s.Insert?
    ensures AsMeant(t, s)
  {
    NewRowIs(s.values);
    if |s.values| == |t.columns| {
      KeyFound(t.columns, RowOf(s.values));
    }
  }

  /** Every statement on a table gives the relation and the reply it is meant to
      give; all that the index has to say is which keys INSERT refuses. */
  lemma {:induction false} StepMeans(t: TableState, s: Statement)
    requires OnTable(s) && RowsFit(t)
    ensures AsMeant(t, s)
  {
    match s
    case Select(_, _, _) => SelectMeans(t, s);
    case Delete(_, _) => DeleteMeans(t, s);
    case Insert(_, _) => InsertMeans(t, s);
    case Update(_, _, _, _) => UpdateMeans(t, s);
  }

  // ------------------------------------------------------------ all the tables

  /** Slot i holds the table of that name. */
  predicate IsAt(db: DbState, name: string, i: int) {
    0 <= i < |db| && db[i].name == name
  }

  ghost predicate Has(db: DbState, name: string) {
    exists i :: IsAt(db, name, i)
  }

  /** What a statement does to the list of tables, and what it answers: CREATE TABLE
      appends an empty table unless the name is taken, DROP TABLE takes the table of
      that name out, and the others replace it by what their step makes of it. */
  ghost predicate ListMeant(db: DbState, s: TableStatement, db': DbState, reply: Reply) {
    if s.Invalid? then db' == db && reply == Failed(NotAStatement)
    else if s.CreateTable? then
      if Has(db, s.table) then db' == db && reply == Failed(TableExists)
      else db' == db + [TableState(s.table, Schema(s.columns), [], map[])] && reply == Done(0)
    else if !Has(db, s.table) then db' == db && reply == Failed(NoSuchTable)
    else exists i :: IsAt(db, s.table, i) && ChangedAt(db, s, db', reply, i)
  }

  ghost predicate ChangedAt(db: DbState, s: TableStatement, db': DbState, reply: Reply, i: nat)
    requires i < |db| && (s.DropTable? || OnTable(s))
  {
    if s.DropTable? then db' == db[..i] + db[i + 1..] && reply == Done(0)
    else db' == db[i := TableStep(db[i], s).0] && reply == TableStep(db[i], s).1
  }

  lemma {:induction false} Located(db: DbState, name: string)
    ensures Locate(db, name) >= 0 ==> IsAt(db, name, Locate(db, name))
    ensures Locate(db, name) >= 0 <==> Has(db, name)
  {
    if i :| IsAt(db, name, i) && Locate(db, name) < 0 {
      FirstWhereIsFirst(Called(name), db, i);
    }
  }

  lemma {:induction false} CreateListed(db: DbState, s: TableStatement)
    requires s.CreateTable?
    ensures ListMeant(db, s, Step(db, s).0, Step(db, s).1)
  {
    Located(db, s.table);
    SchemaIs(s.columns);
  }

  lemma {:induction false} DropListed(db: DbState, s: TableStatement)
    requires s.DropTable?
    ensures ListMeant(db, s, Step(db, s).0, Step(db, s).1)
  {
    Located(db, s.table);
    if Locate(db, s.table) >= 0 {
      assert ChangedAt(db, s, Step(db, s).0, Step(db, s).1, Locate(db, s.table));
    }
  }

  lemma {:induction false} ChangeListed(db: DbState, s: TableStatement)
    requires OnTable(s)
    ensures ListMeant(db, s, Step(db, s).0, Step(db, s).1)
  {
    Located(db, s.table);
    if Locate(db, s.table) >= 0 {
      assert ChangedAt(db, s, Step(db, s).0, Step(db, s).1, Locate(db, s.table));
    }
  }

  /** Every statement of a database does to the list of tables what it is meant to. */
  lemma {:induction false} ListMeans(db: DbState, s: TableStatement)
    ensures ListMeant(db, s, Step(db, s).0, Step(db, s).1)
  {
    if s.CreateTable? {
      CreateListed(db, s);
    } else if s.DropTable? {
      DropListed(db, s);
    } else if !s.Invalid? {
      ChangeListed(db, s);
    }
  }

  // -------------------------------------------------------- SELECT of one column

  /** SELECT of a column shows, row by row, the cell of that column of what
      SELECT * shows; both fail alike on an unknown WHERE column. */
  lemma {:induction false} SelectOneColumn(t: TableState, column: string, cond: Condition)
    requires RowsFit(t) && column != "*" && FindColumn(t.columns, column) >= 0
    ensures var c := FindColumn(t.columns, column);
            var star, one := SelectReply(t.columns, t.rows, "*", cond), SelectReply(t.columns, t.rows, column, cond);
            if !KnownCondition(t.columns, cond) then
              one == star == Failed(NoSuchColumn(cond.column))
            else
              && star.ResultSet? && one.ResultSet? && one.columns == [t.columns[c]] && |one.rows| == |star.rows|
              && forall k | 0 <= k < |one.rows| :: |star.rows[k]| == |t.columns| && one.rows[k] == [star.rows[k][c]]
  {
    FilterMembers(Picks(t.columns, cond), t.rows);
  }

  /** The columns of a table just created. */
  lemma {:induction false} CreatedColumns(db: DbState, table: string, defs: seq<ColumnDef>, i: nat)
    requires Create(db, table, defs).1.Done? && i < |defs|
    ensures var db' := Create(db, table, defs).0;
            && |db'| == |db| + 1 && db'[..|db|] == db && |db'[|db|].columns| == |defs|
            && var c := db'[|db|].columns[i];
               c.name == defs[i].name && c.primary == defs[i].primary && (c.ty.IntType? <==> defs[i].ty == "int")
  {
    assert Create(db, table, defs).0[..|db|] == db;
  }
}

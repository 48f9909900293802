/** What every statement does to the tables, as functions on values. */
module Relational {
  import opened Sequences
  import opened Values
  import opened Ast
  import Numbers

  datatype ColumnType = IntType | StringType

  datatype Column = Column(name: string, ty: ColumnType, primary: bool)

  type Row = seq<Value>

  /** A table with its primary key index, the latter as the finite map from key
      to row number that the index array refines. */
  datatype TableState = TableState(
    name: string, columns: seq<Column>, rows: seq<Row>, index: map<int, int>)

  type DbState = seq<TableState>

  datatype Failure =
    | TableExists
    | NoSuchTable
    | NoSuchColumn(column: string)
    | WidthMismatch(expected: nat, got: nat)
    | DuplicateKey(key: int)
    | NoDatabaseSelected
    | FileSystemRefused
    | NotAStatement

  datatype Reply =
    | Done(affected: nat)
    | ResultSet(columns: seq<Column>, rows: seq<Row>)
    | Failed(reason: Failure)

  // ---------------------------------------------------------------- schema

  function TypeFromText(s: string): ColumnType {
    if s == "int" then IntType else StringType
  }

  function ColumnsOf(defs: seq<ColumnDef>): (cs: seq<Column>)
    ensures |cs| == |defs|
  {
    seq(|defs|, i requires 0 <= i < |defs| =>
      Column(defs[i].name, TypeFromText(defs[i].ty), defs[i].primary))
  }

  function Named(name: string): Column -> bool {
    (c: Column) => c.name == name
  }

  /** First column of that name, or -1. */
  function FindColumn(columns: seq<Column>, name: string): int {
    FirstWhere(Named(name), columns)
  }

  function IsPrimary(): Column -> bool {
    (c: Column) => c.primary
  }

  /** First column declared primary, or -1. */
  function KeyColumn(columns: seq<Column>): int {
    FirstWhere(IsPrimary(), columns)
  }

  ghost predicate RowsFit(t: TableState) {
    forall r | r in t.rows :: |r| == |t.columns|
  }

  // ------------------------------------------------------------ conditions

  function LiteralValue(l: Literal): Value {
    if l.isInt then Int(Numbers.Atoi(l.text)) else Str(l.text)
  }

  predicate CellMatches(cell: Value, op: string, l: Literal) {
    var c := Values.Compare(cell, LiteralValue(l));
    if op == "=" then c == 0
    else if op == "<" then c < 0
    else if op == ">" then c > 0
    else false
  }

  /** Whether a row passes a condition on column number `col`. */
  function Selects(col: int, cond: Condition): Row -> bool {
    r => cond.Always? || (0 <= col < |r| && CellMatches(r[col], cond.op, cond.literal))
  }

  /** The column number a condition talks about; -1 when it names none or an
      unknown one. */
  function ConditionColumn(columns: seq<Column>, cond: Condition): int {
    if cond.Always? then -1 else FindColumn(columns, cond.column)
  }

  predicate KnownCondition(columns: seq<Column>, cond: Condition) {
    cond.Always? || ConditionColumn(columns, cond) >= 0
  }

  /** The rows of a table with these columns that a condition picks. */
  function Picks(columns: seq<Column>, cond: Condition): Row -> bool {
    Selects(ConditionColumn(columns, cond), cond)
  }

  // ------------------------------------------------------------ statements

  function Project(rows: seq<Row>, col: int): (r: seq<Row>)
    ensures |r| == |rows|
  {
    seq(|rows|, i requires 0 <= i < |rows| =>
      if 0 <= col < |rows[i]| then [rows[i][col]] else [])
  }

  /** SELECT reads columns and rows only: filter, then project. */
  function SelectReply(columns: seq<Column>, rows: seq<Row>, column: string, cond: Condition): Reply {
    if column != "*" && FindColumn(columns, column) < 0 then
      Failed(NoSuchColumn(column))
    else if !KnownCondition(columns, cond) then
      Failed(NoSuchColumn(cond.column))
    else
      var picked := Filter(Picks(columns, cond), rows);
      if column == "*" then ResultSet(columns, picked)
      else
        var col := FindColumn(columns, column);
        ResultSet([columns[col]], Project(picked, col))
  }

  /** The integer key of a row, if it has one. */
  function CellKey(row: Row, key: int): set<int> {
    if 0 <= key < |row| && row[key].Int? then {row[key].n} else {}
  }

  /** The integer keys of those rows that satisfy `p`. */
  function KeysOf(p: Row -> bool, rows: seq<Row>, key: int): set<int> {
    set i, k | 0 <= i < |rows| && p(rows[i]) && k in CellKey(rows[i], key) :: k
  }

  /** An index without the keys of the rows that satisfy `p`. */
  function Unfile(index: map<int, int>, p: Row -> bool, rows: seq<Row>, key: int): map<int, int> {
    index - KeysOf(p, rows, key)
  }

  function DeleteFrom(t: TableState, cond: Condition): (TableState, Reply) {
    if !KnownCondition(t.columns, cond) then
      (t, Failed(NoSuchColumn(cond.column)))
    else
      var p := Picks(t.columns, cond);
      (t.(rows := Filter(Not(p), t.rows),
          index := Unfile(t.index, p, t.rows, KeyColumn(t.columns))),
       Done(|Filter(p, t.rows)|))
  }

  function RowOf(values: seq<Literal>): (r: Row)
    ensures |r| == |values|
  {
    seq(|values|, i requires 0 <= i < |values| => LiteralValue(values[i]))
  }

  /** The key a new row is filed under: 0 when its key cell is not an integer. */
  function FiledKey(row: Row, key: int): int {
    if 0 <= key < |row| && row[key].Int? then row[key].n else 0
  }

  function InsertInto(t: TableState, values: seq<Literal>): (TableState, Reply) {
    if |values| != |t.columns| then
      (t, Failed(WidthMismatch(|t.columns|, |values|)))
    else
      var row := RowOf(values);
      var key := KeyColumn(t.columns);
      if key >= 0 && row[key].Int? && row[key].n in t.index then
        (t, Failed(DuplicateKey(row[key].n)))
      else
        (t.(rows := t.rows + [row],
            index := if key >= 0 then t.index[FiledKey(row, key) := |t.rows|] else t.index),
         Done(1))
  }

  function SetCell(row: Row, col: int, v: Value): (r: Row)
    ensures |r| == |row|
  {
    if 0 <= col < |row| then row[col := v] else row
  }

  function SetCells(p: Row -> bool, rows: seq<Row>, col: int, v: Value): (r: seq<Row>)
    ensures |r| == |rows|
  {
    seq(|rows|, i requires 0 <= i < |rows| =>
      if p(rows[i]) then SetCell(rows[i], col, v) else rows[i])
  }

  /** Filing `k` under the number of every row that satisfies `p`, in order, so
      that the last one stays. */
  function FileLast(index: map<int, int>, p: Row -> bool, rows: seq<Row>, k: int): map<int, int> {
    if LastWhere(p, rows) >= 0 then index[k := LastWhere(p, rows)] else index
  }

  /** An UPDATE of the key column files the new key; the old keys stay. */
  function UpdatedIndex(index: map<int, int>, p: Row -> bool, rows: seq<Row>, col: int, key: int, v: Value)
    : map<int, int>
  {
    if col == key && v.Int? then FileLast(index, p, rows, v.n) else index
  }

  function UpdateIn(t: TableState, column: string, value: Literal, cond: Condition): (TableState, Reply) {
    var col := FindColumn(t.columns, column);
    if col < 0 then
      (t, Failed(NoSuchColumn(column)))
    else if !KnownCondition(t.columns, cond) then
      (t, Failed(NoSuchColumn(cond.column)))
    else
      var p := Picks(t.columns, cond);
      var v := LiteralValue(value);
      (t.(rows := SetCells(p, t.rows, col, v), index := UpdatedIndex(t.index, p, t.rows, col, KeyColumn(t.columns), v)),
       Done(|Filter(p, t.rows)|))
  }

  // -------------------------------------------------------------- database

  /** The statements that work inside one selected database. */
  predicate TableLevel(s: Statement) {
    !s.CreateDatabase? && !s.DropDatabase? && !s.Use?
  }

  type TableStatement = s: Statement | TableLevel(s) witness Invalid

  function Called(name: string): TableState -> bool {
    (t: TableState) => t.name == name
  }

  /** Position of the table of that name, or -1. */
  function Locate(db: DbState, name: string): int {
    FirstWhere(Called(name), db)
  }

  /** The statements that read or change one existing table. */
  predicate OnTable(s: Statement) {
    s.Select? || s.Delete? || s.Insert? || s.Update?
  }

  function TableStep(t: TableState, s: Statement): (TableState, Reply)
    requires OnTable(s)
  {
    match s
    case Select(_, column, cond) => (t, SelectReply(t.columns, t.rows, column, cond))
    case Delete(_, cond) => DeleteFrom(t, cond)
    case Insert(_, values) => InsertInto(t, values)
    case Update(_, column, value, cond) => UpdateIn(t, column, value, cond)
  }

  /** A statement on an existing table replaces that one table. */
  function StepOn(db: DbState, s: Statement): (DbState, Reply)
    requires OnTable(s)
  {
    var i := Locate(db, s.table);
    if i < 0 then (db, Failed(NoSuchTable))
    else
      var (t, reply) := TableStep(db[i], s);
      (db[i := t], reply)
  }

  function Create(db: DbState, table: string, defs: seq<ColumnDef>): (DbState, Reply) {
    if Locate(db, table) >= 0 then (db, Failed(TableExists))
    else (db + [TableState(table, ColumnsOf(defs), [], map[])], Done(0))
  }

  function Drop(db: DbState, table: string): (DbState, Reply) {
    var i := Locate(db, table);
    if i < 0 then (db, Failed(NoSuchTable)) else (Remove(db, i), Done(0))
  }

  function Step(db: DbState, s: TableStatement): (DbState, Reply) {
    if s.CreateTable? then Create(db, s.table, s.columns)
    else if s.DropTable? then Drop(db, s.table)
    else if s.Invalid? then (db, Failed(NotAStatement))
    else StepOn(db, s)
  }

  /** The state after running a script, and its replies. */
  function Run(db: DbState, script: seq<TableStatement>): (DbState, seq<Reply>)
    decreases |script|
  {
    if script == [] then (db, [])
    else
      var (db', reply) := Step(db, script[0]);
      var (last, replies) := Run(db', script[1..]);
      (last, [reply] + replies)
  }
}

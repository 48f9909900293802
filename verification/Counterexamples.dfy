/** Concrete runs from the empty database in which the key index misleads or a
    saved table is lost. */
module Counterexamples {
  import opened Sequences
  import opened Numbers
  import opened Values
  import opened Ast
  import opened Relational
  import opened KeyAgreement
  import opened FiledPlaces
  import opened TableFormat
  import opened TableRoundTrip

  // --------------------------------------------------------------- scripts

  const COLUMNS: seq<Column> := [Column("id", IntType, true), Column("n", IntType, false)]

  /** CREATE TABLE t (id int PRIMARY, n int) */
  const CREATE: TableStatement := CreateTable("t", [ColumnDef("id", "int", true), ColumnDef("n", "int", false)])

  function Num(text: string): Literal {
    Literal(text, true)
  }

  /** INSERT INTO t VALUES (a, b) */
  function Row2(a: string, b: string): TableStatement {
    Insert("t", [Num(a), Num(b)])
  }

  /** WHERE n = b */
  function WhereN(b: string): Condition {
    Compare("n", "=", Num(b))
  }

  /** UPDATE t SET id = a with that condition */
  function SetId(a: string, cond: Condition): TableStatement {
    Update("t", "id", Num(a), cond)
  }

  /** The table t with these rows and this index. */
  function T(rows: seq<Row>, index: map<int, int>): TableState {
    TableState("t", COLUMNS, rows, index)
  }

  // ----------------------------------------------------------- single steps

  lemma {:induction false} DigitTexts()
    ensures Atoi("0") == 0 && Atoi("1") == 1 && Atoi("2") == 2
  {
    DigitText(0);
    DigitText(1);
    DigitText(2);
  }

  lemma {:induction false} DigitText(d: nat)
    requires d < 10
    ensures Atoi([DigitChar(d)]) == d
  {
    AtoiOfText(d, "");
    assert IntText(d) + "" == [DigitChar(d)];
  }

  lemma {:induction false} Schema()
    ensures KeyColumn(COLUMNS) == 0 && FindColumn(COLUMNS, "id") == 0 && FindColumn(COLUMNS, "n") == 1
  {
    FirstWhereFound(IsPrimary(), COLUMNS, 0);
    FirstWhereFound(Named("id"), COLUMNS, 0);
    FirstWhereFound(Named("n"), COLUMNS, 1);
  }

  /** The run of `script` on the one table `t` ends with `last` and gives `replies`. */
  ghost predicate Ends(t: TableState, script: seq<TableStatement>, last: TableState, replies: seq<Reply>) {
    t.name == "t" && Run([t], script) == ([last], replies)
  }

  /** After CREATE TABLE a run goes on with the empty table. */
  lemma {:induction false} Start(script: seq<TableStatement>, last: TableState, replies: seq<Reply>)
    requires Ends(T([], map[]), script, last, replies)
    ensures Run([], [CREATE] + script) == ([last], [Done(0)] + replies)
  {
    var db: DbState := [];
    assert ColumnsOf(CREATE.columns) == COLUMNS;
    assert db + [T([], map[])] == [T([], map[])];
    assert ([CREATE] + script)[1..] == script;
  }

  /** The first statement of a script takes the one table from `t` to `t'`. */
  lemma {:induction false} GoOn(t: TableState, s: TableStatement, t': TableState, reply: Reply,
                                script: seq<TableStatement>, last: TableState, replies: seq<Reply>)
    requires OnTable(s) && s.table == "t" && t.name == "t" && TableStep(t, s) == (t', reply)
    requires Ends(t', script, last, replies)
    ensures Ends(t, [s] + script, last, [reply] + replies)
  {
    FirstWhereFound(Called("t"), [t], 0);
    assert [t][0 := t'] == [t'];
    assert ([s] + script)[1..] == script;
  }

  lemma {:induction false} LastStep(t: TableState, s: TableStatement, t': TableState, reply: Reply)
    requires OnTable(s) && s.table == "t" && t.name == "t" && TableStep(t, s) == (t', reply) && t'.name == "t"
    ensures Ends(t, [s], t', [reply])
  {
    assert Ends(t', [], t', []);
    GoOn(t, s, t', reply, [], t', []);
    assert [s] + [] == [s] && [reply] + [] == [reply];
  }

  lemma {:induction false} Inserted(rows: seq<Row>, index: map<int, int>, a: string, b: string)
    ensures var k := Atoi(a);
            TableStep(T(rows, index), Row2(a, b)) ==
            if k in index then (T(rows, index), Failed(DuplicateKey(k)))
            else (T(rows + [[Int(k), Int(Atoi(b))]], index[k := |rows|]), Done(1))
  {
    Schema();
    assert RowOf([Num(a), Num(b)]) == [Int(Atoi(a)), Int(Atoi(b))];
  }

  lemma {:induction false} PicksByN(b: string, row: Row)
    requires |row| == 2 && row[1].Int?
    ensures Picks(COLUMNS, WhereN(b))(row) <==> row[1].n == Atoi(b)
  {
    Schema();
  }

  /** UPDATE of the key in the one row that a condition picks. */
  lemma {:induction false} OneSet(rows: seq<Row>, index: map<int, int>, a: string, cond: Condition, at: nat, row: Row)
    requires at < |rows| && |rows[at]| == 2 && row == [Int(Atoi(a)), rows[at][1]] && KnownCondition(COLUMNS, cond)
    requires forall i | 0 <= i < |rows| :: Picks(COLUMNS, cond)(rows[i]) <==> i == at
    ensures TableStep(T(rows, index), SetId(a, cond)) == (T(rows[at := row], index[Atoi(a) := at]), Done(1))
  {
    Schema();
    var p, v := Picks(COLUMNS, cond), Int(Atoi(a));
    PicksOne(p, rows, at);
    LastPicked(p, rows, at);
    assert rows[at][0 := v] == row;
    assert SetCells(p, rows, 0, v) == rows[at := row];
    assert UpdatedIndex(index, p, rows, 0, 0, v) == index[Atoi(a) := at];
  }

  lemma {:induction false} FirstInserted(t1: TableState)
    requires t1 == T([[Int(1), Int(1)]], map[1 := 0])
    ensures TableStep(T([], map[]), Row2("1", "1")) == (t1, Done(1))
  {
    DigitTexts();
    Inserted([], map[], "1", "1");
    var none: seq<Row> := [];
    assert none + [[Int(1), Int(1)]] == t1.rows;
  }

  lemma {:induction false} StringInserted(t1: TableState)
    requires t1 == T([[Str("x"), Int(1)]], map[0 := 0])
    ensures TableStep(T([], map[]), Insert("t", [Literal("x", false), Num("1")])) == (t1, Done(1))
  {
    DigitTexts();
    Schema();
    assert RowOf([Literal("x", false), Num("1")]) == [Str("x"), Int(1)];
    var none: seq<Row> := [];
    assert none + [[Str("x"), Int(1)]] == t1.rows;
  }

  /** What INSERT of (1, 1) and (2, 2) leave. */
  function TwoRows(): TableState {
    T([[Int(1), Int(1)], [Int(2), Int(2)]], map[1 := 0, 2 := 1])
  }

  lemma {:induction false} AfterTwoRows(script: seq<TableStatement>, last: TableState, replies: seq<Reply>)
    requires Ends(TwoRows(), script, last, replies)
    ensures Run([], [CREATE] + ([Row2("1", "1")] + ([Row2("2", "2")] + script))) ==
            ([last], [Done(0)] + ([Done(1)] + ([Done(1)] + replies)))
  {
    DigitTexts();
    var t1 := T([[Int(1), Int(1)]], map[1 := 0]);
    FirstInserted(t1);
    Inserted(t1.rows, t1.index, "2", "2");
    assert t1.rows + [[Int(2), Int(2)]] == TwoRows().rows;
    GoOn(t1, Row2("2", "2"), TwoRows(), Done(1), script, last, replies);
    var rest := [Row2("2", "2")] + script;
    GoOn(T([], map[]), Row2("1", "1"), t1, Done(1), rest, last, [Done(1)] + replies);
    Start([Row2("1", "1")] + rest, last, [Done(1)] + ([Done(1)] + replies));
  }

  /** UPDATE of the key in the row of the two that has n = b. */
  lemma {:induction false} TwoSet(a: string, b: string, at: nat, t': TableState)
    requires at < 2 && forall i | 0 <= i < 2 :: TwoRows().rows[i][1] == Int(Atoi(b)) <==> i == at
    requires t' == T(TwoRows().rows[at := [Int(Atoi(a)), TwoRows().rows[at][1]]], TwoRows().index[Atoi(a) := at])
    ensures TableStep(TwoRows(), SetId(a, WhereN(b))) == (t', Done(1))
  {
    Schema();
    var rows := TwoRows().rows;
    PicksByN(b, rows[0]);
    PicksByN(b, rows[1]);
    OneSet(rows, TwoRows().index, a, WhereN(b), at, [Int(Atoi(a)), rows[at][1]]);
  }

  lemma {:induction false} TwinMade(t3: TableState)
    requires t3 == T([[Int(1), Int(1)], [Int(1), Int(2)]], map[1 := 1, 2 := 1])
    ensures TableStep(TwoRows(), SetId("1", WhereN("2"))) == (t3, Done(1))
  {
    DigitTexts();
    TwoSet("1", "2", 1, t3);
  }

  lemma {:induction false} TwinInserted(t4: TableState, t5: TableState)
    requires t4 == T([[Int(1), Int(1)]], map[2 := 1])
    requires t5 == T([[Int(1), Int(1)], [Int(1), Int(0)]], map[1 := 1, 2 := 1])
    ensures TableStep(t4, Row2("1", "0")) == (t5, Done(1))
  {
    DigitTexts();
    Inserted(t4.rows, t4.index, "1", "0");
    assert t4.rows + [[Int(1), Int(0)]] == t5.rows && t4.index[1 := 1] == t5.index;
  }

  lemma {:induction false} OneKey(p: Row -> bool, rows: seq<Row>, key: nat, at: nat, k: int)
    requires HasKeyAt(rows, key, at, k) && forall i | 0 <= i < |rows| :: p(rows[i]) <==> i == at
    ensures KeysOf(p, rows, key) == {k}
  {
    forall n
      ensures n in KeysOf(p, rows, key) <==> n == k
    {
      KeyOfRow(p, rows, key, n);
    }
  }

  /** DELETE of the second of two rows. */
  lemma {:induction false} SecondDeleted(rows: seq<Row>, index: map<int, int>, cond: Condition, k: int)
    requires |rows| == 2 && HasKeyAt(rows, 0, 1, k) && KnownCondition(COLUMNS, cond)
    requires !Picks(COLUMNS, cond)(rows[0]) && Picks(COLUMNS, cond)(rows[1])
    ensures TableStep(T(rows, index), Delete("t", cond)) == (T([rows[0]], index - {k}), Done(1))
  {
    Schema();
    var p := Picks(COLUMNS, cond);
    PicksOne(p, rows, 1);
    PicksOne(Not(p), rows, 0);
    OneKey(p, rows, 0, 1, k);
  }

  lemma {:induction false} TwinDeleted(t3: TableState, t4: TableState)
    requires t3 == T([[Int(1), Int(1)], [Int(1), Int(2)]], map[1 := 1, 2 := 1])
    requires t4 == T([[Int(1), Int(1)]], map[2 := 1])
    ensures TableStep(t3, Delete("t", WhereN("2"))) == (t4, Done(1))
  {
    DigitTexts();
    Schema();
    PicksByN("2", t3.rows[0]);
    PicksByN("2", t3.rows[1]);
    SecondDeleted(t3.rows, t3.index, WhereN("2"), 1);
    assert t3.index - {1} == t4.index;
  }

  lemma {:induction false} LastPicked(p: Row -> bool, rows: seq<Row>, at: nat)
    requires at < |rows| && p(rows[at])
    requires forall i | at < i < |rows| :: !p(rows[i])
    ensures LastWhere(p, rows) == at
  {
    if LastWhere(p, rows) < at {
      LastWhereIsLast(p, rows, at);
    }
  }

  lemma {:induction false} FourParts<A>(s: seq<A>)
    requires |s| == 4
    ensures s == [s[0]] + ([s[1]] + ([s[2]] + [s[3]]))
  {
  }

  lemma {:induction false} SixParts<A>(s: seq<A>)
    requires |s| == 6
    ensures s == [s[0]] + ([s[1]] + ([s[2]] + ([s[3]] + ([s[4]] + [s[5]]))))
  {
  }

  // ------------------------------------------------------------------- runs

  /** UPDATE of a key leaves the old key in the index: INSERT refuses the key 1
      although no row holds it any more. */
  lemma {:induction false} OldKeyRefused(script: seq<TableStatement>)
    requires script == [CREATE, Row2("1", "1"), SetId("2", Always), Row2("1", "0")]
    ensures var (db, replies) := Run([], script);
            && replies == [Done(0), Done(1), Done(1), Failed(DuplicateKey(1))]
            && |db| == 1 && !HoldsKey(db[0].rows, 0, 1)
  {
    DigitTexts();
    var t1, t2 := T([[Int(1), Int(1)]], map[1 := 0]), T([[Int(2), Int(1)]], map[1 := 0, 2 := 0]);
    FirstInserted(t1);
    OneSet(t1.rows, t1.index, "2", Always, 0, [Int(2), Int(1)]);
    assert t1.rows[0 := [Int(2), Int(1)]] == t2.rows && t1.index[2 := 0] == t2.index;
    Inserted(t2.rows, t2.index, "1", "0");
    LastStep(t2, script[3], t2, Failed(DuplicateKey(1)));
    GoOn(t1, script[2], t2, Done(1), [script[3]], t2, [Failed(DuplicateKey(1))]);
    TwoSteps(t1, script, t2, Done(1), Failed(DuplicateKey(1)));
  }

  /** A run of CREATE TABLE, INSERT (1, 1) and two more statements. */
  lemma {:induction false} TwoSteps(t1: TableState, script: seq<TableStatement>, last: TableState, r2: Reply, r3: Reply)
    requires |script| == 4 && script[0] == CREATE && script[1] == Row2("1", "1")
    requires t1 == T([[Int(1), Int(1)]], map[1 := 0])
    requires Ends(t1, [script[2]] + [script[3]], last, [r2] + [r3])
    ensures Run([], script) == ([last], [Done(0), Done(1), r2, r3])
  {
    FirstInserted(t1);
    GoOn(T([], map[]), script[1], t1, Done(1), [script[2]] + [script[3]], last, [r2] + [r3]);
    Start([script[1]] + ([script[2]] + [script[3]]), last, [Done(1)] + ([r2] + [r3]));
    FourParts(script);
    FourParts([Done(0), Done(1), r2, r3]);
  }

  /** A key that is not an integer is filed under 0: INSERT then refuses the key 0
      although no row holds it. */
  lemma {:induction false} PhantomZero(script: seq<TableStatement>)
    requires script == [CREATE, Insert("t", [Literal("x", false), Num("1")]), Row2("0", "2")]
    ensures var (db, replies) := Run([], script);
            && replies == [Done(0), Done(1), Failed(DuplicateKey(0))]
            && |db| == 1 && !HoldsKey(db[0].rows, 0, 0)
  {
    var t1 := T([[Str("x"), Int(1)]], map[0 := 0]);
    StringInserted(t1);
    DigitTexts();
    Inserted(t1.rows, t1.index, "0", "2");
    LastStep(t1, script[2], t1, Failed(DuplicateKey(0)));
    GoOn(T([], map[]), script[1], t1, Done(1), [script[2]], t1, [Failed(DuplicateKey(0))]);
    Start([script[1]] + [script[2]], t1, [Done(1)] + [Failed(DuplicateKey(0))]);
    assert script == [CREATE] + ([script[1]] + [script[2]]);
    assert [Done(0)] + ([Done(1)] + [Failed(DuplicateKey(0))]) == [Done(0), Done(1), Failed(DuplicateKey(0))];
  }

  /** INSERT takes a string into an integer column: the saved table then does not
      come back from its file. */
  lemma {:induction false} StringLost(script: seq<TableStatement>)
    requires script == [CREATE, Insert("t", [Num("1"), Literal("x", false)])]
    ensures var (db, replies) := Run([], script);
            && replies == [Done(0), Done(1)] && |db| == 1
            && Load(FileText(db[0].columns, db[0].rows), [], []) != Loaded(true, db[0].columns, db[0].rows)
  {
    var t1 := T([[Int(1), Str("x")]], map[1 := 0]);
    MixedInserted(t1);
    LastStep(T([], map[]), script[1], t1, Done(1));
    Start([script[1]], t1, [Done(1)]);
    assert script == [CREATE] + [script[1]] && [Done(0)] + [Done(1)] == [Done(0), Done(1)];
    MixedNotKept();
    SaveLoadRoundTrip(t1.columns, t1.rows, [], []);
  }

  lemma {:induction false} MixedInserted(t1: TableState)
    requires t1 == T([[Int(1), Str("x")]], map[1 := 0])
    ensures TableStep(T([], map[]), Insert("t", [Num("1"), Literal("x", false)])) == (t1, Done(1))
  {
    DigitTexts();
    Schema();
    assert RowOf([Num("1"), Literal("x", false)]) == [Int(1), Str("x")];
    var none: seq<Row> := [];
    assert none + [[Int(1), Str("x")]] == t1.rows;
  }

  lemma {:induction false} MixedNotKept()
    ensures !Reloadable(COLUMNS, [[Int(1), Str("x")]])
  {
    var columns, row := COLUMNS[1..], [Int(1), Str("x")][1..];
    assert columns[0] == Column("n", IntType, false) && row[0] == Str("x");
    assert !RowKept(columns, row);
    assert !RowKept(COLUMNS, [Int(1), Str("x")]);
    assert [[Int(1), Str("x")]][0] == [Int(1), Str("x")];
  }

  /** UPDATE can file a key in front of a row that holds it: the row number in the
      index is then too small. */
  lemma {:induction false} FiledTooLow(script: seq<TableStatement>)
    requires script == [CREATE, Row2("1", "1"), Row2("2", "2"), SetId("2", WhereN("1"))]
    ensures var (db, replies) := Run([], script);
            && replies == [Done(0), Done(1), Done(1), Done(1)]
            && |db| == 1 && db[0].columns == COLUMNS && !NeverLow(db[0])
  {
    DigitTexts();
    var t3 := T([[Int(2), Int(1)], [Int(2), Int(2)]], map[1 := 0, 2 := 0]);
    TwoSet("2", "1", 0, t3);
    LastStep(TwoRows(), script[3], t3, Done(1));
    FourSteps(script, t3);
    FiledLow(t3);
  }

  lemma {:induction false} FiledLow(t3: TableState)
    requires t3 == T([[Int(2), Int(1)], [Int(2), Int(2)]], map[1 := 0, 2 := 0])
    ensures !NeverLow(t3)
  {
    Schema();
    assert HasKeyAt(t3.rows, 0, 1, 2);
  }

  lemma {:induction false} FourSteps(script: seq<TableStatement>, last: TableState)
    requires |script| == 4 && script[0] == CREATE && script[1] == Row2("1", "1") && script[2] == Row2("2", "2")
    requires Ends(TwoRows(), [script[3]], last, [Done(1)])
    ensures Run([], script) == ([last], [Done(0), Done(1), Done(1), Done(1)])
  {
    AfterTwoRows([script[3]], last, [Done(1)]);
    FourParts(script);
    FourParts([Done(0), Done(1), Done(1), Done(1)]);
  }

  /** UPDATE can give two rows one key, and DELETE of one of them takes the key out
      of the index: INSERT then accepts the key 1 although a row holds it. */
  lemma {:induction false} DuplicateAccepted(script: seq<TableStatement>)
    requires script == [CREATE, Row2("1", "1"), Row2("2", "2"),
                        SetId("1", WhereN("2")), Delete("t", WhereN("2")), Row2("1", "0")]
    ensures var (db, replies) := Run([], script);
            && replies == [Done(0), Done(1), Done(1), Done(1), Done(1), Done(1)]
            && |db| == 1 && HasKeyAt(db[0].rows, 0, 0, 1) && HasKeyAt(db[0].rows, 0, 1, 1)
  {
    var t3 := T([[Int(1), Int(1)], [Int(1), Int(2)]], map[1 := 1, 2 := 1]);
    var t4 := T([[Int(1), Int(1)]], map[2 := 1]);
    var t5 := T([[Int(1), Int(1)], [Int(1), Int(0)]], map[1 := 1, 2 := 1]);
    TwinMade(t3);
    TwinDeleted(t3, t4);
    TwinInserted(t4, t5);
    LastStep(t4, script[5], t5, Done(1));
    GoOn(t3, script[4], t4, Done(1), [script[5]], t5, [Done(1)]);
    GoOn(TwoRows(), script[3], t3, Done(1), [script[4]] + [script[5]], t5, [Done(1)] + [Done(1)]);
    SixSteps(script, t5);
  }

  lemma {:induction false} SixSteps(script: seq<TableStatement>, last: TableState)
    requires |script| == 6 && script[0] == CREATE && script[1] == Row2("1", "1") && script[2] == Row2("2", "2")
    requires Ends(TwoRows(), [script[3]] + ([script[4]] + [script[5]]), last, [Done(1)] + ([Done(1)] + [Done(1)]))
    ensures Run([], script) == ([last], [Done(0), Done(1), Done(1), Done(1), Done(1), Done(1)])
  {
    var rest, done := [script[3]] + ([script[4]] + [script[5]]), [Done(1)] + ([Done(1)] + [Done(1)]);
    AfterTwoRows(rest, last, done);
    SixParts(script);
    SixParts([Done(0), Done(1), Done(1), Done(1), Done(1), Done(1)]);
  }
}

/** When INSERT decides about a key as a scan of the table would. */
module ScanVerdicts {
  import opened Sequences
  import opened Numbers
  import opened Values
  import opened Ast
  import opened Relational
  import opened StatementLaws
  import opened RunLaws
  import opened KeyAgreement
  import opened KeySafety

  // ------------------------------------------------------- no phantom keys

  /** Every key in the index is held by some row. */
  ghost predicate NoPhantom(t: TableState) {
    KeyColumn(t.columns) >= 0 ==>
      forall k :: k in t.index ==> HoldsKey(t.rows, KeyColumn(t.columns), k)
  }

  /** The keys an UPDATE of the key column leaves to the table: those of the rows
      it does not pick, and the new one. */
  function KeysLeft(p: Row -> bool, rows: seq<Row>, key: int, v: Value): set<int> {
    KeysOf(Not(p), rows, key) + if v.Int? then {v.n} else {}
  }

  /** The statements that leave no key in the index without a row: an INSERT with
      another key needs a row of key 0, and an UPDATE of the key column must leave
      every filed key it takes from a row to another row. */
  ghost predicate LeavesNoKey(t: TableState, s: Statement) {
    var key := KeyColumn(t.columns);
    match s
    case Insert(_, values) =>
      |values| != |t.columns| || key < 0 || values[key].isInt || HoldsKey(t.rows, key, 0)
    case Update(_, column, value, cond) =>
      || key < 0 || FindColumn(t.columns, column) != key || !KnownCondition(t.columns, cond)
      || (var p := Picks(t.columns, cond);
          KeysOf(p, t.rows, key) * t.index.Keys <= KeysLeft(p, t.rows, key, LiteralValue(value)))
    case _ => true
  }

  lemma {:induction false} InsertLeaves(t: TableState, s: Statement)
    requires s.Insert? && RowsFit(t) && NoPhantom(t)
    ensures NoPhantom(InsertInto(t, s.values).0) <==> LeavesNoKey(t, s)
  {
    var key, t' := KeyColumn(t.columns), InsertInto(t, s.values).0;
    if key >= 0 && InsertInto(t, s.values).1.Done? {
      var row := RowOf(s.values);
      forall k
        ensures HoldsKey(t'.rows, key, k) <==> HoldsKey(t.rows, key, k) || row[key] == Int(k)
      {
        HoldsKeyAppend(t.rows, row, key, k);
      }
      assert FiledKey(row, key) in t'.index;
    }
  }

  lemma {:induction false} DeleteLeaves(t: TableState, cond: Condition)
    requires RowsFit(t) && NoPhantom(t)
    ensures NoPhantom(DeleteFrom(t, cond).0)
  {
    var key, t' := KeyColumn(t.columns), DeleteFrom(t, cond).0;
    if key >= 0 && KnownCondition(t.columns, cond) {
      var p := Picks(t.columns, cond);
      forall k | k in t'.index
        ensures HoldsKey(t'.rows, key, k)
      {
        HoldsKeyFiltered(Not(p), t.rows, key, k);
        KeyOfRow(p, t.rows, key, k);
      }
    }
  }

  lemma {:induction false} OtherUpdateLeaves(t: TableState, s: Statement)
    requires s.Update? && RowsFit(t) && NoPhantom(t) && KeyColumn(t.columns) >= 0
    requires FindColumn(t.columns, s.column) != KeyColumn(t.columns) || !KnownCondition(t.columns, s.cond)
    ensures NoPhantom(UpdateIn(t, s.column, s.value, s.cond).0)
  {
    var key, t' := KeyColumn(t.columns), UpdateIn(t, s.column, s.value, s.cond).0;
    if t' != t {
      var col := FindColumn(t.columns, s.column);
      OtherColumnKeepsKeys(Picks(t.columns, s.cond), t.rows, col, LiteralValue(s.value), key);
      forall k | k in t'.index
        ensures HoldsKey(t'.rows, key, k)
      {
        var i :| 0 <= i < |t.rows| && HasKeyAt(t.rows, key, i, k);
        assert HasKeyAt(t'.rows, key, i, k);
      }
    }
  }

  /** What a scan finds after the key column is set in the rows that are picked. */
  lemma {:induction false} HeldAfterSet(p: Row -> bool, rows: seq<Row>, key: nat, v: Value, k: int)
    requires forall i | 0 <= i < |rows| :: key < |rows[i]|
    ensures HoldsKey(SetCells(p, rows, key, v), key, k) <==>
            k in KeysOf(Not(p), rows, key) || (v == Int(k) && LastWhere(p, rows) >= 0)
  {
    var rows', last := SetCells(p, rows, key, v), LastWhere(p, rows);
    KeyOfRow(Not(p), rows, key, k);
    if HoldsKey(rows', key, k) {
      var i :| 0 <= i < |rows'| && HasKeyAt(rows', key, i, k);
      if p(rows[i]) {
        if last < i {
          LastWhereIsLast(p, rows, i);
        }
      } else {
        assert HasKeyAt(rows, key, i, k) && Not(p)(rows[i]);
      }
    }
    if v == Int(k) && last >= 0 {
      assert HasKeyAt(rows', key, last, k);
    }
    if i :| HasKeyAt(rows, key, i, k) && Not(p)(rows[i]) {
      assert HasKeyAt(rows', key, i, k);
    }
  }

  /** A held key belongs to a picked row or to another one. */
  lemma {:induction false} HeldSplits(p: Row -> bool, rows: seq<Row>, key: int, k: int)
    ensures HoldsKey(rows, key, k) <==> k in KeysOf(p, rows, key) || k in KeysOf(Not(p), rows, key)
    ensures k in KeysOf(p, rows, key) ==> LastWhere(p, rows) >= 0
  {
    KeyOfRow(p, rows, key, k);
    KeyOfRow(Not(p), rows, key, k);
    if i :| 0 <= i < |rows| && HasKeyAt(rows, key, i, k) {
      assert p(rows[i]) || Not(p)(rows[i]);
    }
    if i :| HasKeyAt(rows, key, i, k) && p(rows[i]) {
      if LastWhere(p, rows) < i {
        LastWhereIsLast(p, rows, i);
      }
    }
  }

  lemma {:induction false} KeyUpdateLeaves(t: TableState, s: Statement, key: int, p: Row -> bool, v: Value)
    requires s.Update? && RowsFit(t) && NoPhantom(t)
    requires key == KeyColumn(t.columns) == FindColumn(t.columns, s.column) && key >= 0
    requires KnownCondition(t.columns, s.cond) && p == Picks(t.columns, s.cond) && v == LiteralValue(s.value)
    ensures NoPhantom(UpdateIn(t, s.column, s.value, s.cond).0) <==> LeavesNoKey(t, s)
  {
    var t' := UpdateIn(t, s.column, s.value, s.cond).0;
    forall k
      ensures k in t'.index && !HoldsKey(t'.rows, key, k) <==>
              k in KeysOf(p, t.rows, key) && k in t.index && k !in KeysLeft(p, t.rows, key, v)
    {
      HeldAfterSet(p, t.rows, key, v, k);
      HeldSplits(p, t.rows, key, k);
    }
    assert LeavesNoKey(t, s) <==>
      forall k :: k in KeysOf(p, t.rows, key) && k in t.index ==> k in KeysLeft(p, t.rows, key, v);
  }

  /** A statement leaves no key in the index without a row if and only if it meets
      the condition. */
  lemma {:induction false} NoPhantomIff(t: TableState, s: Statement)
    requires OnTable(s) && RowsFit(t) && NoPhantom(t)
    ensures NoPhantom(TableStep(t, s).0) <==> LeavesNoKey(t, s)
  {
    var key := KeyColumn(t.columns);
    match s
    case Select(_, _, _) =>
    case Insert(_, _) => InsertLeaves(t, s);
    case Delete(_, cond) => DeleteLeaves(t, cond);
    case Update(_, column, value, cond) =>
      if key >= 0 {
        if FindColumn(t.columns, column) != key || !KnownCondition(t.columns, cond) {
          OtherUpdateLeaves(t, s);
        } else {
          KeyUpdateLeaves(t, s, key, Picks(t.columns, cond), LiteralValue(value));
        }
      }
  }

  lemma {:induction false} NoPhantomOverRuns(db: DbState, script: seq<TableStatement>)
    requires AllTables(NoPhantom, db)
    ensures Throughout(NoPhantom, db, script) <==> EveryStep(LeavesNoKey, db, script)
  {
    forall t: TableState, s: Statement | OnTable(s) && RowsFit(t) && NoPhantom(t)
      ensures NoPhantom(TableStep(t, s).0) <==> LeavesNoKey(t, s)
    {
      NoPhantomIff(t, s);
    }
    RunLaw(NoPhantom, LeavesNoKey, db, script);
  }

  // ---------------------------------------------- exactly the scanned keys

  /** The index holds exactly the integer keys a scan finds. */
  ghost predicate ScanExact(t: TableState) {
    Covered(t) && NoPhantom(t)
  }

  ghost predicate KeepsScan(t: TableState, s: Statement) {
    KeepsTwins(t, s) && LeavesNoKey(t, s)
  }

  lemma {:induction false} ScanExactIff(t: TableState, s: Statement)
    requires OnTable(s) && RowsFit(t) && ScanExact(t)
    ensures ScanExact(TableStep(t, s).0) <==> KeepsScan(t, s)
  {
    CoverageIff(t, s);
    NoPhantomIff(t, s);
  }

  lemma {:induction false} KeepsScanIsExact()
    ensures GoodWhenNew(ScanExact) && ExactFor(ScanExact, KeepsScan)
  {
    forall t: TableState, s: Statement | OnTable(s) && RowsFit(t) && ScanExact(t)
      ensures ScanExact(TableStep(t, s).0) <==> KeepsScan(t, s)
    {
      ScanExactIff(t, s);
    }
  }

  /** All along a run every index holds exactly the keys a scan finds, if and only
      if every step meets the condition. */
  lemma {:induction false} ScanExactOverRuns(db: DbState, script: seq<TableStatement>)
    requires AllTables(ScanExact, db)
    ensures Throughout(ScanExact, db, script) <==> EveryStep(KeepsScan, db, script)
  {
    KeepsScanIsExact();
    RunLaw(ScanExact, KeepsScan, db, script);
  }

  // ------------------------------------------------------------ the verdict

  /** Values for a new row whose key is the integer k. */
  predicate WithKey(t: TableState, values: seq<Literal>, k: int) {
    && KeyColumn(t.columns) >= 0 && |values| == |t.columns|
    && LiteralValue(values[KeyColumn(t.columns)]) == Int(k)
  }

  /** INSERT refuses the key if a scan finds it, and else accepts the row. */
  ghost predicate Decided(t: TableState, values: seq<Literal>, k: int) {
    InsertInto(t, values).1 == if HoldsKey(t.rows, KeyColumn(t.columns), k) then Failed(DuplicateKey(k)) else Done(1)
  }

  /** INSERT decides about every integer key as a scan of the table would. */
  ghost predicate DecidesByScan(t: TableState) {
    forall values, k | WithKey(t, values, k) :: Decided(t, values, k)
  }

  /** Some row with that key can always be written down. */
  lemma {:induction false} SomeValues(t: TableState, k: int) returns (values: seq<Literal>)
    requires KeyColumn(t.columns) >= 0
    ensures WithKey(t, values, k)
  {
    values := seq(|t.columns|, i => Literal(IntText(k), true));
    AtoiOfText(k, "");
    assert IntText(k) + "" == IntText(k);
  }

  /** INSERT decides by what a scan finds if and only if the index holds exactly
      the keys a scan finds. */
  lemma {:induction false} VerdictIff(t: TableState)
    ensures DecidesByScan(t) <==> ScanExact(t)
  {
    var key := KeyColumn(t.columns);
    if key >= 0 && DecidesByScan(t) {
      forall k
        ensures k in t.index <==> HoldsKey(t.rows, key, k)
      {
        var values := SomeValues(t, k);
        assert Decided(t, values, k);
      }
      forall i, k | HasKeyAt(t.rows, key, i, k)
        ensures k in t.index
      {
        assert HoldsKey(t.rows, key, k);
      }
    }
  }

  /** At every moment of a run INSERT decides about every integer key as a scan
      would, if and only if no step of the run leaves a key in the index without a
      row or takes from it a key that a row still holds. */
  lemma {:induction false} DuplicateIffScanFinds(db: DbState, script: seq<TableStatement>)
    requires AllTables(DecidesByScan, db)
    ensures Throughout(DecidesByScan, db, script) <==> EveryStep(KeepsScan, db, script)
  {
    forall t: TableState
      ensures DecidesByScan(t) <==> ScanExact(t)
    {
      VerdictIff(t);
    }
    ThroughoutSame(DecidesByScan, ScanExact, db, script);
    ScanExactOverRuns(db, script);
  }

  /** So after such a run from the empty database the reply to an INSERT is the one
      a scan calls for. */
  lemma {:induction false} ReplyAfterRun(script: seq<TableStatement>, i: nat, values: seq<Literal>, k: int)
    requires EveryStep(KeepsScan, [], script)
    requires var db := Run([], script).0; i < |db| && WithKey(db[i], values, k)
    ensures var db := Run([], script).0;
            Step(db, Insert(db[i].name, values)).1 ==
            if HoldsKey(db[i].rows, KeyColumn(db[i].columns), k) then Failed(DuplicateKey(k)) else Done(1)
  {
    ScanExactOverRuns([], script);
    GoodAtTheEnd(ScanExact, [], script);
    var db := Run([], script).0;
    VerdictIff(db[i]);
    assert Decided(db[i], values, k);
    LocateKnown(db, i, db[i].name);
  }

  // ---------------------------------------------------------- harmless runs

  lemma {:induction false} AgreeingIsScanExact(t: TableState)
    requires Agrees(t)
    ensures ScanExact(t)
  {
    var key := KeyColumn(t.columns);
    if key >= 0 {
      forall i, k | HasKeyAt(t.rows, key, i, k)
        ensures k in t.index
      {
        assert HoldsKey(t.rows, key, k);
      }
    }
  }

  lemma {:induction false} HarmlessKeepsScan(t: TableState, s: Statement)
    requires OnTable(s) && RowsFit(t) && Agrees(t) && Harmless(t, s)
    ensures KeepsScan(t, s)
  {
    AgreementIff(t, s);
    AgreeingIsScanExact(t);
    AgreeingIsScanExact(TableStep(t, s).0);
    ScanExactIff(t, s);
  }

  /** Harmless runs are among them. */
  lemma {:induction false} HarmlessRunKeepsScan(db: DbState, script: seq<TableStatement>)
    requires AllAgree(db) && HarmlessRun(db, script)
    ensures EveryStep(KeepsScan, db, script)
    decreases |script|
  {
    if script != [] {
      var s := script[0];
      AllAgreeIff(db, s);
      if OnTable(s) && Locate(db, s.table) >= 0 {
        HarmlessKeepsScan(db[Locate(db, s.table)], s);
      }
      HarmlessRunKeepsScan(Step(db, s).0, script[1..]);
    }
  }
}

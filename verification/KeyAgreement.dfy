/** When the primary key index agrees with a scan of the table, over whole runs. */
module KeyAgreement {
  import opened Sequences
  import opened Values
  import opened Ast
  import opened Relational
  import opened RunLaws

  /** A scan of the key column finds key `k`. */
  ghost predicate HoldsKey(rows: seq<Row>, key: int, k: int) {
    exists i :: 0 <= i < |rows| && HasKeyAt(rows, key, i, k)
  }

  predicate HasKeyAt(rows: seq<Row>, key: int, i: int, k: int) {
    0 <= i < |rows| && 0 <= key < |rows[i]| && rows[i][key] == Int(k)
  }

  ghost predicate AllKeysInt(rows: seq<Row>, key: int) {
    forall i | 0 <= i < |rows| :: 0 <= key < |rows[i]| && rows[i][key].Int?
  }

  ghost predicate KeysDistinct(rows: seq<Row>, key: int) {
    forall i, j, k :: HasKeyAt(rows, key, i, k) && HasKeyAt(rows, key, j, k) ==> i == j
  }

  /** The index holds exactly the keys a scan finds, all of them integers and no
      two alike. Without a key column the index stays empty. */
  ghost predicate Agrees(t: TableState) {
    var key := KeyColumn(t.columns);
    if key < 0 then t.index == map[]
    else
      && AllKeysInt(t.rows, key)
      && KeysDistinct(t.rows, key)
      && forall k :: k in t.index <==> HoldsKey(t.rows, key, k)
  }

  /** The statements that keep an agreeing table agreeing: an INSERT needs an
      integer literal for the key, and an UPDATE that sets the key column must
      pick no row, or one row that already holds that very key. */
  predicate Harmless(t: TableState, s: Statement) {
    var key := KeyColumn(t.columns);
    match s
    case Insert(_, values) => |values| != |t.columns| || key < 0 || values[key].isInt
    case Update(_, column, value, cond) =>
      || KeyColumn(t.columns) < 0
      || FindColumn(t.columns, column) != key
      || !KnownCondition(t.columns, cond)
      || (var picked := Filter(Picks(t.columns, cond), t.rows);
          || picked == []
          || (|picked| == 1 && key < |picked[0]| && picked[0][key] == LiteralValue(value)))
    case _ => true
  }

  // ---------------------------------------------------------------- INSERT

  lemma {:induction false} HoldsKeyAppend(rows: seq<Row>, row: Row, key: int, k: int)
    ensures HoldsKey(rows + [row], key, k) <==> HoldsKey(rows, key, k) || (0 <= key < |row| && row[key] == Int(k))
  {
    var rows' := rows + [row];
    if HoldsKey(rows, key, k) {
      var i :| 0 <= i < |rows| && HasKeyAt(rows, key, i, k);
      assert HasKeyAt(rows', key, i, k);
    }
    if 0 <= key < |row| && row[key] == Int(k) {
      assert HasKeyAt(rows', key, |rows|, k);
    }
    if HoldsKey(rows', key, k) {
      var i :| 0 <= i < |rows'| && HasKeyAt(rows', key, i, k);
      if i < |rows| {
        assert HasKeyAt(rows, key, i, k);
      }
    }
  }

  lemma {:induction false} DistinctAppend(rows: seq<Row>, row: Row, key: int)
    requires KeysDistinct(rows, key)
    requires 0 <= key < |row| && row[key].Int? ==> !HoldsKey(rows, key, row[key].n)
    ensures KeysDistinct(rows + [row], key)
  {
    var rows' := rows + [row];
    forall i, j, k | HasKeyAt(rows', key, i, k) && HasKeyAt(rows', key, j, k)
      ensures i == j
    {
      assert i < |rows| ==> HasKeyAt(rows, key, i, k);
      assert j < |rows| ==> HasKeyAt(rows, key, j, k);
    }
  }

  lemma {:induction false} InsertAgrees(t: TableState, s: Statement)
    requires s.Insert? && RowsFit(t) && Agrees(t)
    ensures Agrees(InsertInto(t, s.values).0) <==> Harmless(t, s)
  {
    var (t', reply) := InsertInto(t, s.values);
    var key := KeyColumn(t.columns);
    if key >= 0 && |s.values| == |t.columns| {
      var row := RowOf(s.values);
      if row[key].Int? {
        if reply.Done? {
          DistinctAppend(t.rows, row, key);
          forall k
            ensures k in t'.index <==> HoldsKey(t'.rows, key, k)
          {
            HoldsKeyAppend(t.rows, row, key, k);
          }
        }
      } else {
        assert t'.rows[|t.rows|] == row;
      }
    }
  }

  // ---------------------------------------------------------------- DELETE

  /** What a scan finds after a filter: the keys of the rows that pass. */
  lemma {:induction false} HoldsKeyFiltered(p: Row -> bool, rows: seq<Row>, key: int, k: int)
    ensures HoldsKey(Filter(p, rows), key, k) <==> exists i :: HasKeyAt(rows, key, i, k) && p(rows[i])
  {
    var kept := Filter(p, rows);
    if HoldsKey(kept, key, k) {
      var j :| 0 <= j < |kept| && HasKeyAt(kept, key, j, k);
      var i := FilterOrigin(p, rows, j);
      assert HasKeyAt(rows, key, i, k);
    }
    if i :| HasKeyAt(rows, key, i, k) && p(rows[i]) {
      FilterPosition(p, rows, i);
      assert HasKeyAt(kept, key, |Filter(p, rows[..i])|, k);
    }
  }

  lemma {:induction false} DistinctFiltered(p: Row -> bool, rows: seq<Row>, key: int)
    requires KeysDistinct(rows, key)
    ensures KeysDistinct(Filter(p, rows), key)
  {
    var kept := Filter(p, rows);
    forall i, j, k | HasKeyAt(kept, key, i, k) && HasKeyAt(kept, key, j, k)
      ensures i == j
    {
      var i' := FilterOrigin(p, rows, i);
      var j' := FilterOrigin(p, rows, j);
      assert HasKeyAt(rows, key, i', k) && HasKeyAt(rows, key, j', k);
    }
  }

  lemma {:induction false} KeyOfRow(p: Row -> bool, rows: seq<Row>, key: int, k: int)
    ensures k in KeysOf(p, rows, key) <==> exists i :: HasKeyAt(rows, key, i, k) && p(rows[i])
  {
    if k in KeysOf(p, rows, key) {
      var i :| 0 <= i < |rows| && p(rows[i]) && k in CellKey(rows[i], key);
      assert HasKeyAt(rows, key, i, k);
    }
    if i :| HasKeyAt(rows, key, i, k) && p(rows[i]) {
      assert k in CellKey(rows[i], key);
    }
  }

  lemma {:induction false} DeleteAgrees(t: TableState, cond: Condition)
    requires RowsFit(t) && Agrees(t)
    ensures Agrees(DeleteFrom(t, cond).0)
  {
    var key := KeyColumn(t.columns);
    if key >= 0 && KnownCondition(t.columns, cond) {
      var p := Picks(t.columns, cond);
      var t' := DeleteFrom(t, cond).0;
      DistinctFiltered(Not(p), t.rows, key);
      FilterMembers(Not(p), t.rows);
      forall i | 0 <= i < |t'.rows|
        ensures t'.rows[i][key].Int?
      {
        assert t'.rows[i] in t.rows;
      }
      forall k
        ensures k in t'.index <==> HoldsKey(t'.rows, key, k)
      {
        HoldsKeyFiltered(Not(p), t.rows, key, k);
        KeyOfRow(p, t.rows, key, k);
      }
    }
  }

  // ---------------------------------------------------------------- UPDATE

  /** Setting another column moves no key. */
  lemma {:induction false} OtherColumnKeepsKeys(p: Row -> bool, rows: seq<Row>, col: int, v: Value, key: int)
    requires col != key
    ensures forall i, k :: HasKeyAt(SetCells(p, rows, col, v), key, i, k) <==> HasKeyAt(rows, key, i, k)
  {
  }

  lemma {:induction false} UpdateOtherAgrees(t: TableState, s: Statement)
    requires s.Update? && RowsFit(t) && Agrees(t)
    requires FindColumn(t.columns, s.column) != KeyColumn(t.columns)
    ensures Agrees(UpdateIn(t, s.column, s.value, s.cond).0)
  {
    var key := KeyColumn(t.columns);
    var t' := UpdateIn(t, s.column, s.value, s.cond).0;
    if key >= 0 && t' != t {
      var col := FindColumn(t.columns, s.column);
      OtherColumnKeepsKeys(Picks(t.columns, s.cond), t.rows, col, LiteralValue(s.value), key);
      assert forall k :: HoldsKey(t'.rows, key, k) <==> HoldsKey(t.rows, key, k);
    }
  }

  /** If all rows a filter picks are the same one, it picks that one. */
  lemma {:induction false} PicksOne<T>(p: T -> bool, s: seq<T>, i: nat)
    requires i < |s| && p(s[i])
    requires forall j | 0 <= j < |s| && p(s[j]) :: j == i
    ensures Filter(p, s) == [s[i]]
  {
    var front := s[..|s| - 1];
    if i < |front| {
      assert !p(s[|s| - 1]);
      PicksOne(p, front, i);
    } else {
      FilterNone(p, front);
    }
  }

  lemma {:induction false} UpdateKeyBreaks(t: TableState, s: Statement, p: Row -> bool, key: int)
    requires s.Update? && RowsFit(t) && Agrees(t)
    requires key == KeyColumn(t.columns) == FindColumn(t.columns, s.column) && key >= 0
    requires KnownCondition(t.columns, s.cond) && p == Picks(t.columns, s.cond)
    requires Filter(p, t.rows) != []
    requires Agrees(UpdateIn(t, s.column, s.value, s.cond).0)
    ensures Harmless(t, s)
  {
    var v := LiteralValue(s.value);
    var t' := UpdateIn(t, s.column, s.value, s.cond).0;
    var i := FilterOrigin(p, t.rows, 0);
    assert t'.rows[i][key] == v && v.Int?;
    forall j | 0 <= j < |t.rows| && p(t.rows[j])
      ensures j == i
    {
      assert HasKeyAt(t'.rows, key, i, v.n) && HasKeyAt(t'.rows, key, j, v.n);
    }
    PicksOne(p, t.rows, i);
    var o := t.rows[i][key].n;
    assert HasKeyAt(t.rows, key, i, o);
    assert o in t'.index;
    var j :| 0 <= j < |t'.rows| && HasKeyAt(t'.rows, key, j, o);
    if j != i {
      assert HasKeyAt(t.rows, key, j, o);
    }
  }

  lemma {:induction false} UpdateKeyAgrees(t: TableState, s: Statement, p: Row -> bool, key: int)
    requires s.Update? && RowsFit(t) && Agrees(t) && Harmless(t, s)
    requires key == KeyColumn(t.columns) == FindColumn(t.columns, s.column) && key >= 0
    requires KnownCondition(t.columns, s.cond) && p == Picks(t.columns, s.cond)
    ensures Agrees(UpdateIn(t, s.column, s.value, s.cond).0)
  {
    var v := LiteralValue(s.value);
    var t' := UpdateIn(t, s.column, s.value, s.cond).0;
    forall i | 0 <= i < |t.rows|
      ensures t'.rows[i] == t.rows[i]
    {
      if p(t.rows[i]) {
        FilterPosition(p, t.rows, i);
      }
    }
    assert t'.rows == t.rows;
    var last := LastWhere(p, t.rows);
    if v.Int? && last >= 0 {
      FilterPosition(p, t.rows, last);
      assert HasKeyAt(t.rows, key, last, v.n);
      assert t'.index.Keys == t.index.Keys;
    }
  }

  // ------------------------------------------------------------- all steps

  /** One statement keeps an agreeing table agreeing if and only if it is
      harmless. */
  lemma {:induction false} AgreementIff(t: TableState, s: Statement)
    requires OnTable(s) && RowsFit(t) && Agrees(t)
    ensures Agrees(TableStep(t, s).0) <==> Harmless(t, s)
  {
    match s
    case Select(_, _, _) =>
    case Insert(_, _) => InsertAgrees(t, s);
    case Delete(_, cond) => DeleteAgrees(t, cond);
    case Update(_, column, _, cond) =>
      var key := KeyColumn(t.columns);
      if key < 0 || FindColumn(t.columns, column) != key {
        UpdateOtherOrNoKey(t, s);
      } else if KnownCondition(t.columns, cond) {
        var p := Picks(t.columns, cond);
        if Harmless(t, s) {
          UpdateKeyAgrees(t, s, p, key);
        } else if Agrees(TableStep(t, s).0) {
          UpdateKeyBreaks(t, s, p, key);
        }
      }
  }

  lemma {:induction false} UpdateOtherOrNoKey(t: TableState, s: Statement)
    requires s.Update? && RowsFit(t) && Agrees(t)
    requires KeyColumn(t.columns) < 0 || FindColumn(t.columns, s.column) != KeyColumn(t.columns)
    ensures Agrees(UpdateIn(t, s.column, s.value, s.cond).0)
  {
    if KeyColumn(t.columns) >= 0 {
      UpdateOtherAgrees(t, s);
    }
  }

  /** New tables agree, and harmless is the exact condition for agreeing ones. */
  lemma {:induction false} HarmlessIsExact()
    ensures GoodWhenNew(Agrees) && ExactFor(Agrees, Harmless)
  {
    forall t: TableState, s: Statement | OnTable(s) && RowsFit(t) && Agrees(t)
      ensures Agrees(TableStep(t, s).0) <==> Harmless(t, s)
    {
      AgreementIff(t, s);
    }
  }

  ghost predicate AllAgree(db: DbState) {
    AllTables(Agrees, db)
  }

  ghost predicate HarmlessStep(db: DbState, s: TableStatement) {
    Allowed(Harmless, db, s)
  }

  ghost predicate HarmlessRun(db: DbState, script: seq<TableStatement>) {
    EveryStep(Harmless, db, script)
  }

  /** The same for the whole database. */
  lemma {:induction false} AllAgreeIff(db: DbState, s: TableStatement)
    requires AllAgree(db)
    ensures AllAgree(Step(db, s).0) <==> HarmlessStep(db, s)
  {
    HarmlessIsExact();
    StepLaw(Agrees, Harmless, db, s);
  }

  /** Every index agrees with its table all along a run if and only if the run is
      harmless. */
  lemma {:induction false} AgreementOverRuns(db: DbState, script: seq<TableStatement>)
    requires AllAgree(db)
    ensures Throughout(Agrees, db, script) <==> HarmlessRun(db, script)
    ensures HarmlessRun(db, script) ==> AllAgree(Run(db, script).0)
  {
    HarmlessIsExact();
    RunLaw(Agrees, Harmless, db, script);
    if HarmlessRun(db, script) {
      GoodAtTheEnd(Agrees, db, script);
    }
  }
}

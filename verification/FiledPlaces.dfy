/** How the row numbers in the index stand to the true places of the rows, for
    any statements: when they are never too small, and when they are exact. */
module FiledPlaces {
  import opened Sequences
  import opened Ast
  import opened Relational
  import opened StatementLaws
  import opened RunLaws
  import opened KeyAgreement
  import opened KeySafety

  // -------------------------------------------------------- never too small

  /** Every integer key is filed, at or above the place of each row that holds it. */
  ghost predicate NeverLow(t: TableState) {
    KeyColumn(t.columns) >= 0 ==>
      forall i, k :: HasKeyAt(t.rows, KeyColumn(t.columns), i, k) ==> k in t.index && i <= t.index[k]
  }

  /** An UPDATE that sets the key to an integer. */
  predicate SetsKey(t: TableState, s: Statement) {
    && s.Update? && KeyColumn(t.columns) >= 0 && FindColumn(t.columns, s.column) == KeyColumn(t.columns)
    && KnownCondition(t.columns, s.cond) && LiteralValue(s.value).Int?
  }

  /** It files the key at its last picked row, in front of a row that holds it. */
  predicate FilesInFront(t: TableState, s: Statement) {
    && SetsKey(t, s)
    && var last := LastWhere(Picks(t.columns, s.cond), t.rows);
       && last >= 0
       && exists j | last < j < |t.rows| :: HasKeyAt(t.rows, KeyColumn(t.columns), j, LiteralValue(s.value).n)
  }

  predicate KeepsHigh(t: TableState, s: Statement) {
    !SplitsTwins(t, s) && !FilesInFront(t, s)
  }

  lemma {:induction false} DeleteLow(t: TableState, s: Statement)
    requires s.Delete? && RowsFit(t) && NeverLow(t)
    ensures NeverLow(DeleteFrom(t, s.cond).0) <==> !SplitsTwins(t, s)
  {
    DeleteCovers(t, s);
    var key, t' := KeyColumn(t.columns), DeleteFrom(t, s.cond).0;
    if key >= 0 && KnownCondition(t.columns, s.cond) && !SplitsTwins(t, s) {
      var p := Picks(t.columns, s.cond);
      forall i, k | HasKeyAt(t'.rows, key, i, k)
        ensures k in t'.index && i <= t'.index[k]
      {
        var o := FilterOrigin(Not(p), t.rows, i);
        assert HasKeyAt(t.rows, key, o, k);
      }
    }
  }

  lemma {:induction false} InsertLow(t: TableState, values: seq<Literal>)
    requires RowsFit(t) && NeverLow(t)
    ensures NeverLow(InsertInto(t, values).0)
  {
    var key, t' := KeyColumn(t.columns), InsertInto(t, values).0;
    if key >= 0 {
      forall i, k | HasKeyAt(t'.rows, key, i, k)
        ensures k in t'.index && i <= t'.index[k]
      {
        assert i < |t.rows| ==> HasKeyAt(t.rows, key, i, k);
      }
    }
  }

  lemma {:induction false} OtherUpdateLow(t: TableState, s: Statement)
    requires s.Update? && RowsFit(t) && NeverLow(t) && !SetsKey(t, s)
    ensures NeverLow(UpdateIn(t, s.column, s.value, s.cond).0)
  {
    var key, t' := KeyColumn(t.columns), UpdateIn(t, s.column, s.value, s.cond).0;
    if key >= 0 {
      forall i, k | HasKeyAt(t'.rows, key, i, k)
        ensures k in t'.index && i <= t'.index[k]
      {
        assert HasKeyAt(t.rows, key, i, k);
      }
    }
  }

  lemma {:induction false} KeyUpdateLow(t: TableState, s: Statement, key: int, p: Row -> bool, k: int)
    requires RowsFit(t) && NeverLow(t) && SetsKey(t, s)
    requires key == KeyColumn(t.columns) && p == Picks(t.columns, s.cond) && k == LiteralValue(s.value).n
    ensures NeverLow(UpdateIn(t, s.column, s.value, s.cond).0) <==> !FilesInFront(t, s)
  {
    var t' := UpdateIn(t, s.column, s.value, s.cond).0;
    var last := LastWhere(p, t.rows);
    assert t'.index == FileLast(t.index, p, t.rows, k);
    forall i, n | HasKeyAt(t'.rows, key, i, n) && !FilesInFront(t, s)
      ensures n in t'.index && i <= t'.index[n]
    {
      if p(t.rows[i]) {
        if last < i {
          LastWhereIsLast(p, t.rows, i);
        }
      } else {
        assert HasKeyAt(t.rows, key, i, n);
      }
    }
    if FilesInFront(t, s) {
      var j :| last < j < |t.rows| && HasKeyAt(t.rows, key, j, k);
      LastWhereIsLast(p, t.rows, j);
      assert HasKeyAt(t'.rows, key, j, k);
    }
  }

  /** A statement keeps every filed number at or above its row, except exactly a
      DELETE that splits rows sharing a key and an UPDATE that files a key in
      front of a row that holds it. */
  lemma {:induction false} NeverLowIff(t: TableState, s: Statement)
    requires OnTable(s) && RowsFit(t) && NeverLow(t)
    ensures NeverLow(TableStep(t, s).0) <==> KeepsHigh(t, s)
  {
    match s
    case Select(_, _, _) =>
    case Insert(_, values) => InsertLow(t, values);
    case Delete(_, _) => DeleteLow(t, s);
    case Update(_, _, value, cond) =>
      if SetsKey(t, s) {
        KeyUpdateLow(t, s, KeyColumn(t.columns), Picks(t.columns, cond), LiteralValue(value).n);
      } else {
        OtherUpdateLow(t, s);
      }
  }

  lemma {:induction false} NeverLowOverRuns(db: DbState, script: seq<TableStatement>)
    requires AllTables(NeverLow, db)
    ensures Throughout(NeverLow, db, script) <==> EveryStep(KeepsHigh, db, script)
  {
    forall t: TableState, s: Statement | OnTable(s) && RowsFit(t) && NeverLow(t)
      ensures NeverLow(TableStep(t, s).0) <==> KeepsHigh(t, s)
    {
      NeverLowIff(t, s);
    }
    RunLaw(NeverLow, KeepsHigh, db, script);
  }

  // ------------------------------------------------------------------ exact

  /** Every integer key is filed exactly at the place of each row that holds it. */
  ghost predicate Exact(t: TableState) {
    KeyColumn(t.columns) >= 0 ==>
      forall i, k :: HasKeyAt(t.rows, KeyColumn(t.columns), i, k) ==> k in t.index && t.index[k] == i
  }

  /** A DELETE that leaves an integer key behind a deleted row. */
  predicate LeavesGap(t: TableState, s: Statement) {
    && s.Delete? && KeyColumn(t.columns) >= 0 && KnownCondition(t.columns, s.cond)
    && var p := Picks(t.columns, s.cond);
       exists i, j | 0 <= i < |t.rows| && 0 <= j < i ::
         p(t.rows[j]) && !p(t.rows[i]) && CellKey(t.rows[i], KeyColumn(t.columns)) != {}
  }

  /** An INSERT whose key is no integer, into a table with a row of key 0. */
  ghost predicate HidesZero(t: TableState, s: Statement) {
    && s.Insert? && |s.values| == |t.columns| && KeyColumn(t.columns) >= 0
    && !s.values[KeyColumn(t.columns)].isInt && HoldsKey(t.rows, KeyColumn(t.columns), 0)
  }

  ghost predicate KeepsPlaces(t: TableState, s: Statement) {
    KeepsDistinct(t, s) && !LeavesGap(t, s) && !HidesZero(t, s)
  }

  lemma {:induction false} ExactIsUnique(t: TableState)
    requires Exact(t)
    ensures Unique(t)
  {
  }

  /** A row that survives a DELETE keeps its place if and only if no row in front
      of it goes. */
  lemma {:induction false} PlaceAfterDelete(p: Row -> bool, rows: seq<Row>, i: nat)
    requires i < |rows|
    ensures |Filter(Not(p), rows[..i])| == i <==> forall j | 0 <= j < i :: !p(rows[j])
  {
    FilterCounts(p, rows[..i]);
    if j :| 0 <= j < i && p(rows[j]) {
      FilterPosition(p, rows[..i], j);
    } else {
      FilterNone(p, rows[..i]);
    }
  }

  lemma {:induction false} NoGapIsExact(t: TableState, s: Statement, key: int, p: Row -> bool, i: int, k: int)
    requires s.Delete? && RowsFit(t) && Exact(t) && !LeavesGap(t, s)
    requires key == KeyColumn(t.columns) >= 0 && KnownCondition(t.columns, s.cond) && p == Picks(t.columns, s.cond)
    requires HasKeyAt(Filter(Not(p), t.rows), key, i, k)
    ensures k in t.index && t.index[k] == i && k !in KeysOf(p, t.rows, key)
  {
    var o := FilterOrigin(Not(p), t.rows, i);
    assert HasKeyAt(t.rows, key, o, k) && k in CellKey(t.rows[o], key);
    PlaceAfterDelete(p, t.rows, o);
    KeyOfRow(p, t.rows, key, k);
  }

  lemma {:induction false} GapIsNotExact(t: TableState, s: Statement, key: int, p: Row -> bool)
    requires s.Delete? && RowsFit(t) && Exact(t) && LeavesGap(t, s)
    requires key == KeyColumn(t.columns) >= 0 && p == Picks(t.columns, s.cond)
    ensures !Exact(DeleteFrom(t, s.cond).0)
  {
    var i, j :| 0 <= i < |t.rows| && 0 <= j < i && p(t.rows[j]) && !p(t.rows[i]) && CellKey(t.rows[i], key) != {};
    PlaceAfterDelete(p, t.rows, i);
    FilterPosition(Not(p), t.rows, i);
    assert HasKeyAt(t.rows, key, i, t.rows[i][key].n);
    assert HasKeyAt(Filter(Not(p), t.rows), key, |Filter(Not(p), t.rows[..i])|, t.rows[i][key].n);
  }

  lemma {:induction false} DeleteExact(t: TableState, s: Statement, key: int, p: Row -> bool)
    requires s.Delete? && RowsFit(t) && Exact(t)
    requires key == KeyColumn(t.columns) >= 0 && KnownCondition(t.columns, s.cond) && p == Picks(t.columns, s.cond)
    ensures Exact(DeleteFrom(t, s.cond).0) <==> !LeavesGap(t, s)
  {
    if LeavesGap(t, s) {
      GapIsNotExact(t, s, key, p);
    } else {
      var t' := DeleteFrom(t, s.cond).0;
      forall i, k | HasKeyAt(t'.rows, key, i, k)
        ensures k in t'.index && t'.index[k] == i
      {
        NoGapIsExact(t, s, key, p, i, k);
      }
    }
  }

  lemma {:induction false} InsertExact(t: TableState, s: Statement)
    requires s.Insert? && RowsFit(t) && Exact(t)
    ensures Exact(InsertInto(t, s.values).0) <==> !HidesZero(t, s)
  {
    var key, t' := KeyColumn(t.columns), InsertInto(t, s.values).0;
    if key >= 0 {
      forall i, k | HasKeyAt(t'.rows, key, i, k) && !HidesZero(t, s)
        ensures k in t'.index && t'.index[k] == i
      {
        assert i < |t.rows| ==> HasKeyAt(t.rows, key, i, k);
      }
      if HidesZero(t, s) {
        var i :| 0 <= i < |t.rows| && HasKeyAt(t.rows, key, i, 0);
        assert HasKeyAt(t'.rows, key, i, 0);
      }
    }
  }

  lemma {:induction false} UpdateExact(t: TableState, s: Statement)
    requires s.Update? && RowsFit(t) && Exact(t) && KeyColumn(t.columns) >= 0
    ensures Exact(UpdateIn(t, s.column, s.value, s.cond).0) <==> KeepsDistinct(t, s)
  {
    var key, t' := KeyColumn(t.columns), UpdateIn(t, s.column, s.value, s.cond).0;
    ExactIsUnique(t);
    UpdateUniqueIff(t, s);
    if KeepsDistinct(t, s) {
      forall i, k | HasKeyAt(t'.rows, key, i, k)
        ensures k in t'.index && t'.index[k] == i
      {
        SetKeyIsExact(t, s, i, k);
      }
    }
  }

  lemma {:induction false} SetKeyIsExact(t: TableState, s: Statement, i: int, k: int)
    requires s.Update? && RowsFit(t) && Exact(t) && KeyColumn(t.columns) >= 0
    requires var t' := UpdateIn(t, s.column, s.value, s.cond).0;
             Unique(t') && HasKeyAt(t'.rows, KeyColumn(t.columns), i, k)
    ensures var t' := UpdateIn(t, s.column, s.value, s.cond).0; k in t'.index && t'.index[k] == i
  {
    var key, p := KeyColumn(t.columns), Picks(t.columns, s.cond);
    var t' := UpdateIn(t, s.column, s.value, s.cond).0;
    var last := LastWhere(p, t.rows);
    if SetsKey(t, s) && last >= 0 && k == LiteralValue(s.value).n {
      assert HasKeyAt(t'.rows, key, last, k);
    } else {
      if SetsKey(t, s) && p(t.rows[i]) {
        LastWhereIsLast(p, t.rows, i);
      }
      assert HasKeyAt(t.rows, key, i, k);
    }
  }

  /** A statement keeps all filed numbers exact, except exactly a DELETE that
      leaves an integer key behind a deleted row, an UPDATE that gives two rows
      one key, and an INSERT of another key beside a row of key 0. */
  lemma {:induction false} ExactIff(t: TableState, s: Statement)
    requires OnTable(s) && RowsFit(t) && Exact(t)
    ensures Exact(TableStep(t, s).0) <==> KeepsPlaces(t, s)
  {
    if KeyColumn(t.columns) >= 0 {
      match s
      case Select(_, _, _) =>
      case Insert(_, _) => InsertExact(t, s);
      case Delete(_, cond) =>
        if KnownCondition(t.columns, cond) {
          DeleteExact(t, s, KeyColumn(t.columns), Picks(t.columns, cond));
        }
      case Update(_, _, _, _) => UpdateExact(t, s);
    }
  }

  lemma {:induction false} ExactOverRuns(db: DbState, script: seq<TableStatement>)
    requires AllTables(Exact, db)
    ensures Throughout(Exact, db, script) <==> EveryStep(KeepsPlaces, db, script)
  {
    forall t: TableState, s: Statement | OnTable(s) && RowsFit(t) && Exact(t)
      ensures Exact(TableStep(t, s).0) <==> KeepsPlaces(t, s)
    {
      ExactIff(t, s);
    }
    RunLaw(Exact, KeepsPlaces, db, script);
  }
}

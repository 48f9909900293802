/** What INSERT can promise about keys when runs are not harmless. */
module KeySafety {
  import opened Sequences
  import opened Values
  import opened Ast
  import opened Relational
  import opened StatementLaws
  import opened RunLaws
  import opened KeyAgreement

  /** Every integer key in the table is in the index. */
  ghost predicate Covered(t: TableState) {
    var key := KeyColumn(t.columns);
    key >= 0 ==> forall i, k :: HasKeyAt(t.rows, key, i, k) ==> k in t.index
  }

  /** A DELETE that removes one of several rows with the same integer key. */
  predicate SplitsTwins(t: TableState, s: Statement) {
    && s.Delete? && KeyColumn(t.columns) >= 0 && KnownCondition(t.columns, s.cond)
    && var p := Picks(t.columns, s.cond);
       KeysOf(p, t.rows, KeyColumn(t.columns)) * KeysOf(Not(p), t.rows, KeyColumn(t.columns)) != {}
  }

  /** While the index covers the keys, INSERT never accepts an integer key that
      some row holds already. */
  lemma {:induction false} NoDuplicateAccepted(t: TableState, values: seq<Literal>, k: int)
    requires RowsFit(t) && Covered(t) && KeyColumn(t.columns) >= 0
    requires |values| == |t.columns| && LiteralValue(values[KeyColumn(t.columns)]) == Int(k)
    requires HoldsKey(t.rows, KeyColumn(t.columns), k)
    ensures InsertInto(t, values) == (t, Failed(DuplicateKey(k)))
  {
  }

  lemma {:induction false} RefusedByStep(db: DbState, i: nat, values: seq<Literal>, k: int)
    requires Sound(db) && i < |db| && Covered(db[i]) && KeyColumn(db[i].columns) >= 0
    requires |values| == |db[i].columns| && LiteralValue(values[KeyColumn(db[i].columns)]) == Int(k)
    requires HoldsKey(db[i].rows, KeyColumn(db[i].columns), k)
    ensures Step(db, Insert(db[i].name, values)) == (db, Failed(DuplicateKey(k)))
  {
    LocateKnown(db, i, db[i].name);
    NoDuplicateAccepted(db[i], values, k);
    assert db[i := db[i]] == db;
  }

  lemma {:induction false} DeleteCovers(t: TableState, s: Statement)
    requires s.Delete? && RowsFit(t) && Covered(t)
    ensures Covered(DeleteFrom(t, s.cond).0) <==> !SplitsTwins(t, s)
  {
    var key := KeyColumn(t.columns);
    if key >= 0 && KnownCondition(t.columns, s.cond) {
      var p := Picks(t.columns, s.cond);
      var t' := DeleteFrom(t, s.cond).0;
      forall i, k | HasKeyAt(t'.rows, key, i, k) && !SplitsTwins(t, s)
        ensures k in t'.index
      {
        assert HoldsKey(t'.rows, key, k);
        HoldsKeyFiltered(Not(p), t.rows, key, k);
        KeyOfRow(Not(p), t.rows, key, k);
        assert k in KeysOf(Not(p), t.rows, key);
      }
      if SplitsTwins(t, s) {
        var k :| k in KeysOf(p, t.rows, key) * KeysOf(Not(p), t.rows, key);
        KeyOfRow(Not(p), t.rows, key, k);
        HoldsKeyFiltered(Not(p), t.rows, key, k);
        var i :| 0 <= i < |t'.rows| && HasKeyAt(t'.rows, key, i, k);
        assert k !in t'.index;
      }
    }
  }

  lemma {:induction false} InsertCovers(t: TableState, values: seq<Literal>)
    requires RowsFit(t) && Covered(t)
    ensures Covered(InsertInto(t, values).0)
  {
    var key := KeyColumn(t.columns);
    var t' := InsertInto(t, values).0;
    if key >= 0 {
      forall i, k | HasKeyAt(t'.rows, key, i, k)
        ensures k in t'.index
      {
        if i < |t.rows| {
          assert HasKeyAt(t.rows, key, i, k);
        }
      }
    }
  }

  lemma {:induction false} UpdateCovers(t: TableState, s: Statement)
    requires s.Update? && RowsFit(t) && Covered(t)
    ensures Covered(UpdateIn(t, s.column, s.value, s.cond).0)
  {
    var key := KeyColumn(t.columns);
    var t' := UpdateIn(t, s.column, s.value, s.cond).0;
    if key >= 0 && t' != t {
      var p := Picks(t.columns, s.cond);
      forall i, k | HasKeyAt(t'.rows, key, i, k)
        ensures k in t'.index
      {
        if !HasKeyAt(t.rows, key, i, k) {
          assert p(t.rows[i]);
          if LastWhere(p, t.rows) < 0 {
            LastWhereIsLast(p, t.rows, i);
          }
        }
      }
    }
  }

  /** Any statement, with any keys, keeps a covered table covered, except exactly
      the DELETEs that split rows sharing a key. */
  lemma {:induction false} CoverageIff(t: TableState, s: Statement)
    requires OnTable(s) && RowsFit(t) && Covered(t)
    ensures Covered(TableStep(t, s).0) <==> !SplitsTwins(t, s)
  {
    match s
    case Select(_, _, _) =>
    case Insert(_, values) => InsertCovers(t, values);
    case Delete(_, _) => DeleteCovers(t, s);
    case Update(_, _, _, _) => UpdateCovers(t, s);
  }

  predicate KeepsTwins(t: TableState, s: Statement) {
    !SplitsTwins(t, s)
  }

  /** All along a run every integer key of every table is in its index, if and
      only if no DELETE of the run splits rows sharing a key. */
  lemma {:induction false} CoverageOverRuns(db: DbState, script: seq<TableStatement>)
    requires AllTables(Covered, db)
    ensures Throughout(Covered, db, script) <==> EveryStep(KeepsTwins, db, script)
  {
    forall t: TableState, s: Statement | OnTable(s) && RowsFit(t) && Covered(t)
      ensures Covered(TableStep(t, s).0) <==> KeepsTwins(t, s)
    {
      CoverageIff(t, s);
    }
    RunLaw(Covered, KeepsTwins, db, script);
  }

  predicate DeleteFree(script: seq<TableStatement>) {
    forall i | 0 <= i < |script| :: !script[i].Delete?
  }

  lemma {:induction false} DeleteFreeIsTwinSafe(db: DbState, script: seq<TableStatement>)
    requires DeleteFree(script)
    ensures EveryStep(KeepsTwins, db, script)
    decreases |script|
  {
    if script != [] {
      assert !script[0].Delete?;
      DeleteFreeIsTwinSafe(Step(db, script[0]).0, script[1..]);
    }
  }

  /** In every run from the empty database without DELETE, whatever keys it
      inserts and updates, INSERT accepts no integer key that a row holds. */
  lemma {:induction false} SafeWithoutDelete(script: seq<TableStatement>, i: nat, values: seq<Literal>, k: int)
    requires DeleteFree(script)
    requires var db := Run([], script).0;
             && i < |db| && KeyColumn(db[i].columns) >= 0 && |values| == |db[i].columns|
             && LiteralValue(values[KeyColumn(db[i].columns)]) == Int(k)
             && HoldsKey(db[i].rows, KeyColumn(db[i].columns), k)
    ensures var db := Run([], script).0;
            Step(db, Insert(db[i].name, values)) == (db, Failed(DuplicateKey(k)))
  {
    DeleteFreeIsTwinSafe([], script);
    CoverageOverRuns([], script);
    GoodAtTheEnd(Covered, [], script);
    RefusedByStep(Run([], script).0, i, values, k);
  }

  // ------------------------------------------------- runs with deletes too

  /** Whether a statement keeps integer keys distinct: an UPDATE of the key to an
      integer must pick at most one row, and no other row may hold the value. */
  predicate KeepsDistinct(t: TableState, s: Statement) {
    var key := KeyColumn(t.columns);
    s.Update? && key >= 0 && FindColumn(t.columns, s.column) == key
    && KnownCondition(t.columns, s.cond) && LiteralValue(s.value).Int? ==>
      var p := Picks(t.columns, s.cond);
      || Filter(p, t.rows) == []
      || (|Filter(p, t.rows)| == 1 && LiteralValue(s.value).n !in KeysOf(Not(p), t.rows, key))
  }

  ghost predicate Unique(t: TableState) {
    KeyColumn(t.columns) >= 0 ==> KeysDistinct(t.rows, KeyColumn(t.columns))
  }

  lemma {:induction false} UniqueNeverSplits(t: TableState, s: Statement)
    requires Unique(t)
    ensures !SplitsTwins(t, s)
  {
    if SplitsTwins(t, s) {
      var p, key := Picks(t.columns, s.cond), KeyColumn(t.columns);
      var k :| k in KeysOf(p, t.rows, key) * KeysOf(Not(p), t.rows, key);
      KeyOfRow(p, t.rows, key, k);
      KeyOfRow(Not(p), t.rows, key, k);
    }
  }

  lemma {:induction false} OnlyOnePicked<T>(p: T -> bool, s: seq<T>, i: nat, j: nat)
    requires i <= j < |s| && p(s[i]) && p(s[j]) && |Filter(p, s)| == 1
    ensures i == j
  {
    FilterPosition(p, s, j);
    if i < j {
      FilterPosition(p, s[..j], i);
    }
  }

  lemma {:induction false} UpdateKeyUnique(t: TableState, s: Statement, key: int, p: Row -> bool)
    requires s.Update? && RowsFit(t) && Unique(t)
    requires key == KeyColumn(t.columns) == FindColumn(t.columns, s.column) && key >= 0
    requires KnownCondition(t.columns, s.cond) && p == Picks(t.columns, s.cond)
    requires KeepsDistinct(t, s)
    ensures Unique(UpdateIn(t, s.column, s.value, s.cond).0)
  {
    var v, t' := LiteralValue(s.value), UpdateIn(t, s.column, s.value, s.cond).0;
    forall i, j, k | i <= j && HasKeyAt(t'.rows, key, i, k) && HasKeyAt(t'.rows, key, j, k)
      ensures i == j
    {
      SameKeyAfter(t, s, key, p, i, j, k);
    }
  }

  /** Two rows with the same key after the UPDATE are one row. */
  lemma {:induction false} SameKeyAfter(t: TableState, s: Statement, key: int, p: Row -> bool, i: int, j: int, k: int)
    requires s.Update? && RowsFit(t) && Unique(t) && i <= j
    requires key == KeyColumn(t.columns) == FindColumn(t.columns, s.column) && key >= 0
    requires KnownCondition(t.columns, s.cond) && p == Picks(t.columns, s.cond)
    requires KeepsDistinct(t, s)
    requires var rows' := UpdateIn(t, s.column, s.value, s.cond).0.rows;
             HasKeyAt(rows', key, i, k) && HasKeyAt(rows', key, j, k)
    ensures i == j
  {
    if !p(t.rows[i]) && !p(t.rows[j]) {
      assert HasKeyAt(t.rows, key, i, k) && HasKeyAt(t.rows, key, j, k);
    } else if p(t.rows[i]) && p(t.rows[j]) {
      FilterPosition(p, t.rows, i);
      OnlyOnePicked(p, t.rows, i, j);
    } else {
      var picked, other := if p(t.rows[i]) then i else j, if p(t.rows[i]) then j else i;
      FilterPosition(p, t.rows, picked);
      assert HasKeyAt(t.rows, key, other, k) && Not(p)(t.rows[other]);
      KeyOfRow(Not(p), t.rows, key, k);
    }
  }

  lemma {:induction false} UpdateKeyTwins(t: TableState, s: Statement, key: int, p: Row -> bool)
    requires s.Update? && RowsFit(t) && Unique(t)
    requires key == KeyColumn(t.columns) == FindColumn(t.columns, s.column) && key >= 0
    requires KnownCondition(t.columns, s.cond) && p == Picks(t.columns, s.cond)
    requires !KeepsDistinct(t, s)
    ensures !Unique(UpdateIn(t, s.column, s.value, s.cond).0)
  {
    var rows' := SetCells(p, t.rows, key, LiteralValue(s.value));
    assert UpdateIn(t, s.column, s.value, s.cond).0.rows == rows';
    TwinsMade(p, t.rows, key, LiteralValue(s.value).n);
  }

  /** Setting a key in two rows, or beside a row that holds it, makes twins. */
  lemma {:induction false} TwinsMade(p: Row -> bool, rows: seq<Row>, key: nat, k: int)
    requires forall i | 0 <= i < |rows| :: key < |rows[i]|
    requires |Filter(p, rows)| >= 2 || (|Filter(p, rows)| == 1 && k in KeysOf(Not(p), rows, key))
    ensures !KeysDistinct(SetCells(p, rows, key, Int(k)), key)
  {
    var rows' := SetCells(p, rows, key, Int(k));
    var i := FilterOrigin(p, rows, 0);
    assert HasKeyAt(rows', key, i, k);
    var j: nat;
    if |Filter(p, rows)| >= 2 {
      j := FilterOrigin(p, rows, 1);
    } else {
      KeyOfRow(Not(p), rows, key, k);
      j :| HasKeyAt(rows, key, j, k) && Not(p)(rows[j]);
    }
    assert HasKeyAt(rows', key, j, k);
  }

  /** Integer keys, distinct and covered before a statement, stay distinct if and
      only if it is not an UPDATE that gives two rows the same key; and then they
      stay covered. Deletes and non-integer keys do no harm. */
  lemma {:induction false} DistinctIff(t: TableState, s: Statement)
    requires OnTable(s) && RowsFit(t) && Covered(t) && Unique(t)
    ensures Unique(TableStep(t, s).0) <==> KeepsDistinct(t, s)
    ensures Covered(TableStep(t, s).0)
  {
    UniqueNeverSplits(t, s);
    CoverageIff(t, s);
    var key := KeyColumn(t.columns);
    if key >= 0 {
      match s
      case Select(_, _, _) =>
      case Insert(_, values) =>
        if InsertInto(t, values).1.Done? {
          DistinctAppend(t.rows, RowOf(values), key);
        }
      case Delete(_, cond) =>
        if KnownCondition(t.columns, cond) {
          DistinctFiltered(Not(Picks(t.columns, cond)), t.rows, key);
        }
      case Update(_, column, value, cond) =>
        UpdateUniqueIff(t, s);
    }
  }

  lemma {:induction false} UpdateUniqueIff(t: TableState, s: Statement)
    requires s.Update? && RowsFit(t) && Unique(t) && KeyColumn(t.columns) >= 0
    ensures Unique(UpdateIn(t, s.column, s.value, s.cond).0) <==> KeepsDistinct(t, s)
  {
    var key, col := KeyColumn(t.columns), FindColumn(t.columns, s.column);
    if col != key {
      OtherColumnKeepsKeys(Picks(t.columns, s.cond), t.rows, col, LiteralValue(s.value), key);
    } else if !KnownCondition(t.columns, s.cond) {
    } else if KeepsDistinct(t, s) {
      UpdateKeyUnique(t, s, key, Picks(t.columns, s.cond));
    } else {
      UpdateKeyTwins(t, s, key, Picks(t.columns, s.cond));
    }
  }

  // ------------------------------------------------------ distinct, over runs

  ghost predicate CoveredAndUnique(t: TableState) {
    Covered(t) && Unique(t)
  }

  /** All along a run integer keys are distinct and in the index, if and only if
      no UPDATE of the run gives two rows one key, whatever it deletes and
      whatever other keys it inserts. */
  lemma {:induction false} DistinctOverRuns(db: DbState, script: seq<TableStatement>)
    requires AllTables(CoveredAndUnique, db)
    ensures Throughout(CoveredAndUnique, db, script) <==> EveryStep(KeepsDistinct, db, script)
  {
    forall t: TableState, s: Statement | OnTable(s) && RowsFit(t) && CoveredAndUnique(t)
      ensures CoveredAndUnique(TableStep(t, s).0) <==> KeepsDistinct(t, s)
    {
      DistinctIff(t, s);
    }
    RunLaw(CoveredAndUnique, KeepsDistinct, db, script);
  }

  /** So in every such run from the empty database INSERT refuses each integer
      key that a row holds. */
  lemma {:induction false} SafeWhileDistinct(script: seq<TableStatement>, i: nat, values: seq<Literal>, k: int)
    requires EveryStep(KeepsDistinct, [], script)
    requires var db := Run([], script).0;
             && i < |db| && KeyColumn(db[i].columns) >= 0 && |values| == |db[i].columns|
             && LiteralValue(values[KeyColumn(db[i].columns)]) == Int(k)
             && HoldsKey(db[i].rows, KeyColumn(db[i].columns), k)
    ensures var db := Run([], script).0;
            Step(db, Insert(db[i].name, values)) == (db, Failed(DuplicateKey(k)))
  {
    DistinctOverRuns([], script);
    GoodAtTheEnd(CoveredAndUnique, [], script);
    RefusedByStep(Run([], script).0, i, values, k);
  }
}

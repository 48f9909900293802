/** How far the row numbers in the index lag behind the table. */
module Staleness {
  import opened Sequences
  import opened Values
  import opened Ast
  import opened Relational
  import opened StatementLaws
  import opened RunLaws
  import opened KeyAgreement
  import opened KeySafety
  import opened FiledPlaces

  /** For every row the number of rows deleted from in front of it since its key
      was last filed. */
  type Lags = seq<nat>

  /** The lags after deleting the rows that satisfy `p`: each survivor adds the
      deleted rows in front of it. */
  function SurvivorLags(p: Row -> bool, rows: seq<Row>, lags: Lags): (r: Lags)
    requires |lags| == |rows|
    ensures |r| == |Filter(Not(p), rows)|
  {
    if rows == [] then []
    else
      var n := |rows| - 1;
      var front := SurvivorLags(p, rows[..n], lags[..n]);
      if p(rows[n]) then front else front + [lags[n] + |Filter(p, rows[..n])|]
  }

  /** What a statement on table `t` does to the lags of its rows. */
  function LagsAfter(t: TableState, lags: Lags, s: Statement): (r: Lags)
    requires OnTable(s) && |lags| == |t.rows|
    ensures |r| == |TableStep(t, s).0.rows|
  {
    match s
    case Delete(_, cond) =>
      if KnownCondition(t.columns, cond) then SurvivorLags(Picks(t.columns, cond), t.rows, lags) else lags
    case Insert(_, values) =>
      if InsertInto(t, values).1.Done? then lags + [0] else lags
    case Update(_, column, value, cond) =>
      if Refiles(t, column, cond) then Reset(Picks(t.columns, cond), t.rows, lags) else lags
    case _ => lags
  }

  /** An UPDATE of the key column files the picked rows again. */
  predicate Refiles(t: TableState, column: string, cond: Condition) {
    var col := FindColumn(t.columns, column);
    col >= 0 && col == KeyColumn(t.columns) && KnownCondition(t.columns, cond)
  }

  function Reset(p: Row -> bool, rows: seq<Row>, lags: Lags): (r: Lags)
    requires |lags| == |rows|
    ensures |r| == |lags|
  {
    seq(|lags|, i requires 0 <= i < |lags| => if p(rows[i]) then 0 else lags[i])
  }

  /** A surviving row keeps its lag plus the number of deleted rows before it. */
  lemma {:induction false} SurvivorLag(p: Row -> bool, rows: seq<Row>, lags: Lags, i: nat)
    requires |lags| == |rows| && i < |rows| && !p(rows[i])
    ensures |Filter(Not(p), rows[..i])| < |Filter(Not(p), rows)|
    ensures SurvivorLags(p, rows, lags)[|Filter(Not(p), rows[..i])|] == lags[i] + |Filter(p, rows[..i])|
  {
    FilterPosition(Not(p), rows, i);
    if i < |rows| - 1 {
      SurvivorLag(p, rows[..|rows| - 1], lags[..|rows| - 1], i);
      assert rows[..|rows| - 1][..i] == rows[..i];
    }
  }

  /** The exact account: the index files every key under the present place of
      its row plus the row's lag. */
  ghost predicate Accounts(t: TableState, lags: Lags) {
    var key := KeyColumn(t.columns);
    && |lags| == |t.rows|
    && (key >= 0 ==> Files(t.index, t.rows, key, lags))
  }

  ghost predicate Files(index: map<int, int>, rows: seq<Row>, key: int, lags: Lags)
    requires |lags| == |rows|
  {
    forall i, k :: HasKeyAt(rows, key, i, k) ==> k in index && index[k] == i + lags[i]
  }

  lemma {:induction false} SurvivorsFiled(p: Row -> bool, rows: seq<Row>, lags: Lags, key: int, index: map<int, int>)
    requires |lags| == |rows| && Files(index, rows, key, lags)
    ensures Files(index, Filter(Not(p), rows), key, SurvivorLags(p, rows, lags))
  {
    if rows == [] {
    } else {
      var n := |rows| - 1;
      var front, kept := Filter(Not(p), rows[..n]), Filter(Not(p), rows);
      forall i, k | HasKeyAt(rows[..n], key, i, k)
        ensures k in index && index[k] == i + lags[..n][i]
      {
        assert HasKeyAt(rows, key, i, k);
      }
      SurvivorsFiled(p, rows[..n], lags[..n], key, index);
      FilterCounts(p, rows[..n]);
      forall i, k | HasKeyAt(kept, key, i, k)
        ensures k in index && index[k] == i + SurvivorLags(p, rows, lags)[i]
      {
        if i < |front| {
          assert HasKeyAt(front, key, i, k);
        } else {
          assert HasKeyAt(rows, key, n, k);
        }
      }
    }
  }

  /** The exact condition for the account to stay right: a DELETE must not split
      rows sharing a key, an INSERT of another key must not move the key 0 of a row,
      and an UPDATE of the key must pick at most one row and not move the key of
      another row that holds it. */
  ghost predicate KeepsAccount(t: TableState, s: Statement) {
    match s
    case Delete(_, _) => !SplitsTwins(t, s)
    case Insert(_, _) => HidesZero(t, s) ==> FiledAt(t.index, 0, |t.rows|)
    case Update(_, _, value, cond) =>
      SetsKey(t, s) ==>
        var p, n := Picks(t.columns, cond), LiteralValue(value).n;
        || Filter(p, t.rows) == []
        || (&& |Filter(p, t.rows)| == 1
            && (n in KeysOf(Not(p), t.rows, KeyColumn(t.columns)) ==> FiledAt(t.index, n, LastWhere(p, t.rows))))
    case _ => true
  }

  predicate FiledAt(index: map<int, int>, k: int, row: int) {
    k in index && index[k] == row
  }

  lemma {:induction false} DeleteAccounts(t: TableState, lags: Lags, s: Statement)
    requires s.Delete? && RowsFit(t) && Accounts(t, lags)
    ensures Accounts(TableStep(t, s).0, LagsAfter(t, lags, s)) <==> !SplitsTwins(t, s)
  {
    var key := KeyColumn(t.columns);
    if key >= 0 && KnownCondition(t.columns, s.cond) {
      SurvivorsFiled(Picks(t.columns, s.cond), t.rows, lags, key, t.index);
      DeleteCovers(t, s);
    }
  }

  lemma {:induction false} InsertAccounts(t: TableState, lags: Lags, s: Statement)
    requires s.Insert? && RowsFit(t) && Accounts(t, lags)
    ensures Accounts(TableStep(t, s).0, LagsAfter(t, lags, s)) <==> KeepsAccount(t, s)
  {
    var key, t' := KeyColumn(t.columns), InsertInto(t, s.values).0;
    if key >= 0 && InsertInto(t, s.values).1.Done? {
      forall i, k | HasKeyAt(t'.rows, key, i, k) && KeepsAccount(t, s)
        ensures k in t'.index && t'.index[k] == i + (lags + [0])[i]
      {
        if i < |t.rows| {
          assert HasKeyAt(t.rows, key, i, k);
        }
      }
      if HidesZero(t, s) {
        var i :| 0 <= i < |t.rows| && HasKeyAt(t.rows, key, i, 0);
        assert HasKeyAt(t'.rows, key, i, 0) && (lags + [0])[i] == lags[i];
      }
    }
  }

  lemma {:induction false} OtherColumnAccounts(t: TableState, lags: Lags, s: Statement)
    requires s.Update? && RowsFit(t) && Accounts(t, lags) && !Refiles(t, s.column, s.cond)
    ensures Accounts(TableStep(t, s).0, LagsAfter(t, lags, s))
  {
    var key := KeyColumn(t.columns);
    if key >= 0 && UpdateIn(t, s.column, s.value, s.cond).1.Done? {
      var col := FindColumn(t.columns, s.column);
      OtherColumnKeepsKeys(Picks(t.columns, s.cond), t.rows, col, LiteralValue(s.value), key);
    }
  }

  lemma {:induction false} NonePicked(t: TableState, lags: Lags, s: Statement)
    requires s.Update? && Accounts(t, lags) && Refiles(t, s.column, s.cond)
    requires Filter(Picks(t.columns, s.cond), t.rows) == []
    ensures TableStep(t, s).0 == t && LagsAfter(t, lags, s) == lags
  {
    var p := Picks(t.columns, s.cond);
    forall i | 0 <= i < |t.rows|
      ensures !p(t.rows[i])
    {
      if p(t.rows[i]) {
        FilterPosition(p, t.rows, i);
      }
    }
    assert Reset(p, t.rows, lags) == lags;
    assert SetCells(p, t.rows, FindColumn(t.columns, s.column), LiteralValue(s.value)) == t.rows;
  }

  /** Setting the key to a string takes the picked rows out of the account. */
  lemma {:induction false} StringKeyAccounts(t: TableState, lags: Lags, s: Statement)
    requires s.Update? && RowsFit(t) && Accounts(t, lags) && Refiles(t, s.column, s.cond)
    requires !LiteralValue(s.value).Int?
    ensures Accounts(TableStep(t, s).0, LagsAfter(t, lags, s))
  {
    var key, t' := KeyColumn(t.columns), TableStep(t, s).0;
    forall i, k | HasKeyAt(t'.rows, key, i, k)
      ensures k in t'.index && t'.index[k] == i + LagsAfter(t, lags, s)[i]
    {
      assert HasKeyAt(t.rows, key, i, k);
    }
  }

  /** Setting the key of the rows that `p` picks, the last one at `last`. */
  lemma {:induction false} SetKeyFiles(p: Row -> bool, rows: seq<Row>, lags: Lags, key: nat, index: map<int, int>,
                                       n: int, last: nat)
    requires |lags| == |rows| && Files(index, rows, key, lags) && forall i | 0 <= i < |rows| :: key < |rows[i]|
    requires last == LastWhere(p, rows)
    ensures Files(index[n := last], SetCells(p, rows, key, Int(n)), key, Reset(p, rows, lags)) <==>
            (forall i | 0 <= i < |rows| && p(rows[i]) :: i == last) &&
            (n in KeysOf(Not(p), rows, key) ==> FiledAt(index, n, last))
  {
    var rows', index', lags' := SetCells(p, rows, key, Int(n)), index[n := last], Reset(p, rows, lags);
    KeyOfRow(Not(p), rows, key, n);
    if Files(index', rows', key, lags') {
      forall i | 0 <= i < |rows| && p(rows[i])
        ensures i == last
      {
        assert HasKeyAt(rows', key, i, n);
      }
      if j :| HasKeyAt(rows, key, j, n) && Not(p)(rows[j]) {
        assert HasKeyAt(rows', key, j, n);
      }
    }
    if (forall i | 0 <= i < |rows| && p(rows[i]) :: i == last) &&
       (n in KeysOf(Not(p), rows, key) ==> FiledAt(index, n, last)) {
      forall i, k | HasKeyAt(rows', key, i, k)
        ensures k in index' && index'[k] == i + lags'[i]
      {
        assert !p(rows[i]) ==> HasKeyAt(rows, key, i, k) && Not(p)(rows[i]);
      }
    }
  }

  /** One element is picked if and only if all that are picked are the last one. */
  lemma {:induction false} OnlyLast<T>(p: T -> bool, s: seq<T>)
    requires LastWhere(p, s) >= 0
    ensures |Filter(p, s)| == 1 <==> forall i | 0 <= i < |s| && p(s[i]) :: i == LastWhere(p, s)
    ensures Filter(p, s) != []
  {
    var last := LastWhere(p, s);
    FilterPosition(p, s, last);
    if |Filter(p, s)| == 1 {
      forall i | 0 <= i < |s| && p(s[i])
        ensures i == last
      {
        if last < i {
          LastWhereIsLast(p, s, i);
        } else {
          OnlyOnePicked(p, s, i, last);
        }
      }
    } else if forall i | 0 <= i < |s| && p(s[i]) :: i == last {
      PicksOne(p, s, last);
    }
  }

  lemma {:induction false} NothingLast<T>(p: T -> bool, s: seq<T>)
    requires LastWhere(p, s) < 0
    ensures Filter(p, s) == []
  {
    forall i | 0 <= i < |s|
      ensures !p(s[i])
    {
      LastWhereIsLast(p, s, i);
    }
    FilterNone(p, s);
  }

  lemma {:induction false} KeyUpdateAccounts(t: TableState, lags: Lags, s: Statement)
    requires s.Update? && RowsFit(t) && Accounts(t, lags) && SetsKey(t, s)
    ensures Accounts(TableStep(t, s).0, LagsAfter(t, lags, s)) <==> KeepsAccount(t, s)
  {
    var p, last := Picks(t.columns, s.cond), LastWhere(Picks(t.columns, s.cond), t.rows);
    if last < 0 {
      NothingLast(p, t.rows);
      NonePicked(t, lags, s);
    } else {
      OnlyLast(p, t.rows);
      SetKeyFiles(p, t.rows, lags, KeyColumn(t.columns), t.index, LiteralValue(s.value).n, last);
      assert TableStep(t, s).0.index == t.index[LiteralValue(s.value).n := last];
    }
  }

  /** A statement keeps the account right if and only if it meets the condition. */
  lemma {:induction false} StepAccounts(t: TableState, lags: Lags, s: Statement)
    requires OnTable(s) && RowsFit(t) && Accounts(t, lags)
    ensures Accounts(TableStep(t, s).0, LagsAfter(t, lags, s)) <==> KeepsAccount(t, s)
  {
    match s
    case Select(_, _, _) =>
    case Delete(_, _) => DeleteAccounts(t, lags, s);
    case Insert(_, _) => InsertAccounts(t, lags, s);
    case Update(_, column, value, cond) =>
      if SetsKey(t, s) {
        KeyUpdateAccounts(t, lags, s);
      } else if Refiles(t, column, cond) {
        StringKeyAccounts(t, lags, s);
      } else {
        OtherColumnAccounts(t, lags, s);
      }
  }

  /** Harmless statements on agreeing tables are among them. */
  lemma {:induction false} HarmlessKeepsAccount(t: TableState, s: Statement)
    requires OnTable(s) && RowsFit(t) && Agrees(t) && Harmless(t, s)
    ensures KeepsAccount(t, s)
  {
    if KeyColumn(t.columns) >= 0 {
      UniqueNeverSplits(t, s);
      if SetsKey(t, s) && Filter(Picks(t.columns, s.cond), t.rows) != [] {
        SameKeyIsAlone(t, s, Picks(t.columns, s.cond), LiteralValue(s.value).n);
      }
    }
  }

  lemma {:induction false} SameKeyIsAlone(t: TableState, s: Statement, p: Row -> bool, n: int)
    requires Agrees(t) && KeyColumn(t.columns) >= 0 && |Filter(p, t.rows)| == 1
    requires KeyColumn(t.columns) < |Filter(p, t.rows)[0]| && Filter(p, t.rows)[0][KeyColumn(t.columns)] == Int(n)
    ensures n !in KeysOf(Not(p), t.rows, KeyColumn(t.columns))
  {
    var key := KeyColumn(t.columns);
    var at := FilterOrigin(p, t.rows, 0);
    assert HasKeyAt(t.rows, key, at, n);
    KeyOfRow(Not(p), t.rows, key, n);
  }

  // ------------------------------------------------------------------ runs

  ghost predicate Matched(db: DbState, all: seq<Lags>) {
    |all| == |db| && forall i | 0 <= i < |db| :: |all[i]| == |db[i].rows|
  }

  /** The lags of all tables after one statement. */
  function LagStep(db: DbState, all: seq<Lags>, s: TableStatement): (r: seq<Lags>)
    requires Matched(db, all)
    ensures Matched(Step(db, s).0, r)
  {
    if s.Invalid? then all
    else
      var i := Locate(db, s.table);
      if s.CreateTable? then (if i < 0 then all + [[]] else all)
      else if i < 0 then all
      else if s.DropTable? then Remove(all, i)
      else all[i := LagsAfter(db[i], all[i], s)]
  }

  function LagRun(db: DbState, all: seq<Lags>, script: seq<TableStatement>): (r: seq<Lags>)
    requires Matched(db, all)
    ensures Matched(Run(db, script).0, r)
    decreases |script|
  {
    if script == [] then all
    else LagRun(Step(db, script[0]).0, LagStep(db, all, script[0]), script[1..])
  }

  lemma {:induction false} LagStepOn(db: DbState, all: seq<Lags>, s: TableStatement)
    requires Matched(db, all) && OnTable(s) && Locate(db, s.table) >= 0
    ensures var i := Locate(db, s.table);
            && Step(db, s).0 == db[i := TableStep(db[i], s).0]
            && LagStep(db, all, s) == all[i := LagsAfter(db[i], all[i], s)]
  {
  }

  lemma {:induction false} LagStepDrop(db: DbState, all: seq<Lags>, s: TableStatement)
    requires Matched(db, all) && s.DropTable? && Locate(db, s.table) >= 0
    ensures var i := Locate(db, s.table);
            Step(db, s).0 == Remove(db, i) && LagStep(db, all, s) == Remove(all, i)
  {
  }

  lemma {:induction false} LagStepCreate(db: DbState, all: seq<Lags>, s: TableStatement)
    requires Matched(db, all) && s.CreateTable? && Locate(db, s.table) < 0
    ensures Step(db, s).0 == db + [TableState(s.table, ColumnsOf(s.columns), [], map[])]
    ensures LagStep(db, all, s) == all + [[]]
  {
  }

  lemma {:induction false} LagStepIdle(db: DbState, all: seq<Lags>, s: TableStatement)
    requires Matched(db, all)
    requires Idle(db, s)
    ensures Step(db, s).0 == db && LagStep(db, all, s) == all
  {
  }

  ghost predicate AllAccount(db: DbState, all: seq<Lags>) {
    Matched(db, all) && forall i | 0 <= i < |db| :: Accounts(db[i], all[i])
  }

  lemma {:induction false} AccountLists(db: DbState, all: seq<Lags>, i: nat, t: TableState, lags: Lags)
    requires AllAccount(db, all) && i < |db|
    ensures AllAccount(Remove(db, i), Remove(all, i))
    ensures |lags| == |t.rows| ==> (AllAccount(db[i := t], all[i := lags]) <==> Accounts(t, lags))
  {
    assert db[i := t][i] == t && all[i := lags][i] == lags;
  }

  lemma {:induction false} AccountCreated(db: DbState, all: seq<Lags>, t: TableState)
    requires AllAccount(db, all) && t.rows == []
    ensures AllAccount(db + [t], all + [[]])
  {
  }

  lemma {:induction false} LagStepAccounts(db: DbState, all: seq<Lags>, s: TableStatement)
    requires Sound(db) && AllAccount(db, all)
    ensures AllAccount(Step(db, s).0, LagStep(db, all, s)) <==> Allowed(KeepsAccount, db, s)
  {
    var i := if s.Invalid? then -1 else Locate(db, s.table);
    if Idle(db, s) {
      LagStepIdle(db, all, s);
    } else if s.CreateTable? {
      LagStepCreate(db, all, s);
      AccountCreated(db, all, TableState(s.table, ColumnsOf(s.columns), [], map[]));
    } else if s.DropTable? {
      LagStepDrop(db, all, s);
      AccountLists(db, all, i, db[i], all[i]);
    } else {
      LagStepOn(db, all, s);
      StepAccounts(db[i], all[i], s);
      AccountLists(db, all, i, TableStep(db[i], s).0, LagsAfter(db[i], all[i], s));
    }
  }

  /** The account is right before the script and after every statement of it. */
  ghost predicate AccountsThroughout(db: DbState, all: seq<Lags>, script: seq<TableStatement>)
    requires Matched(db, all)
    decreases |script|
  {
    && AllAccount(db, all)
    && (script != [] ==> AccountsThroughout(Step(db, script[0]).0, LagStep(db, all, script[0]), script[1..]))
  }

  /** For every integer key in a table: filed row number = present place of the row
      + rows deleted from in front of it since it was filed. This holds all along a
      run if and only if every step keeps the account. */
  lemma {:induction false} StalenessOverRuns(db: DbState, all: seq<Lags>, script: seq<TableStatement>)
    requires Sound(db) && AllAccount(db, all)
    ensures AccountsThroughout(db, all, script) <==> EveryStep(KeepsAccount, db, script)
    ensures EveryStep(KeepsAccount, db, script) ==> AllAccount(Run(db, script).0, LagRun(db, all, script))
    decreases |script|
  {
    if script != [] {
      LagStepAccounts(db, all, script[0]);
      if Allowed(KeepsAccount, db, script[0]) {
        StepIsSound(db, script[0]);
        StalenessOverRuns(Step(db, script[0]).0, LagStep(db, all, script[0]), script[1..]);
      }
    }
  }

  /** Harmless runs keep the account. */
  lemma {:induction false} HarmlessRunKeepsAccount(db: DbState, script: seq<TableStatement>)
    requires AllAgree(db) && HarmlessRun(db, script)
    ensures EveryStep(KeepsAccount, db, script)
    decreases |script|
  {
    if script != [] {
      var s := script[0];
      AllAgreeIff(db, s);
      if OnTable(s) && Locate(db, s.table) >= 0 {
        HarmlessKeepsAccount(db[Locate(db, s.table)], s);
      }
      HarmlessRunKeepsAccount(Step(db, s).0, script[1..]);
    }
  }

  /** In such a run from the empty database no row is ever filed below its true
      place. */
  lemma {:induction false} NeverBelow(script: seq<TableStatement>, i: nat, row: nat, k: int)
    requires EveryStep(KeepsAccount, [], script)
    requires var last := Run([], script).0;
             i < |last| && KeyColumn(last[i].columns) >= 0 && HasKeyAt(last[i].rows, KeyColumn(last[i].columns), row, k)
    ensures var last := Run([], script).0; k in last[i].index && row <= last[i].index[k]
  {
    StalenessOverRuns([], [], script);
  }

  // --------------------------------------------- runs without WHERE-deletes

  /** A DELETE without a condition empties its table; any other DELETE may leave
      rows behind a gap. */
  predicate NoPartialDelete(script: seq<TableStatement>) {
    forall i | 0 <= i < |script| :: script[i].Delete? ==> script[i].cond.Always?
  }

  ghost predicate Zero(lags: Lags) {
    forall j | 0 <= j < |lags| :: lags[j] == 0
  }

  ghost predicate AllZero(all: seq<Lags>) {
    forall i | 0 <= i < |all| :: Zero(all[i])
  }

  lemma {:induction false} NobodySurvives(p: Row -> bool, rows: seq<Row>, lags: Lags)
    requires |lags| == |rows| && forall r | r in rows :: p(r)
    ensures SurvivorLags(p, rows, lags) == []
  {
    if rows != [] {
      NobodySurvives(p, rows[..|rows| - 1], lags[..|rows| - 1]);
    }
  }

  lemma {:induction false} LagsAfterZero(t: TableState, lags: Lags, s: Statement)
    requires OnTable(s) && |lags| == |t.rows| && Zero(lags) && (s.Delete? ==> s.cond.Always?)
    ensures Zero(LagsAfter(t, lags, s))
  {
    if s.Delete? {
      NobodySurvives(Picks(t.columns, s.cond), t.rows, lags);
    }
  }

  lemma {:induction false} ZeroLists(all: seq<Lags>, i: nat, lags: Lags)
    requires AllZero(all) && i < |all|
    ensures AllZero(Remove(all, i))
    ensures Zero(lags) ==> AllZero(all[i := lags])
  {
  }

  lemma {:induction false} LagStepZero(db: DbState, all: seq<Lags>, s: TableStatement)
    requires Matched(db, all) && AllZero(all) && (s.Delete? ==> s.cond.Always?)
    ensures AllZero(LagStep(db, all, s))
  {
    if Idle(db, s) {
      LagStepIdle(db, all, s);
    } else if s.CreateTable? {
      LagStepCreate(db, all, s);
    } else if s.DropTable? {
      LagStepDrop(db, all, s);
      ZeroLists(all, Locate(db, s.table), []);
    } else {
      LagStepOn(db, all, s);
      LagChangeZero(db, all, s, Locate(db, s.table));
    }
  }

  lemma {:induction false} LagChangeZero(db: DbState, all: seq<Lags>, s: TableStatement, i: nat)
    requires Matched(db, all) && AllZero(all) && (s.Delete? ==> s.cond.Always?) && OnTable(s) && i < |db|
    ensures AllZero(all[i := LagsAfter(db[i], all[i], s)])
  {
    LagsAfterZero(db[i], all[i], s);
    ZeroLists(all, i, LagsAfter(db[i], all[i], s));
  }

  lemma {:induction false} LagRunZero(db: DbState, all: seq<Lags>, script: seq<TableStatement>)
    requires Matched(db, all) && AllZero(all) && NoPartialDelete(script)
    ensures AllZero(LagRun(db, all, script))
    decreases |script|
  {
    if script != [] {
      LagStepZero(db, all, script[0]);
      LagRunZero(Step(db, script[0]).0, LagStep(db, all, script[0]), script[1..]);
    }
  }

  /** In such a run without WHERE-deletes the index files every key under the exact
      place of its row. */
  lemma {:induction false} ExactWithoutPartialDelete(script: seq<TableStatement>, i: nat, row: nat, k: int)
    requires EveryStep(KeepsAccount, [], script) && NoPartialDelete(script)
    requires var last := Run([], script).0;
             i < |last| && KeyColumn(last[i].columns) >= 0 && HasKeyAt(last[i].rows, KeyColumn(last[i].columns), row, k)
    ensures var last := Run([], script).0; k in last[i].index && last[i].index[k] == row
  {
    StalenessOverRuns([], [], script);
    LagRunZero([], [], script);
  }
}

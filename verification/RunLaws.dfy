/** From single statements to whole runs: a property of tables that statements
    keep under an exact condition is kept along a run under exactly that
    condition at every step. */
module RunLaws {
  import opened Sequences
  import opened Ast
  import opened Relational
  import opened StatementLaws

  ghost predicate AllTables(good: TableState -> bool, db: DbState) {
    Sound(db) && forall i | 0 <= i < |db| :: good(db[i])
  }

  /** A statement on an existing table must meet the condition there. */
  ghost predicate Allowed(ok: (TableState, Statement) -> bool, db: DbState, s: TableStatement) {
    OnTable(s) && Locate(db, s.table) >= 0 ==> ok(db[Locate(db, s.table)], s)
  }

  /** All tables are good before the script and after every statement of it. */
  ghost predicate Throughout(good: TableState -> bool, db: DbState, script: seq<TableStatement>)
    decreases |script|
  {
    AllTables(good, db) && (script != [] ==> Throughout(good, Step(db, script[0]).0, script[1..]))
  }

  ghost predicate EveryStep(ok: (TableState, Statement) -> bool, db: DbState, script: seq<TableStatement>)
    decreases |script|
  {
    script != [] ==> Allowed(ok, db, script[0]) && EveryStep(ok, Step(db, script[0]).0, script[1..])
  }

  ghost predicate GoodWhenNew(good: TableState -> bool) {
    forall name, columns :: good(TableState(name, columns, [], map[]))
  }

  /** `ok` is the exact condition under which a statement keeps a table good. */
  ghost predicate ExactFor(good: TableState -> bool, ok: (TableState, Statement) -> bool) {
    forall t, s | OnTable(s) && RowsFit(t) && good(t) :: good(TableStep(t, s).0) <==> ok(t, s)
  }

  lemma {:induction false} AllButOne(good: TableState -> bool, db: DbState, i: nat, t: TableState)
    requires AllTables(good, db) && i < |db| && Sound(db[i := t])
    ensures AllTables(good, db[i := t]) <==> good(t)
  {
    assert db[i := t][i] == t;
  }

  lemma {:induction false} ChangeLaw(good: TableState -> bool, ok: (TableState, Statement) -> bool,
                                     db: DbState, s: TableStatement, i: nat)
    requires ExactFor(good, ok) && AllTables(good, db)
    requires OnTable(s) && i < |db| && i == Locate(db, s.table) && Sound(db[i := TableStep(db[i], s).0])
    ensures AllTables(good, db[i := TableStep(db[i], s).0]) <==> Allowed(ok, db, s)
  {
    assert good(TableStep(db[i], s).0) <==> ok(db[i], s);
    AllButOne(good, db, i, TableStep(db[i], s).0);
  }

  lemma {:induction false} OneMore(good: TableState -> bool, db: DbState, t: TableState)
    requires AllTables(good, db) && good(t) && Sound(db + [t])
    ensures AllTables(good, db + [t])
  {
  }

  lemma {:induction false} OneLess(good: TableState -> bool, db: DbState, i: nat)
    requires AllTables(good, db) && i < |db| && Sound(Remove(db, i))
    ensures AllTables(good, Remove(db, i))
  {
  }

  lemma {:induction false} StepLaw(good: TableState -> bool, ok: (TableState, Statement) -> bool,
                                   db: DbState, s: TableStatement)
    requires GoodWhenNew(good) && ExactFor(good, ok) && AllTables(good, db)
    ensures AllTables(good, Step(db, s).0) <==> Allowed(ok, db, s)
  {
    StepIsSound(db, s);
    if Idle(db, s) {
      StepIdle(db, s);
    } else if OnTable(s) {
      StepChanges(db, s);
      ChangeLaw(good, ok, db, s, Locate(db, s.table));
    } else {
      assert Allowed(ok, db, s);
      ListLaw(good, db, s);
    }
  }

  lemma {:induction false} ListLaw(good: TableState -> bool, db: DbState, s: TableStatement)
    requires GoodWhenNew(good) && AllTables(good, db) && Sound(Step(db, s).0) && !Idle(db, s) && !OnTable(s)
    ensures AllTables(good, Step(db, s).0)
  {
    if s.CreateTable? {
      StepCreates(db, s);
      OneMore(good, db, TableState(s.table, ColumnsOf(s.columns), [], map[]));
    } else {
      StepDrops(db, s);
      OneLess(good, db, Locate(db, s.table));
    }
  }

  lemma {:induction false} RunLaw(good: TableState -> bool, ok: (TableState, Statement) -> bool,
                                  db: DbState, script: seq<TableStatement>)
    requires GoodWhenNew(good) && ExactFor(good, ok) && AllTables(good, db)
    ensures Throughout(good, db, script) <==> EveryStep(ok, db, script)
    decreases |script|
  {
    if script != [] {
      StepLaw(good, ok, db, script[0]);
      if Allowed(ok, db, script[0]) {
        RunLaw(good, ok, Step(db, script[0]).0, script[1..]);
      }
    }
  }

  /** Two properties that no table tells apart. */
  lemma {:induction false} ThroughoutSame(one: TableState -> bool, other: TableState -> bool,
                                          db: DbState, script: seq<TableStatement>)
    requires forall t | RowsFit(t) :: one(t) <==> other(t)
    ensures AllTables(one, db) <==> AllTables(other, db)
    ensures Throughout(one, db, script) <==> Throughout(other, db, script)
    decreases |script|
  {
    if script != [] {
      ThroughoutSame(one, other, Step(db, script[0]).0, script[1..]);
    }
  }

  /** What Throughout means: good after every beginning of the script. */
  lemma {:induction false} ThroughoutMeans(good: TableState -> bool, db: DbState, script: seq<TableStatement>)
    ensures Throughout(good, db, script) <==>
            forall n | 0 <= n <= |script| :: AllTables(good, Run(db, script[..n]).0)
    decreases |script|
  {
    assert script[..0] == [];
    if script != [] {
      var next := Step(db, script[0]).0;
      ThroughoutMeans(good, next, script[1..]);
      forall n | 1 <= n <= |script|
        ensures Run(db, script[..n]).0 == Run(next, script[1..][..n - 1]).0
      {
        RunTail(db, script, n);
      }
      if Throughout(good, db, script) {
        forall n | 0 <= n <= |script|
          ensures AllTables(good, Run(db, script[..n]).0)
        {
          assert n > 0 ==> AllTables(good, Run(next, script[1..][..n - 1]).0);
        }
      }
      if forall n | 0 <= n <= |script| :: AllTables(good, Run(db, script[..n]).0) {
        forall m | 0 <= m <= |script[1..]|
          ensures AllTables(good, Run(next, script[1..][..m]).0)
        {
          assert AllTables(good, Run(db, script[..m + 1]).0);
        }
      }
    }
  }

  lemma {:induction false} RunTail(db: DbState, script: seq<TableStatement>, n: nat)
    requires 1 <= n <= |script|
    ensures Run(db, script[..n]).0 == Run(Step(db, script[0]).0, script[1..][..n - 1]).0
  {
    assert script[..n][0] == script[0] && script[..n][1..] == script[1..][..n - 1];
  }

  lemma {:induction false} GoodAtTheEnd(good: TableState -> bool, db: DbState, script: seq<TableStatement>)
    requires Throughout(good, db, script)
    ensures AllTables(good, Run(db, script).0)
  {
    ThroughoutMeans(good, db, script);
    assert script[..|script|] == script;
  }
}

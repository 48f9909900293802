/** A database without any index, and why nobody can tell the difference. */
module IdealMachine {
  import opened Sequences
  import opened Ast
  import opened Relational
  import opened StatementLaws
  import opened RunLaws
  import opened KeyAgreement
  import opened ScanVerdicts
  import opened Meaning

  /** A database maps names to relations. There is no index, no slot and no order of
      tables. */
  type Ideal = map<string, Relation>

  /** The integer keys of a relation. */
  function ScannedKeys(columns: seq<Column>, rows: seq<Row>): set<int> {
    if rows == [] then {}
    else
      var key := KeyCell(columns, rows[|rows| - 1]);
      ScannedKeys(columns, rows[..|rows| - 1]) + if key.Int? then {key.n} else {}
  }

  /** INSERT refuses the keys that a scan of all rows finds. */
  ghost function IdealOn(r: Relation, s: Statement): (Relation, Reply)
    requires OnTable(s)
  {
    MeantOn(r, s, ScannedKeys(r.columns, r.rows))
  }

  ghost function IdealStep(m: Ideal, s: TableStatement): (Ideal, Reply) {
    if s.Invalid? then (m, Failed(NotAStatement))
    else if s.CreateTable? then
      if s.table in m then (m, Failed(TableExists))
      else (m[s.table := Relation(Schema(s.columns), [])], Done(0))
    else if s.table !in m then (m, Failed(NoSuchTable))
    else if s.DropTable? then (m - {s.table}, Done(0))
    else
      var (r, reply) := IdealOn(m[s.table], s);
      (m[s.table := r], reply)
  }

  ghost function IdealRun(m: Ideal, script: seq<TableStatement>): (Ideal, seq<Reply>)
    decreases |script|
  {
    if script == [] then (m, [])
    else
      var (m', reply) := IdealStep(m, script[0]);
      var (last, replies) := IdealRun(m', script[1..]);
      (last, [reply] + replies)
  }

  // ------------------------------------------------------------ refinement

  ghost predicate ShowsAs(db: DbState, m: Ideal, name: string) {
    && (name in m <==> Locate(db, name) >= 0)
    && (name in m ==> m[name] == RelationOf(db[Locate(db, name)]))
  }

  /** The slots of the database hold exactly the relations of `m`. */
  ghost predicate Represents(db: DbState, m: Ideal) {
    forall name :: ShowsAs(db, m, name)
  }

  lemma {:induction false} LocateAppended(db: DbState, t: TableState, name: string)
    ensures Locate(db + [t], name) ==
            if Locate(db, name) >= 0 then Locate(db, name) else if t.name == name then |db| else -1
  {
    assert (db + [t])[..|db|] == db;
  }

  lemma {:induction false} LocateReplaced(db: DbState, i: nat, t: TableState, name: string)
    requires i < |db| && t.name == db[i].name
    ensures Locate(db[i := t], name) == Locate(db, name)
  {
    var db' := db[i := t];
    var l := Locate(db, name);
    var r := if l >= 0 then l else |db|;
    forall k | 0 <= k < r
      ensures !Called(name)(db'[k])
    {
      FirstWhereIsFirst(Called(name), db, k);
    }
    FirstWhereFound(Called(name), db', r);
  }

  lemma {:induction false} LocateRemoved(db: DbState, i: nat, name: string)
    requires DistinctNames(db) && i < |db|
    ensures var l := Locate(db, name);
            Locate(Remove(db, i), name) == if l == i then -1 else if l < i then l else l - 1
  {
    var db' := Remove(db, i);
    var l := Locate(db, name);
    var r := if l == i || l < 0 then |db'| else if l < i then l else l - 1;
    forall k | 0 <= k < r
      ensures !Called(name)(db'[k])
    {
      LocateKnown(db, if k < i then k else k + 1, name);
    }
    FirstWhereFound(Called(name), db', r);
  }

  /** The two machines give the same answer and the same relation. */
  ghost predicate SameAnswer(t: TableState, s: Statement)
    requires OnTable(s)
  {
    var (t', reply) := TableStep(t, s);
    IdealOn(RelationOf(t), s) == (RelationOf(t'), reply)
  }

  lemma {:induction false} ScannedAreHeld(columns: seq<Column>, rows: seq<Row>, k: int)
    requires forall r | r in rows :: |r| == |columns|
    ensures k in ScannedKeys(columns, rows) <==> HoldsKey(rows, KeyColumn(columns), k)
  {
    if rows != [] {
      var front, row := rows[..|rows| - 1], rows[|rows| - 1];
      ScannedAreHeld(columns, front, k);
      KeyFound(columns, row);
      LastApart(rows);
      HoldsKeyAppend(front, row, KeyColumn(columns), k);
    }
  }

  lemma {:induction false} TakenAreScanned(t: TableState)
    requires RowsFit(t) && KeyColumn(t.columns) >= 0 && ScanExact(t)
    ensures t.index.Keys == ScannedKeys(t.columns, t.rows)
  {
    var key := KeyColumn(t.columns);
    forall k
      ensures k in t.index.Keys <==> k in ScannedKeys(t.columns, t.rows)
    {
      ScannedAreHeld(t.columns, t.rows, k);
      if HoldsKey(t.rows, key, k) {
        var i :| 0 <= i < |t.rows| && HasKeyAt(t.rows, key, i, k);
      }
    }
  }

  lemma {:induction false} SameOnTable(t: TableState, s: Statement)
    requires OnTable(s) && RowsFit(t) && ScanExact(t)
    ensures SameAnswer(t, s)
  {
    StepMeans(t, s);
    if KeyColumn(t.columns) >= 0 {
      TakenAreScanned(t);
    } else if s.Insert? && |s.values| == |t.columns| {
      NoKeyToTake(t, s.values);
    }
  }

  /** Without a key column nothing is refused. */
  lemma {:induction false} NoKeyToTake(t: TableState, values: seq<Literal>)
    requires KeyColumn(t.columns) < 0 && |values| == |t.columns|
    ensures KeyCell(t.columns, NewRow(values)).None?
  {
    NewRowIs(values);
    KeyFound(t.columns, RowOf(values));
  }

  /** No statement tells the table from its relation. */
  ghost predicate Invisible(t: TableState) {
    forall s | OnTable(s) :: SameAnswer(t, s)
  }

  /** What the two machines say to an INSERT of the integer key k. */
  lemma {:induction false} DecidedAlike(t: TableState, values: seq<Literal>, k: int)
    requires RowsFit(t) && WithKey(t, values, k) && SameAnswer(t, Insert("", values))
    ensures Decided(t, values, k)
  {
    NewRowIs(values);
    KeyFound(t.columns, RowOf(values));
    ScannedAreHeld(t.columns, t.rows, k);
  }

  /** Nobody can tell a table from its relation if and only if its index holds
      exactly the keys a scan finds. */
  lemma {:induction false} InvisibleIff(t: TableState)
    requires RowsFit(t)
    ensures Invisible(t) <==> ScanExact(t)
  {
    forall s | OnTable(s) && ScanExact(t)
      ensures SameAnswer(t, s)
    {
      SameOnTable(t, s);
    }
    if Invisible(t) {
      forall values, k | WithKey(t, values, k)
        ensures Decided(t, values, k)
      {
        DecidedAlike(t, values, k);
      }
      VerdictIff(t);
    }
  }

  lemma {:induction false} CreateShows(db: DbState, m: Ideal, table: string, defs: seq<ColumnDef>, name: string)
    requires ShowsAs(db, m, name) && ShowsAs(db, m, table)
    ensures ShowsAs(Create(db, table, defs).0, IdealStep(m, CreateTable(table, defs)).0, name)
  {
    SchemaIs(defs);
    LocateAppended(db, TableState(table, ColumnsOf(defs), [], map[]), name);
  }

  /** After a removal the other tables are found with what they held. */
  lemma {:induction false} FoundAfterRemove(db: DbState, i: nat, name: string)
    requires DistinctNames(db) && i < |db|
    ensures db[i].name == name ==> Locate(Remove(db, i), name) < 0
    ensures db[i].name != name ==>
              && (Locate(Remove(db, i), name) >= 0 <==> Locate(db, name) >= 0)
              && (Locate(db, name) >= 0 ==> Remove(db, i)[Locate(Remove(db, i), name)] == db[Locate(db, name)])
  {
    LocateKnown(db, i, name);
    LocateRemoved(db, i, name);
  }

  lemma {:induction false} DropShows(db: DbState, m: Ideal, i: nat, name: string)
    requires DistinctNames(db) && ShowsAs(db, m, name) && i < |db|
    ensures ShowsAs(Remove(db, i), m - {db[i].name}, name)
  {
    FoundAfterRemove(db, i, name);
    assert name in m - {db[i].name} <==> name in m && name != db[i].name;
  }

  lemma {:induction false} TableShows(db: DbState, m: Ideal, s: TableStatement, name: string)
    requires OnTable(s) && AllTables(ScanExact, db) && ShowsAs(db, m, name) && ShowsAs(db, m, s.table)
    ensures ShowsAs(StepOn(db, s).0, IdealStep(m, s).0, name)
    ensures StepOn(db, s).1 == IdealStep(m, s).1
  {
    var i := Locate(db, s.table);
    if i >= 0 {
      SameOnTable(db[i], s);
      TableStepFits(db[i], s);
      LocateReplaced(db, i, TableStep(db[i], s).0, name);
    }
  }

  /** One statement: the same reply, and states that still show the same. Only
      the state before needs indexes that hold exactly the scanned keys. */
  lemma {:induction false} StepRefines(db: DbState, m: Ideal, s: TableStatement)
    requires AllTables(ScanExact, db) && Represents(db, m)
    ensures Step(db, s).1 == IdealStep(m, s).1
    ensures Represents(Step(db, s).0, IdealStep(m, s).0)
  {
    if s.Invalid? {
      return;
    }
    assert ShowsAs(db, m, s.table);
    if OnTable(s) {
      TableShows(db, m, s, s.table);
    }
    forall name
      ensures ShowsAs(Step(db, s).0, IdealStep(m, s).0, name)
    {
      assert ShowsAs(db, m, name);
      if s.CreateTable? {
        CreateShows(db, m, s.table, s.columns, name);
      } else if s.DropTable? {
        if Locate(db, s.table) >= 0 {
          DropShows(db, m, Locate(db, s.table), name);
        }
      } else {
        TableShows(db, m, s, name);
      }
    }
  }

  /** Over every run that keeps the indexes to the scanned keys the indexed
      database gives, reply by reply, the answers of the database without indexes,
      and shows the same relations. */
  lemma {:induction false} IndexIsInvisible(db: DbState, m: Ideal, script: seq<TableStatement>)
    requires AllTables(ScanExact, db) && Represents(db, m) && EveryStep(KeepsScan, db, script)
    ensures Run(db, script).1 == IdealRun(m, script).1
    ensures Represents(Run(db, script).0, IdealRun(m, script).0)
    decreases |script|
  {
    if script != [] {
      StepRefines(db, m, script[0]);
      KeepsScanIsExact();
      StepLaw(ScanExact, KeepsScan, db, script[0]);
      IndexIsInvisible(Step(db, script[0]).0, IdealStep(m, script[0]).0, script[1..]);
    }
  }

  /** At every moment of a run no statement would tell any table from its relation,
      if and only if every step keeps the indexes to the scanned keys. */
  lemma {:induction false} InvisibleOverRuns(db: DbState, script: seq<TableStatement>)
    requires AllTables(Invisible, db)
    ensures Throughout(Invisible, db, script) <==> EveryStep(KeepsScan, db, script)
  {
    forall t: TableState | RowsFit(t)
      ensures Invisible(t) <==> ScanExact(t)
    {
      InvisibleIff(t);
    }
    ThroughoutSame(Invisible, ScanExact, db, script);
    ScanExactOverRuns(db, script);
  }
}

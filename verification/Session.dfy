/** The selected database: USE, CREATE DATABASE, DROP DATABASE, and every other
    statement inside the database in use. */
module Sessions {
  import opened Ast
  import opened Relational
  import opened Tables
  import opened PrimaryIndex
  import opened Execution

  datatype Option<T> = None | Some(value: T)

  /** The name of the database in use, empty for none, and its tables. */
  datatype SessionState = SessionState(current: string, db: Option<DbState>)

  /** One statement; `granted` is what mkdir or rmdir answers. */
  function SessionStep(s: SessionState, stmt: Statement, granted: bool): (SessionState, Reply) {
    match stmt
    case CreateDatabase(_) =>
      (s, if granted then Done(0) else Failed(FileSystemRefused))
    case DropDatabase(name) =>
      (if s.current == name then SessionState("", None) else s, if granted then Done(0) else Failed(FileSystemRefused))
    case Use(name) => (SessionState(name, Some([])), Done(0))
    case Invalid => (s, Failed(NotAStatement))
    case _ => Inside(s, stmt)
  }

  function Inside(s: SessionState, stmt: TableStatement): (SessionState, Reply) {
    if s.current == "" || s.db.None? then (s, Failed(NoDatabaseSelected))
    else
      var (db, reply) := Step(s.db.value, stmt);
      (s.(db := Some(db)), reply)
  }

  class Session {
    var current: string
    var executor: Executor?

    /** The objects of the database in use. */
    ghost function Objects(): set<object>
      reads this, if executor == null then {} else {executor.db}
    {
      if executor == null then {}
      else
        var tables: set<object> := set t: Table | t in executor.db.tables;
        var indexes: set<object> := set x: Index | x in executor.db.indexes;
        {executor.db} + tables + indexes
    }

    ghost predicate Valid()
      reads this, if executor == null then {} else {executor.db}, Objects()
    {
      && (current != "" ==> executor != null)
      && (executor != null ==> executor.Valid())
    }

    ghost function State(): SessionState
      requires Valid()
      reads this, if executor == null then {} else {executor.db}, Objects()
    {
      SessionState(current, if executor == null then None else Some(executor.State()))
    }

    constructor ()
      ensures Valid() && State() == SessionState("", None)
    {
      current, executor := "", null;
    }

    /** Runs any statement. Dropping the database without a name while none is in
        use is undefined in the original, and no SQL text says it. */
    method Execute(stmt: Statement, granted: bool) returns (reply: Reply)
      requires Valid() && !(executor == null && stmt == DropDatabase(""))
      modifies this, Objects()
      ensures Valid() && (State(), reply) == SessionStep(old(State()), stmt, granted)
      ensures forall o | o in Objects() :: o in old(Objects()) || fresh(o)
    {
      match stmt
      case CreateDatabase(_) =>
        reply := if granted then Done(0) else Failed(FileSystemRefused);
      case DropDatabase(name) =>
        if current == name {
          current, executor := "", null;
        }
        reply := if granted then Done(0) else Failed(FileSystemRefused);
      case Use(name) =>
        executor := new Executor();
        current := name;
        reply := Done(0);
      case Invalid =>
        reply := Failed(NotAStatement);
      case _ =>
        reply := ExecuteInside(stmt);
    }

    /** The statements that need a database. */
    method ExecuteInside(stmt: TableStatement) returns (reply: Reply)
      requires Valid() && !stmt.Invalid?
      modifies Objects()
      ensures Valid()
      ensures (State(), reply) == Inside(old(State()), stmt)
      ensures forall o | o in Objects() :: o in old(Objects()) || fresh(o)
    {
      if current == "" {
        return Failed(NoDatabaseSelected);
      }
      reply := executor.Execute(stmt);
    }
  }

  // -------------------------------------------------------------- whole runs

  /** A statement with the answer of the file system. */
  type Order = (Statement, bool)

  function SessionRun(s: SessionState, orders: seq<Order>): SessionState {
    if orders == [] then s
    else
      var n := |orders| - 1;
      SessionStep(SessionRun(s, orders[..n]), orders[n].0, orders[n].1).0
  }

  /** What matters of a session so far: the database in use and what was said to
      it since its last USE. */
  datatype Since = Nothing | In(name: string, script: seq<TableStatement>)

  function SinceUse(orders: seq<Order>): Since {
    if orders == [] then Nothing
    else
      var before, stmt := SinceUse(orders[..|orders| - 1]), orders[|orders| - 1].0;
      match stmt
      case Use(name) => In(name, [])
      case DropDatabase(name) => if before.In? && before.name == name then Nothing else before
      case CreateDatabase(_) => before
      case _ => if before.In? then In(before.name, before.script + [stmt]) else before
  }

  function StateOf(since: Since): SessionState {
    match since
    case Nothing => SessionState("", None)
    case In(name, script) => SessionState(name, Some(Run([], script).0))
  }

  /** Database names as SQL text can say them: not empty. */
  predicate NamesDatabase(stmt: Statement) {
    stmt.Use? || stmt.DropDatabase? ==> stmt.name != ""
  }

  lemma {:induction false} RunSnoc(db: DbState, script: seq<TableStatement>, s: TableStatement)
    ensures Run(db, script + [s]).0 == Step(Run(db, script).0, s).0
    decreases |script|
  {
    if script == [] {
      assert script + [s] == [s];
    } else {
      assert (script + [s])[0] == script[0] && (script + [s])[1..] == script[1..] + [s];
      RunSnoc(Step(db, script[0]).0, script[1..], s);
    }
  }

  /** Whatever a session did, it is in no database or in one whose tables are
      those of a run from the empty database: of the statements since its last
      USE. What held before the USE is gone. */
  lemma {:induction false} SessionIsRun(orders: seq<Order>)
    requires forall i | 0 <= i < |orders| :: NamesDatabase(orders[i].0)
    ensures var since := SinceUse(orders);
            && SessionRun(SessionState("", None), orders) == StateOf(since)
            && (since.In? ==> since.name != "")
  {
    if orders != [] {
      var front, last := orders[..|orders| - 1], orders[|orders| - 1].0;
      SessionIsRun(front);
      var before := SinceUse(front);
      assert NamesDatabase(last);
      if before.In? && TableLevel(last) {
        RunSnoc([], before.script, last);
      }
    }
  }

  /** What the session says to the next statement, for any statements it ran: a
      statement on tables gets the reply of the run since the last USE, or is refused
      when no database is in use; CREATE and DROP DATABASE answer what the file
      system granted. */
  lemma {:induction false} SessionReplies(orders: seq<Order>, stmt: Statement, granted: bool)
    requires forall i | 0 <= i < |orders| :: NamesDatabase(orders[i].0)
    ensures var since := SinceUse(orders);
            SessionStep(SessionRun(SessionState("", None), orders), stmt, granted).1 ==
            match stmt
            case CreateDatabase(_) => if granted then Done(0) else Failed(FileSystemRefused)
            case DropDatabase(_) => if granted then Done(0) else Failed(FileSystemRefused)
            case Use(_) => Done(0)
            case Invalid => Failed(NotAStatement)
            case _ =>
              match since
              case Nothing => Failed(NoDatabaseSelected)
              case In(_, script) => Step(Run([], script).0, stmt).1
  {
    SessionIsRun(orders);
  }
}

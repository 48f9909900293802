/** What every statement does to the key index, key by key, by column names and
    rows alone. */
module IndexMeaning {
  import opened Sequences
  import opened Values
  import opened Ast
  import opened Relational
  import opened KeyAgreement
  import opened Meaning

  predicate HasPrimary(columns: seq<Column>) {
    exists i :: 0 <= i < |columns| && columns[i].primary
  }

  /** The first column of that name is the first primary one. */
  predicate IsKeyName(columns: seq<Column>, name: string) {
    columns != [] &&
    if columns[0].name == name then columns[0].primary
    else !columns[0].primary && IsKeyName(columns[1..], name)
  }

  /** The two indexes say the same about key k. */
  predicate SameEntry(index: map<int, int>, index': map<int, int>, k: int) {
    (k in index <==> k in index') && (k in index ==> index[k] == index'[k])
  }

  /** A row that meets the condition holds key k. */
  ghost predicate Meeting(t: TableState, cond: Condition, i: int, k: int) {
    && 0 <= i < |t.rows| && Meets(t.columns, t.rows[i], cond)
    && KeyCell(t.columns, t.rows[i]) == Int(k)
  }

  /** Row i is the last one that meets the condition. */
  ghost predicate LastMeeting(t: TableState, cond: Condition, i: int) {
    && 0 <= i < |t.rows| && Meets(t.columns, t.rows[i], cond)
    && forall j | i < j < |t.rows| :: !Meets(t.columns, t.rows[j], cond)
  }

  /** The entry of key k after a statement that went through: DELETE removes the keys of
      the rows it deletes; INSERT files the new row's key, or 0 for another key; UPDATE
      of the key column files an integer under the last row it changes. No other entry
      changes. */
  ghost predicate EntryMeant(t: TableState, s: Statement, index': map<int, int>, k: int)
    requires OnTable(s)
  {
    match s
    case Select(_, _, _) => SameEntry(t.index, index', k)
    case Delete(_, cond) =>
      if exists i :: Meeting(t, cond, i, k) then k !in index' else SameEntry(t.index, index', k)
    case Insert(_, values) =>
      var key := KeyCell(t.columns, NewRow(values));
      if HasPrimary(t.columns) && k == (if key.Int? then key.n else 0) then k in index' && index'[k] == |t.rows|
      else SameEntry(t.index, index', k)
    case Update(_, column, value, cond) =>
      if IsKeyName(t.columns, column) && Meant(value) == Int(k) && (exists i :: LastMeeting(t, cond, i)) then
        k in index' && LastMeeting(t, cond, index'[k])
      else SameEntry(t.index, index', k)
  }

  lemma {:induction false} PrimaryFound(columns: seq<Column>)
    ensures KeyColumn(columns) >= 0 <==> HasPrimary(columns)
  {
    if i :| 0 <= i < |columns| && columns[i].primary && KeyColumn(columns) < 0 {
      FirstWhereIsFirst(IsPrimary(), columns, i);
    }
  }

  lemma {:induction false} KeyNameFound(columns: seq<Column>, name: string)
    requires FindColumn(columns, name) >= 0
    ensures IsKeyName(columns, name) <==> FindColumn(columns, name) == KeyColumn(columns)
    decreases |columns|
  {
    FirstWhereCons(Named(name), columns);
    FirstWhereCons(IsPrimary(), columns);
    if columns[0].name != name {
      KeyNameFound(columns[1..], name);
    }
  }

  lemma {:induction false} DeletedKeys(t: TableState, cond: Condition, k: int)
    requires RowsFit(t) && Answerable(t.columns, cond)
    ensures k in KeysOf(Picks(t.columns, cond), t.rows, KeyColumn(t.columns)) <==> exists i :: Meeting(t, cond, i, k)
  {
    var p, key := Picks(t.columns, cond), KeyColumn(t.columns);
    KeyOfRow(p, t.rows, key, k);
    forall i | 0 <= i < |t.rows|
      ensures Meeting(t, cond, i, k) <==> HasKeyAt(t.rows, key, i, k) && p(t.rows[i])
    {
      MeetsIs(t.columns, t.rows[i], cond);
      KeyFound(t.columns, t.rows[i]);
    }
  }

  lemma {:induction false} LastFound(t: TableState, cond: Condition)
    requires RowsFit(t) && Answerable(t.columns, cond)
    ensures var last := LastWhere(Picks(t.columns, cond), t.rows);
            forall i :: LastMeeting(t, cond, i) <==> i == last && last >= 0
  {
    var p := Picks(t.columns, cond);
    var last := LastWhere(p, t.rows);
    forall i | 0 <= i < |t.rows|
      ensures Meets(t.columns, t.rows[i], cond) <==> p(t.rows[i])
      ensures i > last ==> !p(t.rows[i])
    {
      MeetsIs(t.columns, t.rows[i], cond);
      if i > last {
        LastWhereIsLast(p, t.rows, i);
      }
    }
  }

  /** Every statement that goes through leaves the entries that are meant. */
  lemma {:induction false} IndexMeans(t: TableState, s: Statement, k: int)
    requires OnTable(s) && RowsFit(t) && !TableStep(t, s).1.Failed?
    ensures EntryMeant(t, s, TableStep(t, s).0.index, k)
  {
    match s
    case Select(_, _, _) =>
    case Delete(_, cond) =>
      AnswerableIs(t.columns, cond);
      DeletedKeys(t, cond, k);
    case Insert(_, values) =>
      NewRowIs(values);
      KeyFound(t.columns, RowOf(values));
      PrimaryFound(t.columns);
    case Update(_, column, value, cond) =>
      AnswerableIs(t.columns, cond);
      KeyNameFound(t.columns, column);
      LastFound(t, cond);
  }
}

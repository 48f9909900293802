/** The tables of one database: three vectors kept in step. */
module Databases {
  import opened Sequences
  import opened Relational
  import opened Tables
  import opened PrimaryIndex

  ghost predicate Distinct<T>(s: seq<T>) {
    forall i, j | 0 <= i < j < |s| :: s[i] != s[j]
  }

  lemma {:induction false} DistinctWithout<T>(s: seq<T>, at: nat)
    requires Distinct(s) && at < |s|
    ensures Distinct(Remove(s, at))
  {
  }

  /** The value of one slot. */
  ghost function View(name: string, table: Table, index: Index): TableState
    reads table, index
  {
    TableState(name, table.columns, table.rows, index.Contents())
  }

  class Database {
    var names: seq<string>
    var tables: seq<Table>
    var indexes: seq<Index>

    /** Slot i of the three vectors describes one table; nothing is shared. */
    ghost predicate Valid()
      reads this, tables, indexes
    {
      && |names| == |tables| == |indexes|
      && Distinct(names) && Distinct(tables) && Distinct(indexes)
      && (forall x | x in indexes :: x.Valid())
    }

    /** The value this database stands for. */
    ghost function State(): (db: DbState)
      requires |names| == |tables| == |indexes|
      reads this, tables, indexes
      ensures |db| == |names|
    {
      seq(|names|, i requires 0 <= i < |names| && |names| == |tables| == |indexes|
                     reads tables, indexes, this =>
        View(names[i], tables[i], indexes[i]))
    }

    constructor ()
      ensures Valid() && State() == []
      ensures tables == [] && indexes == []
    {
      names, tables, indexes := [], [], [];
    }

    /** The slot of a table, or -1: the search every operation starts with. */
    method Slot(name: string) returns (r: int)
      requires Valid()
      ensures r == Locate(State(), name)
    {
      var i := 0;
      while i < |names|
        invariant 0 <= i <= |names|
        invariant forall k | 0 <= k < i :: names[k] != name
      {
        if names[i] == name {
          FirstWhereFound(Called(name), State(), i);
          return i;
        }
        i := i + 1;
      }
      FirstWhereFound(Called(name), State(), i);
      return -1;
    }

    method GetTable(name: string) returns (t: Table?)
      requires Valid()
      ensures t == null <==> Locate(State(), name) < 0
      ensures t != null ==> t == tables[Locate(State(), name)]
    {
      var i := Slot(name);
      if i < 0 {
        return null;
      }
      return tables[i];
    }

    method GetIndex(name: string) returns (x: Index?)
      requires Valid()
      ensures x == null <==> Locate(State(), name) < 0
      ensures x != null ==> x == indexes[Locate(State(), name)]
    {
      var i := Slot(name);
      if i < 0 {
        return null;
      }
      return indexes[i];
    }

    method CreateTable(name: string, columns: seq<Column>) returns (ok: bool)
      requires Valid()
      modifies this
      ensures Valid()
      ensures ok <==> Locate(old(State()), name) < 0
      ensures State() == if ok then old(State()) + [TableState(name, columns, [], map[])] else old(State())
      ensures forall t | t in tables :: t in old(tables) || (fresh(t) && t.RowsFit())
      ensures forall x | x in indexes :: x in old(indexes) || fresh(x)
    {
      var existing := GetTable(name);
      if existing != null {
        return false;
      }
      var table := NewTable(name, columns);
      var index := new Index();
      Append(name, table, index);
      return true;
    }

    static method NewTable(name: string, columns: seq<Column>) returns (table: Table)
      ensures fresh(table) && table.name == name
      ensures table.columns == columns && table.rows == []
    {
      table := new Table(name);
      var i := 0;
      while i < |columns|
        invariant 0 <= i <= |columns|
        invariant table.columns == columns[..i] && table.rows == []
        modifies table
      {
        table.AddColumn(columns[i]);
        i := i + 1;
      }
      assert columns[..i] == columns;
    }

    /** Pushes one new slot onto the three vectors. */
    method Append(name: string, table: Table, index: Index)
      requires Valid() && index.Valid()
      requires Locate(State(), name) < 0
      requires table !in tables && index !in indexes
      modifies this
      ensures Valid()
      ensures tables == old(tables) + [table] && indexes == old(indexes) + [index]
      ensures State() == old(State()) + [View(name, table, index)]
    {
      forall k | 0 <= k < |names|
        ensures names[k] != name
      {
        FirstWhereIsFirst(Called(name), State(), k);
      }
      indexes := indexes + [index];
      names := names + [name];
      tables := tables + [table];
    }

    method DropTable(name: string) returns (ok: bool)
      requires Valid()
      modifies this
      ensures Valid()
      ensures ok <==> Locate(old(State()), name) >= 0
      ensures State() == if ok then Remove(old(State()), Locate(old(State()), name)) else old(State())
      ensures forall t | t in tables :: t in old(tables)
      ensures forall x | x in indexes :: x in old(indexes)
    {
      var i := Slot(name);
      if i < 0 {
        return false;
      }
      CloseGap(i);
      return true;
    }

    /** Drops slot `at` of the three vectors together. */
    method CloseGap(at: nat)
      requires Valid() && at < |names|
      modifies this
      ensures Valid() && State() == Remove(old(State()), at)
      ensures forall t | t in tables :: t in old(tables)
      ensures forall x | x in indexes :: x in old(indexes)
    {
      ShiftDown(at);
      DistinctWithout(old(names), at);
      DistinctWithout(old(tables), at);
      DistinctWithout(old(indexes), at);
      ghost var was, now := old(State()), State();
      forall k | 0 <= k < |now|
        ensures now[k] == Remove(was, at)[k]
      {
        var k' := if k < at then k else k + 1;
        assert names[k] == old(names)[k'] && tables[k] == old(tables)[k'] && indexes[k] == old(indexes)[k'];
      }
    }

    /** The loop of DropTable that shifts the three vectors left together. */
    method ShiftDown(at: nat)
      requires |names| == |tables| == |indexes| && at < |names|
      modifies this
      ensures names == Remove(old(names), at)
      ensures tables == Remove(old(tables), at)
      ensures indexes == Remove(old(indexes), at)
    {
      ghost var names0, tables0, indexes0 := names, tables, indexes;
      var j := at;
      ShiftStarts(names, at);
      ShiftStarts(tables, at);
      ShiftStarts(indexes, at);
      while j + 1 < |names|
        invariant |names0| == |tables0| == |indexes0|
        invariant Shifted(names0, names, at, j) && Shifted(tables0, tables, at, j) && Shifted(indexes0, indexes, at, j)
      {
        ShiftStep(names0, names, at, j);
        ShiftStep(tables0, tables, at, j);
        ShiftStep(indexes0, indexes, at, j);
        names := names[j := names[j + 1]];
        tables := tables[j := tables[j + 1]];
        indexes := indexes[j := indexes[j + 1]];
        j := j + 1;
      }
      ShiftEnds(names0, names, at);
      ShiftEnds(tables0, tables, at);
      ShiftEnds(indexes0, indexes, at);
      names := names[..|names| - 1];
      tables := tables[..|tables| - 1];
      indexes := indexes[..|indexes| - 1];
    }
  }
}

/** A table held in memory: its schema and its rows, changed in place. */
module Tables {
  import opened Sequences
  import opened Values
  import opened Relational
  import opened Numbers
  import opened TableFormat

  class Table {
    const name: string
    var columns: seq<Column>
    var rows: seq<Row>

    /** Every row is as wide as the schema. */
    ghost predicate RowsFit()
      reads this
    {
      forall r | r in rows :: |r| == |columns|
    }

    constructor (name: string)
      ensures this.name == name && columns == [] && rows == []
    {
      this.name := name;
      columns, rows := [], [];
    }

    method AddColumn(column: Column)
      modifies this
      ensures columns == old(columns) + [column] && rows == old(rows)
    {
      columns := columns + [column];
    }

    method ColumnNumber(name: string) returns (r: int)
      ensures r == FindColumn(columns, name)
    {
      var i := 0;
      while i < |columns|
        invariant 0 <= i <= |columns|
        invariant forall k | 0 <= k < i :: columns[k].name != name
      {
        if columns[i].name == name {
          FirstWhereFound(Named(name), columns, i);
          return i;
        }
        i := i + 1;
      }
      FirstWhereFound(Named(name), columns, i);
      return -1;
    }

    method PrimaryKeyIndex() returns (r: int)
      ensures r == KeyColumn(columns)
    {
      var i := 0;
      while i < |columns|
        invariant 0 <= i <= |columns|
        invariant forall k | 0 <= k < i :: !columns[k].primary
      {
        if columns[i].primary {
          FirstWhereFound(IsPrimary(), columns, i);
          return i;
        }
        i := i + 1;
      }
      FirstWhereFound(IsPrimary(), columns, i);
      return -1;
    }

    method InsertRow(row: Row)
      modifies this
      ensures rows == old(rows) + [row] && columns == old(columns)
    {
      rows := rows + [row];
    }

    /** Removing a row moves every later row one place down; a number past the
        end removes nothing. */
    method RemoveRow(index: nat)
      modifies this
      ensures columns == old(columns)
      ensures rows == if index < |old(rows)| then Remove(old(rows), index) else old(rows)
    {
      if index >= |rows| {
        return;
      }
      ghost var was := rows;
      var i := index;
      ShiftStarts(was, index);
      while i + 1 < |rows|
        invariant columns == old(columns)
        invariant Shifted(was, rows, index, i)
      {
        ShiftStep(was, rows, index, i);
        rows := rows[i := rows[i + 1]];
        i := i + 1;
      }
      ShiftEnds(was, rows, index);
      rows := rows[..|rows| - 1];
    }

    /** row_at(i).get_value(col) = v */
    method SetValue(i: nat, col: nat, v: Value)
      requires i < |rows| && col < |rows[i]|
      modifies this
      ensures columns == old(columns)
      ensures rows == old(rows)[i := old(rows)[i][col := v]]
    {
      rows := rows[i := rows[i][col := v]];
    }

    // ------------------------------------------------------------ persistence

    method SaveToFile() returns (file: string)
      ensures file == FileText(columns, rows)
    {
      var columnLines := SaveColumns();
      var rowLines := SaveRows();
      file := NatText(|columns|) + "\n" + (columnLines + (NatText(|rows|) + "\n" + rowLines));
    }

    method SaveColumns() returns (lines: string)
      ensures lines == ColumnLines(columns)
    {
      lines := "";
      var i := 0;
      ghost var todo := ColumnLines(columns);
      assert columns[0..] == columns;
      while i < |columns|
        invariant 0 <= i <= |columns|
        invariant todo == ColumnLines(columns[i..]) && lines + todo == ColumnLines(columns)
      {
        ColumnLinesStep(lines, columns, i);
        todo := ColumnLines(columns[i + 1..]);
        lines := lines + ColumnText(columns[i]) + "\n";
        i := i + 1;
      }
    }

    static method SaveRow(row: Row) returns (text: string)
      ensures text == RowText(row)
    {
      text := "";
      var j := 0;
      assert "" + RowText(row) == RowText(row);
      while j < |row|
        invariant 0 <= j <= |row|
        invariant text + RowTextFrom(row, j) == RowText(row)
      {
        RowTextStep(text, row, j);
        var bar := if j > 0 then "|" else "";
        text := text + bar + CellText(row[j]);
        j := j + 1;
      }
      assert text + "" == text;
    }

    method SaveRows() returns (lines: string)
      ensures lines == RowLines(rows)
    {
      lines := "";
      var i := 0;
      ghost var todo := RowLines(rows);
      assert rows[0..] == rows;
      while i < |rows|
        invariant 0 <= i <= |rows|
        invariant todo == RowLines(rows[i..]) && lines + todo == RowLines(rows)
      {
        RowLinesStep(lines, rows, i);
        todo := RowLines(rows[i + 1..]);
        var text := SaveRow(rows[i]);
        lines := lines + text + "\n";
        i := i + 1;
      }
    }

    method LoadFromFile(file: string) returns (ok: bool)
      modifies this
      ensures Loaded(ok, columns, rows) == Load(file, old(columns), old(rows))
    {
      var first := Fgets(file);
      if first.NoLine? {
        return false;
      }
      var colCnt := Atoi(first.text);
      var rest := "";
      ok, rest := LoadColumns(first.rest, colCnt);
      if !ok {
        return false;
      }
      var second := Fgets(rest);
      if second.NoLine? {
        return false;
      }
      var rowCnt := Atoi(second.text);
      ok := LoadRows(second.rest, |columns|, rowCnt);
    }

    method LoadColumns(file: string, colCnt: int) returns (ok: bool, rest: string)
      modifies `columns
      ensures ColumnsRead(ok, columns, rest) == ReadColumns(file, if colCnt > 0 then colCnt else 0)
    {
      columns, rest, ok := [], file, true;
      ghost var n := if colCnt > 0 then colCnt else 0;
      ghost var all := ReadColumns(file, n);
      ColumnsDueEnds(all, [], file);
      var i := 0;
      ghost var due := n;
      while i < colCnt && ok
        invariant 0 <= i <= n && due == n - i
        invariant ok ==> ColumnsDue(all, columns, rest, due)
        invariant !ok ==> all == ColumnsRead(false, columns, rest)
        decreases n - i, ok
      {
        ghost var from := rest;
        var column;
        ok, column, rest := NextColumn(rest);
        ColumnsDueStep(all, columns, from, due);
        if ok {
          columns := columns + [column];
          i, due := i + 1, due - 1;
        }
      }
      ColumnsDueEnds(all, columns, rest);
    }

    /** One line, if there is one and it has its three parts. */
    static method NextColumn(file: string) returns (ok: bool, column: Column, rest: string)
      ensures (ok, rest) == ColumnLine(file)
      ensures ok ==> column == ColumnFrom(Tokens(ColumnDelim, Fgets(file).text))
    {
      ok, column, rest := false, Column("", IntType, false), file;
      var line := Fgets(file);
      if line.Line? {
        rest := line.rest;
        ok, column := LoadColumn(line.text);
      }
    }

    /** name type is_primary, by three calls of strtok. */
    static method LoadColumn(text: string) returns (found: bool, column: Column)
      ensures found <==> |Tokens(ColumnDelim, text)| >= 3
      ensures found ==> column == ColumnFrom(Tokens(ColumnDelim, text))
    {
      column := Column("", IntType, false);
      var name := Strtok(ColumnDelim, text);
      var ty := if name.NoToken? then name else Strtok(ColumnDelim, name.rest);
      var pk := if ty.NoToken? then ty else Strtok(ColumnDelim, ty.rest);
      found := pk.Cut?;
      ThreeTokens(ColumnDelim, text);
      if found {
        ghost var tokens := Tokens(ColumnDelim, text);
        assert tokens[..3][0] == name.token && tokens[..3][1] == ty.token && tokens[..3][2] == pk.token;
        column := Column(name.token, if Atoi(ty.token) == 0 then IntType else StringType, Atoi(pk.token) != 0);
      }
    }

    method LoadRow(text: string, colCnt: nat) returns (row: Row)
      requires colCnt == |columns|
      ensures row == RowFrom(columns, Tokens(RowDelim, text))
    {
      row := [];
      var token := Strtok(RowDelim, text);
      var colIdx := 0;
      ghost var left, due := text, columns;
      while token.Cut? && colIdx < colCnt
        invariant 0 <= colIdx <= colCnt && token == Strtok(RowDelim, left) && due == columns[colIdx..]
        invariant row + RowFrom(due, Tokens(RowDelim, left)) == RowFrom(columns, Tokens(RowDelim, text))
        decreases |left|
      {
        RowFromStep(row, due, left, token);
        if columns[colIdx].ty.IntType? {
          row := row + [Int(Atoi(token.token))];
        } else {
          row := row + [Str(token.token)];
        }
        colIdx := colIdx + 1;
        left, due := token.rest, due[1..];
        token := Strtok(RowDelim, token.rest);
      }
      assert row + [] == row;
    }

    method LoadRows(file: string, colCnt: nat, rowCnt: int) returns (ok: bool)
      requires colCnt == |columns|
      modifies `rows
      ensures RowsRead(ok, rows) == ReadRows(file, columns, if rowCnt > 0 then rowCnt else 0)
    {
      rows, ok := [], true;
      ghost var n := if rowCnt > 0 then rowCnt else 0;
      ghost var all := ReadRows(file, columns, n);
      AfterNothing([], all.rows);
      var rest, i := file, 0;
      ghost var due := n;
      while i < rowCnt && ok
        invariant 0 <= i <= n && due == n - i
        invariant ok ==> all == AfterRows(rows, ReadRows(rest, columns, due))
        invariant !ok ==> all == RowsRead(false, rows)
        decreases n - i, ok
      {
        AfterNothing([], rows);
        var line := Fgets(rest);
        if line.NoLine? {
          ok := false;
        } else {
          var row := LoadRow(line.text, colCnt);
          rest := line.rest;
          AfterRowsStep(rows, row, ReadRows(rest, columns, due - 1));
          rows := rows + [row];
          i, due := i + 1, due - 1;
        }
      }
      AfterNothing([], rows);
    }
  }
}

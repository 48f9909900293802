/** A table file line by line: when loading succeeds, and what is loaded. */
module FileLines {
  import opened Numbers
  import opened Values
  import opened Relational
  import opened TableFormat

  /** What fgets gives, call after call, up to the end of the file. */
  function Lines(file: string): seq<string>
    decreases |file|
  {
    match Fgets(file)
    case NoLine => []
    case Line(text, rest) => [text] + Lines(rest)
  }

  /** The number a line announces; a negative one announces nothing. */
  function Announced(line: string): nat {
    if Atoi(line) < 0 then 0 else Atoi(line)
  }

  predicate GivesColumn(line: string) {
    |Tokens(ColumnDelim, line)| >= 3
  }

  /** name, type and primary flag: 0 is the integer type, and any flag but 0 is
      set. Further tokens are ignored. */
  predicate IsColumnOf(c: Column, line: string) {
    var tokens := Tokens(ColumnDelim, line);
    && |tokens| >= 3 && c.name == tokens[0]
    && (c.ty.IntType? <==> Atoi(tokens[1]) == 0) && (c.primary <==> Atoi(tokens[2]) != 0)
  }

  /** A cell for each token, integers in the integer columns; tokens beyond the last
      column are ignored, and missing ones leave the row short. */
  predicate IsRowOf(row: Row, columns: seq<Column>, line: string) {
    var tokens := Tokens(RowDelim, line);
    && |row| == (if |tokens| < |columns| then |tokens| else |columns|)
    && forall j | 0 <= j < |row| ::
         if columns[j].ty.IntType? then row[j] == Int(Atoi(tokens[j])) else row[j] == Str(tokens[j])
  }

  /** Behind the first line, which announces c columns, stand c lines that give one,
      a line that announces rows, and as many rows. */
  predicate CompleteAfter(c: nat, more: seq<string>) {
    && |more| > c && (forall i | 0 <= i < c :: GivesColumn(more[i]))
    && |more| - (c + 1) >= Announced(more[c])
  }

  /** The lines hold all they announce: the columns, and then the rows. */
  predicate Complete(lines: seq<string>) {
    lines != [] && CompleteAfter(Announced(lines[0]), lines[1..])
  }

  // ------------------------------------------------------------------- loops

  /** The columns of n lines, up to the first line that gives none. */
  predicate ColumnsOfLines(columns: seq<Column>, lines: seq<string>, n: nat) {
    && |columns| <= n && |columns| <= |lines|
    && (forall i | 0 <= i < |columns| :: IsColumnOf(columns[i], lines[i]))
    && (|columns| < n && |columns| < |lines| ==> !GivesColumn(lines[|columns|]))
  }

  /** The rows of n lines, or of as many as there are. */
  predicate RowsOfLines(rows: seq<Row>, columns: seq<Column>, lines: seq<string>, n: nat) {
    && |rows| == (if n <= |lines| then n else |lines|)
    && forall i | 0 <= i < |rows| :: IsRowOf(rows[i], columns, lines[i])
  }

  lemma {:induction false} OneColumnMore(column: Column, line: string, columns: seq<Column>, lines: seq<string>, n: nat)
    requires IsColumnOf(column, line) && ColumnsOfLines(columns, lines, n)
    ensures ColumnsOfLines([column] + columns, [line] + lines, n + 1)
  {
  }

  lemma {:induction false} OneRowMore(row: Row, line: string, rows: seq<Row>, columns: seq<Column>,
                                      lines: seq<string>, n: nat)
    requires IsRowOf(row, columns, line) && RowsOfLines(rows, columns, lines, n)
    ensures RowsOfLines([row] + rows, columns, [line] + lines, n + 1)
  {
  }

  /** The column loop read these lines, and what it left is the rest of them. */
  ghost predicate ColumnsReadFrom(r: ColumnsRead, lines: seq<string>, n: nat) {
    && ColumnsOfLines(r.columns, lines, n)
    && (r.ok <==> |r.columns| == n)
    && (r.ok ==> Lines(r.rest) == lines[n..])
  }

  lemma {:induction false} ReadOneMore(column: Column, line: string, r: ColumnsRead, lines: seq<string>, n: nat)
    requires n > 0 && IsColumnOf(column, line) && ColumnsReadFrom(r, lines, n - 1)
    ensures ColumnsReadFrom(AfterColumns([column], r), [line] + lines, n)
  {
    OneColumnMore(column, line, r.columns, lines, n - 1);
    BehindFirst(line, lines, n);
  }

  lemma {:induction false} FirstColumnRead(file: string, n: nat, text: string, rest: string)
    requires n > 0 && Fgets(file) == Line(text, rest) && GivesColumn(text)
    ensures ReadColumns(file, n) == AfterColumns([ColumnFrom(Tokens(ColumnDelim, text))], ReadColumns(rest, n - 1))
    ensures Lines(file) == [text] + Lines(rest)
    ensures IsColumnOf(ColumnFrom(Tokens(ColumnDelim, text)), text)
  {
  }

  lemma {:induction false} NoColumnRead(file: string, n: nat)
    requires n == 0 || Fgets(file).NoLine? || !GivesColumn(Fgets(file).text)
    ensures ColumnsReadFrom(ReadColumns(file, n), Lines(file), n)
  {
  }

  /** The same of the loop over a file. */
  ghost predicate ReadsColumns(file: string, n: nat) {
    ColumnsReadFrom(ReadColumns(file, n), Lines(file), n)
  }

  lemma {:induction false} ReadsOneMore(file: string, n: nat, text: string, rest: string)
    requires n > 0 && Fgets(file) == Line(text, rest) && GivesColumn(text) && ReadsColumns(rest, n - 1)
    ensures ReadsColumns(file, n)
  {
    FirstColumnRead(file, n, text, rest);
    ReadOneMore(ColumnFrom(Tokens(ColumnDelim, text)), text, ReadColumns(rest, n - 1), Lines(rest), n);
  }

  lemma {:induction false} ColumnLinesRead(file: string, n: nat)
    ensures ReadsColumns(file, n)
    decreases n
  {
    if n > 0 && Fgets(file).Line? && GivesColumn(Fgets(file).text) {
      ColumnLinesRead(Fgets(file).rest, n - 1);
      ReadsOneMore(file, n, Fgets(file).text, Fgets(file).rest);
    } else {
      NoColumnRead(file, n);
    }
  }

  lemma {:induction false} BehindFirst(line: string, lines: seq<string>, n: nat)
    requires n > 0
    ensures n - 1 <= |lines| ==> lines[n - 1..] == ([line] + lines)[n..]
  {
  }

  lemma {:induction false} RowRead(columns: seq<Column>, line: string)
    ensures IsRowOf(RowFrom(columns, Tokens(RowDelim, line)), columns, line)
  {
    RowCells(columns, Tokens(RowDelim, line));
  }

  lemma {:induction false} RowCells(columns: seq<Column>, tokens: seq<string>)
    ensures var row := RowFrom(columns, tokens);
            && |row| == (if |tokens| < |columns| then |tokens| else |columns|)
            && forall j | 0 <= j < |row| :: row[j] == CellFrom(columns[j].ty, tokens[j])
    decreases |columns|
  {
    if columns != [] && tokens != [] {
      RowCells(columns[1..], tokens[1..]);
      var row, more := RowFrom(columns, tokens), RowFrom(columns[1..], tokens[1..]);
      assert row == [CellFrom(columns[0].ty, tokens[0])] + more;
      forall j | 1 <= j < |row|
        ensures row[j] == CellFrom(columns[j].ty, tokens[j])
      {
        assert row[j] == more[j - 1] && columns[j] == columns[1..][j - 1] && tokens[j] == tokens[1..][j - 1];
      }
    }
  }

  lemma {:induction false} RowLinesRead(file: string, columns: seq<Column>, n: nat)
    ensures var r := ReadRows(file, columns, n);
            RowsOfLines(r.rows, columns, Lines(file), n) && (r.ok <==> n <= |Lines(file)|)
    decreases n
  {
    if n > 0 && Fgets(file).Line? {
      var text, rest := Fgets(file).text, Fgets(file).rest;
      RowRead(columns, text);
      RowLinesRead(rest, columns, n - 1);
      OneRowMore(RowFrom(columns, Tokens(RowDelim, text)), text, ReadRows(rest, columns, n - 1).rows, columns,
                 Lines(rest), n - 1);
    }
  }

  // ---------------------------------------------------------------- the file

  /** What the object holds behind the first line: the columns up to the first line
      that gives none, and if all are there and a row count, the rows up to the end
      of the file. */
  predicate LoadedAfter(r: Loaded, c: nat, more: seq<string>, rows: seq<Row>) {
    && ColumnsOfLines(r.columns, more, c)
    && if |r.columns| < c || |more| == c then !r.ok && r.rows == rows
       else RowsOfLines(r.rows, r.columns, more[c + 1..], Announced(more[c]))
  }

  /** What it holds afterwards, success or not. What is not reached stays. */
  predicate LoadedFrom(r: Loaded, lines: seq<string>, columns: seq<Column>, rows: seq<Row>) {
    if lines == [] then r == Loaded(false, columns, rows)
    else LoadedAfter(r, Announced(lines[0]), lines[1..], rows)
  }

  ghost predicate MeansAfter(r: Loaded, c: nat, more: seq<string>, rows: seq<Row>) {
    (r.ok <==> CompleteAfter(c, more)) && LoadedAfter(r, c, more, rows)
  }

  lemma {:induction false} WithoutRows(c: nat, more: seq<string>, read: ColumnsRead, rows: seq<Row>)
    requires ColumnsReadFrom(read, more, c) && (read.ok ==> |more| == c)
    ensures MeansAfter(Loaded(false, read.columns, rows), c, more, rows)
  {
  }

  lemma {:induction false} WithRows(c: nat, more: seq<string>, read: ColumnsRead, r: RowsRead, rows: seq<Row>)
    requires ColumnsReadFrom(read, more, c) && read.ok && |more| > c
    requires RowsOfLines(r.rows, read.columns, more[c + 1..], Announced(more[c]))
    requires r.ok <==> Announced(more[c]) <= |more| - (c + 1)
    ensures MeansAfter(Loaded(r.ok, read.columns, r.rows), c, more, rows)
  {
    forall i | 0 <= i < c
      ensures GivesColumn(more[i])
    {
      assert IsColumnOf(read.columns[i], more[i]);
    }
  }

  lemma {:induction false} RowCountRead(lines: seq<string>, c: nat, file: string)
    requires c <= |lines| && Lines(file) == lines[c..]
    ensures if Fgets(file).NoLine? then |lines| == c
            else c < |lines| && lines[c] == Fgets(file).text && lines[c + 1..] == Lines(Fgets(file).rest)
  {
    if c < |lines| {
      assert lines[c..][1..] == lines[c + 1..];
    }
  }

  /** The part of the file behind its first line. */
  lemma {:induction false} LoadedBehind(c: nat, rest: string, rows: seq<Row>) returns (r: Loaded)
    ensures r == LoadRest(c, rest, rows) && MeansAfter(r, c, Lines(rest), rows)
  {
    var read, more := ReadColumns(rest, c), Lines(rest);
    ColumnLinesRead(rest, c);
    r := LoadRest(c, rest, rows);
    if read.ok {
      RowCountRead(more, c, read.rest);
    }
    if read.ok && Fgets(read.rest).Line? {
      var n, tail := Announced(more[c]), Fgets(read.rest).rest;
      RowLinesRead(tail, read.columns, n);
      WithRows(c, more, read, ReadRows(tail, read.columns, n), rows);
    } else {
      WithoutRows(c, more, read, rows);
    }
  }

  function LoadRest(c: nat, rest: string, rows: seq<Row>): Loaded {
    var read := ReadColumns(rest, c);
    if !read.ok || Fgets(read.rest).NoLine? then Loaded(false, read.columns, rows)
    else
      var r := ReadRows(Fgets(read.rest).rest, read.columns, Announced(Fgets(read.rest).text));
      Loaded(r.ok, read.columns, r.rows)
  }

  lemma {:induction false} LoadFirst(file: string, columns: seq<Column>, rows: seq<Row>, text: string, rest: string)
    requires Fgets(file) == Line(text, rest)
    ensures Load(file, columns, rows) == LoadRest(Announced(text), rest, rows)
    ensures Lines(file) == [text] + Lines(rest) && Lines(file)[1..] == Lines(rest)
  {
  }

  /** Loading a file succeeds if and only if the file has all the lines it announces
      and every column line has its three parts; and this is what it loads. */
  lemma {:induction false} LoadMeans(file: string, columns: seq<Column>, rows: seq<Row>)
    ensures var r := Load(file, columns, rows);
            (r.ok <==> Complete(Lines(file))) && LoadedFrom(r, Lines(file), columns, rows)
  {
    if file != "" {
      var text, rest := Fgets(file).text, Fgets(file).rest;
      LoadFirst(file, columns, rows, text, rest);
      var r := LoadedBehind(Announced(text), rest, rows);
    }
  }
}

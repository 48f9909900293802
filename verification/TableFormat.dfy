/** The text file of a table: how it is written and how it is read. */
module TableFormat {
  import opened Sequences
  import opened Numbers
  import opened Values
  import opened Relational

  // ------------------------------------------------------ the C library part

  /** What one fgets may read: the line buffer less its terminator. */
  const LINE_MAX: nat := 8191

  /** fgets: how many characters it takes, up to and with a newline. */
  function LineLength(file: string, limit: nat): (n: nat)
    ensures n <= |file| && n <= limit
    ensures file != "" && limit > 0 ==> n > 0
  {
    if file == "" || limit == 0 then 0
    else if file[0] == '\n' then 1
    else 1 + LineLength(file[1..], limit - 1)
  }

  /** A line, or nothing at the end of the file, and what is left. */
  datatype Line = Line(text: string, rest: string) | NoLine

  function Fgets(file: string): (r: Line)
    ensures r.Line? ==> |r.rest| < |file|
  {
    if file == "" then NoLine
    else
      var n := LineLength(file, LINE_MAX);
      Line(file[..n], file[n..])
  }

  datatype Cut = Cut(token: string, rest: string) | NoToken

  /** strtok: skips delimiters, takes what is not one, drops one delimiter. */
  function Strtok(delim: char -> bool, s: string): (r: Cut)
    ensures r.Cut? ==> |r.rest| < |s|
  {
    var t := s[Span(delim, s)..];
    SpanIsMaximal(delim, s);
    if t == "" then NoToken
    else
      var n := Span(Not(delim), t);
      Cut(t[..n], if n < |t| then t[n + 1..] else "")
  }

  /** All tokens strtok would give, one after another. */
  function Tokens(delim: char -> bool, s: string): seq<string>
    decreases |s|
  {
    var c := Strtok(delim, s);
    if c.NoToken? then [] else [c.token] + Tokens(delim, c.rest)
  }

  predicate ColumnDelim(c: char) {
    c == ' ' || c == '\t' || c == '\n' || c == '\r'
  }

  predicate RowDelim(c: char) {
    c == '|' || c == '\n' || c == '\r'
  }

  // ----------------------------------------------------------------- writing

  function TypeText(c: Column): string {
    if c.ty.StringType? then "1" else "0"
  }

  function PrimaryText(c: Column): string {
    if c.primary then "1" else "0"
  }

  function ColumnText(c: Column): string {
    c.name + " " + TypeText(c) + " " + PrimaryText(c)
  }

  function ColumnLines(columns: seq<Column>): string {
    if columns == [] then "" else ColumnText(columns[0]) + "\n" + ColumnLines(columns[1..])
  }

  function CellText(v: Value): string {
    match v
    case None => ""
    case Int(n) => IntText(n)
    case Str(s) => s
  }

  function RowText(row: Row): string {
    if row == [] then ""
    else if |row| == 1 then CellText(row[0])
    else CellText(row[0]) + "|" + RowText(row[1..])
  }

  function RowLines(rows: seq<Row>): string {
    if rows == [] then "" else RowText(rows[0]) + "\n" + RowLines(rows[1..])
  }

  /** The whole file of a table. */
  function FileText(columns: seq<Column>, rows: seq<Row>): string {
    NatText(|columns|) + "\n" + (ColumnLines(columns) + (NatText(|rows|) + "\n" + RowLines(rows)))
  }

  // ----------------------------------------------------------------- reading

  /** A column from the first three tokens of its line. */
  function ColumnFrom(tokens: seq<string>): Column
    requires |tokens| >= 3
  {
    Column(tokens[0], if Atoi(tokens[1]) == 0 then IntType else StringType, Atoi(tokens[2]) != 0)
  }

  datatype ColumnsRead = ColumnsRead(ok: bool, columns: seq<Column>, rest: string)

  function ReadColumns(file: string, n: nat): ColumnsRead
    decreases n
  {
    if n == 0 then ColumnsRead(true, [], file)
    else
      match Fgets(file)
      case NoLine => ColumnsRead(false, [], file)
      case Line(text, rest) =>
        var tokens := Tokens(ColumnDelim, text);
        if |tokens| < 3 then ColumnsRead(false, [], rest)
        else
          var more := ReadColumns(rest, n - 1);
          more.(columns := [ColumnFrom(tokens)] + more.columns)
  }

  function CellFrom(ty: ColumnType, token: string): Value {
    if ty.IntType? then Int(Atoi(token)) else Str(token)
  }

  /** As many cells as there are tokens, but no more than columns. */
  function RowFrom(columns: seq<Column>, tokens: seq<string>): (row: Row)
    ensures |row| <= |columns| && |row| <= |tokens|
  {
    if columns == [] || tokens == [] then []
    else [CellFrom(columns[0].ty, tokens[0])] + RowFrom(columns[1..], tokens[1..])
  }

  datatype RowsRead = RowsRead(ok: bool, rows: seq<Row>)

  function ReadRows(file: string, columns: seq<Column>, n: nat): RowsRead
    decreases n
  {
    if n == 0 then RowsRead(true, [])
    else
      match Fgets(file)
      case NoLine => RowsRead(false, [])
      case Line(text, rest) =>
        var more := ReadRows(rest, columns, n - 1);
        more.(rows := [RowFrom(columns, Tokens(RowDelim, text))] + more.rows)
  }

  /** What a table holds after reading a file, and whether the read succeeded. A
      table that held `columns` and `rows` keeps what is not reached. */
  datatype Loaded = Loaded(ok: bool, columns: seq<Column>, rows: seq<Row>)

  function Count(text: string): nat {
    if Atoi(text) > 0 then Atoi(text) else 0
  }

  function Load(file: string, columns: seq<Column>, rows: seq<Row>): Loaded {
    match Fgets(file)
    case NoLine => Loaded(false, columns, rows)
    case Line(text, rest) =>
      var c := ReadColumns(rest, Count(text));
      if !c.ok then Loaded(false, c.columns, rows)
      else
        match Fgets(c.rest)
        case NoLine => Loaded(false, c.columns, rows)
        case Line(text', rest') =>
          var r := ReadRows(rest', c.columns, Count(text'));
          Loaded(r.ok, c.columns, r.rows)
  }

  // --------------------------------------------- the loops, one round at a time

  lemma {:induction false} ColumnLinesStep(lines: string, columns: seq<Column>, i: nat)
    requires i < |columns|
    ensures lines + ColumnLines(columns[i..]) == lines + ColumnText(columns[i]) + "\n" + ColumnLines(columns[i + 1..])
  {
    assert columns[i..][0] == columns[i] && columns[i..][1..] == columns[i + 1..];
    var rest := ColumnLines(columns[i + 1..]);
    assert lines + (ColumnText(columns[i]) + "\n" + rest) == lines + ColumnText(columns[i]) + "\n" + rest;
  }

  lemma {:induction false} RowLinesStep(lines: string, rows: seq<Row>, i: nat)
    requires i < |rows|
    ensures lines + RowLines(rows[i..]) == lines + RowText(rows[i]) + "\n" + RowLines(rows[i + 1..])
  {
    assert rows[i..][0] == rows[i] && rows[i..][1..] == rows[i + 1..];
    var rest := RowLines(rows[i + 1..]);
    assert lines + (RowText(rows[i]) + "\n" + rest) == lines + RowText(rows[i]) + "\n" + rest;
  }

  /** What is still to be written of a row when `j` cells are. */
  function RowTextFrom(row: Row, j: nat): string
    requires j <= |row|
  {
    if j == 0 then RowText(row) else if j == |row| then "" else "|" + RowText(row[j..])
  }

  lemma {:induction false} RowTextStep(text: string, row: Row, j: nat)
    requires j < |row|
    ensures text + RowTextFrom(row, j) ==
            text + (if j > 0 then "|" else "") + CellText(row[j]) + RowTextFrom(row, j + 1)
  {
    var bar := if j > 0 then "|" else "";
    RowTextTail(row, j);
    Regroup(text, bar, CellText(row[j]), RowTextFrom(row, j + 1));
  }

  lemma {:induction false} RowTextTail(row: Row, j: nat)
    requires j < |row|
    ensures RowTextFrom(row, j) == (if j > 0 then "|" else "") + (CellText(row[j]) + RowTextFrom(row, j + 1))
  {
    var tail := row[j..];
    assert tail[0] == row[j] && tail[1..] == row[j + 1..];
    if j == 0 {
      assert tail == row;
    }
    assert RowText(tail) == CellText(row[j]) + RowTextFrom(row, j + 1);
    assert "" + RowText(tail) == RowText(tail);
  }

  lemma {:induction false} Regroup(a: string, b: string, c: string, d: string)
    ensures a + (b + (c + d)) == a + b + c + d
  {
  }

  function AfterColumns(front: seq<Column>, r: ColumnsRead): ColumnsRead {
    r.(columns := front + r.columns)
  }

  lemma {:induction false} AfterColumnsStep(front: seq<Column>, column: Column, r: ColumnsRead)
    ensures AfterColumns(front, r.(columns := [column] + r.columns)) == AfterColumns(front + [column], r)
  {
    assert front + ([column] + r.columns) == front + [column] + r.columns;
  }

  /** The column loop has read `front` and will read `n` more from `file`. */
  ghost predicate ColumnsDue(all: ColumnsRead, front: seq<Column>, file: string, n: nat) {
    all == AfterColumns(front, ReadColumns(file, n))
  }

  /** Whether the next line gives a column, and what is left of the file. */
  function ColumnLine(file: string): (r: (bool, string))
    ensures r.0 ==> Fgets(file).Line? && |Tokens(ColumnDelim, Fgets(file).text)| >= 3
  {
    var line := Fgets(file);
    if line.NoLine? then (false, file) else (|Tokens(ColumnDelim, line.text)| >= 3, line.rest)
  }

  lemma {:induction false} ColumnsDueStep(all: ColumnsRead, front: seq<Column>, file: string, n: nat)
    requires n > 0 && ColumnsDue(all, front, file, n)
    ensures var (ok, rest) := ColumnLine(file);
            if ok then ColumnsDue(all, front + [ColumnFrom(Tokens(ColumnDelim, Fgets(file).text))], rest, n - 1)
            else all == ColumnsRead(false, front, rest)
  {
    assert front + [] == front;
    var (ok, rest) := ColumnLine(file);
    if ok {
      AfterColumnsStep(front, ColumnFrom(Tokens(ColumnDelim, Fgets(file).text)), ReadColumns(rest, n - 1));
    }
  }

  lemma {:induction false} ColumnsDueEnds(all: ColumnsRead, front: seq<Column>, file: string)
    ensures AfterColumns([], all) == all
    ensures ColumnsDue(all, front, file, 0) ==> all == ColumnsRead(true, front, file)
  {
    assert [] + all.columns == all.columns && front + [] == front;
  }

  lemma {:induction false} TokensCons(delim: char -> bool, text: string)
    ensures var c := Strtok(delim, text);
            Tokens(delim, text) == if c.NoToken? then [] else [c.token] + Tokens(delim, c.rest)
  {
  }

  lemma {:induction false} RowFromCons(columns: seq<Column>, token: string, tokens: seq<string>)
    requires columns != []
    ensures RowFrom(columns, [token] + tokens) == [CellFrom(columns[0].ty, token)] + RowFrom(columns[1..], tokens)
  {
    assert ([token] + tokens)[1..] == tokens;
  }

  lemma {:induction false} RowFromStep(row: Row, columns: seq<Column>, left: string, token: Cut)
    requires columns != [] && token == Strtok(RowDelim, left) && token.Cut?
    ensures row + RowFrom(columns, Tokens(RowDelim, left)) ==
            row + [CellFrom(columns[0].ty, token.token)] + RowFrom(columns[1..], Tokens(RowDelim, token.rest))
  {
    var tokens := Tokens(RowDelim, token.rest);
    TokensCons(RowDelim, left);
    RowFromCons(columns, token.token, tokens);
    OneCellMore(row, CellFrom(columns[0].ty, token.token), RowFrom(columns[1..], tokens));
  }

  lemma {:induction false} OneCellMore(row: Row, cell: Value, cells: Row)
    ensures row + ([cell] + cells) == row + [cell] + cells
  {
  }

  function AfterRows(front: seq<Row>, r: RowsRead): RowsRead {
    r.(rows := front + r.rows)
  }

  lemma {:induction false} AfterRowsStep(front: seq<Row>, row: Row, r: RowsRead)
    ensures AfterRows(front, r.(rows := [row] + r.rows)) == AfterRows(front + [row], r)
  {
    assert front + ([row] + r.rows) == front + [row] + r.rows;
  }

  lemma {:induction false} AfterNothing(columns: seq<Column>, rows: seq<Row>)
    ensures columns + [] == columns && [] + columns == columns
    ensures rows + [] == rows && [] + rows == rows
  {
  }

  /** The first tokens of a list built from three cuts. */
  lemma {:induction false} ThreeCuts(a: Cut, b: Cut, c: Cut, ts: seq<string>, t1: seq<string>, t2: seq<string>)
    requires a.NoToken? ==> c.NoToken? && ts == []
    requires a.Cut? ==> ts == [a.token] + t1 && (b.NoToken? ==> c.NoToken? && t1 == [])
    requires a.Cut? && b.Cut? ==> t1 == [b.token] + t2 && (c.NoToken? <==> t2 == []) && (c.Cut? ==> t2[0] == c.token)
    ensures (c.Cut? <==> |ts| >= 3) && (c.Cut? ==> ts[..3] == [a.token, b.token, c.token])
  {
  }

  lemma {:induction false} ThreeTokens(delim: char -> bool, text: string)
    ensures var a := Strtok(delim, text);
            var b := if a.NoToken? then a else Strtok(delim, a.rest);
            var c := if b.NoToken? then b else Strtok(delim, b.rest);
            var tokens := Tokens(delim, text);
            && (c.Cut? <==> |tokens| >= 3)
            && (c.Cut? ==> tokens[..3] == [a.token, b.token, c.token])
  {
    var a := Strtok(delim, text);
    var b := if a.NoToken? then a else Strtok(delim, a.rest);
    var c := if b.NoToken? then b else Strtok(delim, b.rest);
    TokensCons(delim, text);
    var t1 := if a.NoToken? then [] else Tokens(delim, a.rest);
    var t2 := if b.NoToken? then [] else Tokens(delim, b.rest);
    if a.Cut? {
      TokensCons(delim, a.rest);
    }
    if b.Cut? {
      TokensCons(delim, b.rest);
    }
    ThreeCuts(a, b, c, Tokens(delim, text), t1, t2);
  }
}

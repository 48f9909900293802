/** When reading a saved table file gives the table back. */
module TableRoundTrip {
  import opened Sequences
  import opened Numbers
  import opened Values
  import opened Relational
  import opened TableFormat

  // -------------------------------------------------------------- condition

  /** A text strtok takes as one token. */
  predicate Clean(delim: char -> bool, s: string) {
    s != "" && All(Not(delim), s)
  }

  /** The cell has the type of its column; a string is not empty and holds no
      bar, no newline and no carriage return. */
  predicate CellKept(ty: ColumnType, v: Value) {
    match v
    case None => false
    case Int(_) => ty.IntType?
    case Str(s) => ty.StringType? && Clean(RowDelim, s)
  }

  predicate RowKept(columns: seq<Column>, row: Row) {
    row == [] || (columns != [] && CellKept(columns[0].ty, row[0]) && RowKept(columns[1..], row[1..]))
  }

  predicate AllEmpty(rows: seq<Row>) {
    forall i | 0 <= i < |rows| :: rows[i] == []
  }

  /** The lines fit the line buffer. A line whose text just fills it loses its
      newline to the next read, which does no harm only when what follows are
      empty rows. */
  predicate RowsKept(columns: seq<Column>, rows: seq<Row>) {
    rows != [] ==>
      && RowKept(columns, rows[0])
      && |RowText(rows[0])| <= LINE_MAX
      && (|RowText(rows[0])| == LINE_MAX ==> AllEmpty(rows[1..]))
      && RowsKept(columns, rows[1..])
  }

  /** The same for the column lines; a column line that just fills the buffer
      must be the last, before a row count of 0. */
  predicate ColumnsKept(columns: seq<Column>, noRows: bool) {
    columns != [] ==>
      && Clean(ColumnDelim, columns[0].name)
      && |ColumnText(columns[0])| <= LINE_MAX
      && (|ColumnText(columns[0])| == LINE_MAX ==> |columns| == 1 && noRows)
      && ColumnsKept(columns[1..], noRows)
  }

  /** A table that survives being saved and loaded. */
  predicate Reloadable(columns: seq<Column>, rows: seq<Row>) {
    ColumnsKept(columns, rows == []) && RowsKept(columns, rows)
  }

  // ------------------------------------------------------------------ lines

  predicate NotNewline(c: char) {
    c != '\n'
  }

  lemma {:induction false} LineLengthOf(content: string, rest: string, limit: nat)
    requires All(NotNewline, content)
    ensures LineLength(content + "\n" + rest, limit) == if |content| < limit then |content| + 1 else limit
    decreases |content|
  {
    if content == "" {
      assert content + "\n" + rest == "\n" + rest;
    } else if limit > 0 {
      assert (content + "\n" + rest)[1..] == content[1..] + "\n" + rest;
      LineLengthOf(content[1..], rest, limit - 1);
    }
  }

  /** What fgets makes of a line of text, by the length of the text. */
  lemma {:induction false} FgetsOf(content: string, rest: string)
    requires All(NotNewline, content)
    ensures Fgets(content + "\n" + rest) ==
            if |content| < LINE_MAX then Line(content + "\n", rest)
            else Line(content[..LINE_MAX], content[LINE_MAX..] + "\n" + rest)
  {
    LineLengthOf(content, rest, LINE_MAX);
    var file := content + "\n" + rest;
    if |content| < LINE_MAX {
      assert file[..|content| + 1] == content + "\n" && file[|content| + 1..] == rest;
    } else {
      assert file[..LINE_MAX] == content[..LINE_MAX];
      assert file[LINE_MAX..] == content[LINE_MAX..] + "\n" + rest;
    }
  }

  // ----------------------------------------------------------------- tokens

  lemma {:induction false} StrtokRun(delim: char -> bool, token: string, c: char, rest: string)
    requires Clean(delim, token) && delim(c)
    ensures Strtok(delim, token + [c] + rest) == Cut(token, rest)
  {
    var s := token + [c] + rest;
    assert s[0] == token[0] && Span(delim, s) == 0;
    assert s == token + ([c] + rest) && s[0..] == s;
    SpanOfRun(Not(delim), token, [c] + rest);
  }

  lemma {:induction false} StrtokLast(delim: char -> bool, token: string)
    requires Clean(delim, token)
    ensures Strtok(delim, token) == Cut(token, "")
  {
    assert Span(delim, token) == 0 && token[0..] == token && token + "" == token;
    SpanOfRun(Not(delim), token, "");
  }

  /** No line end, or the one that fgets leaves on. */
  predicate LineEnd(tail: string) {
    tail == "" || tail == "\n"
  }

  lemma {:induction false} TokensOfEnd(delim: char -> bool, tail: string)
    requires LineEnd(tail) && delim('\n')
    ensures Tokens(delim, tail) == []
  {
    assert "\n"[1..] == "";
  }

  lemma {:induction false} TokensOfLast(delim: char -> bool, token: string, tail: string)
    requires Clean(delim, token) && LineEnd(tail) && delim('\n')
    ensures Tokens(delim, token + tail) == [token]
  {
    if tail == "" {
      assert token + tail == token;
      StrtokLast(delim, token);
    } else {
      assert token + tail == token + ['\n'] + "";
      StrtokRun(delim, token, '\n', "");
    }
    TokensOfEnd(delim, "");
  }

  lemma {:induction false} TokensOfRun(delim: char -> bool, token: string, c: char, rest: string)
    requires Clean(delim, token) && delim(c)
    ensures Tokens(delim, token + [c] + rest) == [token] + Tokens(delim, rest)
  {
    StrtokRun(delim, token, c, rest);
  }

  lemma {:induction false} IntTextClean(n: int)
    ensures Clean(RowDelim, IntText(n))
  {
    var digits := NatText(if n < 0 then -n else n);
    NatTextValue(if n < 0 then -n else n);
    var text := IntText(n);
    forall i | 0 <= i < |text|
      ensures Not(RowDelim)(text[i])
    {
      assert text[i] == '-' || IsDigit(text[i]) by {
        if n < 0 && i > 0 {
          assert text[i] == digits[i - 1];
        }
      }
      assert !RowDelim(text[i]);
    }
  }

  lemma {:induction false} RowCleanIsOneLine(s: string)
    requires Clean(RowDelim, s)
    ensures All(NotNewline, s)
  {
    forall i | 0 <= i < |s|
      ensures NotNewline(s[i])
    {
      assert Not(RowDelim)(s[i]);
      assert !RowDelim(s[i]);
    }
  }

  lemma {:induction false} CellTextKept(ty: ColumnType, v: Value)
    requires CellKept(ty, v)
    ensures Clean(RowDelim, CellText(v)) && All(NotNewline, CellText(v))
    ensures CellFrom(ty, CellText(v)) == v
  {
    if v.Int? {
      IntTextClean(v.n);
      AtoiOfText(v.n, "");
      assert IntText(v.n) + "" == IntText(v.n);
    }
    RowCleanIsOneLine(CellText(v));
  }

  /** The tokens of a row line are those of its first cell and of the others. */
  lemma {:induction false} RowTokens(row: Row, tail: string)
    requires row != [] && Clean(RowDelim, CellText(row[0])) && LineEnd(tail)
    ensures Tokens(RowDelim, RowText(row) + tail) == [CellText(row[0])] + Tokens(RowDelim, RowText(row[1..]) + tail)
  {
    var text := CellText(row[0]);
    if |row| == 1 {
      TokensOfLast(RowDelim, text, tail);
      TokensOfEnd(RowDelim, tail);
      assert RowText(row[1..]) + tail == tail;
      assert [text] + [] == [text];
    } else {
      var rest := RowText(row[1..]) + tail;
      assert RowText(row) + tail == text + ['|'] + rest;
      TokensOfRun(RowDelim, text, '|', rest);
    }
  }

  /** A row of kept cells is read back from its line. */
  lemma {:induction false} RowReadBack(columns: seq<Column>, row: Row, tail: string)
    requires RowKept(columns, row) && LineEnd(tail)
    ensures RowFrom(columns, Tokens(RowDelim, RowText(row) + tail)) == row
    decreases |row|
  {
    if row == [] {
      assert RowText(row) + tail == tail;
      TokensOfEnd(RowDelim, tail);
    } else {
      CellTextKept(columns[0].ty, row[0]);
      RowTokens(row, tail);
      RowReadBack(columns[1..], row[1..], tail);
      RowFromCons(columns, CellText(row[0]), Tokens(RowDelim, RowText(row[1..]) + tail));
      assert row == [row[0]] + row[1..];
    }
  }

  lemma {:induction false} RowTextOneLine(columns: seq<Column>, row: Row)
    requires RowKept(columns, row)
    ensures All(NotNewline, RowText(row))
    decreases |row|
  {
    if row != [] {
      CellTextKept(columns[0].ty, row[0]);
      RowTextOneLine(columns[1..], row[1..]);
    }
  }

  // ------------------------------------------------------------ what fits

  /** Tokens are never empty and hold no delimiter. */
  lemma {:induction false} TokensAreClean(delim: char -> bool, s: string)
    ensures forall i | 0 <= i < |Tokens(delim, s)| :: Clean(delim, Tokens(delim, s)[i])
    decreases |s|
  {
    var c := Strtok(delim, s);
    if c.Cut? {
      var t := s[Span(delim, s)..];
      SpanIsMaximal(delim, s);
      SpanIsMaximal(Not(delim), t);
      TokensAreClean(delim, c.rest);
    }
  }

  /** The tokens with one separator between each two. */
  function JoinedLength(tokens: seq<string>): nat {
    if tokens == [] then 0
    else |tokens[0]| + if |tokens| == 1 then 0 else 1 + JoinedLength(tokens[1..])
  }

  lemma {:induction false} TokensFit(delim: char -> bool, s: string)
    ensures JoinedLength(Tokens(delim, s)) <= |s|
    decreases |s|
  {
    var c := Strtok(delim, s);
    if c.Cut? {
      TokensFit(delim, c.rest);
      assert Tokens(delim, s)[1..] == Tokens(delim, c.rest);
    }
  }

  /** A row read from tokens is kept, and writing it takes no more room. */
  lemma {:induction false} RowFromIsKept(columns: seq<Column>, tokens: seq<string>)
    requires forall i | 0 <= i < |tokens| :: Clean(RowDelim, tokens[i])
    ensures RowKept(columns, RowFrom(columns, tokens))
    ensures |RowText(RowFrom(columns, tokens))| <= JoinedLength(tokens)
    decreases |tokens|
  {
    if columns != [] && tokens != [] {
      RowFromIsKept(columns[1..], tokens[1..]);
      TextNoLonger(tokens[0]);
      var row := RowFrom(columns, tokens);
      assert row[1..] == RowFrom(columns[1..], tokens[1..]);
    }
  }

  lemma {:induction false} RowReadIsKept(columns: seq<Column>, text: string)
    ensures var row := RowFrom(columns, Tokens(RowDelim, text));
            RowKept(columns, row) && |RowText(row)| <= |text|
  {
    TokensAreClean(RowDelim, text);
    TokensFit(RowDelim, text);
    RowFromIsKept(columns, Tokens(RowDelim, text));
  }

  /** fgets on a line that fits: when it just fits, its newline is left. */
  lemma {:induction false} FgetsFits(text: string, rest: string)
    requires All(NotNewline, text) && |text| <= LINE_MAX
    ensures Fgets(text + "\n" + rest) == Line(text + Ending(text), Leftover(text) + rest)
  {
    FgetsOf(text, rest);
    if |text| == LINE_MAX {
      assert text[..LINE_MAX] == text + "" && text[LINE_MAX..] == "";
    } else {
      assert "" + rest == rest;
    }
  }

  function Ending(text: string): string {
    if |text| < LINE_MAX then "\n" else ""
  }

  function Leftover(text: string): string {
    if |text| < LINE_MAX then "" else "\n"
  }

  /** The newline that was left, read as a line of its own. */
  lemma {:induction false} FgetsNewline(delim: char -> bool, rest: string)
    requires delim('\n')
    ensures Fgets("\n" + rest) == Line("\n", rest) && Tokens(delim, "\n") == []
  {
    FgetsFits("", rest);
    assert "" + "\n" + rest == "\n" + rest && "" + "\n" == "\n" && "" + rest == rest;
    TokensOfEnd(delim, "\n");
  }

  // ---------------------------------------------------------- rows, both ways

  function ConsRow(row: Row, r: RowsRead): RowsRead {
    r.(rows := [row] + r.rows)
  }

  lemma {:induction false} ConsRowExact(row: Row, r: RowsRead, rows: seq<Row>)
    requires rows != []
    ensures ConsRow(row, r) == RowsRead(true, rows) <==> row == rows[0] && r == RowsRead(true, rows[1..])
  {
    assert ([row] + r.rows)[0] == row && ([row] + r.rows)[1..] == r.rows;
    assert [rows[0]] + rows[1..] == rows;
  }

  lemma {:induction false} ReadRowsStep(file: string, columns: seq<Column>, rows: seq<Row>, text: string, rest: string)
    requires rows != [] && Fgets(file) == Line(text, rest)
    ensures ReadRows(file, columns, |rows|) ==
            ConsRow(RowFrom(columns, Tokens(RowDelim, text)), ReadRows(rest, columns, |rows[1..]|))
  {
  }

  /** What is left for the second row, of a file whose first row fits. */
  function AfterFirst(rows: seq<Row>): string
    requires rows != []
  {
    Leftover(RowText(rows[0])) + RowLines(rows[1..])
  }

  /** A kept first row comes back; the rest depends on the others. */
  lemma {:induction false} FirstRow(columns: seq<Column>, rows: seq<Row>)
    requires rows != [] && RowKept(columns, rows[0]) && |RowText(rows[0])| <= LINE_MAX
    ensures ReadRows(RowLines(rows), columns, |rows|) == RowsRead(true, rows) <==>
            ReadRows(AfterFirst(rows), columns, |rows[1..]|) == RowsRead(true, rows[1..])
  {
    var text := RowText(rows[0]);
    RowTextOneLine(columns, rows[0]);
    FgetsFits(text, RowLines(rows[1..]));
    RowReadBack(columns, rows[0], Ending(text));
    ReadRowsStep(RowLines(rows), columns, rows, text + Ending(text), AfterFirst(rows));
    ConsRowExact(rows[0], ReadRows(AfterFirst(rows), columns, |rows[1..]|), rows);
  }

  /** The first row that is read is kept and fits what was read of its line. */
  lemma {:induction false} FirstRowIsKept(columns: seq<Column>, rows: seq<Row>)
    requires rows != [] && ReadRows(RowLines(rows), columns, |rows|) == RowsRead(true, rows)
    ensures RowKept(columns, rows[0]) && |RowText(rows[0])| <= LINE_MAX
  {
    var line := Fgets(RowLines(rows));
    ReadRowsStep(RowLines(rows), columns, rows, line.text, line.rest);
    ConsRowExact(RowFrom(columns, Tokens(RowDelim, line.text)), ReadRows(line.rest, columns, |rows[1..]|), rows);
    RowReadIsKept(columns, line.text);
  }

  /** Behind a left newline only empty rows come back. */
  lemma {:induction false} EmptyRowsIff(columns: seq<Column>, rows: seq<Row>)
    ensures ReadRows("\n" + RowLines(rows), columns, |rows|) == RowsRead(true, rows) <==> AllEmpty(rows)
    decreases |rows|
  {
    if rows != [] {
      FgetsNewline(RowDelim, RowLines(rows));
      ReadRowsStep("\n" + RowLines(rows), columns, rows, "\n", RowLines(rows));
      ConsRowExact([], ReadRows(RowLines(rows), columns, |rows[1..]|), rows);
      if rows[0] == [] {
        assert RowLines(rows) == "\n" + RowLines(rows[1..]);
        EmptyRowsIff(columns, rows[1..]);
        assert AllEmpty(rows[1..]) <==> AllEmpty(rows);
      }
    }
  }

  lemma {:induction false} EmptyRowsKept(columns: seq<Column>, rows: seq<Row>)
    requires AllEmpty(rows)
    ensures RowsKept(columns, rows)
    decreases |rows|
  {
    if rows != [] {
      EmptyRowsKept(columns, rows[1..]);
    }
  }

  /** Rows come back exactly when they are kept. */
  lemma {:induction false} RowsIff(columns: seq<Column>, rows: seq<Row>)
    ensures ReadRows(RowLines(rows), columns, |rows|) == RowsRead(true, rows) <==> RowsKept(columns, rows)
    decreases |rows|
  {
    if rows == [] {
    } else if !RowKept(columns, rows[0]) || |RowText(rows[0])| > LINE_MAX {
      if ReadRows(RowLines(rows), columns, |rows|) == RowsRead(true, rows) {
        FirstRowIsKept(columns, rows);
      }
    } else {
      FirstRow(columns, rows);
      RowsIff(columns, rows[1..]);
      if |RowText(rows[0])| < LINE_MAX {
        assert AfterFirst(rows) == RowLines(rows[1..]);
      } else {
        EmptyRowsIff(columns, rows[1..]);
        if AllEmpty(rows[1..]) {
          EmptyRowsKept(columns, rows[1..]);
        }
      }
    }
  }

  // ------------------------------------------------------- columns, both ways

  lemma {:induction false} ColumnCleanIsOneLine(c: Column)
    requires Clean(ColumnDelim, c.name)
    ensures All(NotNewline, ColumnText(c)) && |ColumnText(c)| == |c.name| + 4
  {
    var text := ColumnText(c);
    var suffix := " " + TypeText(c) + " " + PrimaryText(c);
    assert text == c.name + suffix && |suffix| == 4;
    assert All(NotNewline, suffix);
    forall i | 0 <= i < |text|
      ensures NotNewline(text[i])
    {
      if i < |c.name| {
        assert Not(ColumnDelim)(c.name[i]);
        assert !ColumnDelim(c.name[i]);
        assert text[i] == c.name[i];
      } else {
        assert text[i] == suffix[i - |c.name|];
      }
    }
  }

  lemma {:induction false} FlagRead(b: bool)
    ensures var text := if b then "1" else "0";
            Clean(ColumnDelim, text) && (Atoi(text) == 0 <==> !b)
  {
    var n, text := if b then 1 else 0, if b then "1" else "0";
    AtoiOfText(n, "");
    assert IntText(n) + "" == text;
    assert !ColumnDelim(text[0]);
    assert Not(ColumnDelim)(text[0]);
  }

  lemma {:induction false} TokensOfThree(delim: char -> bool, a: string, b: string, c: string, tail: string)
    requires Clean(delim, a) && Clean(delim, b) && Clean(delim, c) && LineEnd(tail)
    requires delim(' ') && delim('\n')
    ensures Tokens(delim, a + [' '] + (b + [' '] + (c + tail))) == [a, b, c]
  {
    TokensOfRun(delim, a, ' ', b + [' '] + (c + tail));
    TokensOfRun(delim, b, ' ', c + tail);
    TokensOfLast(delim, c, tail);
  }

  lemma {:induction false} ColumnTokens(c: Column, tail: string)
    requires Clean(ColumnDelim, c.name) && LineEnd(tail)
    ensures Tokens(ColumnDelim, ColumnText(c) + tail) == [c.name, TypeText(c), PrimaryText(c)]
  {
    FlagRead(c.ty.StringType?);
    FlagRead(c.primary);
    assert ColumnText(c) + tail == c.name + [' '] + (TypeText(c) + [' '] + (PrimaryText(c) + tail));
    TokensOfThree(ColumnDelim, c.name, TypeText(c), PrimaryText(c), tail);
  }

  lemma {:induction false} ColumnReadBack(c: Column, tail: string)
    requires Clean(ColumnDelim, c.name) && LineEnd(tail)
    ensures |Tokens(ColumnDelim, ColumnText(c) + tail)| == 3
    ensures ColumnFrom(Tokens(ColumnDelim, ColumnText(c) + tail)) == c
  {
    ColumnTokens(c, tail);
    FlagRead(c.ty.StringType?);
    FlagRead(c.primary);
  }

  function ConsColumn(column: Column, r: ColumnsRead): ColumnsRead {
    r.(columns := [column] + r.columns)
  }

  /** The columns came back, and this is what is left of the file. */
  predicate ColumnsBack(r: ColumnsRead, columns: seq<Column>) {
    r.ok && r.columns == columns
  }

  lemma {:induction false} ConsColumnExact(column: Column, r: ColumnsRead, columns: seq<Column>)
    requires columns != []
    ensures ColumnsBack(ConsColumn(column, r), columns) <==> column == columns[0] && ColumnsBack(r, columns[1..])
  {
    assert ([column] + r.columns)[0] == column && ([column] + r.columns)[1..] == r.columns;
    assert [columns[0]] + columns[1..] == columns;
  }

  lemma {:induction false} ReadColumnsStep(file: string, columns: seq<Column>, text: string, rest: string)
    requires columns != [] && Fgets(file) == Line(text, rest)
    ensures var tokens := Tokens(ColumnDelim, text);
            ReadColumns(file, |columns|) ==
            if |tokens| < 3 then ColumnsRead(false, [], rest)
            else ConsColumn(ColumnFrom(tokens), ReadColumns(rest, |columns[1..]|))
  {
  }

  /** The column lines and what follows them. */
  function ColumnFile(columns: seq<Column>, tail: string): string {
    ColumnLines(columns) + tail
  }

  lemma {:induction false} ColumnFileLine(columns: seq<Column>, tail: string)
    requires columns != []
    ensures ColumnFile(columns, tail) == ColumnText(columns[0]) + "\n" + ColumnFile(columns[1..], tail)
  {
  }

  /** A kept first column comes back; the rest depends on the others. */
  lemma {:induction false} FirstColumn(columns: seq<Column>, tail: string)
    requires columns != [] && Clean(ColumnDelim, columns[0].name) && |ColumnText(columns[0])| <= LINE_MAX
    ensures ReadColumns(ColumnFile(columns, tail), |columns|) ==
            ConsColumn(columns[0],
                       ReadColumns(Leftover(ColumnText(columns[0])) + ColumnFile(columns[1..], tail), |columns[1..]|))
  {
    var text, rest := ColumnText(columns[0]), ColumnFile(columns[1..], tail);
    ColumnCleanIsOneLine(columns[0]);
    ColumnFileLine(columns, tail);
    FgetsFits(text, rest);
    ColumnReadBack(columns[0], Ending(text));
    ReadColumnsStep(ColumnFile(columns, tail), columns, text + Ending(text), Leftover(text) + rest);
  }

  lemma {:induction false} ThreeFit(tokens: seq<string>)
    requires |tokens| >= 3
    ensures JoinedLength(tokens) >= |tokens[0]| + |tokens[1]| + |tokens[2]| + 2
  {
    assert JoinedLength(tokens[1..]) >= |tokens[1]| + 1 + |tokens[2]| by {
      assert tokens[1..][1..][0] == tokens[2];
    }
  }

  /** The first column that is read is kept and its line fits the buffer. */
  lemma {:induction false} FirstColumnIsKept(columns: seq<Column>, file: string)
    requires columns != [] && ColumnsBack(ReadColumns(file, |columns|), columns)
    ensures Clean(ColumnDelim, columns[0].name) && |ColumnText(columns[0])| <= LINE_MAX
  {
    var line := Fgets(file);
    var tokens := Tokens(ColumnDelim, line.text);
    ReadColumnsStep(file, columns, line.text, line.rest);
    ConsColumnExact(ColumnFrom(tokens), ReadColumns(line.rest, |columns[1..]|), columns);
    TokensAreClean(ColumnDelim, line.text);
    TokensFit(ColumnDelim, line.text);
    assert Clean(ColumnDelim, tokens[0]) && Clean(ColumnDelim, tokens[1]) && Clean(ColumnDelim, tokens[2]);
    ThreeFit(tokens);
    ColumnCleanIsOneLine(columns[0]);
  }

  /** Behind a left newline no column comes back. */
  lemma {:induction false} NoColumnInNewline(columns: seq<Column>, rest: string)
    ensures var r := ReadColumns("\n" + rest, |columns|);
            (ColumnsBack(r, columns) <==> columns == []) && (columns == [] ==> r.rest == "\n" + rest)
  {
    if columns != [] {
      FgetsNewline(ColumnDelim, rest);
      ReadColumnsStep("\n" + rest, columns, "\n", rest);
    }
  }

  /** Columns come back exactly when they are kept. What is then left is what
      follows them, behind the newline of a last line that just fits. */
  lemma {:induction false} ColumnsIff(columns: seq<Column>, tail: string)
    ensures var r := ReadColumns(ColumnFile(columns, tail), |columns|);
            && (ColumnsBack(r, columns) <==> ColumnsKept(columns, true))
            && (ColumnsBack(r, columns) ==> r.rest == if ColumnsKept(columns, false) then tail else "\n" + tail)
    decreases |columns|
  {
    if columns == [] {
      assert ColumnFile(columns, tail) == tail;
    } else if !Clean(ColumnDelim, columns[0].name) || |ColumnText(columns[0])| > LINE_MAX {
      if ColumnsBack(ReadColumns(ColumnFile(columns, tail), |columns|), columns) {
        FirstColumnIsKept(columns, ColumnFile(columns, tail));
      }
    } else {
      FirstColumn(columns, tail);
      var rest := ColumnFile(columns[1..], tail);
      var left := Leftover(ColumnText(columns[0])) + rest;
      ConsColumnExact(columns[0], ReadColumns(left, |columns[1..]|), columns);
      if |ColumnText(columns[0])| < LINE_MAX {
        assert left == rest;
        ColumnsIff(columns[1..], tail);
      } else {
        NoColumnInNewline(columns[1..], rest);
        OneColumn(columns, tail);
      }
    }
  }

  lemma {:induction false} OneColumn(columns: seq<Column>, tail: string)
    requires columns != []
    ensures columns[1..] == [] ==> ColumnFile(columns[1..], tail) == tail
    ensures columns[1..] == [] <==> |columns| == 1
  {
    assert "" + tail == tail;
  }

  // ---------------------------------------------------------- the whole file

  /** Numbers that fit an int have at most ten digits. */
  lemma {:induction false} CountFits(n: nat)
    requires n <= INT_MAX
    ensures |NatText(n)| <= 10 && All(NotNewline, NatText(n))
  {
    NatTextValue(n);
    NatTextWidth(n, 10);
    forall i | 0 <= i < |NatText(n)|
      ensures NotNewline(NatText(n)[i])
    {
      assert IsDigit(NatText(n)[i]);
    }
  }

  function PowerOfTen(k: nat): nat {
    if k == 0 then 1 else 10 * PowerOfTen(k - 1)
  }

  lemma {:induction false} NatTextWidth(n: nat, k: nat)
    requires k > 0 && n < PowerOfTen(k)
    ensures |NatText(n)| <= k
  {
    if n >= 10 {
      NatTextWidth(n / 10, k - 1);
    }
  }

  /** A line that holds a count is read as that count. */
  lemma {:induction false} CountReadBack(n: nat, rest: string)
    requires n <= INT_MAX
    ensures Fgets(NatText(n) + "\n" + rest) == Line(NatText(n) + "\n", rest)
    ensures Count(NatText(n) + "\n") == n
  {
    CountFits(n);
    FgetsOf(NatText(n), rest);
    AtoiOfText(n, "\n");
  }

  lemma {:induction false} NewlineCountsZero()
    ensures Count("\n") == 0
  {
    assert "\n"[1..] == "";
  }

  lemma {:induction false} ColumnsKeptAnyway(columns: seq<Column>)
    requires ColumnsKept(columns, false)
    ensures ColumnsKept(columns, true)
    decreases |columns|
  {
    if columns != [] {
      ColumnsKeptAnyway(columns[1..]);
    }
  }

  /** Saving a table and loading the file gives the table back, whatever the
      loading object held before, exactly when the table is reloadable. The C
      code counts columns and rows with an int. */
  lemma {:induction false} SaveLoadRoundTrip(columns: seq<Column>, rows: seq<Row>, oldColumns: seq<Column>,
                                             oldRows: seq<Row>)
    requires |columns| <= INT_MAX && |rows| <= INT_MAX
    ensures Load(FileText(columns, rows), oldColumns, oldRows) == Loaded(true, columns, rows)
            <==> Reloadable(columns, rows)
  {
    var tail := NatText(|rows|) + "\n" + RowLines(rows);
    CountReadBack(|columns|, ColumnFile(columns, tail));
    ColumnsIff(columns, tail);
    if ColumnsKept(columns, false) {
      ColumnsKeptAnyway(columns);
      CountReadBack(|rows|, RowLines(rows));
      RowsIff(columns, rows);
    } else {
      FgetsNewline(RowDelim, tail);
      NewlineCountsZero();
    }
  }
}

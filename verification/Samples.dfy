/** The tables of characters, and texts and files written out. */
module Samples {
  import opened Sequences
  import opened Numbers
  import opened Values
  import opened Tokens
  import opened Ast
  import opened Relational
  import opened Parsing
  import opened SqlText
  import opened Printing
  import opened TableFormat
  import opened TableRoundTrip

  // ------------------------------------------------------------- characters

  lemma {:induction false} Digits(c: char)
    ensures '0' <= c <= '9' <==> c in "0123456789"
  {
    if '0' <= c <= '9' {
      assert "0123456789"[c as int - '0' as int] == c;
    }
  }

  lemma {:induction false} SmallLetters(c: char)
    ensures 'a' <= c <= 'z' <==> c in "abcdefghijklm" || c in "nopqrstuvwxyz"
  {
    if 'a' <= c <= 'm' {
      assert "abcdefghijklm"[c as int - 'a' as int] == c;
    } else if 'n' <= c <= 'z' {
      assert "nopqrstuvwxyz"[c as int - 'n' as int] == c;
    }
  }

  lemma {:induction false} CapitalLetters(c: char)
    ensures 'A' <= c <= 'Z' <==> c in "ABCDEFGHIJKLM" || c in "NOPQRSTUVWXYZ"
  {
    if 'A' <= c <= 'M' {
      assert "ABCDEFGHIJKLM"[c as int - 'A' as int] == c;
    } else if 'N' <= c <= 'Z' {
      assert "NOPQRSTUVWXYZ"[c as int - 'N' as int] == c;
    }
  }

  /** The characters that the lexer and the reading of table files tell apart. */
  lemma {:induction false} Characters(c: char)
    ensures IsBlank(c) <==> c in " \t\r\n"
    ensures IsDigit(c) <==> c in "0123456789"
    ensures IsLetter(c) <==>
            || c in "abcdefghijklm" || c in "nopqrstuvwxyz"
            || c in "ABCDEFGHIJKLM" || c in "NOPQRSTUVWXYZ" || c == '_'
    ensures IsWordChar(c) <==> IsLetter(c) || IsDigit(c)
    ensures PunctuationKind(c) != TokenKind.NoToken <==> c in "(),;=<>*"
    ensures ColumnDelim(c) <==> c in " \t\n\r"
    ensures RowDelim(c) <==> c in "|\n\r"
  {
    Digits(c);
    SmallLetters(c);
    CapitalLetters(c);
    if PunctuationKind(c) != TokenKind.NoToken {
      OneOfEight(c);
    }
  }

  lemma {:induction false} OneOfEight(c: char)
    requires PunctuationKind(c) != TokenKind.NoToken
    ensures c in "(),;=<>*"
  {
    var i := if c == '(' then 0 else if c == ')' then 1 else if c == ',' then 2 else if c == ';' then 3
             else if c == '=' then 4 else if c == '<' then 5 else if c == '>' then 6 else 7;
    assert "(),;=<>*"[i] == c;
  }

  // -------------------------------------------------------------- statements

  /** No keyword has one letter. */
  lemma {:induction false} LetterIsName(s: string)
    requires |s| == 1 && IsLetter(s[0])
    ensures IsName(s)
  {
    forall kind | IsWordKind(kind) && !kind.Identifier?
      ensures !SameWord(s, Word(kind))
    {
      LongWord(kind);
      assert |UpperText(s)| != |UpperText(Word(kind))|;
    }
    OtherWordsAreNames(s);
  }

  lemma {:induction false} LongWord(kind: TokenKind)
    requires IsWordKind(kind) && !kind.Identifier?
    ensures |Word(kind)| >= 3
  {
  }

  lemma {:induction false} Names()
    ensures IsName("a") && IsName("b") && IsName("d") && IsName("t")
  {
    LetterIsName("a");
    LetterIsName("b");
    LetterIsName("d");
    LetterIsName("t");
  }

  /** The statements on databases, written out. */
  lemma {:induction false} DatabaseTexts()
    ensures ParseSql("create database d") == CreateDatabase("d")
    ensures ParseSql("drop database d") == DropDatabase("d")
    ensures ParseSql("use d") == Use("d")
  {
    Names();
    PrintThenParse(CreateDatabase("d"));
    PrintThenParse(DropDatabase("d"));
    PrintThenParse(Use("d"));
    assert "create database " + "d" == "create database d" && "drop database " + "d" == "drop database d";
    assert "use " + "d" == "use d";
  }

  const A := ColumnDef("a", "int", true)
  const B := ColumnDef("b", "string", false)

  // Texts that printing makes.

  lemma {:induction false} PrintedTable()
    ensures Print(CreateTable("t", [A, B])) == "create table t (a int primary, b string)"
  {
    assert PrintDef(A) == "a int primary" && PrintDef(B) == "b string";
    assert [A, B][1..] == [B];
    assert PrintDefs([A, B]) == "a int primary, b string";
    assert "create table " + "t" + " (" == "create table t (";
    assert "create table t (" + "a int primary, b string" + ")" == "create table t (a int primary, b string)";
  }

  lemma {:induction false} PrintedDrop()
    ensures Print(DropTable("t")) == "drop table t"
  {
    assert "drop table " + "t" == "drop table t";
  }

  const BELOW_5 := Compare("a", "<", Literal("5", true))
  const ABOVE_X := Compare("b", ">", Literal("x", false))

  lemma {:induction false} PrintedConditions()
    ensures PrintCondition(BELOW_5) == " where a < 5" && PrintCondition(ABOVE_X) == " where b > \"x\""
  {
  }

  lemma {:induction false} PrintedSelects()
    ensures Print(Select("t", "*", Always)) == "select * from t"
    ensures Print(Select("t", "b", BELOW_5)) == "select b from t where a < 5"
  {
    PrintedConditions();
    assert "select " + "b" + " from " + "t" == "select b from t";
  }

  lemma {:induction false} PrintedDelete()
    ensures Print(Delete("t", ABOVE_X)) == "delete from t where b > \"x\""
  {
    PrintedConditions();
  }

  const VALUES := [Literal("7", true), Literal("x", false)]

  lemma {:induction false} PrintedInsert()
    ensures Print(Insert("t", VALUES)) == "insert into t values (7, \"x\")"
  {
    assert VALUES[1..] == [Literal("x", false)];
    assert PrintLiterals(VALUES) == "7" + ", " + "\"x\"" == "7, \"x\"";
    assert "insert into " + "t" + " values (" == "insert into t values (";
  }

  lemma {:induction false} PrintedUpdate()
    ensures Print(Update("t", "b", Literal("x", false), BELOW_5)) == "update t set b = \"x\" where a < 5"
  {
    PrintedConditions();
    assert "update " + "t" + " set " + "b" + " = " == "update t set b = ";
    assert "update t set b = " + "\"x\"" == "update t set b = \"x\"";
  }

  // And what parsing makes of them.

  lemma {:induction false} TableTexts()
    ensures ParseSql("create table t (a int primary, b string)") == CreateTable("t", [A, B])
    ensures ParseSql("drop table t") == DropTable("t")
  {
    Names();
    PrintedTable();
    PrintedDrop();
    ReadBack(CreateTable("t", [A, B]), "create table t (a int primary, b string)");
    ReadBack(DropTable("t"), "drop table t");
  }

  lemma {:induction false} ReadBack(stmt: Statement, text: string)
    requires Printable(stmt) && Print(stmt) == text
    ensures ParseSql(text) == stmt
  {
    PrintThenParse(stmt);
  }

  lemma {:induction false} QueryTexts()
    ensures ParseSql("select * from t") == Select("t", "*", Always)
    ensures ParseSql("select b from t where a < 5") == Select("t", "b", Compare("a", "<", Literal("5", true)))
  {
    Names();
    PrintedSelects();
    ReadBack(Select("t", "*", Always), "select * from t");
    ReadBack(Select("t", "b", BELOW_5), "select b from t where a < 5");
  }

  lemma {:induction false} DeleteText()
    ensures ParseSql("delete from t where b > \"x\"") == Delete("t", Compare("b", ">", Literal("x", false)))
  {
    Names();
    PrintedDelete();
    ReadBack(Delete("t", ABOVE_X), "delete from t where b > \"x\"");
  }

  lemma {:induction false} InsertText()
    ensures ParseSql("insert into t values (7, \"x\")") == Insert("t", [Literal("7", true), Literal("x", false)])
  {
    Names();
    PrintedInsert();
    ReadBack(Insert("t", VALUES), "insert into t values (7, \"x\")");
  }

  lemma {:induction false} UpdateText()
    ensures ParseSql("update t set b = \"x\" where a < 5") ==
            Update("t", "b", Literal("x", false), Compare("a", "<", Literal("5", true)))
  {
    Names();
    PrintedUpdate();
    ReadBack(Update("t", "b", Literal("x", false), BELOW_5), "update t set b = \"x\" where a < 5");
  }

  // -------------------------------------------------------------- table files

  lemma {:induction false} NumberTexts()
    ensures NatText(1) == "1" && NatText(2) == "2" && NatText(1001) == "1001" && IntText(-7) == "-7"
  {
    assert NatText(10) == "10" && NatText(100) == "100";
  }

  /** The documented table, with one of its rows. */
  const PERSON: seq<Column> := [Column("id", IntType, true), Column("name", StringType, false)]
  const PETER: Row := [Int(1001), Str("peter")]

  lemma {:induction false} PersonColumns()
    ensures ColumnLines(PERSON) == "id 0 1\nname 1 0\n"
  {
    assert ColumnText(PERSON[0]) == "id 0 1" && ColumnText(PERSON[1]) == "name 1 0";
    assert PERSON[1..] == [PERSON[1]] && [PERSON[1]][1..] == [];
    assert ColumnLines(PERSON[1..]) == "name 1 0" + "\n" + "" == "name 1 0\n";
  }

  lemma {:induction false} PersonRow()
    ensures RowLines([PETER]) == "1001|peter\n"
  {
    NumberTexts();
    assert PETER[1..] == [Str("peter")];
    assert RowText(PETER) == "1001" + "|" + "peter" == "1001|peter";
    assert RowLines([PETER]) == "1001|peter" + "\n" + "";
  }

  /** Its file, written out. */
  lemma {:induction false} PersonFile()
    ensures FileText(PERSON, [PETER]) == "2\nid 0 1\nname 1 0\n1\n1001|peter\n"
  {
    NumberTexts();
    PersonColumns();
    PersonRow();
    FileParts("2", "id 0 1\nname 1 0\n", "1", "1001|peter\n");
    assert "2" + "\n" + "id 0 1\nname 1 0\n" == "2\nid 0 1\nname 1 0\n";
    assert "1" + "\n" + "1001|peter\n" == "1\n1001|peter\n";
    Together();
  }

  lemma {:induction false} FileParts(m: string, columns: string, n: string, rows: string)
    ensures m + "\n" + (columns + (n + "\n" + rows)) == m + "\n" + columns + (n + "\n" + rows)
  {
  }

  lemma {:induction false} Together()
    ensures "2\nid 0 1\nname 1 0\n" + "1\n1001|peter\n" == "2\nid 0 1\nname 1 0\n1\n1001|peter\n"
  {
  }

  /** A row of all three kinds of cells; NONE has no text. */
  lemma {:induction false} MixedRow()
    ensures RowText([Int(-7), None, Str("x")]) == "-7||x"
  {
    NumberTexts();
    var row: Row := [Int(-7), None, Str("x")];
    assert row[1..] == [None, Str("x")] && row[1..][1..] == [Str("x")];
    assert RowText(row[1..]) == "" + "|" + "x" == "|x";
    assert RowText(row) == "-7" + "|" + "|x";
  }

  /** The line buffer takes 8190 characters with their newline; of 8191 it takes all
      but the newline. */
  lemma {:induction false} LongestLine(text: string, rest: string)
    requires All(NotNewline, text)
    ensures |text| <= 8190 ==> Fgets(text + "\n" + rest) == Line(text + "\n", rest)
    ensures |text| == 8191 ==> Fgets(text + "\n" + rest) == Line(text, "\n" + rest)
  {
    FgetsOf(text, rest);
    if |text| == 8191 {
      assert text[..8191] == text && text[8191..] + "\n" == "\n";
    }
  }

  lemma {:induction false} LineLengthWhole(text: string, limit: nat)
    requires All(NotNewline, text) && |text| <= limit
    ensures LineLength(text, limit) == |text|
  {
    if text != "" {
      LineLengthWhole(text[1..], limit - 1);
    }
  }

  /** A last line without a newline is read as it is. */
  lemma {:induction false} UnendedLine(text: string)
    requires All(NotNewline, text) && 0 < |text| <= 8191
    ensures Fgets(text) == Line(text, "")
  {
    LineLengthWhole(text, 8191);
  }
}

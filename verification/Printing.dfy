/** The canonical text of a statement, in the words of the documented grammar, and
    that the lexer and the parser read it back. */
module Printing {
  import opened Sequences
  import opened Numbers
  import opened Tokens
  import opened Ast
  import opened Parsing
  import opened ParserLaws
  import opened SqlText

  // --------------------------------------------------------------- the text

  function PrintLiteral(l: Literal): string {
    if l.isInt then l.text else "\"" + l.text + "\""
  }

  function PrintCondition(cond: Condition): string {
    match cond
    case Always => ""
    case Compare(column, op, l) => " where " + column + " " + op + " " + PrintLiteral(l)
  }

  function PrintDef(def: ColumnDef): string {
    def.name + " " + def.ty + if def.primary then " primary" else ""
  }

  function PrintDefs(defs: seq<ColumnDef>): string {
    if defs == [] then ""
    else if |defs| == 1 then PrintDef(defs[0])
    else PrintDef(defs[0]) + ", " + PrintDefs(defs[1..])
  }

  function PrintLiterals(values: seq<Literal>): string {
    if values == [] then ""
    else if |values| == 1 then PrintLiteral(values[0])
    else PrintLiteral(values[0]) + ", " + PrintLiterals(values[1..])
  }

  function Print(stmt: Statement): string {
    match stmt
    case CreateDatabase(name) => "create database " + name
    case DropDatabase(name) => "drop database " + name
    case Use(name) => "use " + name
    case CreateTable(table, defs) => "create table " + table + " (" + PrintDefs(defs) + ")"
    case DropTable(table) => "drop table " + table
    case Select(table, column, cond) => "select " + column + " from " + table + PrintCondition(cond)
    case Delete(table, cond) => "delete from " + table + PrintCondition(cond)
    case Insert(table, values) => "insert into " + table + " values (" + PrintLiterals(values) + ")"
    case Update(table, column, value, cond) =>
      "update " + table + " set " + column + " = " + PrintLiteral(value) + PrintCondition(cond)
    case Invalid => ""
  }

  // ------------------------------------------------- what can be written at all

  predicate SayableLiteral(l: Literal) {
    if l.isInt then l.text != "" && All(IsDigit, l.text) else All(NotQuote, l.text)
  }

  predicate SayableCondition(cond: Condition) {
    cond.Compare? ==>
      IsName(cond.column) && (cond.op == "=" || cond.op == "<" || cond.op == ">") && SayableLiteral(cond.literal)
  }

  predicate SayableDef(def: ColumnDef) {
    IsName(def.name) && IsWord(def.ty) && (SameWord(def.ty, "int") || SameWord(def.ty, "string"))
  }

  /** Names are no keywords, integers are digits, strings hold no quote, types are the
      two words, lists are not empty, and one column at most is primary. */
  predicate Printable(stmt: Statement) {
    match stmt
    case CreateDatabase(name) => IsName(name)
    case DropDatabase(name) => IsName(name)
    case Use(name) => IsName(name)
    case CreateTable(table, defs) =>
      IsName(table) && defs != [] && OnePrimaryAtMost(defs) && forall i | 0 <= i < |defs| :: SayableDef(defs[i])
    case DropTable(table) => IsName(table)
    case Select(table, column, cond) => IsName(table) && (column == "*" || IsName(column)) && SayableCondition(cond)
    case Delete(table, cond) => IsName(table) && SayableCondition(cond)
    case Insert(table, values) =>
      IsName(table) && values != [] && forall i | 0 <= i < |values| :: SayableLiteral(values[i])
    case Update(table, column, value, cond) =>
      IsName(table) && IsName(column) && SayableLiteral(value) && SayableCondition(cond)
    case Invalid => false
  }

  // ---------------------------------------------------- text and symbols in step

  /** The text writes the symbols down, well spaced. */
  ghost predicate Writes(s: string, syms: Syms) {
    exists gaps: seq<string>, texts: seq<string> :: WritesWith(s, syms, gaps, texts)
  }

  predicate WritesWith(s: string, syms: Syms, gaps: seq<string>, texts: seq<string>) {
    |gaps| == |texts| + 1 && SpellsAll(syms, texts) && Spaced(gaps, texts) && Join(gaps, texts) == s
  }

  lemma {:induction false} WritesNothing()
    ensures Writes("", Done)
  {
    assert WritesWith("", Done, [""], []);
  }

  /** One more symbol in front. */
  lemma {:induction false} Say(gap: string, text: string, rest: string, sym: Sym, more: Syms)
    requires All(IsBlank, gap) && Spells(sym, text) && Writes(rest, more)
    requires text != "" && (rest == "" || !IsWordChar(rest[0]) || !IsWordChar(text[0]))
    ensures Writes(gap + text + rest, Then(sym, more))
  {
    var gaps: seq<string>, texts: seq<string> :| WritesWith(rest, more, gaps, texts);
    var gaps', texts' := [gap] + gaps, [text] + texts;
    assert gaps'[1..] == gaps && texts'[1..] == texts;
    if texts != [] && gaps[0] == "" {
      FirstText(more, gaps, texts);
    }
    assert WritesWith(gap + text + rest, Then(sym, more), gaps', texts');
  }

  /** A text without a gap in front starts with its first symbol. */
  lemma {:induction false} FirstText(syms: Syms, gaps: seq<string>, texts: seq<string>)
    requires |gaps| == |texts| + 1 && SpellsAll(syms, texts) && texts != [] && gaps[0] == ""
    ensures texts[0] != "" && Join(gaps, texts) != "" && Join(gaps, texts)[0] == texts[0][0]
  {
    SpelledOut(syms.sym, texts[0]);
  }

  /** A keyword behind a gap. */
  lemma {:induction false} SayWord(gap: string, kind: TokenKind, rest: string, more: Syms)
    requires All(IsBlank, gap) && IsWordKind(kind) && !kind.Identifier? && Writes(rest, more)
    requires rest == "" || !IsWordChar(rest[0])
    ensures Writes(gap + Word(kind) + rest, K(kind, more))
  {
    KeywordsAre(Word(kind), kind);
    WordIsWord(kind);
    Say(gap, Word(kind), rest, Kw(kind), more);
  }

  lemma {:induction false} WordIsWord(kind: TokenKind)
    requires IsWordKind(kind) && !kind.Identifier?
    ensures IsWord(Word(kind))
  {
  }

  lemma {:induction false} SayLiteral(gap: string, l: Literal, rest: string, more: Syms)
    requires All(IsBlank, gap) && SayableLiteral(l) && Writes(rest, more) && (rest == "" || !IsWordChar(rest[0]))
    ensures Writes(gap + PrintLiteral(l) + rest, Then(Value(l), more))
  {
    Say(gap, PrintLiteral(l), rest, Value(l), more);
  }

  lemma {:induction false} ConditionWritten(cond: Condition)
    requires SayableCondition(cond)
    ensures Writes(PrintCondition(cond), ConditionSyms(cond, Done))
    ensures PrintCondition(cond) == "" || PrintCondition(cond)[0] == ' '
  {
    WritesNothing();
    if cond.Compare? {
      var value := " " + PrintLiteral(cond.literal) + "";
      SayLiteral(" ", cond.literal, "", Done);
      ComparisonWritten(cond.column, cond.op, value, Then(Value(cond.literal), Done));
      ConditionText(cond.column, cond.op, PrintLiteral(cond.literal));
    }
  }

  lemma {:induction false} ComparisonWritten(column: string, op: string, rest: string, more: Syms)
    requires IsName(column) && (op == "=" || op == "<" || op == ">") && Writes(rest, more)
    requires rest != "" && rest[0] == ' '
    ensures Writes(" " + "where" + (" " + column + (" " + op + rest)),
                   K(KwWhere, Then(Name(column), Then(Operator(op), more))))
  {
    Say(" ", op, rest, Operator(op), more);
    Say(" ", column, " " + op + rest, Name(column), Then(Operator(op), more));
    SayWord(" ", KwWhere, " " + column + (" " + op + rest), Then(Name(column), Then(Operator(op), more)));
  }

  lemma {:induction false} ConditionText(column: string, op: string, value: string)
    ensures " where " + column + " " + op + " " + value ==
            " " + "where" + (" " + column + (" " + op + (" " + value + "")))
  {
  }

  // ------------------------------------------------------------------- lists

  /** The mark behind a list element: one character that is no word character. */
  predicate IsMark(kind: TokenKind, mark: string) {
    (kind == RParen && mark == ")") || (kind == Comma && mark == ",") || (kind == LParen && mark == "(")
  }

  lemma {:induction false} SayMark(gap: string, kind: TokenKind, mark: string, rest: string, more: Syms)
    requires All(IsBlank, gap) && IsMark(kind, mark) && Writes(rest, more)
    ensures Writes(gap + mark + rest, K(kind, more))
  {
    Say(gap, mark, rest, Kw(kind), more);
  }

  lemma {:induction false} TypeWritten(ty: string, rest: string, more: Syms)
    requires IsWord(ty) && (SameWord(ty, "int") || SameWord(ty, "string")) && Writes(rest, more)
    requires rest != "" && !IsWordChar(rest[0])
    ensures Writes(" " + ty + rest, Then(TypeName(ty), more))
  {
    KeywordsAre(ty, KwInt);
    KeywordsAre(ty, KwString);
    Say(" ", ty, rest, TypeName(ty), more);
  }

  lemma {:induction false} CloseWritten()
    ensures Writes(")", K(RParen, Done))
  {
    WritesNothing();
    SayMark("", RParen, ")", "", Done);
    assert "" + ")" + "" == ")";
  }

  /** One column, with what stands behind it. */
  lemma {:induction false} DefWritten(gap: string, def: ColumnDef, rest: string, more: Syms)
    requires All(IsBlank, gap) && SayableDef(def) && Writes(rest, more)
    requires rest != "" && !IsWordChar(rest[0])
    ensures Writes(gap + PrintDef(def) + rest, DefSyms(def, more))
  {
    var primary := if def.primary then " " + "primary" + rest else rest;
    if def.primary {
      SayWord(" ", KwPrimary, rest, more);
    }
    TypeWritten(def.ty, primary, PrimarySyms(def.primary, more));
    Say(gap, def.name, " " + def.ty + primary, Name(def.name), Then(TypeName(def.ty), PrimarySyms(def.primary, more)));
    DefText(gap, def, rest);
  }

  lemma {:induction false} DefText(gap: string, def: ColumnDef, rest: string)
    ensures gap + PrintDef(def) + rest ==
            gap + def.name + (" " + def.ty + (if def.primary then " " + "primary" + rest else rest))
  {
    if def.primary {
      assert " primary" == " " + "primary";
    }
  }

  lemma {:induction false} DefsWritten(gap: string, defs: seq<ColumnDef>)
    requires All(IsBlank, gap) && defs != [] && forall i | 0 <= i < |defs| :: SayableDef(defs[i])
    ensures Writes(gap + PrintDefs(defs) + ")", DefsSyms(defs, Done))
    decreases |defs|
  {
    if |defs| == 1 {
      CloseWritten();
      DefWritten(gap, defs[0], ")", K(RParen, Done));
    } else {
      DefsWritten(" ", defs[1..]);
      FirstDefWritten(gap, defs[0], PrintDefs(defs[1..]), DefsSyms(defs[1..], Done));
    }
  }

  /** One column in front of others. */
  lemma {:induction false} FirstDefWritten(gap: string, def: ColumnDef, others: string, more: Syms)
    requires All(IsBlank, gap) && SayableDef(def) && Writes(" " + others + ")", more)
    ensures Writes(gap + (PrintDef(def) + ", " + others) + ")", DefSyms(def, K(Comma, more)))
  {
    var rest := " " + others + ")";
    SayMark("", Comma, ",", rest, more);
    CommaText(gap, PrintDef(def), others);
    DefWritten(gap, def, "" + "," + rest, K(Comma, more));
  }

  lemma {:induction false} CommaText(gap: string, first: string, others: string)
    ensures gap + (first + ", " + others) + ")" == gap + first + ("" + "," + (" " + others + ")"))
  {
  }

  lemma {:induction false} LiteralsWritten(gap: string, values: seq<Literal>)
    requires All(IsBlank, gap) && values != [] && forall i | 0 <= i < |values| :: SayableLiteral(values[i])
    ensures Writes(gap + PrintLiterals(values) + ")", ValuesSyms(values, Done))
    decreases |values|
  {
    if |values| == 1 {
      CloseWritten();
      SayLiteral(gap, values[0], ")", K(RParen, Done));
    } else {
      LiteralsWritten(" ", values[1..]);
      var rest := " " + PrintLiterals(values[1..]) + ")";
      SayMark("", Comma, ",", rest, ValuesSyms(values[1..], Done));
      CommaText(gap, PrintLiteral(values[0]), PrintLiterals(values[1..]));
      SayLiteral(gap, values[0], "" + "," + rest, K(Comma, ValuesSyms(values[1..], Done)));
    }
  }

  // -------------------------------------------------------------- statements

  /** FROM table and a condition. */
  lemma {:induction false} FromWritten(table: string, cond: Condition)
    requires IsName(table) && SayableCondition(cond)
    ensures Writes(" " + "from" + (" " + table + PrintCondition(cond)),
                   K(KwFrom, Then(Name(table), ConditionSyms(cond, Done))))
  {
    ConditionWritten(cond);
    Say(" ", table, PrintCondition(cond), Name(table), ConditionSyms(cond, Done));
    SayWord(" ", KwFrom, " " + table + PrintCondition(cond), Then(Name(table), ConditionSyms(cond, Done)));
  }

  /** The printed text writes the sentence of the statement, without semicolon. */
  ghost predicate Written(stmt: Statement) {
    WellFormed(stmt) && Writes(Print(stmt), StatementSyms(stmt, false))
  }

  lemma {:induction false} UseWritten(stmt: Statement)
    requires stmt.Use? && Printable(stmt)
    ensures Written(stmt)
  {
    WritesNothing();
    Say(" ", stmt.name, "", Name(stmt.name), Done);
    SayWord("", KwUse, " " + stmt.name + "", Then(Name(stmt.name), Done));
    UseText(stmt.name);
  }

  lemma {:induction false} UseText(name: string)
    ensures "use " + name == "" + "use" + (" " + name + "")
  {
  }

  /** CREATE DATABASE, DROP DATABASE and DROP TABLE: two keywords and a name. */
  lemma {:induction false} TwoWordsWritten(first: TokenKind, second: TokenKind, name: string)
    requires IsWordKind(first) && !first.Identifier? && IsWordKind(second) && !second.Identifier? && IsName(name)
    ensures Writes(Word(first) + " " + Word(second) + " " + name, K(first, K(second, Then(Name(name), Done))))
  {
    WritesNothing();
    Say(" ", name, "", Name(name), Done);
    var rest := " " + name + "";
    SayWord(" ", second, rest, Then(Name(name), Done));
    SayWord("", first, " " + Word(second) + rest, K(second, Then(Name(name), Done)));
    TwoWordsText(Word(first), Word(second), name);
  }

  lemma {:induction false} TwoWordsText(first: string, second: string, name: string)
    ensures first + " " + second + " " + name == "" + first + (" " + second + (" " + name + ""))
  {
  }

  lemma {:induction false} DatabaseWritten(stmt: Statement)
    requires (stmt.CreateDatabase? || stmt.DropDatabase?) && Printable(stmt)
    ensures Written(stmt)
  {
    TwoWordsWritten(Head(stmt), KwDatabase, stmt.name);
    DatabaseText(stmt.name);
  }

  lemma {:induction false} DatabaseText(name: string)
    ensures "create database " + name == "create" + " " + "database" + " " + name
    ensures "drop database " + name == "drop" + " " + "database" + " " + name
    ensures "drop table " + name == "drop" + " " + "table" + " " + name
  {
    assert "create database " == "create" + " " + "database" + " ";
    assert "drop database " == "drop" + " " + "database" + " ";
    assert "drop table " == "drop" + " " + "table" + " ";
  }

  lemma {:induction false} DropTableWritten(stmt: Statement)
    requires stmt.DropTable? && Printable(stmt)
    ensures Written(stmt)
  {
    TwoWordsWritten(KwDrop, KwTable, stmt.table);
    DatabaseText(stmt.table);
  }

  lemma {:induction false} CreateTableWritten(stmt: Statement)
    requires stmt.CreateTable? && Printable(stmt)
    ensures Written(stmt)
  {
    var defs := DefsSyms(stmt.columns, Done);
    DefsWritten("", stmt.columns);
    var list := "" + PrintDefs(stmt.columns) + ")";
    SayMark(" ", LParen, "(", list, defs);
    TableOpenWritten(stmt.table, " " + "(" + list, K(LParen, defs));
    CreateText(stmt.table, PrintDefs(stmt.columns));
  }

  lemma {:induction false} TableOpenWritten(table: string, rest: string, more: Syms)
    requires IsName(table) && Writes(rest, more) && rest != "" && rest[0] == ' '
    ensures Writes("" + "create" + (" " + "table" + (" " + table + rest)),
                   K(KwCreate, K(KwTable, Then(Name(table), more))))
  {
    Say(" ", table, rest, Name(table), more);
    SayWord(" ", KwTable, " " + table + rest, Then(Name(table), more));
    SayWord("", KwCreate, " " + "table" + (" " + table + rest), K(KwTable, Then(Name(table), more)));
  }

  lemma {:induction false} CreateText(table: string, defs: string)
    ensures "create table " + table + " (" + defs + ")" ==
            "" + "create" + (" " + "table" + (" " + table + (" " + "(" + ("" + defs + ")"))))
  {
  }

  lemma {:induction false} SelectWritten(stmt: Statement)
    requires stmt.Select? && Printable(stmt)
    ensures Written(stmt)
  {
    var more := K(KwFrom, Then(Name(stmt.table), ConditionSyms(stmt.cond, Done)));
    var rest := " " + "from" + (" " + stmt.table + PrintCondition(stmt.cond));
    FromWritten(stmt.table, stmt.cond);
    Say(" ", stmt.column, rest, ColumnOrStar(stmt.column), more);
    SayWord("", KwSelect, " " + stmt.column + rest, Then(ColumnOrStar(stmt.column), more));
    SelectText(stmt.column, stmt.table, PrintCondition(stmt.cond));
  }

  lemma {:induction false} SelectText(column: string, table: string, cond: string)
    ensures "select " + column + " from " + table + cond ==
            "" + "select" + (" " + column + (" " + "from" + (" " + table + cond)))
  {
  }

  lemma {:induction false} DeleteWritten(stmt: Statement)
    requires stmt.Delete? && Printable(stmt)
    ensures Written(stmt)
  {
    FromWritten(stmt.table, stmt.cond);
    SayWord("", KwDelete, " " + "from" + (" " + stmt.table + PrintCondition(stmt.cond)),
            K(KwFrom, Then(Name(stmt.table), ConditionSyms(stmt.cond, Done))));
    DeleteText(stmt.table, PrintCondition(stmt.cond));
  }

  lemma {:induction false} DeleteText(table: string, cond: string)
    ensures "delete from " + table + cond == "" + "delete" + (" " + "from" + (" " + table + cond))
  {
  }

  lemma {:induction false} InsertWritten(stmt: Statement)
    requires stmt.Insert? && Printable(stmt)
    ensures Written(stmt)
  {
    var values := ValuesSyms(stmt.values, Done);
    LiteralsWritten("", stmt.values);
    var list := "" + PrintLiterals(stmt.values) + ")";
    SayMark(" ", LParen, "(", list, values);
    SayWord(" ", KwValues, " " + "(" + list, K(LParen, values));
    var open := " " + "values" + (" " + "(" + list);
    Say(" ", stmt.table, open, Name(stmt.table), K(KwValues, K(LParen, values)));
    IntoWritten(stmt.table, open, K(KwValues, K(LParen, values)));
    InsertText(stmt.table, PrintLiterals(stmt.values));
  }

  lemma {:induction false} IntoWritten(table: string, rest: string, more: Syms)
    requires Writes(" " + table + rest, Then(Name(table), more))
    ensures Writes("" + "insert" + (" " + "into" + (" " + table + rest)),
                   K(KwInsert, K(KwInto, Then(Name(table), more))))
  {
    SayWord(" ", KwInto, " " + table + rest, Then(Name(table), more));
    SayWord("", KwInsert, " " + "into" + (" " + table + rest), K(KwInto, Then(Name(table), more)));
  }

  lemma {:induction false} InsertText(table: string, values: string)
    ensures "insert into " + table + " values (" + values + ")" ==
            "" + "insert" + (" " + "into" + (" " + table + (" " + "values" + (" " + "(" + ("" + values + ")")))))
  {
  }

  lemma {:induction false} UpdateWritten(stmt: Statement)
    requires stmt.Update? && Printable(stmt)
    ensures Written(stmt)
  {
    var cond := ConditionSyms(stmt.cond, Done);
    ConditionWritten(stmt.cond);
    SayLiteral(" ", stmt.value, PrintCondition(stmt.cond), cond);
    var value := " " + PrintLiteral(stmt.value) + PrintCondition(stmt.cond);
    SetWritten(stmt.table, stmt.column, value, Then(Value(stmt.value), cond));
    UpdateText(stmt.table, stmt.column, PrintLiteral(stmt.value), PrintCondition(stmt.cond));
  }

  lemma {:induction false} SetWritten(table: string, column: string, rest: string, more: Syms)
    requires IsName(table) && IsName(column) && Writes(rest, more) && rest != "" && rest[0] == ' '
    ensures Writes("" + "update" + (" " + table + (" " + "set" + (" " + column + (" " + "=" + rest)))),
                   K(KwUpdate, Then(Name(table), K(KwSet, Then(Name(column), K(OpEq, more))))))
  {
    AssignWritten(column, rest, more);
    var assign := " " + "set" + (" " + column + (" " + "=" + rest));
    Say(" ", table, assign, Name(table), K(KwSet, Then(Name(column), K(OpEq, more))));
    SayWord("", KwUpdate, " " + table + assign, Then(Name(table), K(KwSet, Then(Name(column), K(OpEq, more)))));
  }

  lemma {:induction false} AssignWritten(column: string, rest: string, more: Syms)
    requires IsName(column) && Writes(rest, more) && rest != "" && rest[0] == ' '
    ensures Writes(" " + "set" + (" " + column + (" " + "=" + rest)), K(KwSet, Then(Name(column), K(OpEq, more))))
  {
    Say(" ", "=", rest, Kw(OpEq), more);
    var equals := " " + "=" + rest;
    Say(" ", column, equals, Name(column), K(OpEq, more));
    SayWord(" ", KwSet, " " + column + equals, Then(Name(column), K(OpEq, more)));
  }

  lemma {:induction false} UpdateText(table: string, column: string, value: string, cond: string)
    ensures "update " + table + " set " + column + " = " + value + cond ==
            "" + "update" + (" " + table + (" " + "set" + (" " + column + (" " + "=" + (" " + value + cond)))))
  {
  }

  lemma {:induction false} PrintIsWritten(stmt: Statement)
    requires Printable(stmt)
    ensures Written(stmt)
  {
    match stmt
    case CreateDatabase(_) => DatabaseWritten(stmt);
    case DropDatabase(_) => DatabaseWritten(stmt);
    case Use(_) => UseWritten(stmt);
    case CreateTable(_, _) => CreateTableWritten(stmt);
    case DropTable(_) => DropTableWritten(stmt);
    case Select(_, _, _) => SelectWritten(stmt);
    case Delete(_, _) => DeleteWritten(stmt);
    case Insert(_, _) => InsertWritten(stmt);
    case Update(_, _, _, _) => UpdateWritten(stmt);
  }

  /** Parsing undoes printing for every statement that can be written at all. */
  lemma {:induction false} PrintThenParse(stmt: Statement)
    requires Printable(stmt)
    ensures ParseSql(Print(stmt)) == stmt
  {
    PrintIsWritten(stmt);
    var gaps: seq<string>, texts: seq<string> :| WritesWith(Print(stmt), StatementSyms(stmt, false), gaps, texts);
    SqlRoundTrip(stmt, false, gaps, texts);
  }
}

/** The recursive-descent parser: a cursor over the tokens. */
module Parsing {
  import opened Tokens
  import opened Ast
  import opened Lexing

  // ---------------------------------------------- what each step recognises

  /** What a parser found at the start of a token list, and the tokens left. */
  datatype Parsed<+T> = Found(value: T, rest: seq<Token>) | Nothing {
    predicate IsFailure() {
      Nothing?
    }

    function PropagateFailure<U>(): Parsed<U>
      requires Nothing?
    {
      Nothing
    }

    function Extract(): (T, seq<Token>)
      requires Found?
    {
      (value, rest)
    }
  }

  /** The kind of the next token; the end of the list reads as END_OF_FILE. */
  function Kind(ts: seq<Token>): TokenKind {
    if ts == [] then EndOfFile else ts[0].kind
  }

  function Take(kind: TokenKind, ts: seq<Token>): (r: Parsed<string>)
    ensures r.Found? ==> |r.rest| < |ts|
  {
    if ts != [] && ts[0].kind == kind then Found(ts[0].lexeme, ts[1..]) else Nothing
  }

  /** The optional semicolon. */
  function Finish(stmt: Statement, ts: seq<Token>): Parsed<Statement> {
    Found(stmt, if Kind(ts) == Semicolon then ts[1..] else ts)
  }

  function TakeColumnOrStar(ts: seq<Token>): (r: Parsed<string>) {
    if Kind(ts) == Identifier then Take(Identifier, ts) else Take(OpStar, ts)
  }

  function TakeType(ts: seq<Token>): (r: Parsed<string>)
    ensures r.Found? ==> |r.rest| < |ts|
  {
    if Kind(ts) == KwInt then Take(KwInt, ts) else Take(KwString, ts)
  }

  function TakeOperator(ts: seq<Token>): Parsed<string> {
    if Kind(ts) == OpEq then Take(OpEq, ts)
    else if Kind(ts) == OpLt then Take(OpLt, ts)
    else Take(OpGt, ts)
  }

  /** A literal; anything else reads as the empty string and is left alone. */
  function ReadValue(ts: seq<Token>): (r: (Literal, seq<Token>))
    ensures |r.1| <= |ts|
  {
    if Kind(ts) == IntLiteral then (Literal(ts[0].lexeme, true), ts[1..])
    else if Kind(ts) == StringLiteral then (Literal(ts[0].lexeme, false), ts[1..])
    else (Literal("", false), ts)
  }

  /** The part of a WHERE clause after the keyword. */
  function ReadComparison(ts: seq<Token>): Parsed<Condition> {
    var (column, r1) :- Take(Identifier, ts);
    var (op, r2) :- TakeOperator(r1);
    var (value, r3) := ReadValue(r2);
    if column == "" then Nothing else Found(Compare(column, op, value), r3)
  }

  function ReadCondition(ts: seq<Token>): Parsed<Condition> {
    if Kind(ts) == KwWhere then ReadComparison(ts[1..]) else Found(Always, ts)
  }

  /** The optional PRIMARY. */
  function ReadPrimary(ts: seq<Token>): (r: (bool, seq<Token>))
    ensures |r.1| <= |ts|
  {
    if Kind(ts) == KwPrimary then (true, ts[1..]) else (false, ts)
  }

  function ReadColumnDef(ts: seq<Token>): (r: Parsed<ColumnDef>)
    ensures r.Found? ==> |r.rest| < |ts|
  {
    var (name, r1) :- Take(Identifier, ts);
    var (ty, r2) :- TakeType(r1);
    var (primary, r3) := ReadPrimary(r2);
    if name == "" then Nothing else Found(ColumnDef(name, ty, primary), r3)
  }

  function Prepend<T>(front: seq<T>, r: Parsed<seq<T>>): Parsed<seq<T>> {
    if r.Found? then Found(front + r.value, r.rest) else Nothing
  }

  /** Column definitions up to and with the closing parenthesis. */
  function ReadColumnDefs(ts: seq<Token>): Parsed<seq<ColumnDef>>
    decreases |ts|
  {
    var (def, r1) :- ReadColumnDef(ts);
    if Kind(r1) == RParen then Found([def], r1[1..])
    else if Kind(r1) == Comma then Prepend([def], ReadColumnDefs(r1[1..]))
    else Nothing
  }

  /** Values up to and with the closing parenthesis. */
  function ReadValues(ts: seq<Token>): Parsed<seq<Literal>>
    decreases |ts|
  {
    var (value, r1) := ReadValue(ts);
    if Kind(r1) == RParen then Found([value], r1[1..])
    else if Kind(r1) == Comma then Prepend([value], ReadValues(r1[1..]))
    else Nothing
  }

  function PrimaryCount(defs: seq<ColumnDef>): nat {
    if defs == [] then 0
    else PrimaryCount(defs[..|defs| - 1]) + if defs[|defs| - 1].primary then 1 else 0
  }

  // Runs of fixed tokens around one name.

  /** FROM table */
  function TakeFrom(ts: seq<Token>): Parsed<string> {
    var (_, r1) :- Take(KwFrom, ts);
    Take(Identifier, r1)
  }

  /** INTO table */
  function TakeInto(ts: seq<Token>): Parsed<string> {
    var (_, r1) :- Take(KwInto, ts);
    Take(Identifier, r1)
  }

  /** VALUES ( */
  function TakeValuesOpen(ts: seq<Token>): Parsed<string> {
    var (_, r1) :- Take(KwValues, ts);
    Take(LParen, r1)
  }

  /** SET column = */
  function TakeSet(ts: seq<Token>): Parsed<string> {
    var (_, r1) :- Take(KwSet, ts);
    var (column, r2) :- Take(Identifier, r1);
    var (_, r3) :- Take(OpEq, r2);
    Found(column, r3)
  }

  /** table ( */
  function TakeTableOpen(ts: seq<Token>): Parsed<string> {
    var (table, r1) :- Take(Identifier, ts);
    var (_, r2) :- Take(LParen, r1);
    Found(table, r2)
  }

  // The statements, after their first keyword.

  function ReadCreateTable(ts: seq<Token>): Parsed<Statement> {
    var (table, r1) :- TakeTableOpen(ts);
    var (defs, r2) :- ReadColumnDefs(r1);
    if PrimaryCount(defs) > 1 then Nothing else Finish(CreateTable(table, defs), r2)
  }

  function ReadCreateDatabase(ts: seq<Token>): Parsed<Statement> {
    var (name, r1) :- Take(Identifier, ts);
    Finish(CreateDatabase(name), r1)
  }

  function ReadCreate(ts: seq<Token>): Parsed<Statement> {
    if Kind(ts) == KwDatabase then ReadCreateDatabase(ts[1..])
    else if Kind(ts) == KwTable then ReadCreateTable(ts[1..])
    else Nothing
  }

  function ReadDrop(ts: seq<Token>): Parsed<Statement> {
    if Kind(ts) != KwDatabase && Kind(ts) != KwTable then Nothing
    else ReadDropName(Kind(ts) == KwDatabase, ts[1..])
  }

  function ReadDropName(database: bool, ts: seq<Token>): Parsed<Statement> {
    var (name, r1) :- Take(Identifier, ts);
    Finish(if database then DropDatabase(name) else DropTable(name), r1)
  }

  function ReadUse(ts: seq<Token>): Parsed<Statement> {
    var (name, r1) :- Take(Identifier, ts);
    Finish(Use(name), r1)
  }

  function ReadSelect(ts: seq<Token>): Parsed<Statement> {
    var (column, r1) :- TakeColumnOrStar(ts);
    var (table, r2) :- TakeFrom(r1);
    var (cond, r3) :- ReadCondition(r2);
    Finish(Select(table, column, cond), r3)
  }

  function ReadDelete(ts: seq<Token>): Parsed<Statement> {
    var (table, r1) :- TakeFrom(ts);
    var (cond, r2) :- ReadCondition(r1);
    Finish(Delete(table, cond), r2)
  }

  function ReadInsert(ts: seq<Token>): Parsed<Statement> {
    var (table, r1) :- TakeInto(ts);
    var (_, r2) :- TakeValuesOpen(r1);
    if Kind(r2) == RParen then Nothing
    else
      var (values, r3) :- ReadValues(r2);
      Finish(Insert(table, values), r3)
  }

  function ReadUpdate(ts: seq<Token>): Parsed<Statement> {
    var (table, r1) :- Take(Identifier, ts);
    var (column, r2) :- TakeSet(r1);
    var (value, r3) := ReadValue(r2);
    var (cond, r4) :- ReadCondition(r3);
    Finish(Update(table, column, value, cond), r4)
  }

  function ReadStatement(ts: seq<Token>): Parsed<Statement> {
    match Kind(ts)
    case KwCreate => ReadCreate(ts[1..])
    case KwDrop => ReadDrop(ts[1..])
    case KwUse => ReadUse(ts[1..])
    case KwSelect => ReadSelect(ts[1..])
    case KwDelete => ReadDelete(ts[1..])
    case KwInsert => ReadInsert(ts[1..])
    case KwUpdate => ReadUpdate(ts[1..])
    case _ => Nothing
  }

  function OrInvalid(r: Parsed<Statement>): Statement {
    if r.Found? then r.value else Invalid
  }

  /** Lexer and parser together; a lexical error makes the statement invalid. */
  function ParseSql(sql: string): Statement {
    if Lex(sql).ok then OrInvalid(ReadStatement(Lex(sql).tokens)) else Invalid
  }

  // ------------------------------------------------------------- the parser

  class Parser {
    var tokens: seq<Token>
    var pos: nat

    ghost var left: seq<Token>

    /** The cursor never leaves the list, which ends with END_OF_FILE. */
    ghost predicate Valid()
      reads this
    {
      pos < |tokens| && tokens[|tokens| - 1].kind == EndOfFile && left == tokens[pos..]
    }

    constructor () {
      tokens, pos, left := [], 0, [];
    }

    method Peek() returns (tok: Token)
      requires Valid()
      ensures left != [] && tok == left[0]
    {
      tok := tokens[pos];
    }

    method Advance() returns (tok: Token)
      requires Valid() && Kind(left) != EndOfFile
      modifies `pos, `left
      ensures Valid() && pos == old(pos) + 1 && tok == old(left)[0] && left == old(left)[1..]
    {
      tok := tokens[pos];
      pos, left := pos + 1, left[1..];
    }

    method Check(kind: TokenKind) returns (yes: bool)
      requires Valid() && kind != EndOfFile
      ensures left != [] && (yes <==> Kind(left) == kind)
    {
      var tok := Peek();
      yes := tok.kind != EndOfFile && tok.kind == kind;
    }

    /** The statement at the start of a token list that ends with END_OF_FILE. */
    method Parse(ts: seq<Token>) returns (stmt: Statement)
      requires ts != [] && ts[|ts| - 1].kind == EndOfFile
      modifies this
      ensures stmt == OrInvalid(ReadStatement(ts))
    {
      tokens, pos, left := ts, 0, ts;
      stmt := ParseStatement();
    }

    method ParseText(sql: string) returns (stmt: Statement)
      modifies this
      ensures stmt == ParseSql(sql)
    {
      var lexer := new Lexer();
      var ts := lexer.Tokenize(sql);
      if lexer.hasError {
        return Invalid;
      }
      LexEndsWithEof(sql);
      stmt := Parse(ts);
    }

    method ParseStatement() returns (stmt: Statement)
      requires Valid()
      modifies `pos, `left
      ensures Answers(ReadStatement(old(left)), stmt)
    {
      var tok := Peek();
      match tok.kind
      case KwCreate => stmt := ParseCreate();
      case KwDrop => stmt := ParseDrop();
      case KwUse => stmt := ParseUse();
      case KwSelect => stmt := ParseSelect();
      case KwDelete => stmt := ParseDelete();
      case KwInsert => stmt := ParseInsert();
      case KwUpdate => stmt := ParseUpdate();
      case _ => stmt := Invalid;
    }

    /** The method returned what was found and stands behind it, or failed. */
    ghost predicate Answers(r: Parsed<Statement>, stmt: Statement)
      reads this
    {
      Valid() && if r.Found? then stmt == r.value && left == r.rest else stmt == Invalid
    }

    ghost predicate Reports<T>(r: Parsed<T>, ok: bool, value: T)
      reads this
    {
      Valid() && (ok <==> r.Found?) && (ok ==> value == r.value && left == r.rest)
    }

    method SkipSemicolon(stmt: Statement)
      requires Valid()
      modifies `pos, `left
      ensures Answers(Finish(stmt, old(left)), stmt)
    {
      var semi := Check(Semicolon);
      if semi {
        var _ := Advance();
      }
    }

    /** check(kind) and, if it holds, advance(). */
    method Accept(kind: TokenKind) returns (ok: bool, lexeme: string)
      requires Valid() && kind != EndOfFile
      modifies `pos, `left
      ensures Reports(Take(kind, old(left)), ok, lexeme)
      ensures if ok then pos > old(pos) else left == old(left)
    {
      lexeme := "";
      ok := Check(kind);
      if ok {
        var tok := Advance();
        lexeme := tok.lexeme;
      }
    }

    method ParseCreate() returns (stmt: Statement)
      requires Valid() && Kind(left) == KwCreate
      modifies `pos, `left
      ensures Answers(ReadCreate(old(left)[1..]), stmt)
    {
      var _ := Advance();
      var database := Check(KwDatabase);
      var table := Check(KwTable);
      stmt := Invalid;
      if database {
        var _ := Advance();
        stmt := ParseCreateDatabase();
      } else if table {
        var _ := Advance();
        stmt := ParseCreateTable();
      }
    }

    method ParseCreateDatabase() returns (stmt: Statement)
      requires Valid()
      modifies `pos, `left
      ensures Answers(ReadCreateDatabase(old(left)), stmt)
    {
      stmt := Invalid;
      var ok, name := Accept(Identifier);
      if ok {
        stmt := CreateDatabase(name);
        SkipSemicolon(stmt);
      }
    }

    method ParseTableOpen() returns (ok: bool, table: string)
      requires Valid()
      modifies `pos, `left
      ensures Reports(TakeTableOpen(old(left)), ok, table)
    {
      var text := "";
      ok, table := Accept(Identifier);
      if ok {
        ok, text := Accept(LParen);
      }
    }

    method ParseCreateTable() returns (stmt: Statement)
      requires Valid()
      modifies `pos, `left
      ensures Answers(ReadCreateTable(old(left)), stmt)
    {
      stmt := Invalid;
      var ok, table := ParseTableOpen();
      if ok {
        var empty := Check(RParen);
        if !empty {
          var defs: seq<ColumnDef>;
          ok, defs := ParseColumnDefs();
          if ok {
            var count := CountPrimary(defs);
            if count <= 1 {
              stmt := CreateTable(table, defs);
              SkipSemicolon(stmt);
            }
          }
        }
      }
    }

    static method CountPrimary(defs: seq<ColumnDef>) returns (count: nat)
      ensures count == PrimaryCount(defs)
    {
      count := 0;
      var i := 0;
      while i < |defs|
        invariant 0 <= i <= |defs| && count == PrimaryCount(defs[..i])
      {
        assert defs[..i + 1][..i] == defs[..i];
        if defs[i].primary {
          count := count + 1;
        }
        i := i + 1;
      }
      assert defs[..i] == defs;
    }

    /** The loop over column definitions; every round consumes tokens. */
    method ParseColumnDefs() returns (ok: bool, defs: seq<ColumnDef>)
      requires Valid()
      modifies `pos, `left
      ensures Reports(ReadColumnDefs(old(left)), ok, defs)
    {
      defs, ok := [], true;
      var open := true;
      ghost var all := ReadColumnDefs(left);
      PrependNothing(all);
      while open
        invariant Valid()
        invariant open ==> ok && all == Prepend(defs, ReadColumnDefs(left))
        invariant !open ==> Reports(all, ok, defs)
        decreases open, |tokens| - pos
      {
        var col := ParseColumnDef();
        if col.name == "" {
          ok, open := false, false;
        } else {
          ghost var front := defs;
          defs := defs + [col];
          var separator := Separator();
          if separator == Comma {
            PrependMore(front, col, ReadColumnDefs(left));
          } else {
            ok, open := separator == RParen, false;
          }
        }
      }
    }

    /** The closing parenthesis or the comma after a list element, consumed; or
        NoToken, which is an error. */
    method Separator() returns (kind: TokenKind)
      requires Valid()
      modifies `pos, `left
      ensures Valid()
      ensures kind == if Kind(old(left)) == RParen || Kind(old(left)) == Comma then Kind(old(left)) else NoToken
      ensures if kind == NoToken then left == old(left) else pos > old(pos) && left == old(left)[1..]
    {
      var close := Check(RParen);
      var comma := Check(Comma);
      kind := NoToken;
      if close || comma {
        var tok := Advance();
        kind := tok.kind;
      }
    }

    /** A definition without a name stands for an error. */
    method ParseColumnDef() returns (col: ColumnDef)
      requires Valid()
      modifies `pos, `left
      ensures Reports(ReadColumnDef(old(left)), col.name != "", col)
      ensures pos >= old(pos)
      ensures col.name != "" ==> pos > old(pos)
    {
      col := ColumnDef("", "", false);
      var ty := "";
      var ok, name := Accept(Identifier);
      if ok {
        ok, ty := ParseType();
        if ok {
          var primary := ParsePrimary();
          col := ColumnDef(name, ty, primary);
        }
      }
    }

    method ParseType() returns (ok: bool, ty: string)
      requires Valid()
      modifies `pos, `left
      ensures Reports(TakeType(old(left)), ok, ty) && pos >= old(pos)
    {
      ok, ty := Accept(KwInt);
      if !ok {
        ok, ty := Accept(KwString);
      }
    }

    method ParsePrimary() returns (primary: bool)
      requires Valid()
      modifies `pos, `left
      ensures Valid() && (primary, left) == ReadPrimary(old(left)) && pos >= old(pos)
    {
      primary := Check(KwPrimary);
      if primary {
        var _ := Advance();
      }
    }

    method ParseDrop() returns (stmt: Statement)
      requires Valid() && Kind(left) == KwDrop
      modifies `pos, `left
      ensures Answers(ReadDrop(old(left)[1..]), stmt)
    {
      var _ := Advance();
      var database := Check(KwDatabase);
      var table := Check(KwTable);
      stmt := Invalid;
      if database || table {
        var _ := Advance();
        stmt := ParseDropName(database);
      }
    }

    method ParseDropName(database: bool) returns (stmt: Statement)
      requires Valid()
      modifies `pos, `left
      ensures Answers(ReadDropName(database, old(left)), stmt)
    {
      stmt := Invalid;
      var ok, name := Accept(Identifier);
      if ok {
        stmt := if database then DropDatabase(name) else DropTable(name);
        SkipSemicolon(stmt);
      }
    }

    method ParseUse() returns (stmt: Statement)
      requires Valid() && Kind(left) == KwUse
      modifies `pos, `left
      ensures Answers(ReadUse(old(left)[1..]), stmt)
    {
      var _ := Advance();
      stmt := Invalid;
      var ok, name := Accept(Identifier);
      if ok {
        stmt := Use(name);
        SkipSemicolon(stmt);
      }
    }

    method ParseFrom() returns (ok: bool, table: string)
      requires Valid()
      modifies `pos, `left
      ensures Reports(TakeFrom(old(left)), ok, table)
    {
      ok, table := Accept(KwFrom);
      if ok {
        ok, table := Accept(Identifier);
      }
    }

    method ParseColumnOrStar() returns (ok: bool, column: string)
      requires Valid()
      modifies `pos, `left
      ensures Reports(TakeColumnOrStar(old(left)), ok, column)
    {
      ok, column := Accept(Identifier);
      if !ok {
        ok, column := Accept(OpStar);
      }
    }

    method ParseSelect() returns (stmt: Statement)
      requires Valid() && Kind(left) == KwSelect
      modifies `pos, `left
      ensures Answers(ReadSelect(old(left)[1..]), stmt)
    {
      var _ := Advance();
      stmt := Invalid;
      var table, cond := "", Always;
      var ok, column := ParseColumnOrStar();
      if ok {
        ok, table := ParseFrom();
        if ok {
          ok, cond := ParseCondition();
          if ok {
            stmt := Select(table, column, cond);
            SkipSemicolon(stmt);
          }
        }
      }
    }

    method ParseDelete() returns (stmt: Statement)
      requires Valid() && Kind(left) == KwDelete
      modifies `pos, `left
      ensures Answers(ReadDelete(old(left)[1..]), stmt)
    {
      var _ := Advance();
      stmt := Invalid;
      var ok, table := ParseFrom();
      if ok {
        var cond := Always;
        ok, cond := ParseCondition();
        if ok {
          stmt := Delete(table, cond);
          SkipSemicolon(stmt);
        }
      }
    }

    method ParseInto() returns (ok: bool, table: string)
      requires Valid()
      modifies `pos, `left
      ensures Reports(TakeInto(old(left)), ok, table)
    {
      ok, table := Accept(KwInto);
      if ok {
        ok, table := Accept(Identifier);
      }
    }

    method ParseValuesOpen() returns (ok: bool, text: string)
      requires Valid()
      modifies `pos, `left
      ensures Reports(TakeValuesOpen(old(left)), ok, text)
    {
      ok, text := Accept(KwValues);
      if ok {
        ok, text := Accept(LParen);
      }
    }

    method ParseInsert() returns (stmt: Statement)
      requires Valid() && Kind(left) == KwInsert
      modifies `pos, `left
      ensures Answers(ReadInsert(old(left)[1..]), stmt)
    {
      var _ := Advance();
      stmt := Invalid;
      var text := "";
      var ok, table := ParseInto();
      if ok {
        ok, text := ParseValuesOpen();
        if ok {
          var empty := Check(RParen);
          if !empty {
            var values: seq<Literal>;
            ok, values := ParseValues();
            if ok {
              stmt := Insert(table, values);
              SkipSemicolon(stmt);
            }
          }
        }
      }
    }

    /** The loop over values; a round without a literal still consumes a comma. */
    method ParseValues() returns (ok: bool, values: seq<Literal>)
      requires Valid()
      modifies `pos, `left
      ensures Reports(ReadValues(old(left)), ok, values)
    {
      values, ok := [], true;
      var open := true;
      ghost var all := ReadValues(left);
      PrependNothing(all);
      while open
        invariant Valid()
        invariant open ==> ok && all == Prepend(values, ReadValues(left))
        invariant !open ==> Reports(all, ok, values)
        decreases open, |tokens| - pos
      {
        var value := ParseValue();
        ghost var front := values;
        values := values + [value];
        var separator := Separator();
        if separator == Comma {
          PrependMore(front, value, ReadValues(left));
        } else {
          ok, open := separator == RParen, false;
        }
      }
    }

    method ParseSet() returns (ok: bool, column: string)
      requires Valid()
      modifies `pos, `left
      ensures Reports(TakeSet(old(left)), ok, column)
    {
      var text := "";
      ok, column := Accept(KwSet);
      if ok {
        ok, column := Accept(Identifier);
        if ok {
          ok, text := Accept(OpEq);
        }
      }
    }

    method ParseUpdate() returns (stmt: Statement)
      requires Valid() && Kind(left) == KwUpdate
      modifies `pos, `left
      ensures Answers(ReadUpdate(old(left)[1..]), stmt)
    {
      var _ := Advance();
      stmt := Invalid;
      var column, cond := "", Always;
      var ok, table := Accept(Identifier);
      if ok {
        ok, column := ParseSet();
        if ok {
          var value := ParseValue();
          ok, cond := ParseCondition();
          if ok {
            stmt := Update(table, column, value, cond);
            SkipSemicolon(stmt);
          }
        }
      }
    }

    /** check(WHERE), parse_where_clause and the test for an empty column. */
    method ParseCondition() returns (ok: bool, cond: Condition)
      requires Valid()
      modifies `pos, `left
      ensures Reports(ReadCondition(old(left)), ok, cond)
    {
      ok, cond := true, Always;
      var where := Check(KwWhere);
      if where {
        var _ := Advance();
        ok, cond := ParseComparison();
      }
    }

    method ParseComparison() returns (ok: bool, cond: Condition)
      requires Valid()
      modifies `pos, `left
      ensures Reports(ReadComparison(old(left)), ok, cond)
    {
      cond := Always;
      var column, op := "", "";
      ok, column := Accept(Identifier);
      if ok {
        ok, op := ParseOperator();
        if ok {
          var value := ParseValue();
          ok, cond := column != "", Compare(column, op, value);
        }
      }
    }

    method ParseOperator() returns (ok: bool, op: string)
      requires Valid()
      modifies `pos, `left
      ensures Reports(TakeOperator(old(left)), ok, op)
    {
      var eq := Check(OpEq);
      var lt := Check(OpLt);
      var gt := Check(OpGt);
      ok, op := eq || lt || gt, "";
      if ok {
        var tok := Advance();
        op := tok.lexeme;
      }
    }

    method ParseValue() returns (value: Literal)
      requires Valid()
      modifies `pos, `left
      ensures Valid() && (value, left) == ReadValue(old(left))
      ensures pos >= old(pos)
    {
      var isInt := Check(IntLiteral);
      var isString := Check(StringLiteral);
      value := Literal("", false);
      if isInt || isString {
        var tok := Advance();
        value := Literal(tok.lexeme, isInt);
      }
    }
  }

  lemma {:induction false} PrependNothing<T>(r: Parsed<seq<T>>)
    ensures Prepend([], r) == r
  {
    if r.Found? {
      assert [] + r.value == r.value;
    }
  }

  lemma {:induction false} PrependMore<T>(front: seq<T>, x: T, r: Parsed<seq<T>>)
    ensures Prepend(front, Prepend([x], r)) == Prepend(front + [x], r)
  {
    if r.Found? {
      assert front + ([x] + r.value) == front + [x] + r.value;
    }
  }

  lemma {:induction false} LexFromEndsWithEof(s: string, at: Place)
    ensures var ts := LexFrom(s, at).tokens; ts != [] && ts[|ts| - 1].kind == EndOfFile
    decreases |s|
  {
    var (g, here) := Skip(s, at);
    if g < |s| && ScanText(s[g..]).Good? {
      var n := ScanText(s[g..]).length;
      LexStep(s, at, s[..g], s[g..]);
      LexFromEndsWithEof(s[g..][n..], Right(here, n));
    }
  }

  lemma {:induction false} LexEndsWithEof(sql: string)
    ensures var ts := Lex(sql).tokens; ts != [] && ts[|ts| - 1].kind == EndOfFile
  {
    LexFromEndsWithEof(sql, Place(1, 1));
  }
}

/** The parser characterised: what it accepts is a sentence of the grammar for
    exactly the statement it returns. */
module ParserLaws {
  import opened Tokens
  import opened Ast
  import opened Parsing

  // ----------------------------------------------------------------- grammar

  datatype Sym =
    | Kw(kind: TokenKind)
    | Name(text: string)
    | ColumnOrStar(text: string)
    | TypeName(text: string)
    | Operator(text: string)
    | Value(lit: Literal)

  /** A sentence: symbols in order. */
  datatype Syms = Done | Then(sym: Sym, more: Syms)

  predicate Fits(sym: Sym, tok: Token) {
    match sym
    case Kw(kind) => tok.kind == kind
    case Name(text) => tok.kind.Identifier? && tok.lexeme == text
    case ColumnOrStar(text) => (tok.kind.Identifier? || tok.kind.OpStar?) && tok.lexeme == text
    case TypeName(text) => (tok.kind.KwInt? || tok.kind.KwString?) && tok.lexeme == text
    case Operator(text) => (tok.kind.OpEq? || tok.kind.OpLt? || tok.kind.OpGt?) && tok.lexeme == text
    case Value(lit) =>
      tok.lexeme == lit.text && (if lit.isInt then tok.kind.IntLiteral? else tok.kind.StringLiteral?)
  }

  predicate IsLiteral(k: TokenKind) {
    k.IntLiteral? || k.StringLiteral?
  }

  /** Where no literal stands, the missing one counts as the empty string. */
  predicate Missing(sym: Sym, ts: seq<Token>) {
    sym == Value(Literal("", false)) && !IsLiteral(Kind(ts))
  }

  /** The tokens `ts` spell out `syms` and then go on with `rest`. */
  predicate Derives(syms: Syms, ts: seq<Token>, rest: seq<Token>) {
    match syms
    case Done => ts == rest
    case Then(sym, more) =>
      || (ts != [] && Fits(sym, ts[0]) && Derives(more, ts[1..], rest))
      || (Missing(sym, ts) && Derives(more, ts, rest))
  }

  /** Symbols of a fixed kind, in front of `tail`. */
  function K(kind: TokenKind, tail: Syms): Syms {
    Then(Kw(kind), tail)
  }

  function ConditionSyms(cond: Condition, tail: Syms): Syms {
    match cond
    case Always => tail
    case Compare(column, op, literal) =>
      K(KwWhere, Then(Name(column), Then(Operator(op), Then(Value(literal), tail))))
  }

  function PrimarySyms(primary: bool, tail: Syms): Syms {
    if primary then K(KwPrimary, tail) else tail
  }

  function DefSyms(def: ColumnDef, tail: Syms): Syms {
    Then(Name(def.name), Then(TypeName(def.ty), PrimarySyms(def.primary, tail)))
  }

  /** The list after the opening parenthesis, with the closing one. */
  function DefsSyms(defs: seq<ColumnDef>, tail: Syms): Syms
    requires defs != []
  {
    DefSyms(defs[0], if |defs| == 1 then K(RParen, tail) else K(Comma, DefsSyms(defs[1..], tail)))
  }

  function ValuesSyms(values: seq<Literal>, tail: Syms): Syms
    requires values != []
  {
    Then(Value(values[0]), if |values| == 1 then K(RParen, tail) else K(Comma, ValuesSyms(values[1..], tail)))
  }

  predicate OnePrimaryAtMost(defs: seq<ColumnDef>) {
    forall i, j | 0 <= i < j < |defs| :: !(defs[i].primary && defs[j].primary)
  }

  predicate KnownColumn(cond: Condition) {
    cond.Compare? ==> cond.column != ""
  }

  /** What the parser demands of a statement besides its sentence. */
  predicate WellFormed(stmt: Statement) {
    match stmt
    case CreateTable(_, defs) =>
      defs != [] && OnePrimaryAtMost(defs) && forall i | 0 <= i < |defs| :: defs[i].name != ""
    case Insert(_, values) => values != []
    case Select(_, _, cond) => KnownColumn(cond)
    case Delete(_, cond) => KnownColumn(cond)
    case Update(_, _, _, cond) => KnownColumn(cond)
    case Invalid => false
    case _ => true
  }

  /** The keyword a statement starts with. */
  function Head(stmt: Statement): TokenKind {
    match stmt
    case CreateDatabase(_) => KwCreate
    case CreateTable(_, _) => KwCreate
    case DropDatabase(_) => KwDrop
    case DropTable(_) => KwDrop
    case Use(_) => KwUse
    case Select(_, _, _) => KwSelect
    case Delete(_, _) => KwDelete
    case Insert(_, _) => KwInsert
    case Update(_, _, _, _) => KwUpdate
    case Invalid => NoToken
  }

  /** What follows it, in the grammar that MiniDB documents under the
      heading of its supported SQL syntax. */
  function Body(stmt: Statement, tail: Syms): Syms
    requires WellFormed(stmt)
  {
    match stmt
    case CreateDatabase(name) => K(KwDatabase, Then(Name(name), tail))
    case DropDatabase(name) => K(KwDatabase, Then(Name(name), tail))
    case Use(name) => Then(Name(name), tail)
    case CreateTable(table, defs) => K(KwTable, Then(Name(table), K(LParen, DefsSyms(defs, tail))))
    case DropTable(table) => K(KwTable, Then(Name(table), tail))
    case Select(table, column, cond) =>
      Then(ColumnOrStar(column), K(KwFrom, Then(Name(table), ConditionSyms(cond, tail))))
    case Delete(table, cond) => K(KwFrom, Then(Name(table), ConditionSyms(cond, tail)))
    case Insert(table, values) =>
      K(KwInto, Then(Name(table), K(KwValues, K(LParen, ValuesSyms(values, tail)))))
    case Update(table, column, value, cond) =>
      Then(Name(table), K(KwSet, Then(Name(column), K(OpEq, Then(Value(value), ConditionSyms(cond, tail))))))
  }

  /** The end of a sentence: a semicolon or nothing. */
  function End(semicolon: bool): Syms {
    if semicolon then K(Semicolon, Done) else Done
  }

  /** `ts` starts with a sentence of `stmt` and goes on with `rest`. The grammar is
      that of the documentation, with literals that may be missing, except that
      the list of an INSERT cannot be just one missing literal. */
  predicate Sentence(stmt: Statement, semicolon: bool, ts: seq<Token>, rest: seq<Token>) {
    && WellFormed(stmt)
    && Derives(K(Head(stmt), Body(stmt, End(semicolon))), ts, rest)
    && (stmt.Insert? ==> |ts| > 5 && ts[5].kind != RParen)
  }

  /** A statement that a WHERE would go on with. */
  predicate OpenToWhere(stmt: Statement) {
    (stmt.Select? || stmt.Delete? || stmt.Update?) && stmt.cond.Always?
  }

  /** The sentence is over: it has its semicolon, or what follows is neither a
      semicolon nor a WHERE that would belong to it. */
  predicate Ended(stmt: Statement, semi: bool, rest: seq<Token>) {
    semi || (Kind(rest) != Semicolon && (OpenToWhere(stmt) ==> Kind(rest) != KwWhere))
  }

  // --------------------------------------------------------- primary columns

  lemma {:induction false} NonePrimary(defs: seq<ColumnDef>)
    ensures PrimaryCount(defs) == 0 <==> forall i | 0 <= i < |defs| :: !defs[i].primary
  {
    if defs != [] {
      var front := defs[..|defs| - 1];
      NonePrimary(front);
      assert forall i | 0 <= i < |front| :: defs[i] == front[i];
    }
  }

  /** The count the parser makes is above 1 exactly when two columns are primary. */
  lemma {:induction false} CountsPrimaries(defs: seq<ColumnDef>)
    ensures PrimaryCount(defs) <= 1 <==> OnePrimaryAtMost(defs)
  {
    if defs != [] {
      var n := |defs| - 1;
      var front := defs[..n];
      CountsPrimaries(front);
      NonePrimary(front);
      assert forall i | 0 <= i < n :: defs[i] == front[i];
      if OnePrimaryAtMost(defs) && defs[n].primary {
        assert forall i | 0 <= i < n :: !(defs[i].primary && defs[n].primary);
      }
      if OnePrimaryAtMost(front) && PrimaryCount(defs) <= 1 {
        forall i, j | 0 <= i < j <= n
          ensures !(defs[i].primary && defs[j].primary)
        {
          assert j < n ==> !(front[i].primary && front[j].primary);
        }
      }
    }
  }

  // --------------------------------------------------------------- soundness

  lemma {:induction false} ComparisonSound(ts: seq<Token>, tail: Syms, rest: seq<Token>)
    requires Kind(ts) == KwWhere && ReadComparison(ts[1..]).Found?
    requires Derives(tail, ReadComparison(ts[1..]).rest, rest)
    ensures ReadComparison(ts[1..]).value.Compare? && KnownColumn(ReadComparison(ts[1..]).value)
    ensures Derives(ConditionSyms(ReadComparison(ts[1..]).value, tail), ts, rest)
  {
    var cond := ReadComparison(ts[1..]).value;
    var r2 := TakeOperator(ts[1..][1..]).rest;
    assert Derives(Then(Value(cond.literal), tail), r2, rest);
    assert Derives(Then(Operator(cond.op), Then(Value(cond.literal), tail)), ts[1..][1..], rest);
  }

  lemma {:induction false} ConditionSound(ts: seq<Token>, tail: Syms, rest: seq<Token>)
    requires ReadCondition(ts).Found? && Derives(tail, ReadCondition(ts).rest, rest)
    ensures KnownColumn(ReadCondition(ts).value)
    ensures Derives(ConditionSyms(ReadCondition(ts).value, tail), ts, rest)
  {
    if Kind(ts) == KwWhere {
      ComparisonSound(ts, tail, rest);
    }
  }

  lemma {:induction false} ColumnDefSound(ts: seq<Token>, tail: Syms, rest: seq<Token>)
    requires ReadColumnDef(ts).Found? && Derives(tail, ReadColumnDef(ts).rest, rest)
    ensures ReadColumnDef(ts).value.name != ""
    ensures Derives(DefSyms(ReadColumnDef(ts).value, tail), ts, rest)
  {
    var def := ReadColumnDef(ts).value;
    var r2 := TakeType(ts[1..]).rest;
    assert Derives(PrimarySyms(def.primary, tail), r2, rest);
    assert Derives(Then(TypeName(def.ty), PrimarySyms(def.primary, tail)), ts[1..], rest);
  }

  lemma {:induction false} ColumnDefsSound(ts: seq<Token>, tail: Syms, rest: seq<Token>)
    requires ReadColumnDefs(ts).Found? && Derives(tail, ReadColumnDefs(ts).rest, rest)
    ensures var defs := ReadColumnDefs(ts).value;
            defs != [] && (forall i | 0 <= i < |defs| :: defs[i].name != "") && Derives(DefsSyms(defs, tail), ts, rest)
    decreases |ts|
  {
    var def, r1 := ReadColumnDef(ts).value, ReadColumnDef(ts).rest;
    if Kind(r1) == RParen {
      ColumnDefSound(ts, K(RParen, tail), rest);
    } else {
      ColumnDefsSound(r1[1..], tail, rest);
      var more := ReadColumnDefs(r1[1..]).value;
      ColumnDefSound(ts, K(Comma, DefsSyms(more, tail)), rest);
      assert ReadColumnDefs(ts).value == [def] + more && ([def] + more)[1..] == more;
    }
  }

  lemma {:induction false} ValuesSound(ts: seq<Token>, tail: Syms, rest: seq<Token>)
    requires ReadValues(ts).Found? && Derives(tail, ReadValues(ts).rest, rest)
    ensures var values := ReadValues(ts).value;
            values != [] && Derives(ValuesSyms(values, tail), ts, rest)
    decreases |ts|
  {
    var (value, r1) := ReadValue(ts);
    if Kind(r1) == Comma {
      ValuesSound(r1[1..], tail, rest);
      var more := ReadValues(r1[1..]).value;
      assert Derives(K(Comma, ValuesSyms(more, tail)), r1, rest);
      assert ReadValues(ts).value == [value] + more && ([value] + more)[1..] == more;
    } else {
      assert Derives(K(RParen, tail), r1, rest);
    }
  }

  /** Whatever the body of a statement leaves, the optional semicolon takes. */
  lemma {:induction false} FinishSound(stmt: Statement, mid: seq<Token>)
    ensures Derives(End(Kind(mid) == Semicolon), mid, Finish(stmt, mid).rest)
    ensures (OpenToWhere(stmt) ==> Kind(mid) != KwWhere) ==>
              Ended(stmt, Kind(mid) == Semicolon, Finish(stmt, mid).rest)
  {
  }

  lemma {:induction false} NoWhereLeft(ts: seq<Token>)
    requires ReadCondition(ts).Found? && ReadCondition(ts).value.Always?
    ensures Kind(ReadCondition(ts).rest) != KwWhere
  {
  }

  // The runs of fixed tokens.

  lemma {:induction false} SetSound(ts: seq<Token>, tail: Syms, rest: seq<Token>)
    requires TakeSet(ts).Found? && Derives(tail, TakeSet(ts).rest, rest)
    ensures Derives(K(KwSet, Then(Name(TakeSet(ts).value), K(OpEq, tail))), ts, rest)
  {
    var column := TakeSet(ts).value;
    assert Derives(K(OpEq, tail), ts[1..][1..], rest);
    assert Derives(Then(Name(column), K(OpEq, tail)), ts[1..], rest);
  }

  lemma {:induction false} IntoSound(ts: seq<Token>, tail: Syms, rest: seq<Token>)
    requires TakeInto(ts).Found? && Derives(tail, TakeInto(ts).rest, rest)
    ensures Derives(K(KwInto, Then(Name(TakeInto(ts).value), tail)), ts, rest)
    ensures TakeInto(ts).rest == ts[2..]
  {
    assert Derives(Then(Name(TakeInto(ts).value), tail), ts[1..], rest);
  }

  lemma {:induction false} ValuesOpenSound(ts: seq<Token>, tail: Syms, rest: seq<Token>)
    requires TakeValuesOpen(ts).Found? && Derives(tail, TakeValuesOpen(ts).rest, rest)
    ensures Derives(K(KwValues, K(LParen, tail)), ts, rest)
    ensures TakeValuesOpen(ts).rest == ts[2..]
  {
    assert Derives(K(LParen, tail), ts[1..], rest);
  }

  lemma {:induction false} TableOpenSound(ts: seq<Token>, tail: Syms, rest: seq<Token>)
    requires TakeTableOpen(ts).Found? && Derives(tail, TakeTableOpen(ts).rest, rest)
    ensures Derives(Then(Name(TakeTableOpen(ts).value), K(LParen, tail)), ts, rest)
  {
    assert Derives(K(LParen, tail), ts[1..], rest);
  }

  lemma {:induction false} ColumnOrStarSound(ts: seq<Token>, tail: Syms, rest: seq<Token>)
    requires TakeColumnOrStar(ts).Found? && Derives(tail, TakeColumnOrStar(ts).rest, rest)
    ensures Derives(Then(ColumnOrStar(TakeColumnOrStar(ts).value), tail), ts, rest)
  {
  }

  lemma {:induction false} ValueSound(ts: seq<Token>, tail: Syms, rest: seq<Token>)
    requires Derives(tail, ReadValue(ts).1, rest)
    ensures Derives(Then(Value(ReadValue(ts).0), tail), ts, rest)
  {
  }

  lemma {:induction false} TableParts(ts: seq<Token>)
    requires ReadCreateTable(ts).Found?
    ensures var open, defs := TakeTableOpen(ts), ReadColumnDefs(TakeTableOpen(ts).rest);
            && open.Found? && defs.Found? && OnePrimaryAtMost(defs.value)
            && ReadCreateTable(ts) == Finish(CreateTable(open.value, defs.value), defs.rest)
  {
    CountsPrimaries(ReadColumnDefs(TakeTableOpen(ts).rest).value);
  }

  lemma {:induction false} CreateTableSound(ts: seq<Token>) returns (semi: bool)
    requires ReadCreateTable(ts).Found?
    ensures var r := ReadCreateTable(ts);
            && r.value.CreateTable? && WellFormed(r.value) && Ended(r.value, semi, r.rest)
            && Derives(Then(Name(r.value.table), K(LParen, DefsSyms(r.value.columns, End(semi)))), ts, r.rest)
  {
    TableParts(ts);
    var open, defs := TakeTableOpen(ts), ReadColumnDefs(TakeTableOpen(ts).rest);
    var rest := ReadCreateTable(ts).rest;
    semi := Kind(defs.rest) == Semicolon;
    FinishSound(CreateTable(open.value, defs.value), defs.rest);
    ColumnDefsSound(open.rest, End(semi), rest);
    TableOpenSound(ts, DefsSyms(defs.value, End(semi)), rest);
  }

  lemma {:induction false} CreateDatabaseSound(ts: seq<Token>) returns (semi: bool)
    requires ReadCreateDatabase(ts).Found?
    ensures var r := ReadCreateDatabase(ts);
            && r.value.CreateDatabase? && Ended(r.value, semi, r.rest)
            && Derives(Then(Name(r.value.name), End(semi)), ts, r.rest)
  {
    semi := Kind(ts[1..]) == Semicolon;
    FinishSound(ReadCreateDatabase(ts).value, ts[1..]);
  }

  lemma {:induction false} CreateSound(ts: seq<Token>) returns (semi: bool)
    requires ReadCreate(ts).Found?
    ensures var r := ReadCreate(ts);
            && WellFormed(r.value) && Head(r.value) == KwCreate && Derives(Body(r.value, End(semi)), ts, r.rest)
            && Ended(r.value, semi, r.rest)
  {
    if Kind(ts) == KwDatabase {
      semi := CreateDatabaseSound(ts[1..]);
    } else {
      semi := CreateTableSound(ts[1..]);
    }
  }

  lemma {:induction false} DropSound(ts: seq<Token>) returns (semi: bool)
    requires ReadDrop(ts).Found?
    ensures var r := ReadDrop(ts);
            && WellFormed(r.value) && Head(r.value) == KwDrop && Derives(Body(r.value, End(semi)), ts, r.rest)
            && Ended(r.value, semi, r.rest)
  {
    var r, mid := ReadDrop(ts), ts[1..][1..];
    semi := Kind(mid) == Semicolon;
    FinishSound(r.value, mid);
    assert Derives(Then(Name(ts[1..][0].lexeme), End(semi)), ts[1..], r.rest);
  }

  lemma {:induction false} UseSound(ts: seq<Token>) returns (semi: bool)
    requires ReadUse(ts).Found?
    ensures var r := ReadUse(ts);
            && WellFormed(r.value) && Head(r.value) == KwUse && Derives(Body(r.value, End(semi)), ts, r.rest)
            && Ended(r.value, semi, r.rest)
  {
    semi := Kind(ts[1..]) == Semicolon;
    FinishSound(ReadUse(ts).value, ts[1..]);
  }

  /** FROM table [WHERE ...], as SELECT and DELETE end. */
  lemma {:induction false} FromSound(ts: seq<Token>, tail: Syms, rest: seq<Token>)
    requires TakeFrom(ts).Found? && ReadCondition(TakeFrom(ts).rest).Found?
    requires Derives(tail, ReadCondition(TakeFrom(ts).rest).rest, rest)
    ensures var cond := ReadCondition(TakeFrom(ts).rest).value;
            KnownColumn(cond) && Derives(K(KwFrom, Then(Name(TakeFrom(ts).value), ConditionSyms(cond, tail))), ts, rest)
  {
    ConditionSound(TakeFrom(ts).rest, tail, rest);
    var cond := ReadCondition(TakeFrom(ts).rest).value;
    assert Derives(Then(Name(TakeFrom(ts).value), ConditionSyms(cond, tail)), ts[1..], rest);
  }

  lemma {:induction false} SelectSound(ts: seq<Token>) returns (semi: bool)
    requires ReadSelect(ts).Found?
    ensures var r := ReadSelect(ts);
            && WellFormed(r.value) && Head(r.value) == KwSelect && Derives(Body(r.value, End(semi)), ts, r.rest)
            && Ended(r.value, semi, r.rest)
  {
    var r, r1 := ReadSelect(ts), TakeColumnOrStar(ts).rest;
    var mid := ReadCondition(TakeFrom(r1).rest).rest;
    semi := Kind(mid) == Semicolon;
    if r.value.cond.Always? {
      NoWhereLeft(TakeFrom(r1).rest);
    }
    FinishSound(r.value, mid);
    FromSound(r1, End(semi), r.rest);
    ColumnOrStarSound(ts, K(KwFrom, Then(Name(r.value.table), ConditionSyms(r.value.cond, End(semi)))), r.rest);
  }

  lemma {:induction false} DeleteSound(ts: seq<Token>) returns (semi: bool)
    requires ReadDelete(ts).Found?
    ensures var r := ReadDelete(ts);
            && WellFormed(r.value) && Head(r.value) == KwDelete && Derives(Body(r.value, End(semi)), ts, r.rest)
            && Ended(r.value, semi, r.rest)
  {
    var r, mid := ReadDelete(ts), ReadCondition(TakeFrom(ts).rest).rest;
    semi := Kind(mid) == Semicolon;
    if r.value.cond.Always? {
      NoWhereLeft(TakeFrom(ts).rest);
    }
    FinishSound(r.value, mid);
    FromSound(ts, End(semi), r.rest);
  }

  lemma {:induction false} InsertSound(ts: seq<Token>) returns (semi: bool)
    requires ReadInsert(ts).Found?
    ensures var r := ReadInsert(ts);
            && WellFormed(r.value) && Head(r.value) == KwInsert && Derives(Body(r.value, End(semi)), ts, r.rest)
            && Ended(r.value, semi, r.rest) && |ts| > 4 && ts[4].kind != RParen
  {
    var r, r1 := ReadInsert(ts), TakeInto(ts).rest;
    var r2 := TakeValuesOpen(r1).rest;
    var mid := ReadValues(r2).rest;
    semi := Kind(mid) == Semicolon;
    FinishSound(r.value, mid);
    InsertListSound(ts);
    var values := ValuesSyms(r.value.values, End(semi));
    ValuesOpenSound(r1, values, r.rest);
    IntoSound(ts, K(KwValues, K(LParen, values)), r.rest);
  }

  lemma {:induction false} InsertListSound(ts: seq<Token>)
    requires ReadInsert(ts).Found?
    ensures var r2 := TakeValuesOpen(TakeInto(ts).rest).rest;
            var mid := ReadValues(r2).rest;
            var semi := Kind(mid) == Semicolon;
            var values := ReadInsert(ts).value.values;
            && values != [] && Derives(ValuesSyms(values, End(semi)), r2, ReadInsert(ts).rest)
    ensures |ts| > 4 && ts[4].kind != RParen
  {
    var r2 := TakeValuesOpen(TakeInto(ts).rest).rest;
    var mid := ReadValues(r2).rest;
    FinishSound(ReadInsert(ts).value, mid);
    ValuesSound(r2, End(Kind(mid) == Semicolon), ReadInsert(ts).rest);
    FourTokens(ts);
    ValuesNeedToken(r2);
  }

  lemma {:induction false} FourTokens(ts: seq<Token>)
    requires TakeInto(ts).Found? && TakeValuesOpen(TakeInto(ts).rest).Found?
    ensures |ts| >= 4 && TakeValuesOpen(TakeInto(ts).rest).rest == ts[4..]
  {
    assert TakeInto(ts).rest == ts[2..];
  }

  lemma {:induction false} ValuesNeedToken(ts: seq<Token>)
    requires ReadValues(ts).Found?
    ensures ts != []
  {
  }

  lemma {:induction false} UpdateSound(ts: seq<Token>) returns (semi: bool)
    requires ReadUpdate(ts).Found?
    ensures var r := ReadUpdate(ts);
            && WellFormed(r.value) && Head(r.value) == KwUpdate && Derives(Body(r.value, End(semi)), ts, r.rest)
            && Ended(r.value, semi, r.rest)
  {
    var r, r1 := ReadUpdate(ts), ts[1..];
    var r2 := TakeSet(r1).rest;
    var r3 := ReadValue(r2).1;
    var mid := ReadCondition(r3).rest;
    semi := Kind(mid) == Semicolon;
    if r.value.cond.Always? {
      NoWhereLeft(r3);
    }
    FinishSound(r.value, mid);
    ConditionSound(r3, End(semi), r.rest);
    var syms := ConditionSyms(r.value.cond, End(semi));
    ValueSound(r2, syms, r.rest);
    SetSound(r1, Then(Value(r.value.value), syms), r.rest);
  }

  /** Soundness: what a successful parse takes is a sentence of exactly the
      statement it returns, and that sentence is over. */
  lemma {:induction false} ParserIsSound(ts: seq<Token>) returns (semi: bool)
    requires ReadStatement(ts).Found?
    ensures var r := ReadStatement(ts); Sentence(r.value, semi, ts, r.rest) && Ended(r.value, semi, r.rest)
  {
    var tail := ts[1..];
    match Kind(ts)
    case KwCreate => semi := CreateSound(tail);
    case KwDrop => semi := DropSound(tail);
    case KwUse => semi := UseSound(tail);
    case KwSelect => semi := SelectSound(tail);
    case KwDelete => semi := DeleteSound(tail);
    case KwInsert => semi := InsertSound(tail);
    case KwUpdate => semi := UpdateSound(tail);
  }

  // ------------------------------------------------------------ completeness

  lemma {:induction false} FixedComplete(kind: TokenKind, tail: Syms, ts: seq<Token>, rest: seq<Token>)
    requires Derives(K(kind, tail), ts, rest)
    ensures ts != [] && ts[0].kind == kind && Derives(tail, ts[1..], rest)
  {
  }

  lemma {:induction false} NameComplete(text: string, tail: Syms, ts: seq<Token>, rest: seq<Token>)
    requires Derives(Then(Name(text), tail), ts, rest)
    ensures Take(Identifier, ts) == Found(text, ts[1..]) && Derives(tail, ts[1..], rest)
  {
  }

  lemma {:induction false} EndComplete(stmt: Statement, semi: bool, ts: seq<Token>, rest: seq<Token>)
    requires Derives(End(semi), ts, rest) && (semi || Kind(rest) != Semicolon)
    ensures Finish(stmt, ts) == Found(stmt, rest)
  {
    if semi {
      FixedComplete(Semicolon, Done, ts, rest);
    }
  }

  lemma {:induction false} ValueComplete(lit: Literal, tail: Syms, ts: seq<Token>, rest: seq<Token>)
    requires Derives(Then(Value(lit), tail), ts, rest)
    ensures ReadValue(ts).0 == lit && Derives(tail, ReadValue(ts).1, rest)
  {
  }

  lemma {:induction false} OperatorComplete(text: string, tail: Syms, ts: seq<Token>, rest: seq<Token>)
    requires Derives(Then(Operator(text), tail), ts, rest)
    ensures TakeOperator(ts) == Found(text, ts[1..]) && Derives(tail, ts[1..], rest)
  {
  }

  lemma {:induction false} ConditionComplete(cond: Condition, semi: bool, ts: seq<Token>, rest: seq<Token>)
    requires KnownColumn(cond) && Derives(ConditionSyms(cond, End(semi)), ts, rest)
    requires cond.Always? && !semi ==> Kind(rest) != KwWhere
    ensures var r := ReadCondition(ts); r.Found? && r.value == cond && Derives(End(semi), r.rest, rest)
  {
    if cond.Compare? {
      var value := Then(Value(cond.literal), End(semi));
      FixedComplete(KwWhere, Then(Name(cond.column), Then(Operator(cond.op), value)), ts, rest);
      NameComplete(cond.column, Then(Operator(cond.op), value), ts[1..], rest);
      OperatorComplete(cond.op, value, ts[1..][1..], rest);
      var r2 := ts[1..][1..][1..];
      ValueComplete(cond.literal, End(semi), r2, rest);
    }
  }

  lemma {:induction false} ColumnDefComplete(def: ColumnDef, next: TokenKind, tail: Syms, ts: seq<Token>,
                                             rest: seq<Token>)
    requires def.name != "" && next != KwPrimary && Derives(DefSyms(def, K(next, tail)), ts, rest)
    ensures var r := ReadColumnDef(ts); r.Found? && r.value == def && Derives(K(next, tail), r.rest, rest)
  {
    NameComplete(def.name, Then(TypeName(def.ty), PrimarySyms(def.primary, K(next, tail))), ts, rest);
    var r1 := ts[1..];
    assert TakeType(r1) == Found(def.ty, r1[1..]);
    assert Derives(PrimarySyms(def.primary, K(next, tail)), r1[1..], rest);
    if !def.primary {
      FixedComplete(next, tail, r1[1..], rest);
    }
  }

  lemma {:induction false} LastColumnDef(def: ColumnDef, tail: Syms, ts: seq<Token>, rest: seq<Token>)
    requires def.name != "" && Derives(DefSyms(def, K(RParen, tail)), ts, rest)
    ensures var r := ReadColumnDefs(ts); r.Found? && r.value == [def] && Derives(tail, r.rest, rest)
  {
    ColumnDefComplete(def, RParen, tail, ts, rest);
    FixedComplete(RParen, tail, ReadColumnDef(ts).rest, rest);
  }

  lemma {:induction false} FirstColumnDef(def: ColumnDef, more: Syms, ts: seq<Token>,
                                          rest: seq<Token>) returns (r1: seq<Token>)
    requires def.name != "" && Derives(DefSyms(def, K(Comma, more)), ts, rest)
    ensures Derives(more, r1, rest) && |r1| < |ts|
    ensures ReadColumnDefs(ts) == Prepend([def], ReadColumnDefs(r1))
  {
    ColumnDefComplete(def, Comma, more, ts, rest);
    var r := ReadColumnDef(ts);
    FixedComplete(Comma, more, r.rest, rest);
    r1 := r.rest[1..];
  }

  /** The list was read, and what follows it derives `tail`. */
  predicate DefsRead(defs: seq<ColumnDef>, tail: Syms, ts: seq<Token>, rest: seq<Token>) {
    var r := ReadColumnDefs(ts);
    r.Found? && r.value == defs && Derives(tail, r.rest, rest)
  }

  lemma {:induction false} DefsReadCons(defs: seq<ColumnDef>, tail: Syms, ts: seq<Token>, r1: seq<Token>,
                                        rest: seq<Token>)
    requires defs != [] && DefsRead(defs[1..], tail, r1, rest)
    requires ReadColumnDefs(ts) == Prepend([defs[0]], ReadColumnDefs(r1))
    ensures DefsRead(defs, tail, ts, rest)
  {
    assert defs == [defs[0]] + defs[1..];
  }

  lemma {:induction false} ColumnDefsComplete(defs: seq<ColumnDef>, tail: Syms, ts: seq<Token>, rest: seq<Token>)
    requires defs != [] && (forall i | 0 <= i < |defs| :: defs[i].name != "") && Derives(DefsSyms(defs, tail), ts, rest)
    ensures DefsRead(defs, tail, ts, rest)
    decreases |defs|
  {
    if |defs| == 1 {
      LastColumnDef(defs[0], tail, ts, rest);
      assert defs == [defs[0]];
    } else {
      var r1 := FirstColumnDef(defs[0], DefsSyms(defs[1..], tail), ts, rest);
      ColumnDefsComplete(defs[1..], tail, r1, rest);
      DefsReadCons(defs, tail, ts, r1, rest);
    }
  }

  lemma {:induction false} ValuesComplete(values: seq<Literal>, tail: Syms, ts: seq<Token>, rest: seq<Token>)
    requires values != [] && Derives(ValuesSyms(values, tail), ts, rest)
    ensures var r := ReadValues(ts); r.Found? && r.value == values && Derives(tail, r.rest, rest)
    decreases |values|
  {
    var next := if |values| == 1 then RParen else Comma;
    var more := if |values| == 1 then tail else ValuesSyms(values[1..], tail);
    ValueComplete(values[0], K(next, more), ts, rest);
    var r1 := ReadValue(ts).1;
    FixedComplete(next, more, r1, rest);
    if |values| == 1 {
      assert values == [values[0]];
    } else {
      ValuesComplete(values[1..], tail, r1[1..], rest);
      assert values == [values[0]] + values[1..];
    }
  }

  lemma {:induction false} CreateComplete(stmt: Statement, semi: bool, ts: seq<Token>, rest: seq<Token>)
    requires (stmt.CreateDatabase? || stmt.CreateTable?) && WellFormed(stmt)
    requires Derives(Body(stmt, End(semi)), ts, rest) && Ended(stmt, semi, rest)
    ensures ReadCreate(ts) == Found(stmt, rest)
  {
    if stmt.CreateDatabase? {
      FixedComplete(KwDatabase, Then(Name(stmt.name), End(semi)), ts, rest);
      NameComplete(stmt.name, End(semi), ts[1..], rest);
      EndComplete(stmt, semi, ts[1..][1..], rest);
    } else {
      var defs := DefsSyms(stmt.columns, End(semi));
      FixedComplete(KwTable, Then(Name(stmt.table), K(LParen, defs)), ts, rest);
      CreateTableComplete(stmt, semi, ts[1..], rest);
    }
  }

  lemma {:induction false} CreateTableComplete(stmt: Statement, semi: bool, ts: seq<Token>, rest: seq<Token>)
    requires stmt.CreateTable? && WellFormed(stmt) && Ended(stmt, semi, rest)
    requires Derives(Then(Name(stmt.table), K(LParen, DefsSyms(stmt.columns, End(semi)))), ts, rest)
    ensures ReadCreateTable(ts) == Found(stmt, rest)
  {
    var r1 := TableRead(stmt.table, stmt.columns, End(semi), ts, rest);
    CountsPrimaries(stmt.columns);
    EndComplete(stmt, semi, ReadColumnDefs(r1).rest, rest);
  }

  /** The name of a table and its list of columns are read, whatever it holds. */
  lemma {:induction false} TableRead(table: string, defs: seq<ColumnDef>, tail: Syms, ts: seq<Token>,
                                     rest: seq<Token>) returns (r1: seq<Token>)
    requires defs != [] && forall i | 0 <= i < |defs| :: defs[i].name != ""
    requires Derives(Then(Name(table), K(LParen, DefsSyms(defs, tail))), ts, rest)
    ensures TakeTableOpen(ts) == Found(table, r1) && DefsRead(defs, tail, r1, rest)
  {
    NameComplete(table, K(LParen, DefsSyms(defs, tail)), ts, rest);
    FixedComplete(LParen, DefsSyms(defs, tail), ts[1..], rest);
    r1 := ts[1..][1..];
    ColumnDefsComplete(defs, tail, r1, rest);
  }

  /** CREATE TABLE with two primary columns is no statement. */
  lemma {:induction false} TwoPrimariesRefused(table: string, defs: seq<ColumnDef>, tail: Syms, ts: seq<Token>,
                                               rest: seq<Token>)
    requires defs != [] && (forall i | 0 <= i < |defs| :: defs[i].name != "") && !OnePrimaryAtMost(defs)
    requires Derives(K(KwCreate, K(KwTable, Then(Name(table), K(LParen, DefsSyms(defs, tail))))), ts, rest)
    ensures ReadStatement(ts) == Nothing
  {
    var open := Then(Name(table), K(LParen, DefsSyms(defs, tail)));
    FixedComplete(KwCreate, K(KwTable, open), ts, rest);
    FixedComplete(KwTable, open, ts[1..], rest);
    var r1 := TableRead(table, defs, tail, ts[1..][1..], rest);
    CountsPrimaries(defs);
    assert ReadCreateTable(ts[1..][1..]) == Nothing;
    Dispatch(ts, Nothing);
  }

  lemma {:induction false} DropComplete(stmt: Statement, semi: bool, ts: seq<Token>, rest: seq<Token>)
    requires stmt.DropDatabase? || stmt.DropTable?
    requires Derives(Body(stmt, End(semi)), ts, rest) && Ended(stmt, semi, rest)
    ensures ReadDrop(ts) == Found(stmt, rest)
  {
    var name := if stmt.DropDatabase? then stmt.name else stmt.table;
    FixedComplete(if stmt.DropDatabase? then KwDatabase else KwTable, Then(Name(name), End(semi)), ts, rest);
    NameComplete(name, End(semi), ts[1..], rest);
    EndComplete(stmt, semi, ts[1..][1..], rest);
  }

  lemma {:induction false} UseComplete(stmt: Statement, semi: bool, ts: seq<Token>, rest: seq<Token>)
    requires stmt.Use? && Derives(Body(stmt, End(semi)), ts, rest) && Ended(stmt, semi, rest)
    ensures ReadUse(ts) == Found(stmt, rest)
  {
    NameComplete(stmt.name, End(semi), ts, rest);
    EndComplete(stmt, semi, ts[1..], rest);
  }

  lemma {:induction false} FromComplete(table: string, cond: Condition, semi: bool, ts: seq<Token>, rest: seq<Token>)
    requires KnownColumn(cond) && (cond.Always? && !semi ==> Kind(rest) != KwWhere)
    requires Derives(K(KwFrom, Then(Name(table), ConditionSyms(cond, End(semi)))), ts, rest)
    ensures |ts| > 1 && TakeFrom(ts) == Found(table, ts[1..][1..])
    ensures var r := ReadCondition(ts[1..][1..]); r.Found? && r.value == cond && Derives(End(semi), r.rest, rest)
  {
    FixedComplete(KwFrom, Then(Name(table), ConditionSyms(cond, End(semi))), ts, rest);
    NameComplete(table, ConditionSyms(cond, End(semi)), ts[1..], rest);
    ConditionComplete(cond, semi, ts[1..][1..], rest);
  }

  lemma {:induction false} SelectComplete(stmt: Statement, semi: bool, ts: seq<Token>, rest: seq<Token>)
    requires stmt.Select? && WellFormed(stmt) && Derives(Body(stmt, End(semi)), ts, rest) && Ended(stmt, semi, rest)
    ensures ReadSelect(ts) == Found(stmt, rest)
  {
    assert TakeColumnOrStar(ts) == Found(stmt.column, ts[1..]);
    FromComplete(stmt.table, stmt.cond, semi, ts[1..], rest);
    EndComplete(stmt, semi, ReadCondition(ts[1..][1..][1..]).rest, rest);
  }

  lemma {:induction false} DeleteComplete(stmt: Statement, semi: bool, ts: seq<Token>, rest: seq<Token>)
    requires stmt.Delete? && WellFormed(stmt) && Derives(Body(stmt, End(semi)), ts, rest) && Ended(stmt, semi, rest)
    ensures ReadDelete(ts) == Found(stmt, rest)
  {
    FromComplete(stmt.table, stmt.cond, semi, ts, rest);
    EndComplete(stmt, semi, ReadCondition(ts[1..][1..]).rest, rest);
  }

  lemma {:induction false} InsertComplete(stmt: Statement, semi: bool, ts: seq<Token>, rest: seq<Token>)
    requires stmt.Insert? && WellFormed(stmt) && Derives(Body(stmt, End(semi)), ts, rest) && Ended(stmt, semi, rest)
    requires |ts| > 4 && ts[4].kind != RParen
    ensures ReadInsert(ts) == Found(stmt, rest)
  {
    var values := ValuesSyms(stmt.values, End(semi));
    FixedComplete(KwInto, Then(Name(stmt.table), K(KwValues, K(LParen, values))), ts, rest);
    NameComplete(stmt.table, K(KwValues, K(LParen, values)), ts[1..], rest);
    var r1 := ts[1..][1..];
    FixedComplete(KwValues, K(LParen, values), r1, rest);
    FixedComplete(LParen, values, r1[1..], rest);
    var r2 := r1[1..][1..];
    assert r2[0] == ts[4];
    ValuesComplete(stmt.values, End(semi), r2, rest);
    EndComplete(stmt, semi, ReadValues(r2).rest, rest);
  }

  lemma {:induction false} UpdateComplete(stmt: Statement, semi: bool, ts: seq<Token>, rest: seq<Token>)
    requires stmt.Update? && WellFormed(stmt) && Derives(Body(stmt, End(semi)), ts, rest) && Ended(stmt, semi, rest)
    ensures ReadUpdate(ts) == Found(stmt, rest)
  {
    var cond := ConditionSyms(stmt.cond, End(semi));
    var value := Then(Value(stmt.value), cond);
    NameComplete(stmt.table, K(KwSet, Then(Name(stmt.column), K(OpEq, value))), ts, rest);
    var r1 := ts[1..];
    FixedComplete(KwSet, Then(Name(stmt.column), K(OpEq, value)), r1, rest);
    NameComplete(stmt.column, K(OpEq, value), r1[1..], rest);
    FixedComplete(OpEq, value, r1[1..][1..], rest);
    var r2 := r1[1..][1..][1..];
    ValueComplete(stmt.value, cond, r2, rest);
    var r3 := ReadValue(r2).1;
    ConditionComplete(stmt.cond, semi, r3, rest);
    EndComplete(stmt, semi, ReadCondition(r3).rest, rest);
  }

  lemma {:induction false} Dispatch(ts: seq<Token>, r: Parsed<Statement>)
    requires ts != []
    requires match ts[0].kind
             case KwCreate => ReadCreate(ts[1..]) == r
             case KwDrop => ReadDrop(ts[1..]) == r
             case KwUse => ReadUse(ts[1..]) == r
             case KwSelect => ReadSelect(ts[1..]) == r
             case KwDelete => ReadDelete(ts[1..]) == r
             case KwInsert => ReadInsert(ts[1..]) == r
             case KwUpdate => ReadUpdate(ts[1..]) == r
             case _ => r == Nothing
    ensures ReadStatement(ts) == r
  {
  }

  lemma {:induction false} CreateParsed(stmt: Statement, semi: bool, ts: seq<Token>, rest: seq<Token>)
    requires Sentence(stmt, semi, ts, rest) && Ended(stmt, semi, rest) && Head(stmt) == KwCreate
    ensures ReadStatement(ts) == Found(stmt, rest)
  {
    FixedComplete(KwCreate, Body(stmt, End(semi)), ts, rest);
    CreateComplete(stmt, semi, ts[1..], rest);
    Dispatch(ts, Found(stmt, rest));
  }

  lemma {:induction false} DropParsed(stmt: Statement, semi: bool, ts: seq<Token>, rest: seq<Token>)
    requires Sentence(stmt, semi, ts, rest) && Ended(stmt, semi, rest) && Head(stmt) == KwDrop
    ensures ReadStatement(ts) == Found(stmt, rest)
  {
    FixedComplete(KwDrop, Body(stmt, End(semi)), ts, rest);
    DropComplete(stmt, semi, ts[1..], rest);
    Dispatch(ts, Found(stmt, rest));
  }

  lemma {:induction false} UseParsed(stmt: Statement, semi: bool, ts: seq<Token>, rest: seq<Token>)
    requires Sentence(stmt, semi, ts, rest) && Ended(stmt, semi, rest) && Head(stmt) == KwUse
    ensures ReadStatement(ts) == Found(stmt, rest)
  {
    FixedComplete(KwUse, Body(stmt, End(semi)), ts, rest);
    UseComplete(stmt, semi, ts[1..], rest);
    Dispatch(ts, Found(stmt, rest));
  }

  lemma {:induction false} SelectParsed(stmt: Statement, semi: bool, ts: seq<Token>, rest: seq<Token>)
    requires Sentence(stmt, semi, ts, rest) && Ended(stmt, semi, rest) && Head(stmt) == KwSelect
    ensures ReadStatement(ts) == Found(stmt, rest)
  {
    FixedComplete(KwSelect, Body(stmt, End(semi)), ts, rest);
    SelectComplete(stmt, semi, ts[1..], rest);
    Dispatch(ts, Found(stmt, rest));
  }

  lemma {:induction false} DeleteParsed(stmt: Statement, semi: bool, ts: seq<Token>, rest: seq<Token>)
    requires Sentence(stmt, semi, ts, rest) && Ended(stmt, semi, rest) && Head(stmt) == KwDelete
    ensures ReadStatement(ts) == Found(stmt, rest)
  {
    FixedComplete(KwDelete, Body(stmt, End(semi)), ts, rest);
    DeleteComplete(stmt, semi, ts[1..], rest);
    Dispatch(ts, Found(stmt, rest));
  }

  lemma {:induction false} InsertParsed(stmt: Statement, semi: bool, ts: seq<Token>, rest: seq<Token>)
    requires Sentence(stmt, semi, ts, rest) && Ended(stmt, semi, rest) && Head(stmt) == KwInsert
    ensures ReadStatement(ts) == Found(stmt, rest)
  {
    FixedComplete(KwInsert, Body(stmt, End(semi)), ts, rest);
    InsertComplete(stmt, semi, ts[1..], rest);
    Dispatch(ts, Found(stmt, rest));
  }

  lemma {:induction false} UpdateParsed(stmt: Statement, semi: bool, ts: seq<Token>, rest: seq<Token>)
    requires Sentence(stmt, semi, ts, rest) && Ended(stmt, semi, rest) && Head(stmt) == KwUpdate
    ensures ReadStatement(ts) == Found(stmt, rest)
  {
    FixedComplete(KwUpdate, Body(stmt, End(semi)), ts, rest);
    UpdateComplete(stmt, semi, ts[1..], rest);
    Dispatch(ts, Found(stmt, rest));
  }

  /** Completeness: every sentence that is over is parsed to its statement, and
      the tokens after it are not looked at. */
  lemma {:induction false} ParserIsComplete(stmt: Statement, semi: bool, ts: seq<Token>, rest: seq<Token>)
    requires Sentence(stmt, semi, ts, rest) && Ended(stmt, semi, rest)
    ensures ReadStatement(ts) == Found(stmt, rest)
  {
    match Head(stmt)
    case KwCreate => CreateParsed(stmt, semi, ts, rest);
    case KwDrop => DropParsed(stmt, semi, ts, rest);
    case KwUse => UseParsed(stmt, semi, ts, rest);
    case KwSelect => SelectParsed(stmt, semi, ts, rest);
    case KwDelete => DeleteParsed(stmt, semi, ts, rest);
    case KwInsert => InsertParsed(stmt, semi, ts, rest);
    case KwUpdate => UpdateParsed(stmt, semi, ts, rest);
  }

  /** The parser accepts exactly the ended sentences of the statement it returns,
      whatever follows them. */
  lemma {:induction false} ParserIsExact(stmt: Statement, ts: seq<Token>, rest: seq<Token>)
    ensures ReadStatement(ts) == Found(stmt, rest) <==>
            exists semi :: Sentence(stmt, semi, ts, rest) && Ended(stmt, semi, rest)
  {
    if ReadStatement(ts) == Found(stmt, rest) {
      var semi := ParserIsSound(ts);
    }
    if semi :| Sentence(stmt, semi, ts, rest) && Ended(stmt, semi, rest) {
      ParserIsComplete(stmt, semi, ts, rest);
    }
  }

  /** No token list starts with two ended sentences: neither of two statements
      nor of one statement with two ends. */
  lemma {:induction false} GrammarIsUnambiguous(s1: Statement, semi1: bool, rest1: seq<Token>,
                                                s2: Statement, semi2: bool, rest2: seq<Token>, ts: seq<Token>)
    requires Sentence(s1, semi1, ts, rest1) && Ended(s1, semi1, rest1)
    requires Sentence(s2, semi2, ts, rest2) && Ended(s2, semi2, rest2)
    ensures s1 == s2 && rest1 == rest2
  {
    ParserIsComplete(s1, semi1, ts, rest1);
    ParserIsComplete(s2, semi2, ts, rest2);
  }
}

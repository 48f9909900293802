/** Writing statements as SQL text, and reading them back. */
module SqlText {
  import opened Sequences
  import opened Numbers
  import opened Tokens
  import opened Ast
  import opened Lexing
  import opened LexerLaws
  import opened Parsing
  import opened ParserLaws

  // ---------------------------------------------------------------- keywords

  /** Words that differ in length or in one of their first two letters. */
  lemma {:induction false} Differ(a: string, b: string)
    requires |a| >= 2 && |b| >= 2
    requires |a| != |b| || Upper(a[0]) != Upper(b[0]) || Upper(a[1]) != Upper(b[1])
    ensures !SameWord(a, b)
  {
    assert UpperText(a)[0] == Upper(a[0]) && UpperText(b)[0] == Upper(b[0]);
    assert UpperText(a)[1] == Upper(a[1]) && UpperText(b)[1] == Upper(b[1]);
  }

  lemma {:induction false} KeywordsDiffer(i: nat, j: nat)
    requires i < j < |KEYWORDS|
    ensures KEYWORDS[i].1 != KEYWORDS[j].1
    ensures !SameWord(KEYWORDS[i].0, KEYWORDS[j].0)
  {
    Differ(KEYWORDS[i].0, KEYWORDS[j].0);
  }

  lemma {:induction false} SameWordTrans(a: string, b: string, c: string)
    requires SameWord(a, b) && SameWord(a, c)
    ensures SameWord(b, c)
  {
  }

  lemma {:induction false} KeywordFromFinds(s: string, j: nat, i: nat)
    requires j <= i < |KEYWORDS| && SameWord(s, KEYWORDS[i].0)
    ensures KeywordFrom(s, j) == KEYWORDS[i].1
    decreases i - j
  {
    if j < i {
      KeywordsDiffer(j, i);
      if SameWord(s, KEYWORDS[j].0) {
        SameWordTrans(s, KEYWORDS[j].0, KEYWORDS[i].0);
      }
      KeywordFromFinds(s, j + 1, i);
    }
  }

  lemma {:induction false} KeywordFromMeans(s: string, j: nat) returns (i: nat)
    requires j <= |KEYWORDS| && !KeywordFrom(s, j).Identifier?
    ensures i < |KEYWORDS| && KeywordFrom(s, j) == KEYWORDS[i].1 && SameWord(s, KEYWORDS[i].0)
    decreases |KEYWORDS| - j
  {
    if SameWord(s, KEYWORDS[j].0) {
      i := j;
    } else {
      i := KeywordFromMeans(s, j + 1);
    }
  }

  lemma {:induction false} NotIdentifier(i: nat)
    requires i < |KEYWORDS|
    ensures !KEYWORDS[i].1.Identifier?
  {
  }

  /** The lexer takes a word for keyword i exactly when it is that keyword in
      some casing. */
  lemma {:induction false} KeywordInAnyCasing(s: string, i: nat)
    requires i < |KEYWORDS|
    ensures KeywordOf(s) == KEYWORDS[i].1 <==> SameWord(s, KEYWORDS[i].0)
  {
    if SameWord(s, KEYWORDS[i].0) {
      KeywordFromFinds(s, 0, i);
    }
    if KeywordOf(s) == KEYWORDS[i].1 {
      NotIdentifier(i);
      var j := KeywordFromMeans(s, 0);
      if i < j {
        KeywordsDiffer(i, j);
      } else if j < i {
        KeywordsDiffer(j, i);
      }
    }
  }

  /** The seventeen words of the language. */
  function Word(kind: TokenKind): string
    requires IsWordKind(kind) && !kind.Identifier?
  {
    match kind
    case KwCreate => "create"
    case KwDatabase => "database"
    case KwDrop => "drop"
    case KwUse => "use"
    case KwTable => "table"
    case KwSelect => "select"
    case KwFrom => "from"
    case KwWhere => "where"
    case KwDelete => "delete"
    case KwInsert => "insert"
    case KwInto => "into"
    case KwValues => "values"
    case KwUpdate => "update"
    case KwSet => "set"
    case KwPrimary => "primary"
    case KwInt => "int"
    case KwString => "string"
  }

  /** Which word is which keyword, in any casing. */
  lemma {:induction false} KeywordsAre(s: string, kind: TokenKind)
    requires IsWordKind(kind) && !kind.Identifier?
    ensures KeywordOf(s) == kind <==> SameWord(s, Word(kind))
  {
    var i := KeywordNumber(kind);
    KeywordInAnyCasing(s, i);
  }

  lemma {:induction false} KeywordNumber(kind: TokenKind) returns (i: nat)
    requires IsWordKind(kind) && !kind.Identifier?
    ensures i < |KEYWORDS| && KEYWORDS[i] == (Word(kind), kind)
  {
    match kind
    case KwCreate => i := 0;
    case KwDatabase => i := 1;
    case KwDrop => i := 2;
    case KwUse => i := 3;
    case KwTable => i := 4;
    case KwSelect => i := 5;
    case KwFrom => i := 6;
    case KwWhere => i := 7;
    case KwDelete => i := 8;
    case KwInsert => i := 9;
    case KwInto => i := 10;
    case KwValues => i := 11;
    case KwUpdate => i := 12;
    case KwSet => i := 13;
    case KwPrimary => i := 14;
    case KwInt => i := 15;
    case KwString => i := 16;
  }

  /** Every other word is an identifier. */
  lemma {:induction false} OtherWordsAreNames(s: string)
    ensures KeywordOf(s) == Identifier <==>
            forall kind | IsWordKind(kind) && !kind.Identifier? :: !SameWord(s, Word(kind))
  {
    KeywordIsWord(s, 0);
    forall kind | IsWordKind(kind) && !kind.Identifier?
      ensures KeywordOf(s) == kind <==> SameWord(s, Word(kind))
    {
      KeywordsAre(s, kind);
    }
  }

  /** What casing is: letter by letter the same, or the capital of a small letter. */
  lemma {:induction false} SameWordMeans(s: string, word: string)
    requires forall i | 0 <= i < |word| :: 'a' <= word[i] <= 'z'
    ensures SameWord(s, word) <==>
            && |s| == |word|
            && forall i | 0 <= i < |s| :: s[i] == word[i] || s[i] as int == word[i] as int - 'a' as int + 'A' as int
  {
    if |s| == |word| {
      forall i | 0 <= i < |s|
        ensures UpperText(s)[i] == UpperText(word)[i] <==>
                s[i] == word[i] || s[i] as int == word[i] as int - 'a' as int + 'A' as int
      {
      }
    }
  }

  // ------------------------------------------------------------------ texts

  predicate IsWord(text: string) {
    text != "" && IsLetter(text[0]) && All(IsWordChar, text)
  }

  /** An identifier: a word that is no keyword in any casing. */
  predicate IsName(text: string) {
    IsWord(text) && KeywordOf(text) == Identifier
  }

  /** `text` is one of the ways to write the symbol: keywords in any casing. */
  predicate Spells(sym: Sym, text: string) {
    match sym
    case Kw(kind) =>
      if IsWordKind(kind) then !kind.Identifier? && IsWord(text) && KeywordOf(text) == kind
      else !kind.NoToken? && |text| == 1 && PunctuationKind(text[0]) == kind
    case Name(name) => text == name && IsName(name)
    case ColumnOrStar(name) => text == name && (name == "*" || IsName(name))
    case TypeName(name) => text == name && IsWord(name) && (KeywordOf(name).KwInt? || KeywordOf(name).KwString?)
    case Operator(op) => text == op && (op == "=" || op == "<" || op == ">")
    case Value(lit) =>
      if lit.isInt then text == lit.text && text != "" && All(IsDigit, text)
      else text == "\"" + lit.text + "\"" && All(NotQuote, lit.text)
  }

  predicate SpellsAll(syms: Syms, texts: seq<string>) {
    match syms
    case Done => texts == []
    case Then(sym, more) => texts != [] && Spells(sym, texts[0]) && SpellsAll(more, texts[1..])
  }

  /** Two texts that would be read as one if nothing stood between them. */
  predicate RunsOn(text: string, c: char)
    requires text != ""
  {
    (IsLetter(text[0]) && IsWordChar(c)) || (IsDigit(text[0]) && IsDigit(c))
  }

  /** The gaps are white space, and there is some where texts would run on. */
  predicate Spaced(gaps: seq<string>, texts: seq<string>)
    requires |gaps| == |texts| + 1
  {
    && All(IsBlank, gaps[0])
    && (texts != [] ==> Spaced(gaps[1..], texts[1..]))
    && (|texts| > 1 && gaps[1] == "" ==>
          texts[0] != "" && texts[1] != "" && !RunsOn(texts[0], texts[1][0]))
  }

  function Join(gaps: seq<string>, texts: seq<string>): string
    requires |gaps| == |texts| + 1
  {
    if texts == [] then gaps[0] else gaps[0] + texts[0] + Join(gaps[1..], texts[1..])
  }

  /** The token a symbol's text becomes. */
  function TokenOf(sym: Sym, text: string, at: Place): Token
    requires Spells(sym, text)
  {
    match sym
    case Kw(kind) => Placed(kind, text, 0, at)
    case Name(_) => Placed(Identifier, text, 0, at)
    case ColumnOrStar(_) => Placed(if text == "*" then OpStar else Identifier, text, 0, at)
    case TypeName(_) => Placed(KeywordOf(text), text, 0, at)
    case Operator(_) => Placed(PunctuationKind(text[0]), text, 0, at)
    case Value(lit) =>
      if lit.isInt then Placed(IntLiteral, text, DigitsValue(text), at) else Placed(StringLiteral, lit.text, 0, at)
  }

  lemma {:induction false} SpelledOut(sym: Sym, text: string)
    requires Spells(sym, text)
    ensures text != "" && !IsBlank(text[0])
  {
  }

  /** The text of a symbol is the text of a token that fits it. */
  lemma {:induction false} SymbolToken(sym: Sym, text: string, at: Place, rest: string) returns (tok: Token)
    requires Spells(sym, text) && text != "" && (rest == "" || !RunsOn(text, rest[0]))
    ensures Fits(sym, tok) && Spelled(tok) && Text(tok) == text && At(tok, at) && !tok.kind.EndOfFile?
    ensures rest == "" || CanFollow(tok, rest[0])
    ensures tok.kind == RParen ==> text == ")"
  {
    tok := TokenOf(sym, text, at);
  }

  // -------------------------------------------------------------- round trip

  /** What follows the first text does not run on with it. */
  lemma {:induction false} NextEnds(gaps: seq<string>, texts: seq<string>)
    requires |gaps| == |texts| + 1 && texts != [] && texts[0] != "" && Spaced(gaps, texts)
    ensures var rest := Join(gaps[1..], texts[1..]);
            rest == "" || !RunsOn(texts[0], rest[0])
  {
    var rest := Join(gaps[1..], texts[1..]);
    if gaps[1] != "" {
      assert rest[0] == gaps[1][0];
    } else if |texts| > 1 {
      assert rest[0] == texts[1][0];
    }
  }

  /** One gap and one text lex to the token of the symbol. */
  lemma {:induction false} JoinHead(sym: Sym, gaps: seq<string>, texts: seq<string>, at: Place) returns (tok: Token)
    requires |gaps| == |texts| + 1 && texts != [] && Spells(sym, texts[0]) && Spaced(gaps, texts)
    ensures Fits(sym, tok) && (tok.kind == RParen ==> texts[0] == ")")
    ensures var tail := LexFrom(Join(gaps[1..], texts[1..]), Right(AfterGap(at, gaps[0]), |texts[0]|));
            LexFrom(Join(gaps, texts), at) == Lexed([tok] + tail.tokens, tail.ok)
  {
    var rest := Join(gaps[1..], texts[1..]);
    SpelledOut(sym, texts[0]);
    NextEnds(gaps, texts);
    tok := SymbolToken(sym, texts[0], AfterGap(at, gaps[0]), rest);
    ScanSpelled(tok, rest);
    LexToken(gaps[0], tok, rest, at);
  }

  /** The joined texts of a sentence lex to tokens that derive it, none missing,
      with END_OF_FILE after them. */
  lemma {:induction false} JoinLexes(syms: Syms, gaps: seq<string>, texts: seq<string>, at: Place)
    returns (toks: seq<Token>)
    requires |gaps| == |texts| + 1 && SpellsAll(syms, texts) && Spaced(gaps, texts)
    ensures LexFrom(Join(gaps, texts), at) == Lexed(toks, true)
    ensures |toks| == |texts| + 1 && toks[|texts|].kind == EndOfFile
    ensures Derives(syms, toks, toks[|texts|..])
    ensures forall i | 0 <= i < |texts| :: toks[i].kind == RParen ==> texts[i] == ")"
    decreases |texts|
  {
    if texts == [] {
      LexGap(gaps[0], at);
      toks := LexFrom(gaps[0], at).tokens;
    } else {
      var tok := JoinHead(syms.sym, gaps, texts, at);
      var more := JoinLexes(syms.more, gaps[1..], texts[1..], Right(AfterGap(at, gaps[0]), |texts[0]|));
      toks := [tok] + more;
      OneMoreToken(tok, more, |texts[1..]|);
    }
  }

  lemma {:induction false} OneMoreToken(tok: Token, more: seq<Token>, n: nat)
    requires n <= |more|
    ensures var toks := [tok] + more;
            toks[1..] == more && toks[n + 1..] == more[n..] && toks[0] == tok
  {
  }

  /** The whole sentence of a statement. */
  function StatementSyms(stmt: Statement, semicolon: bool): Syms
    requires WellFormed(stmt)
  {
    K(Head(stmt), Body(stmt, End(semicolon)))
  }

  /** Round trip: a well-formed statement written with any keyword casing, any
      white space and with or without a semicolon is parsed back to itself. */
  lemma {:induction false} SqlRoundTrip(stmt: Statement, semicolon: bool, gaps: seq<string>, texts: seq<string>)
    requires WellFormed(stmt) && SpellsAll(StatementSyms(stmt, semicolon), texts)
    requires |gaps| == |texts| + 1 && Spaced(gaps, texts)
    ensures ParseSql(Join(gaps, texts)) == stmt
  {
    var toks := JoinLexes(StatementSyms(stmt, semicolon), gaps, texts, Place(1, 1));
    if stmt.Insert? {
      InsertHasValue(stmt, semicolon, texts);
    }
    TokensParse(stmt, semicolon, toks, |texts|);
  }

  /** A text that would create a table with two primary columns is no statement, and
      no statement of a text does. */
  lemma {:induction false} TwoPrimaries(table: string, defs: seq<ColumnDef>, tail: Syms, gaps: seq<string>,
                                        texts: seq<string>)
    requires defs != [] && (forall i | 0 <= i < |defs| :: defs[i].name != "") && !OnePrimaryAtMost(defs)
    requires SpellsAll(K(KwCreate, K(KwTable, Then(Name(table), K(LParen, DefsSyms(defs, tail))))), texts)
    requires |gaps| == |texts| + 1 && Spaced(gaps, texts)
    ensures ParseSql(Join(gaps, texts)) == Invalid
  {
    var syms := K(KwCreate, K(KwTable, Then(Name(table), K(LParen, DefsSyms(defs, tail)))));
    var toks := JoinLexes(syms, gaps, texts, Place(1, 1));
    TwoPrimariesRefused(table, defs, tail, toks, toks[|texts|..]);
  }

  lemma {:induction false} ParsedHasOnePrimary(sql: string)
    ensures ParseSql(sql).CreateTable? ==> ParseSql(sql).columns != [] && OnePrimaryAtMost(ParseSql(sql).columns)
  {
    if Lex(sql).ok && ReadStatement(Lex(sql).tokens).Found? {
      var semi := ParserIsSound(Lex(sql).tokens);
    }
  }

  lemma {:induction false} TokensParse(stmt: Statement, semicolon: bool, toks: seq<Token>, n: nat)
    requires WellFormed(stmt) && n < |toks| && toks[n].kind == EndOfFile
    requires Derives(StatementSyms(stmt, semicolon), toks, toks[n..])
    requires stmt.Insert? ==> |toks| > 5 && toks[5].kind != RParen
    ensures OrInvalid(ReadStatement(toks)) == stmt
  {
    ParserIsComplete(stmt, semicolon, toks, toks[n..]);
  }

  lemma {:induction false} InsertHasValue(stmt: Statement, semicolon: bool, texts: seq<string>)
    requires stmt.Insert? && WellFormed(stmt) && SpellsAll(StatementSyms(stmt, semicolon), texts)
    ensures |texts| > 5 && texts[5] != ")"
  {
    var values := ValuesSyms(stmt.values, End(semicolon));
    SpellsFive(Kw(KwInsert), Kw(KwInto), Name(stmt.table), Kw(KwValues), Kw(LParen), values, texts);
    var others := texts[5..];
    SpellsMore(Value(stmt.values[0]), values.more, others);
    NoLiteralIsParen(stmt.values[0], others[0]);
  }

  lemma {:induction false} NoLiteralIsParen(lit: Literal, text: string)
    requires Spells(Value(lit), text)
    ensures text != ")"
  {
    if lit.isInt {
      assert IsDigit(text[0]);
    } else {
      assert text[0] == '"';
    }
  }

  lemma {:induction false} SpellsMore(sym: Sym, more: Syms, texts: seq<string>)
    requires SpellsAll(Then(sym, more), texts)
    ensures texts != [] && Spells(sym, texts[0]) && SpellsAll(more, texts[1..])
  {
  }

  lemma {:induction false} SpellsFive(a: Sym, b: Sym, c: Sym, d: Sym, e: Sym, more: Syms, texts: seq<string>)
    requires SpellsAll(Then(a, Then(b, Then(c, Then(d, Then(e, more))))), texts)
    ensures |texts| >= 5 && SpellsAll(more, texts[5..])
  {
    var t1 := texts[1..];
    SpellsMore(a, Then(b, Then(c, Then(d, Then(e, more)))), texts);
    var t2 := t1[1..];
    SpellsMore(b, Then(c, Then(d, Then(e, more))), t1);
    var t3 := t2[1..];
    SpellsMore(c, Then(d, Then(e, more)), t2);
    var t4 := t3[1..];
    SpellsMore(d, Then(e, more), t3);
    SpellsMore(e, more, t4);
    assert t4[1..] == texts[5..];
  }

  // ------------------------------------------------------------- whole texts

  /** The text is a layout of tokens that start with an ended sentence of `stmt`. */
  ghost predicate IsTextOf(stmt: Statement, sql: string) {
    exists gaps: seq<string>, toks: seq<Token>, rest: seq<Token>, semi ::
      && |gaps| == |toks| && Laid(gaps, toks, Place(1, 1)) && Weave(gaps, toks) == sql
      && Sentence(stmt, semi, toks, rest) && Ended(stmt, semi, rest)
  }

  /** A text is parsed to a statement if and only if it is a text of it; all others,
      those with lexical errors among them, are invalid. */
  lemma {:induction false} TextIsExact(sql: string, stmt: Statement)
    ensures IsTextOf(stmt, sql) <==> ParseSql(sql) == stmt && stmt != Invalid
  {
    if IsTextOf(stmt, sql) {
      var gaps: seq<string>, toks: seq<Token>, rest: seq<Token>, semi :|
        && |gaps| == |toks| && Laid(gaps, toks, Place(1, 1)) && Weave(gaps, toks) == sql
        && Sentence(stmt, semi, toks, rest) && Ended(stmt, semi, rest);
      LayoutIsLexed(gaps, toks, Place(1, 1));
      ParserIsComplete(stmt, semi, toks, rest);
    }
    if ParseSql(sql) == stmt && stmt != Invalid {
      var toks := Lex(sql).tokens;
      var gaps := LexedIsLayout(sql, Place(1, 1));
      var semi := ParserIsSound(toks);
      assert Sentence(stmt, semi, toks, ReadStatement(toks).rest);
    }
  }

  // ------------------------------------------------------------------ names

  /** An identifier token has a text. */
  lemma {:induction false} IdentifierHasText(sql: string, k: nat)
    requires Lex(sql).ok && k < |Lex(sql).tokens| && Lex(sql).tokens[k].kind.Identifier?
    ensures Lex(sql).tokens[k].lexeme != ""
  {
    var gaps := LexedIsLayout(sql, Place(1, 1));
    LaidSpelled(gaps, Lex(sql).tokens, Place(1, 1), k);
  }

  lemma {:induction false} NameToken(name: string, tail: Syms, ts: seq<Token>, k: nat, rest: seq<Token>)
    requires k <= |ts| && Derives(Then(Name(name), tail), ts[k..], rest)
    ensures k < |ts| && ts[k].kind.Identifier? && ts[k].lexeme == name
  {
    NameComplete(name, tail, ts[k..], rest);
  }

  /** No SQL text names a database by the empty string. */
  lemma {:induction false} ParsedNamesNotEmpty(sql: string)
    ensures var stmt := ParseSql(sql); stmt.Use? || stmt.DropDatabase? ==> stmt.name != ""
  {
    var ts, stmt := Lex(sql).tokens, ParseSql(sql);
    if Lex(sql).ok && ReadStatement(ts).Found? && (stmt.Use? || stmt.DropDatabase?) {
      var semi := ParserIsSound(ts);
      var rest := ReadStatement(ts).rest;
      FixedComplete(Head(stmt), Body(stmt, End(semi)), ts, rest);
      if stmt.Use? {
        NameToken(stmt.name, End(semi), ts, 1, rest);
        IdentifierHasText(sql, 1);
      } else {
        FixedComplete(KwDatabase, Then(Name(stmt.name), End(semi)), ts[1..], rest);
        assert ts[1..][1..] == ts[2..];
        NameToken(stmt.name, End(semi), ts, 2, rest);
        IdentifierHasText(sql, 2);
      }
    }
  }
}

/** The lexer: a cursor over the SQL text with line and column counters. */
module Lexing {
  import opened Sequences
  import opened Numbers
  import opened Tokens

  /** One token at the start of a text, or the number of characters the lexer
      moves over before it gives up. */
  datatype Scan = Good(kind: TokenKind, lexeme: string, length: nat, value: int) | Bad(length: nat)

  /** A string literal runs to the next quote; there are no escapes. */
  function StringText(s: string): (r: Scan)
    requires s != ""
    ensures r.length <= |s|
    ensures r.Good? ==> r.length > 0
  {
    var n := Span(NotQuote, s[1..]);
    if n == |s| - 1 then Bad(|s|) else Good(StringLiteral, s[1..1 + n], n + 2, 0)
  }

  function NumberText(s: string): (r: Scan)
    requires s != "" && IsDigit(s[0])
    ensures r.Good? && 0 < r.length == |r.lexeme| == Span(IsDigit, s) && All(IsDigit, r.lexeme)
  {
    var n := Span(IsDigit, s);
    SpanIsMaximal(IsDigit, s);
    Good(IntLiteral, s[..n], n, DigitsValue(s[..n]))
  }

  function WordText(s: string): (r: Scan)
    requires s != "" && IsLetter(s[0])
    ensures r.Good? && 0 < r.length <= |s|
  {
    var n := Span(IsWordChar, s);
    Good(KeywordOf(s[..n]), s[..n], n, 0)
  }

  function ScanText(s: string): (r: Scan)
    requires s != ""
    ensures r.length <= |s|
    ensures r.Good? ==> r.length > 0
  {
    var c := s[0];
    if PunctuationKind(c) != NoToken then Good(PunctuationKind(c), [c], 1, 0)
    else if c == '"' then StringText(s)
    else if IsDigit(c) then NumberText(s)
    else if IsLetter(c) then WordText(s)
    else Bad(0)
  }

  /** White space at the start of a text: how long it is and the place after it. */
  function Skip(s: string, at: Place): (r: (nat, Place))
    ensures r.0 <= |s|
  {
    if s != "" && IsBlank(s[0]) then
      var r := Skip(s[1..], Next(at, s[0]));
      (r.0 + 1, r.1)
    else (0, at)
  }

  lemma {:induction false} SkipStep(s: string, pos: nat, at: Place)
    requires pos <= |s|
    ensures Skip(s[pos..], at) ==
            if pos < |s| && IsBlank(s[pos]) then
              var r := Skip(s[pos + 1..], Next(at, s[pos]));
              (r.0 + 1, r.1)
            else (0, at)
  {
    if pos < |s| {
      assert s[pos..][1..] == s[pos + 1..];
    }
  }

  datatype Lexed = Lexed(tokens: seq<Token>, ok: bool)

  /** The tokens of `s` when it starts at place `at`. */
  function LexFrom(s: string, at: Place): Lexed
    decreases |s|
  {
    var (g, here) := Skip(s, at);
    if g == |s| then Lexed([Placed(EndOfFile, "", 0, here)], true)
    else
      match ScanText(s[g..])
      case Bad(n) => Lexed([Placed(NoToken, "", 0, here), Placed(EndOfFile, "", 0, Right(here, n))], false)
      case Good(kind, lexeme, n, value) =>
        var r := LexFrom(s[g..][n..], Right(here, n));
        Lexed([Placed(kind, lexeme, value, here)] + r.tokens, r.ok)
  }

  /** One token in front of what the rest lexes to. */
  function LexedCons(tok: Token, r: Lexed): Lexed {
    Lexed([tok] + r.tokens, r.ok)
  }

  lemma {:induction false} LexStep(s: string, at: Place, gap: string, text: string)
    requires s == gap + text && text != "" && Skip(s, at).0 == |gap| && ScanText(text).Good?
    ensures var scan, here := ScanText(text), Skip(s, at).1;
            LexFrom(s, at) ==
            LexedCons(Placed(scan.kind, scan.lexeme, scan.value, here),
                      LexFrom(text[scan.length..], Right(here, scan.length)))
  {
    assert s[|gap|..] == text;
  }

  function Lex(sql: string): Lexed {
    LexFrom(sql, Place(1, 1))
  }

  lemma {:induction false} SpanHas(p: char -> bool, src: string, start: nat, pos: nat)
    requires start <= pos < |src|
    ensures var s := src[start..];
            && (pos < start + Span(p, s) ==> s[..Span(p, s)][pos - start] == src[pos] && p(src[pos]))
            && (pos == start + Span(p, s) ==> !p(src[pos]))
  {
    var s := src[start..];
    SpanIsMaximal(p, s);
    assert s[pos - start] == src[pos];
    assert pos < start + Span(p, s) ==> s[..Span(p, s)][pos - start] == src[pos];
  }

  /** A loop over `p` characters that has not passed the span stops at its end. */
  lemma {:induction false} StopsAtSpan(p: char -> bool, src: string, start: nat, pos: nat)
    requires start <= pos <= |src| && pos <= start + Span(p, src[start..])
    requires pos == |src| || !p(src[pos])
    ensures pos == start + Span(p, src[start..])
  {
    if pos < start + Span(p, src[start..]) {
      SpanHas(p, src, start, pos);
    }
  }

  lemma {:induction false} NumberEnd(src: string, start: nat, pos: nat)
    requires start <= pos <= |src| && start < |src| && IsDigit(src[start])
    requires pos <= start + Span(IsDigit, src[start..])
    requires pos == |src| || !IsDigit(src[pos])
    ensures NumberText(src[start..]) == Good(IntLiteral, src[start..pos], pos - start, Accumulated(src, start, pos))
  {
    StopsAtSpan(IsDigit, src, start, pos);
    SpanIsMaximal(IsDigit, src[start..]);
    assert src[start..][..pos - start] == src[start..pos];
    AccumulatedValue(src, start, pos);
  }

  lemma {:induction false} LexEnds(src: string, p: nat, at: Place, here: Place)
    requires p <= |src| && Skip(src[p..], at) == (|src| - p, here)
    ensures LexFrom(src[p..], at) == LexFrom("", here) == Lexed([Placed(EndOfFile, "", 0, here)], true)
  {
  }

  /** The outcome of scanning token `tok` from q to r, as ScanToken reports it. */
  ghost predicate Reported(scan: Scan, tok: Token, q: nat, r: nat, here: Place, failed: bool) {
    && r == q + scan.length
    && (failed <==> scan.Bad?)
    && tok == if scan.Bad? then Placed(NoToken, "", 0, here) else Placed(scan.kind, scan.lexeme, scan.value, here)
  }

  lemma {:induction false} LexOne(src: string, p: nat, q: nat, r: nat, at: Place, here: Place, tok: Token, failed: bool)
    requires p <= q < |src| && Skip(src[p..], at) == (q - p, here)
    requires r <= |src| && Reported(ScanText(src[q..]), tok, q, r, here, failed)
    ensures var there := Right(here, r - q);
            LexFrom(src[p..], at) ==
            if failed then Lexed([tok] + [Placed(EndOfFile, "", 0, there)], false)
            else Lexed([tok] + LexFrom(src[r..], there).tokens, LexFrom(src[r..], there).ok)
  {
    assert src[p..][q - p..] == src[q..];
    if !failed {
      assert src[q..][r - q..] == src[r..];
    }
  }

  lemma {:induction false} LexNothing(at: Place)
    ensures LexFrom("", at) == Lexed([Placed(EndOfFile, "", 0, at)], true)
  {
  }

  lemma {:induction false} Requeue(done: seq<Token>, tok: Token, rest: seq<Token>)
    ensures done + ([tok] + rest) == (done + [tok]) + rest
  {
  }

  class Lexer {
    var src: string
    var pos: nat
    var line: nat
    var col: nat
    var hasError: bool

    ghost predicate Valid()
      reads this
    {
      pos <= |src|
    }

    ghost function Here(): Place
      reads this
    {
      Place(line, col)
    }

    constructor ()
      ensures Valid()
    {
      src, pos, line, col, hasError := "", 0, 1, 1, false;
    }

    /** The tokens of the text and whether they were all good. */
    method Tokenize(sql: string) returns (tokens: seq<Token>)
      modifies this
      ensures Valid() && Lexed(tokens, !hasError) == Lex(sql)
    {
      tokens := [];
      src, pos, line, col, hasError := sql, 0, 1, 1, false;
      ghost var todo := Lex(sql);
      assert src[pos..] == sql;
      while pos < |src| && !hasError
        invariant Valid() && src == sql
        invariant !hasError ==> todo == LexFrom(src[pos..], Here())
        invariant hasError ==> todo == Lexed([Placed(EndOfFile, "", 0, Here())], false)
        invariant Lex(sql) == Lexed(tokens + todo.tokens, todo.ok)
        decreases |src| - pos, !hasError
      {
        var more, tok := ScanNext();
        if !more {
          break;
        }
        todo := if hasError then Lexed([Placed(EndOfFile, "", 0, Here())], false) else LexFrom(src[pos..], Here());
        Requeue(tokens, tok, todo.tokens);
        tokens := tokens + [tok];
        if hasError {
          break;
        }
      }
      LexNothing(Here());
      tokens := tokens + [Token(EndOfFile, "", line, col, 0)];
    }

    /** One round of the loop: white space, then a token unless the text ends. */
    method ScanNext() returns (more: bool, tok: Token)
      requires Valid() && pos < |src| && !hasError
      modifies `pos, `line, `col, `hasError
      ensures Valid() && pos >= old(pos)
      ensures var now := LexFrom(src[old(pos)..], old(Here()));
              if !more then pos == |src| && !hasError && now == LexFrom(src[pos..], Here())
              else if hasError then now == Lexed([tok] + [Placed(EndOfFile, "", 0, Here())], false)
              else
                && pos > old(pos)
                && now == Lexed([tok] + LexFrom(src[pos..], Here()).tokens, LexFrom(src[pos..], Here()).ok)
    {
      SkipWhitespace();
      more := pos < |src|;
      if more {
        ghost var from, here := pos, Here();
        tok := ScanToken();
        LexOne(src, old(pos), from, pos, old(Here()), here, tok, hasError);
      } else {
        LexEnds(src, old(pos), old(Here()), Here());
        tok := Token(NoToken, "", 0, 0, 0);
      }
    }

    method SkipWhitespace()
      requires Valid()
      modifies `pos, `line, `col
      ensures Valid() && old(pos) <= pos
      ensures (pos - old(pos), Here()) == Skip(src[old(pos)..], old(Here()))
    {
      ghost var end := Skip(src[pos..], Here());
      while pos < |src|
        invariant old(pos) <= pos <= |src|
        invariant var r := Skip(src[pos..], Here()); (r.0 + pos - old(pos), r.1) == end
      {
        var c := src[pos];
        SkipStep(src, pos, Here());
        if c == ' ' || c == '\t' || c == '\r' {
          pos, col := pos + 1, col + 1;
        } else if c == '\n' {
          pos, line, col := pos + 1, line + 1, 1;
        } else {
          break;
        }
      }
      SkipStep(src, pos, Here());
    }

    /** What one scan from position `from` and place `at` leaves behind. */
    ghost predicate Scanned(scan: Scan, tok: Token, from: nat, at: Place)
      reads this
    {
      Valid() && Reported(scan, tok, from, pos, at, hasError) && Here() == Right(at, scan.length)
    }

    method ScanToken() returns (tok: Token)
      requires Valid() && pos < |src| && !hasError
      modifies `pos, `col, `hasError
      ensures Scanned(ScanText(src[old(pos)..]), tok, old(pos), old(Here()))
    {
      var c := src[pos];
      ghost var s := src[pos..];
      assert s[0] == c;
      var kind := PunctuationKind(c);
      if kind != NoToken {
        tok := Token(kind, [c], line, col, 0);
        pos, col := pos + 1, col + 1;
      } else if c == '"' {
        tok := ScanString();
      } else if '0' <= c <= '9' {
        tok := ScanNumber();
      } else if 'a' <= c <= 'z' || 'A' <= c <= 'Z' || c == '_' {
        tok := ScanIdentifierOrKeyword();
      } else {
        hasError := true;
        tok := Token(NoToken, "", line, col, 0);
      }
    }

    method ScanIdentifierOrKeyword() returns (tok: Token)
      requires Valid() && pos < |src| && IsLetter(src[pos]) && !hasError
      modifies `pos, `col
      ensures Scanned(WordText(src[old(pos)..]), tok, old(pos), old(Here()))
    {
      var start, startCol := pos, col;
      ghost var s := src[pos..];
      ghost var n := Span(IsWordChar, s);
      while pos < |src| && IsWordChar(src[pos])
        invariant start <= pos <= start + n && col == startCol + (pos - start)
      {
        SpanHas(IsWordChar, src, start, pos);
        pos, col := pos + 1, col + 1;
      }
      StopsAtSpan(IsWordChar, src, start, pos);
      assert src[start..pos] == s[..n];
      var kind := MatchKeyword(src[start..pos]);
      tok := Token(kind, src[start..pos], line, startCol, 0);
    }

    method ScanNumber() returns (tok: Token)
      requires Valid() && pos < |src| && IsDigit(src[pos]) && !hasError
      modifies `pos, `col
      ensures Scanned(NumberText(src[old(pos)..]), tok, old(pos), old(Here()))
    {
      var start, startCol := pos, col;
      ghost var s := src[pos..];
      ghost var n := Span(IsDigit, s);
      var value := 0;
      while pos < |src| && '0' <= src[pos] <= '9'
        invariant start <= pos <= start + n && pos <= |src| && col == startCol + (pos - start)
        invariant value == Accumulated(src, start, pos)
      {
        SpanHas(IsDigit, src, start, pos);
        value := value * 10 + (src[pos] as int - '0' as int);
        pos, col := pos + 1, col + 1;
      }
      NumberEnd(src, start, pos);
      tok := Token(IntLiteral, src[start..pos], line, startCol, value);
    }

    method ScanString() returns (tok: Token)
      requires Valid() && pos < |src| && src[pos] == '"' && !hasError
      modifies `pos, `col, `hasError
      ensures Scanned(StringText(src[old(pos)..]), tok, old(pos), old(Here()))
    {
      var start, startCol := pos, col;
      ghost var s := src[pos..];
      pos, col := pos + 1, col + 1;
      var contentStart := pos;
      ghost var rest := s[1..];
      assert src[pos..] == rest;
      while pos < |src| && src[pos] != '"'
        invariant contentStart <= pos <= contentStart + Span(NotQuote, rest)
        invariant col == startCol + (pos - start) && !hasError
      {
        SpanHas(NotQuote, src, contentStart, pos);
        pos, col := pos + 1, col + 1;
      }
      StopsAtSpan(NotQuote, src, contentStart, pos);
      var contentLen := pos - contentStart;
      if pos == |src| {
        assert StringText(s) == Bad(|s|);
        hasError := true;
        tok := Token(NoToken, "", line, startCol, 0);
      } else {
        pos, col := pos + 1, col + 1;
        assert src[contentStart..contentStart + contentLen] == s[1..1 + contentLen];
        assert StringText(s) == Good(StringLiteral, s[1..1 + contentLen], contentLen + 2, 0);
        tok := Token(StringLiteral, src[contentStart..contentStart + contentLen], line, startCol, 0);
      }
    }

    /** The comparison loop of MatchKeyword. */
    static method EqualIgnoringCase(s: string, keyword: string) returns (equal: bool)
      ensures equal <==> SameWord(s, keyword)
    {
      if |s| != |keyword| {
        return false;
      }
      var i := 0;
      while i < |s|
        invariant 0 <= i <= |s|
        invariant forall k | 0 <= k < i :: UpperText(s)[k] == UpperText(keyword)[k]
      {
        if Upper(s[i]) != Upper(keyword[i]) {
          assert UpperText(s)[i] != UpperText(keyword)[i];
          return false;
        }
        i := i + 1;
      }
      return true;
    }

    /** Tries the keywords in order. */
    static method MatchKeyword(s: string) returns (kind: TokenKind)
      ensures kind == KeywordOf(s)
    {
      var i := 0;
      while i < |KEYWORDS|
        invariant 0 <= i <= |KEYWORDS| && KeywordFrom(s, i) == KeywordOf(s)
      {
        var same := EqualIgnoringCase(s, KEYWORDS[i].0);
        if same {
          return KEYWORDS[i].1;
        }
        i := i + 1;
      }
      return Identifier;
    }
  }
}

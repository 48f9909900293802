/** The lexer characterised: it finds exactly the layout of tokens in the text. */
module LexerLaws {
  import opened Sequences
  import opened Numbers
  import opened Tokens
  import opened Lexing

  /** How a token is written. */
  function Text(tok: Token): string {
    if tok.kind.StringLiteral? then "\"" + tok.lexeme + "\""
    else if tok.kind.EndOfFile? then ""
    else tok.lexeme
  }

  /** The lexeme fits the kind, and the number of an integer literal its digits. */
  predicate Spelled(tok: Token) {
    if tok.kind.IntLiteral? then
      tok.lexeme != "" && All(IsDigit, tok.lexeme) && tok.intValue == DigitsValue(tok.lexeme)
    else
      && tok.intValue == 0
      && if tok.kind.EndOfFile? then tok.lexeme == ""
         else if tok.kind.NoToken? then false
         else if tok.kind.StringLiteral? then All(NotQuote, tok.lexeme)
         else if IsWordKind(tok.kind) then
           tok.lexeme != "" && IsLetter(tok.lexeme[0]) && All(IsWordChar, tok.lexeme)
           && KeywordOf(tok.lexeme) == tok.kind
         else |tok.lexeme| == 1 && PunctuationKind(tok.lexeme[0]) == tok.kind
  }

  /** Maximal munch: a character that would have made the token longer cannot
      come right after it. */
  predicate CanFollow(tok: Token, c: char) {
    && (IsWordKind(tok.kind) ==> !IsWordChar(c))
    && (tok.kind.IntLiteral? ==> !IsDigit(c))
  }

  /** Gaps and tokens in turn. */
  function Weave(gaps: seq<string>, toks: seq<Token>): string
    requires |gaps| == |toks|
  {
    if toks == [] then "" else gaps[0] + Text(toks[0]) + Weave(gaps[1..], toks[1..])
  }

  function AfterGap(at: Place, gap: string): Place
    decreases |gap|
  {
    if gap == "" then at else AfterGap(Next(at, gap[0]), gap[1..])
  }

  predicate At(tok: Token, at: Place) {
    tok.line == at.line && tok.column == at.col
  }

  /** `toks`, each after its gap, laid out from place `at` on: the gaps are white
      space, every token is spelled right, takes as much as it can and knows its
      place, and there is one END_OF_FILE, the last token. */
  predicate Laid(gaps: seq<string>, toks: seq<Token>, at: Place)
    requires |gaps| == |toks|
  {
    && toks != [] && All(IsBlank, gaps[0]) && Spelled(toks[0])
    && var here := AfterGap(at, gaps[0]);
       && At(toks[0], here)
       && if toks[0].kind.EndOfFile? then |toks| == 1
          else
            var rest := Weave(gaps[1..], toks[1..]);
            && (rest == "" || CanFollow(toks[0], rest[0]))
            && Laid(gaps[1..], toks[1..], Right(here, |Text(toks[0])|))
  }

  // -------------------------------------------------------------- one token

  lemma {:induction false} SkipGap(gap: string, rest: string, at: Place)
    requires All(IsBlank, gap) && (rest == "" || !IsBlank(rest[0]))
    ensures Skip(gap + rest, at) == (|gap|, AfterGap(at, gap))
  {
    if gap == "" {
      assert gap + rest == rest;
    } else {
      assert (gap + rest)[1..] == gap[1..] + rest;
      SkipGap(gap[1..], rest, Next(at, gap[0]));
    }
  }

  lemma {:induction false} SkipIsGap(s: string, at: Place)
    ensures var (g, here) := Skip(s, at);
            && All(IsBlank, s[..g]) && here == AfterGap(at, s[..g])
            && (g < |s| ==> !IsBlank(s[g]))
  {
    if s != "" && IsBlank(s[0]) {
      SkipIsGap(s[1..], Next(at, s[0]));
      var g := Skip(s, at).0;
      assert s[..g][1..] == s[1..][..g - 1];
      assert s[..g] == [s[0]] + s[1..][..g - 1];
    }
  }

  lemma {:induction false} WordKindAt(i: nat)
    requires i < |KEYWORDS|
    ensures IsWordKind(KEYWORDS[i].1)
  {
  }

  lemma {:induction false} KeywordIsWord(s: string, i: nat)
    requires i <= |KEYWORDS|
    ensures IsWordKind(KeywordFrom(s, i))
    decreases |KEYWORDS| - i
  {
    if i < |KEYWORDS| {
      WordKindAt(i);
      KeywordIsWord(s, i + 1);
    }
  }

  lemma {:induction false} ScanPunctuation(tok: Token, rest: string)
    requires Spelled(tok) && |tok.lexeme| == 1 && PunctuationKind(tok.lexeme[0]) == tok.kind
    requires !tok.kind.NoToken?
    ensures ScanText(tok.lexeme + rest) == Good(tok.kind, tok.lexeme, 1, tok.intValue)
  {
    assert (tok.lexeme + rest)[0] == tok.lexeme[0] && [tok.lexeme[0]] == tok.lexeme;
  }

  lemma {:induction false} ScanStringLiteral(tok: Token, rest: string)
    requires Spelled(tok) && tok.kind.StringLiteral?
    ensures ScanText(Text(tok) + rest) == Good(tok.kind, tok.lexeme, |Text(tok)|, tok.intValue)
  {
    Quoted(tok.lexeme, rest);
    SpanOfRun(NotQuote, tok.lexeme, "\"" + rest);
  }

  /** What stands behind the opening quote of a quoted text. */
  lemma {:induction false} Quoted(text: string, rest: string)
    ensures var s := "\"" + text + "\"" + rest;
            s[0] == '"' && s[1..] == text + ("\"" + rest) && s[1..1 + |text|] == text
  {
  }

  lemma {:induction false} ScanIntLiteral(tok: Token, rest: string)
    requires Spelled(tok) && tok.kind.IntLiteral? && (rest == "" || CanFollow(tok, rest[0]))
    ensures ScanText(Text(tok) + rest) == Good(tok.kind, tok.lexeme, |Text(tok)|, tok.intValue)
  {
    SpanOfRun(IsDigit, tok.lexeme, rest);
    assert (tok.lexeme + rest)[0] == tok.lexeme[0];
  }

  lemma {:induction false} ScanWord(word: string, rest: string)
    requires word != "" && IsLetter(word[0]) && All(IsWordChar, word)
    requires rest == "" || !IsWordChar(rest[0])
    ensures ScanText(word + rest) == Good(KeywordOf(word), word, |word|, 0)
  {
    var s := word + rest;
    SpanOfRun(IsWordChar, word, rest);
    assert s[0] == word[0] && s[..|word|] == word;
    LetterStartsWord(s[0]);
    assert WordText(s) == Good(KeywordOf(word), word, |word|, 0);
  }

  lemma {:induction false} LetterStartsWord(c: char)
    requires IsLetter(c)
    ensures PunctuationKind(c) == NoToken && c != '"' && !IsDigit(c)
  {
  }

  /** A token well spelled and not running into what follows is scanned back. */
  lemma {:induction false} ScanSpelled(tok: Token, rest: string)
    requires Spelled(tok) && !tok.kind.EndOfFile? && (rest == "" || CanFollow(tok, rest[0]))
    ensures Text(tok) != "" && !IsBlank(Text(tok)[0])
    ensures ScanText(Text(tok) + rest) == Good(tok.kind, tok.lexeme, |Text(tok)|, tok.intValue)
  {
    if tok.kind.StringLiteral? {
      ScanStringLiteral(tok, rest);
    } else if tok.kind.IntLiteral? {
      ScanIntLiteral(tok, rest);
    } else if IsWordKind(tok.kind) {
      ScanWord(tok.lexeme, rest);
    } else {
      ScanPunctuation(tok, rest);
    }
  }

  lemma {:induction false} WordScanned(s: string)
    requires s != "" && IsLetter(s[0])
    ensures var r := WordText(s);
            && r.Good? && r.lexeme == s[..r.length] && IsWordKind(r.kind) && r.value == 0
            && r.lexeme != "" && IsLetter(r.lexeme[0]) && All(IsWordChar, r.lexeme) && KeywordOf(r.lexeme) == r.kind
            && (r.length < |s| ==> !IsWordChar(s[r.length]))
  {
    SpanIsMaximal(IsWordChar, s);
    KeywordIsWord(s[..Span(IsWordChar, s)], 0);
  }

  lemma {:induction false} StringScanned(s: string)
    requires s != "" && s[0] == '"'
    ensures var r := StringText(s);
            r.Good? ==>
              && All(NotQuote, r.lexeme) && "\"" + r.lexeme + "\"" == s[..r.length]
              && r.kind == StringLiteral && r.value == 0
  {
    var rest := s[1..];
    var n := Span(NotQuote, rest);
    SpanIsMaximal(NotQuote, rest);
    if n < |rest| {
      assert rest[n] == '"' && s[1..1 + n] == rest[..n];
      assert s[..n + 2] == "\"" + rest[..n] + "\"";
    }
  }

  /** What a scan finds is well spelled, is the text it covers, and is maximal. */
  lemma {:induction false} ScannedIsSpelled(s: string, at: Place)
    requires s != "" && ScanText(s).Good?
    ensures var r := ScanText(s);
            var tok := Placed(r.kind, r.lexeme, r.value, at);
            && Spelled(tok) && !tok.kind.EndOfFile? && Text(tok) == s[..r.length]
            && (r.length < |s| ==> CanFollow(tok, s[r.length]))
  {
    if PunctuationKind(s[0]) != NoToken {
      assert s[..1] == [s[0]];
    } else if s[0] == '"' {
      StringScanned(s);
    } else if IsDigit(s[0]) {
      SpanIsMaximal(IsDigit, s);
    } else {
      WordScanned(s);
    }
  }

  // ------------------------------------------------------------- whole text

  lemma {:induction false} LexGap(gap: string, at: Place)
    requires All(IsBlank, gap)
    ensures LexFrom(gap, at) == Lexed([Placed(EndOfFile, "", 0, AfterGap(at, gap))], true)
  {
    SkipGap(gap, "", at);
    assert gap + "" == gap;
  }

  /** A gap and a token before `rest`. */
  lemma {:induction false} LexToken(gap: string, tok: Token, rest: string, at: Place)
    requires All(IsBlank, gap) && At(tok, AfterGap(at, gap))
    requires Text(tok) != "" && !IsBlank(Text(tok)[0])
    requires ScanText(Text(tok) + rest) == Good(tok.kind, tok.lexeme, |Text(tok)|, tok.intValue)
    ensures var tail := LexFrom(rest, Right(AfterGap(at, gap), |Text(tok)|));
            LexFrom(gap + Text(tok) + rest, at) == Lexed([tok] + tail.tokens, tail.ok)
  {
    var text, s := Text(tok) + rest, gap + Text(tok) + rest;
    SkipGap(gap, text, at);
    assert s == gap + text && s[|gap|..] == text;
    assert text[|Text(tok)|..] == rest;
    assert tok == Placed(tok.kind, tok.lexeme, tok.intValue, AfterGap(at, gap));
  }

  /** Every layout is found again. */
  lemma {:induction false} LayoutIsLexed(gaps: seq<string>, toks: seq<Token>, at: Place)
    requires |gaps| == |toks| && Laid(gaps, toks, at)
    ensures LexFrom(Weave(gaps, toks), at) == Lexed(toks, true)
    decreases |toks|
  {
    var tok, here := toks[0], AfterGap(at, gaps[0]);
    if tok.kind.EndOfFile? {
      LexGap(gaps[0], at);
      assert Weave(gaps, toks) == gaps[0] && toks == [tok];
      assert tok == Placed(EndOfFile, "", 0, here);
    } else {
      var rest := Weave(gaps[1..], toks[1..]);
      ScanSpelled(tok, rest);
      LexToken(gaps[0], tok, rest, at);
      LayoutIsLexed(gaps[1..], toks[1..], Right(here, |Text(tok)|));
      assert toks == [tok] + toks[1..];
    }
  }

  /** Putting a token with its gap in front of a layout. */
  lemma {:induction false} LaidCons(gap: string, tok: Token, gaps: seq<string>, toks: seq<Token>, at: Place)
    requires |gaps| == |toks| && All(IsBlank, gap) && Spelled(tok) && !tok.kind.EndOfFile?
    requires At(tok, AfterGap(at, gap))
    requires var rest := Weave(gaps, toks); rest == "" || CanFollow(tok, rest[0])
    requires Laid(gaps, toks, Right(AfterGap(at, gap), |Text(tok)|))
    ensures Laid([gap] + gaps, [tok] + toks, at)
    ensures Weave([gap] + gaps, [tok] + toks) == gap + Text(tok) + Weave(gaps, toks)
  {
    assert ([gap] + gaps)[1..] == gaps && ([tok] + toks)[1..] == toks;
  }

  /** The text is the layout of its own tokens with these gaps. */
  ghost predicate IsLayout(gaps: seq<string>, s: string, at: Place) {
    var toks := LexFrom(s, at).tokens;
    |gaps| == |toks| && Laid(gaps, toks, at) && Weave(gaps, toks) == s
  }

  lemma {:induction false} LayoutCons(s: string, at: Place, gap: string, tok: Token, rest: string, gaps: seq<string>)
    requires All(IsBlank, gap) && s == gap + Text(tok) + rest
    requires Spelled(tok) && !tok.kind.EndOfFile? && At(tok, AfterGap(at, gap))
    requires rest == "" || CanFollow(tok, rest[0])
    requires var there := Right(AfterGap(at, gap), |Text(tok)|);
             LexFrom(s, at) == LexedCons(tok, LexFrom(rest, there)) && IsLayout(gaps, rest, there)
    ensures IsLayout([gap] + gaps, s, at)
  {
    LaidCons(gap, tok, gaps, LexFrom(rest, Right(AfterGap(at, gap), |Text(tok)|)).tokens, at);
  }

  /** Whatever is lexed without error is a layout of the text. */
  lemma {:induction false} LexedIsLayout(s: string, at: Place) returns (gaps: seq<string>)
    requires LexFrom(s, at).ok
    ensures IsLayout(gaps, s, at)
    decreases |s|
  {
    var (g, here) := Skip(s, at);
    SkipIsGap(s, at);
    var gap, text := s[..g], s[g..];
    if g == |s| {
      gaps := [s];
      assert s[..g] == s;
      EndLaid(s, at);
    } else {
      ScanIsGood(s, at, gap, text);
      var rest, there, tok := ScanFirst(s, at, gap, text);
      var more := LexedIsLayout(rest, there);
      LayoutCons(s, at, gap, tok, rest, more);
      gaps := [gap] + more;
    }
  }

  lemma {:induction false} ScanIsGood(s: string, at: Place, gap: string, text: string)
    requires LexFrom(s, at).ok && s == gap + text && text != "" && Skip(s, at).0 == |gap|
    ensures ScanText(text).Good?
  {
    assert s[|gap|..] == text;
  }

  /** The first token of a text, behind its gap, when a token stands there. */
  lemma {:induction false} ScanFirst(s: string, at: Place, gap: string, text: string)
    returns (rest: string, there: Place, tok: Token)
    requires s == gap + text && text != "" && All(IsBlank, gap) && ScanText(text).Good?
    requires Skip(s, at) == (|gap|, AfterGap(at, gap))
    ensures |rest| < |s| && s == gap + Text(tok) + rest && there == Right(AfterGap(at, gap), |Text(tok)|)
    ensures LexFrom(s, at) == LexedCons(tok, LexFrom(rest, there))
    ensures Spelled(tok) && !tok.kind.EndOfFile? && At(tok, AfterGap(at, gap))
    ensures rest == "" || CanFollow(tok, rest[0])
  {
    var scan, here := ScanText(text), AfterGap(at, gap);
    assert s[|gap|..] == text;
    ScannedIsSpelled(text, here);
    tok := Placed(scan.kind, scan.lexeme, scan.value, here);
    rest, there := text[scan.length..], Right(here, scan.length);
    LexStep(s, at, gap, text);
    Reassemble(s, gap, text, Text(tok), scan.length);
  }

  lemma {:induction false} Reassemble(s: string, gap: string, text: string, token: string, n: nat)
    requires s == gap + text && n <= |text| && token == text[..n]
    ensures s == gap + token + text[n..]
  {
  }

  lemma {:induction false} EndLaid(gap: string, at: Place)
    requires All(IsBlank, gap)
    ensures var eof := Placed(EndOfFile, "", 0, AfterGap(at, gap));
            Laid([gap], [eof], at) && Weave([gap], [eof]) == gap && LexFrom(gap, at) == Lexed([eof], true)
  {
    LexGap(gap, at);
    var eof := Placed(EndOfFile, "", 0, AfterGap(at, gap));
    assert Weave([gap][1..], [eof][1..]) == "";
  }

  /** The lexer accepts a text with these tokens if and only if the text is a
      layout of them: nothing is lost, every token is maximal and placed right. */
  lemma {:induction false} LexerIsExact(sql: string, toks: seq<Token>)
    ensures Lex(sql) == Lexed(toks, true) <==>
            exists gaps: seq<string> :: |gaps| == |toks| && Laid(gaps, toks, Place(1, 1)) && Weave(gaps, toks) == sql
  {
    if Lex(sql) == Lexed(toks, true) {
      var gaps := LexedIsLayout(sql, Place(1, 1));
    }
    if gaps: seq<string> :| |gaps| == |toks| && Laid(gaps, toks, Place(1, 1)) && Weave(gaps, toks) == sql {
      LayoutIsLexed(gaps, toks, Place(1, 1));
    }
  }

  // ------------------------------------------------------------------ errors

  /** A text that starts with no token: with a character of no token, or with a
      quote that is never closed. `n` characters are taken before giving up. */
  predicate NoTokenAt(text: string, n: nat) {
    && text != "" && !IsBlank(text[0]) && !IsLetter(text[0]) && !IsDigit(text[0]) && PunctuationKind(text[0]).NoToken?
    && if text[0] == '"' then All(NotQuote, text[1..]) && n == |text| else n == 0
  }

  /** Good tokens laid out from `at`, and after them, from place `here` on, a rest that
      starts with no token. */
  predicate LaidUpTo(gaps: seq<string>, toks: seq<Token>, at: Place, rest: string, here: Place)
    requires |gaps| == |toks| + 1
  {
    && All(IsBlank, gaps[0])
    && if toks == [] then here == AfterGap(at, gaps[0])
       else
         && Spelled(toks[0]) && !toks[0].kind.EndOfFile? && At(toks[0], AfterGap(at, gaps[0]))
         && (var more := Joined(gaps[1..], toks[1..], rest); more == "" || CanFollow(toks[0], more[0]))
         && LaidUpTo(gaps[1..], toks[1..], Right(AfterGap(at, gaps[0]), |Text(toks[0])|), rest, here)
  }

  /** Gaps and tokens in turn, and the rest behind the last gap. */
  function Joined(gaps: seq<string>, toks: seq<Token>, rest: string): string
    requires |gaps| == |toks| + 1
  {
    if toks == [] then gaps[0] + rest else gaps[0] + Text(toks[0]) + Joined(gaps[1..], toks[1..], rest)
  }

  /** The tokens of a text with an error: those before it, INVALID where it is, and
      END_OF_FILE where the lexer gave up. */
  function Broken(toks: seq<Token>, here: Place, n: nat): Lexed {
    Lexed(toks + [Placed(NoToken, "", 0, here), Placed(EndOfFile, "", 0, Right(here, n))], false)
  }

  /** The text is good tokens and a rest that starts with none. */
  predicate BreaksOff(s: string, at: Place, gaps: seq<string>, toks: seq<Token>, rest: string, n: nat, here: Place) {
    && |gaps| == |toks| + 1 && s == Joined(gaps, toks, rest)
    && NoTokenAt(rest, n) && LaidUpTo(gaps, toks, at, rest, here)
  }

  lemma {:induction false} BadScan(text: string)
    requires text != "" && !IsBlank(text[0]) && ScanText(text).Bad?
    ensures NoTokenAt(text, ScanText(text).length)
  {
    if text[0] == '"' {
      SpanIsMaximal(NotQuote, text[1..]);
      assert text[1..][..|text| - 1] == text[1..];
    }
  }

  lemma {:induction false} BrokenCons(tok: Token, toks: seq<Token>, here: Place, n: nat)
    ensures LexedCons(tok, Broken(toks, here, n)) == Broken([tok] + toks, here, n)
  {
  }

  lemma {:induction false} LexBad(s: string, at: Place, gap: string, text: string)
    requires s == gap + text && text != "" && Skip(s, at) == (|gap|, AfterGap(at, gap)) && ScanText(text).Bad?
    ensures LexFrom(s, at) == Broken([], AfterGap(at, gap), ScanText(text).length)
  {
    assert s[|gap|..] == text;
    var here, n := AfterGap(at, gap), ScanText(text).length;
    assert Broken([], here, n).tokens == [Placed(NoToken, "", 0, here), Placed(EndOfFile, "", 0, Right(here, n))];
  }

  /** A text with an error is good up to it. */
  lemma {:induction false} ErrorBreaksOff(s: string, at: Place)
    returns (gaps: seq<string>, toks: seq<Token>, rest: string, n: nat, here: Place)
    requires !LexFrom(s, at).ok
    ensures BreaksOff(s, at, gaps, toks, rest, n, here) && LexFrom(s, at) == Broken(toks, here, n)
    decreases |s|
  {
    var g := Skip(s, at).0;
    SkipIsGap(s, at);
    var gap, text := s[..g], s[g..];
    if ScanText(text).Bad? {
      gaps, toks, rest, n, here := [gap], [], text, ScanText(text).length, AfterGap(at, gap);
      BadScan(text);
      LexBad(s, at, gap, text);
    } else {
      var next, there, tok := ScanFirst(s, at, gap, text);
      gaps, toks, rest, n, here := ErrorBreaksOff(next, there);
      BrokenCons(tok, toks, here, n);
      BreaksOffCons(s, at, gap, tok, gaps, toks, rest, n, here);
      gaps, toks := [gap] + gaps, [tok] + toks;
    }
  }

  lemma {:induction false} BreaksOffCons(s: string, at: Place, gap: string, tok: Token, gaps: seq<string>,
                                         toks: seq<Token>, rest: string, n: nat, here: Place)
    requires All(IsBlank, gap) && Spelled(tok) && !tok.kind.EndOfFile? && At(tok, AfterGap(at, gap))
    requires |gaps| == |toks| + 1 && s == gap + Text(tok) + Joined(gaps, toks, rest)
    requires Joined(gaps, toks, rest) == "" || CanFollow(tok, Joined(gaps, toks, rest)[0])
    requires NoTokenAt(rest, n) && LaidUpTo(gaps, toks, Right(AfterGap(at, gap), |Text(tok)|), rest, here)
    ensures BreaksOff(s, at, [gap] + gaps, [tok] + toks, rest, n, here)
  {
    assert ([gap] + gaps)[1..] == gaps && ([tok] + toks)[1..] == toks;
  }

  lemma {:induction false} NoTokenScans(text: string, n: nat)
    requires NoTokenAt(text, n)
    ensures ScanText(text) == Bad(n)
  {
    if text[0] == '"' {
      SpanOfRun(NotQuote, text[1..], "");
      assert text[1..] + "" == text[1..];
    }
  }

  lemma {:induction false} BreakBehindGap(s: string, at: Place, gap: string, rest: string, n: nat)
    requires All(IsBlank, gap) && s == gap + rest && NoTokenAt(rest, n)
    ensures LexFrom(s, at) == Broken([], AfterGap(at, gap), n)
  {
    SkipGap(gap, rest, at);
    NoTokenScans(rest, n);
    LexBad(s, at, gap, rest);
  }

  lemma {:induction false} BreakBehindToken(s: string, at: Place, gap: string, tok: Token, more: string,
                                            toks: seq<Token>, here: Place, n: nat)
    requires All(IsBlank, gap) && Spelled(tok) && !tok.kind.EndOfFile? && At(tok, AfterGap(at, gap))
    requires s == gap + Text(tok) + more && (more == "" || CanFollow(tok, more[0]))
    requires LexFrom(more, Right(AfterGap(at, gap), |Text(tok)|)) == Broken(toks, here, n)
    ensures LexFrom(s, at) == Broken([tok] + toks, here, n)
  {
    ScanSpelled(tok, more);
    LexToken(gap, tok, more, at);
    BrokenCons(tok, toks, here, n);
  }

  lemma {:induction false} BreaksOffTail(s: string, at: Place, gaps: seq<string>, toks: seq<Token>, rest: string,
                                         n: nat, here: Place) returns (more: string, there: Place)
    requires BreaksOff(s, at, gaps, toks, rest, n, here) && toks != []
    ensures BreaksOff(more, there, gaps[1..], toks[1..], rest, n, here)
    ensures there == Right(AfterGap(at, gaps[0]), |Text(toks[0])|) && s == gaps[0] + Text(toks[0]) + more
    ensures All(IsBlank, gaps[0]) && Spelled(toks[0]) && !toks[0].kind.EndOfFile? && At(toks[0], AfterGap(at, gaps[0]))
    ensures more == "" || CanFollow(toks[0], more[0])
  {
    more, there := Joined(gaps[1..], toks[1..], rest), Right(AfterGap(at, gaps[0]), |Text(toks[0])|);
  }

  /** Every text that breaks off is refused there. */
  lemma {:induction false} BreakIsLexed(s: string, at: Place, gaps: seq<string>, toks: seq<Token>, rest: string,
                                        n: nat, here: Place)
    requires BreaksOff(s, at, gaps, toks, rest, n, here)
    ensures LexFrom(s, at) == Broken(toks, here, n)
    decreases |toks|
  {
    if toks == [] {
      BreakBehindGap(s, at, gaps[0], rest, n);
    } else {
      var more, there := BreaksOffTail(s, at, gaps, toks, rest, n, here);
      BreakIsLexed(more, there, gaps[1..], toks[1..], rest, n, here);
      BreakBehindToken(s, at, gaps[0], toks[0], more, toks[1..], here, n);
      assert toks == [toks[0]] + toks[1..];
    }
  }

  /** The lexer refuses a text if and only if the text breaks off behind a layout of
      good tokens, where no token starts; the tokens before that place are kept. */
  lemma {:induction false} LexerErrors(sql: string)
    ensures !Lex(sql).ok <==>
            exists gaps: seq<string>, toks: seq<Token>, rest: string, n: nat, here: Place ::
              BreaksOff(sql, Place(1, 1), gaps, toks, rest, n, here)
    ensures forall gaps: seq<string>, toks: seq<Token>, rest: string, n: nat, here: Place ::
              BreaksOff(sql, Place(1, 1), gaps, toks, rest, n, here) ==> Lex(sql) == Broken(toks, here, n)
  {
    if !Lex(sql).ok {
      var gaps, toks, rest, n, here := ErrorBreaksOff(sql, Place(1, 1));
    }
    forall gaps: seq<string>, toks: seq<Token>, rest: string, n: nat, here: Place
      | BreaksOff(sql, Place(1, 1), gaps, toks, rest, n, here)
      ensures Lex(sql) == Broken(toks, here, n)
    {
      BreakIsLexed(sql, Place(1, 1), gaps, toks, rest, n, here);
    }
  }

  // --------------------------------------------------------------- positions

  function Newlines(s: string): nat {
    if s == "" then 0 else Newlines(s[..|s| - 1]) + if s[|s| - 1] == '\n' then 1 else 0
  }

  /** How many characters follow the last newline. */
  function LastLine(s: string): nat {
    if s == "" || s[|s| - 1] == '\n' then 0 else LastLine(s[..|s| - 1]) + 1
  }

  /** The place right after the text `seen`: one line more than it has newlines,
      one column more than characters after the last of them. */
  function PlaceOf(seen: string): Place {
    Place(1 + Newlines(seen), 1 + LastLine(seen))
  }

  /** Stands for `n` characters of token text, whose newlines do not count. */
  function Veil(n: nat): (r: string)
    ensures |r| == n
  {
    if n == 0 then "" else Veil(n - 1) + "."
  }

  /** The text before token k, with the token texts veiled. */
  function Before(gaps: seq<string>, toks: seq<Token>, k: nat): string
    requires k < |gaps| == |toks|
  {
    if k == 0 then gaps[0] else gaps[0] + Veil(|Text(toks[0])|) + Before(gaps[1..], toks[1..], k - 1)
  }

  lemma {:induction false} PlaceAfterChar(seen: string, c: char)
    ensures PlaceOf(seen + [c]) == Next(PlaceOf(seen), c)
  {
    assert (seen + [c])[..|seen + [c]| - 1] == seen;
  }

  lemma {:induction false} PlaceAfterGap(seen: string, gap: string)
    ensures PlaceOf(seen + gap) == AfterGap(PlaceOf(seen), gap)
    decreases |gap|
  {
    if gap == "" {
      assert seen + gap == seen;
    } else {
      PlaceAfterChar(seen, gap[0]);
      PlaceAfterGap(seen + [gap[0]], gap[1..]);
      assert seen + gap == seen + [gap[0]] + gap[1..];
    }
  }

  lemma {:induction false} PlaceAfterVeil(seen: string, n: nat)
    ensures PlaceOf(seen + Veil(n)) == Right(PlaceOf(seen), n)
  {
    if n == 0 {
      assert seen + Veil(0) == seen;
    } else {
      PlaceAfterVeil(seen, n - 1);
      PlaceAfterChar(seen + Veil(n - 1), '.');
      assert seen + Veil(n) == seen + Veil(n - 1) + ['.'];
    }
  }

  /** A layout goes on where the veiled text of its first token ends. */
  lemma {:induction false} LaidTail(gaps: seq<string>, toks: seq<Token>, seen: string)
    requires |gaps| == |toks| > 1 && Laid(gaps, toks, PlaceOf(seen))
    ensures Laid(gaps[1..], toks[1..], PlaceOf(seen + gaps[0] + Veil(|Text(toks[0])|)))
  {
    PlaceAfterGap(seen, gaps[0]);
    PlaceAfterVeil(seen + gaps[0], |Text(toks[0])|);
  }

  lemma {:induction false} LaidHead(gaps: seq<string>, toks: seq<Token>, seen: string)
    requires |gaps| == |toks| && Laid(gaps, toks, PlaceOf(seen))
    ensures At(toks[0], PlaceOf(seen + Before(gaps, toks, 0)))
  {
    PlaceAfterGap(seen, gaps[0]);
  }

  lemma {:induction false} LaidPositions(gaps: seq<string>, toks: seq<Token>, seen: string, k: nat)
    requires |gaps| == |toks| && Laid(gaps, toks, PlaceOf(seen)) && k < |toks|
    ensures At(toks[k], PlaceOf(seen + Before(gaps, toks, k)))
    decreases k
  {
    if k == 0 {
      LaidHead(gaps, toks, seen);
      return;
    }
    LaidTail(gaps, toks, seen);
    var seen' := seen + gaps[0] + Veil(|Text(toks[0])|);
    LaidPositions(gaps[1..], toks[1..], seen', k - 1);
    BeforeNext(gaps, toks, seen, k);
  }

  lemma {:induction false} BeforeNext(gaps: seq<string>, toks: seq<Token>, seen: string, k: nat)
    requires 0 < k < |gaps| == |toks|
    ensures seen + Before(gaps, toks, k) ==
            seen + gaps[0] + Veil(|Text(toks[0])|) + Before(gaps[1..], toks[1..], k - 1)
  {
    var a, b, c := gaps[0], Veil(|Text(toks[0])|), Before(gaps[1..], toks[1..], k - 1);
    assert seen + (a + b + c) == seen + a + b + c;
  }

  /** Line of a token = 1 + newlines before it outside string literals; column =
      1 + distance from the last of them. */
  lemma {:induction false} TokenPositions(sql: string, k: nat)
    requires Lex(sql).ok && k < |Lex(sql).tokens|
    ensures exists gaps: seq<string> ::
              && |gaps| == |Lex(sql).tokens| && Weave(gaps, Lex(sql).tokens) == sql
              && Laid(gaps, Lex(sql).tokens, Place(1, 1))
              && At(Lex(sql).tokens[k], PlaceOf(Before(gaps, Lex(sql).tokens, k)))
  {
    var gaps := LexedIsLayout(sql, Place(1, 1));
    assert PlaceOf("") == Place(1, 1);
    LaidPositions(gaps, Lex(sql).tokens, "", k);
    assert "" + Before(gaps, Lex(sql).tokens, k) == Before(gaps, Lex(sql).tokens, k);
  }

  /** The number the lexer computes for an integer literal is what atoi later
      reads from its lexeme. */
  lemma {:induction false} LiteralValuesAgree(sql: string, k: nat)
    requires Lex(sql).ok && k < |Lex(sql).tokens| && Lex(sql).tokens[k].kind.IntLiteral?
    ensures var tok := Lex(sql).tokens[k]; tok.intValue == Atoi(tok.lexeme)
  {
    var gaps := LexedIsLayout(sql, Place(1, 1));
    LaidSpelled(gaps, Lex(sql).tokens, Place(1, 1), k);
    AtoiOfDigits(Lex(sql).tokens[k].lexeme);
  }

  lemma {:induction false} LaidSpelled(gaps: seq<string>, toks: seq<Token>, at: Place, k: nat)
    requires |gaps| == |toks| && Laid(gaps, toks, at) && k < |toks|
    ensures Spelled(toks[k])
    ensures toks[k].kind.EndOfFile? <==> k == |toks| - 1
    decreases k
  {
    if k > 0 {
      LaidSpelled(gaps[1..], toks[1..], Right(AfterGap(at, gaps[0]), |Text(toks[0])|), k - 1);
    }
  }
}

/** Tokens, keywords and the character classes of the SQL text. */
module Tokens {
  import opened Numbers

  datatype TokenKind =
    | KwCreate | KwDatabase | KwDrop | KwUse | KwTable | KwSelect | KwFrom | KwWhere
    | KwDelete | KwInsert | KwInto | KwValues | KwUpdate | KwSet | KwPrimary | KwInt | KwString
    | Identifier | IntLiteral | StringLiteral
    | OpEq | OpLt | OpGt | OpStar
    | LParen | RParen | Comma | Semicolon
    | EndOfFile | NoToken

  datatype Token = Token(kind: TokenKind, lexeme: string, line: nat, column: nat, intValue: int)

  predicate IsBlank(c: char) {
    c == ' ' || c == '\t' || c == '\r' || c == '\n'
  }

  predicate IsLetter(c: char) {
    'a' <= c <= 'z' || 'A' <= c <= 'Z' || c == '_'
  }

  predicate IsWordChar(c: char) {
    IsLetter(c) || IsDigit(c)
  }

  predicate NotQuote(c: char) {
    c != '"'
  }

  function Upper(c: char): char {
    if 'a' <= c <= 'z' then (c as int - 'a' as int + 'A' as int) as char else c
  }

  function UpperText(s: string): (r: string)
    ensures |r| == |s|
  {
    seq(|s|, i requires 0 <= i < |s| => Upper(s[i]))
  }

  /** Equality up to the casing of letters. */
  predicate SameWord(s: string, word: string) {
    UpperText(s) == UpperText(word)
  }

  /** The keywords in the order in which the lexer tries them. */
  const KEYWORDS: seq<(string, TokenKind)> := [
    ("create", KwCreate), ("database", KwDatabase), ("drop", KwDrop), ("use", KwUse),
    ("table", KwTable), ("select", KwSelect), ("from", KwFrom), ("where", KwWhere),
    ("delete", KwDelete), ("insert", KwInsert), ("into", KwInto), ("values", KwValues),
    ("update", KwUpdate), ("set", KwSet), ("primary", KwPrimary), ("int", KwInt),
    ("string", KwString)]

  function KeywordFrom(s: string, i: nat): TokenKind
    requires i <= |KEYWORDS|
    decreases |KEYWORDS| - i
  {
    if i == |KEYWORDS| then Identifier
    else if SameWord(s, KEYWORDS[i].0) then KEYWORDS[i].1
    else KeywordFrom(s, i + 1)
  }

  /** The keyword of that name in any casing, or Identifier. */
  function KeywordOf(s: string): TokenKind {
    KeywordFrom(s, 0)
  }

  /** The kind of a one-character token, or NoToken. */
  function PunctuationKind(c: char): TokenKind {
    if c == '(' then LParen
    else if c == ')' then RParen
    else if c == ',' then Comma
    else if c == ';' then Semicolon
    else if c == '=' then OpEq
    else if c == '<' then OpLt
    else if c == '>' then OpGt
    else if c == '*' then OpStar
    else NoToken
  }

  predicate IsWordKind(k: TokenKind) {
    k.KwCreate? || k.KwDatabase? || k.KwDrop? || k.KwUse? || k.KwTable? || k.KwSelect? || k.KwFrom?
    || k.KwWhere? || k.KwDelete? || k.KwInsert? || k.KwInto? || k.KwValues? || k.KwUpdate? || k.KwSet?
    || k.KwPrimary? || k.KwInt? || k.KwString? || k.Identifier?
  }

  // ------------------------------------------------------------- positions

  /** A line and a column, both counted from 1. */
  datatype Place = Place(line: nat, col: nat)

  /** The place after a white space character. */
  function Next(at: Place, c: char): Place {
    if c == '\n' then Place(at.line + 1, 1) else Place(at.line, at.col + 1)
  }

  /** The place `n` characters of token text further on: newlines inside string
      literals do not count. */
  function Right(at: Place, n: nat): Place {
    Place(at.line, at.col + n)
  }

  function Placed(kind: TokenKind, lexeme: string, value: int, at: Place): Token {
    Token(kind, lexeme, at.line, at.col, value)
  }
}

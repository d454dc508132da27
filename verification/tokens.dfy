/** The token model shared by the scanner and both parsers: a token kind,
    the raw lexeme, an optional scanned literal and a source location. */
module Tokens {

  datatype TokenType =
    // single-character tokens
    | LEFT_PAREN | RIGHT_PAREN | LEFT_BRACE | RIGHT_BRACE
    | COMMA | DOT | MINUS | PLUS | SEMICOLON | SLASH | STAR
    | QUESTION_MARK | COLON
    // one- or two-character tokens
    | BANG | BANG_EQUAL | EQUAL | EQUAL_EQUAL
    | GREATER | GREATER_EQUAL | LESS | LESS_EQUAL
    // literals
    | IDENTIFIER | STRING | TAG | NUMBER
    // keywords
    | AND | CLASS | ELSE | FALSE | FUN | FOR | IF | NIL | OR
    | PRINT | RETURN | SUPER | THIS | TRUE | VAR | WHILE | BREAK
    | EOF

  /** The scanned value a token may carry: a number for NUMBER, the text
      between the delimiters for STRING and TAG, nothing otherwise. */
  datatype TokenLiteral = NoLiteral | NumLit(n: real) | StrLit(s: string)

  /** Line and column span; columns count from 1. */
  datatype Loc = Loc(line: nat, start: nat, end: nat)

  datatype Token = Token(kind: TokenType, lexeme: string, literal: TokenLiteral, loc: Loc)

  /** An error report: where, and what. */
  datatype Diagnostic = Diagnostic(loc: Loc, message: string)

}

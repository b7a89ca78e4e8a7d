/** The closed set of token kinds (src/TokenType.java) and the immutable
    token record the scanner emits. */
module Tokens {

  /** Every tag of the source's enumeration. The last five are never emitted
      by the scanner; they are kept so that the set stays closed and complete. */
  datatype TokenType =
    | Keyword
    | Identifier
    | IntegerLiteral
    | FloatLiteral
    | StringLiteral
    | CharLiteral
    | BooleanLiteral
    | ArithmeticOp
    | RelationalOp
    | LogicalOp
    | AssignmentOp
    | IncrementOp
    | DecrementOp
    | Punctuator
    | SingleLineComment
    | MultiLineComment
    | Whitespace
    | Error
    | Eof

  /** A token: its kind, the exact text matched, and the line and column the
      scanner records for it. */
  datatype Token = Token(kind: TokenType, lexeme: string, line: int, column: int)

  /** Number of tokens of kind `k` in `ts` (the per-kind statistics). */
  function CountKind(ts: seq<Token>, k: TokenType): (n: nat)
    ensures n <= |ts|
  {
    if ts == [] then 0
    else CountKind(ts[..|ts| - 1], k) + (if ts[|ts| - 1].kind == k then 1 else 0)
  }

  /** Appending one token raises the count of its own kind by one and leaves
      every other count alone. */
  lemma CountKindAppend(ts: seq<Token>, t: Token, k: TokenType)
    ensures CountKind(ts + [t], k) == CountKind(ts, k) + (if t.kind == k then 1 else 0)
  {
    assert (ts + [t])[..|ts|] == ts;
  }
}

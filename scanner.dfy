/** The scanner itself (class ManualScanner in src/ManualScanner.java): a
    cursor over an immutable input, advanced by `Consume`, a list of emitted
    tokens, and the two collaborators it feeds. Every matcher is proved to do
    exactly what its pure counterpart in module Lexer describes, and `Scan`
    to compute `Lexer.Run`. */
module Scanner {
  import opened Tokens
  import opened Errors
  import opened Symbols
  import opened Lexer

  /** The statistic kept for kind `k`; a kind never seen counts 0. */
  function CountIn(counts: map<TokenType, nat>, k: TokenType): nat
  {
    if k in counts then counts[k] else 0
  }

  /** The per-kind statistics agree with a token list. */
  predicate CountsAgree(counts: map<TokenType, nat>, ts: seq<Token>)
  {
    forall k :: CountIn(counts, k) == CountKind(ts, k)
  }

  lemma CountsAfterAppend(counts: map<TokenType, nat>, ts: seq<Token>, t: Token)
    requires CountsAgree(counts, ts)
    ensures CountsAgree(counts[t.kind := CountIn(counts, t.kind) + 1], ts + [t])
  {
    forall k ensures CountIn(counts[t.kind := CountIn(counts, t.kind) + 1], k) == CountKind(ts + [t], k) {
      CountKindAppend(ts, t, k);
    }
  }

  class ManualScanner {
    const input: string
    var pos: nat
    var line: int
    var column: int
    var tokenStartColumn: int
    var tokens: seq<Token>
    const errorHandler: ErrorHandler
    const symbolTable: SymbolTable

    // Statistics
    var tokenCounts: map<TokenType, nat>
    var commentCount: nat

    function TokenCount(k: TokenType): nat
      reads this
    {
      CountIn(tokenCounts, k)
    }

    /** The cursor stays within the input and the statistics agree with the
        token list. */
    ghost predicate Valid()
      reads this
    {
      pos <= |input| && CountsAgree(tokenCounts, tokens)
    }

    /** `Valid`, and both collaborators are valid too. */
    ghost predicate AllValid()
      reads this, errorHandler, symbolTable, symbolTable.Repr
    {
      Valid() && errorHandler.Valid() && symbolTable.Valid()
    }

    function Cur(): Cursor
      reads this
    {
      Cursor(pos, line, column)
    }

    /** The scanner's state as the value the reference semantics works on. */
    ghost function State(): ScanState
      reads this, errorHandler, symbolTable
    {
      ScanState(Cur(), tokens, errorHandler.errors, symbolTable.entries, commentCount)
    }

    /** `lexeme` is the text consumed since the cursor stood at `c0`, and the
        cursor moved over it one character at a time. */
    ghost predicate Consumed(c0: Cursor, lexeme: string)
      reads this
    {
      c0.pos <= pos <= |input| && Cur() == MoveTo(input, c0, pos) && lexeme == input[c0.pos..pos]
    }

    constructor (input: string)
      ensures AllValid() && this.input == input && State() == Initial
      ensures fresh(errorHandler) && fresh(symbolTable) && fresh(symbolTable.Repr)
    {
      this.input := input;
      pos := 0;
      line := 1;
      column := 1;
      tokenStartColumn := 0;
      tokens := [];
      errorHandler := new ErrorHandler();
      symbolTable := new SymbolTable();
      tokenCounts := map[];
      commentCount := 0;
    }

    // -------------------------------------------------------------------
    // The cursor

    /** The character under the cursor, or the sentinel '\0' at the end. */
    function Peek(): (c: char)
      reads this
      ensures pos < |input| ==> c == input[pos]
      ensures pos >= |input| ==> c == '\0'
    {
      PeekAt(input, pos)
    }

    function PeekAhead(offset: nat): (c: char)
      reads this
      ensures pos + offset < |input| ==> c == input[pos + offset]
      ensures pos + offset >= |input| ==> c == '\0'
    {
      PeekAt(input, pos + offset)
    }

    /** The next `length` characters, fewer when the input ends first. */
    function PeekString(length: nat): (w: string)
      reads this
      requires pos <= |input|
      ensures |w| <= length && pos + |w| <= |input| && w == input[pos..pos + |w|]
      ensures |w| < length ==> pos + |w| == |input|
    {
      Window(input, pos, length)
    }

    /** Returns the character under the cursor and moves past it: a newline
        moves to column 1 of the next line, anything else one column right. */
    method Consume() returns (ch: char)
      requires pos < |input|
      modifies this`pos, this`line, this`column
      ensures ch == input[old(pos)]
      ensures Cur() == Advance(input, old(Cur()))
    {
      ch := input[pos];
      pos := pos + 1;
      if ch == '\n' {
        line := line + 1;
        column := 1;
      } else {
        column := column + 1;
      }
    }

    /** Appends a token at the current line and the column where this pass
        of the scan loop started, and counts it. */
    method AddToken(kind: TokenType, lexeme: string)
      requires Valid()
      modifies this`tokens, this`tokenCounts
      ensures Valid()
      ensures tokens == old(tokens) + [Token(kind, lexeme, line, tokenStartColumn)]
    {
      var token := Token(kind, lexeme, line, tokenStartColumn);
      CountsAfterAppend(tokenCounts, tokens, token);
      tokenCounts := tokenCounts[kind := TokenCount(kind) + 1];
      tokens := tokens + [token];
    }

    /** `sb.append(consume())`: the text consumed since `c0` grows by the
        character under the cursor. */
    method AppendConsume(ghost c0: Cursor, sb: string) returns (r: string)
      requires Consumed(c0, sb) && pos < |input|
      modifies this`pos, this`line, this`column
      ensures Consumed(c0, r) && pos == old(pos) + 1
    {
      var ch := Consume();
      r := sb + [ch];
    }

    /** Consumes `n` characters one by one, appending them to `sb`. */
    method AppendCount(ghost c0: Cursor, sb: string, n: nat) returns (r: string)
      requires Consumed(c0, sb) && pos + n <= |input|
      modifies this`pos, this`line, this`column
      ensures Consumed(c0, r) && pos == old(pos) + n
    {
      r := sb;
      var i := 0;
      while i < n
        invariant 0 <= i <= n && pos == old(pos) + i
        invariant Consumed(c0, r)
      {
        r := AppendConsume(c0, r);
        i := i + 1;
      }
    }

    /** Consumes, while the input lasts, every character of class `cls`,
        appending them to `sb`. (Past the end `Peek` yields '\0', which
        belongs to no class this is used with, so the bound check only
        spells out what the source's digit loops leave to the sentinel.) */
    method AppendWhile(ghost c0: Cursor, sb: string, cls: CharClass) returns (r: string)
      requires Consumed(c0, sb)
      modifies this`pos, this`line, this`column
      ensures Consumed(c0, r) && pos == old(pos) + RunLength(input, old(pos), cls)
    {
      r := sb;
      while pos < |input| && InClass(cls, Peek())
        invariant Consumed(c0, r) && old(pos) <= pos
        invariant old(pos) + RunLength(input, old(pos), cls) == pos + RunLength(input, pos, cls)
        decreases |input| - pos
      {
        r := AppendConsume(c0, r);
      }
    }

    /** Consumes, while the input lasts, every character of class `cls`. */
    method SkipWhile(cls: CharClass)
      requires pos <= |input|
      modifies this`pos, this`line, this`column
      ensures Cur() == MoveTo(input, old(Cur()), old(pos) + RunLength(input, old(pos), cls))
    {
      ghost var c0 := Cur();
      while pos < |input| && InClass(cls, Peek())
        invariant c0.pos <= pos <= |input| && Cur() == MoveTo(input, c0, pos)
        invariant c0.pos + RunLength(input, c0.pos, cls) == pos + RunLength(input, pos, cls)
        decreases |input| - pos
      {
        var ch := Consume();
      }
    }

    /** The body of a block comment: consumes up to and including the first
        closing `*#`, or to the end of the input when there is none. */
    method AppendCommentBody(ghost c0: Cursor, sb: string) returns (r: string, closed: bool)
      requires Consumed(c0, sb)
      modifies this`pos, this`line, this`column
      ensures Consumed(c0, r)
      ensures closed == CommentCloseFrom(input, old(pos)).Some?
      ensures pos == if closed then CommentCloseFrom(input, old(pos)).value else |input|
    {
      r := sb;
      while pos < |input|
        invariant Consumed(c0, r) && old(pos) <= pos
        invariant CommentCloseFrom(input, pos) == CommentCloseFrom(input, old(pos))
        decreases |input| - pos
      {
        if Peek() == '*' && PeekAhead(1) == '#' {
          r := AppendConsume(c0, r); // *
          r := AppendConsume(c0, r); // #
          return r, true;
        }
        r := AppendConsume(c0, r);
      }
      return r, false;
    }

    /** The body of a string literal: consumes up to a bare `"`, a newline or
        the end of the input; a backslash takes the next character with it. */
    method AppendStringBody(ghost c0: Cursor, sb: string) returns (r: string)
      requires Consumed(c0, sb)
      modifies this`pos, this`line, this`column
      ensures Consumed(c0, r) && pos == StringBodyEnd(input, old(pos))
    {
      r := sb;
      while pos < |input| && Peek() != '"' && Peek() != '\n'
        invariant Consumed(c0, r) && old(pos) <= pos
        invariant StringBodyEnd(input, pos) == StringBodyEnd(input, old(pos))
        decreases |input| - pos
      {
        if Peek() == '\\' {
          r := AppendConsume(c0, r); // backslash
          if pos < |input| {
            var next := Peek();
            if next == '"' || next == '\\' || next == 'n' || next == 't' || next == 'r' {
              r := AppendConsume(c0, r);
            } else {
              // An unrecognised escape is taken just the same
              r := AppendConsume(c0, r);
            }
          }
        } else {
          r := AppendConsume(c0, r);
        }
      }
    }

    // -------------------------------------------------------------------
    // The scan loop

    /** Runs the matchers until the whole input is consumed. */
    method Scan() returns (result: seq<Token>)
      requires AllValid()
      modifies this, errorHandler, symbolTable, symbolTable.Repr
      ensures AllValid()
      ensures State() == Run(input, old(State()))
      ensures result == tokens
      ensures fresh(symbolTable.Repr - old(symbolTable.Repr))
    {
      while pos < |input|
        invariant AllValid()
        invariant Run(input, State()) == Run(input, old(State()))
        invariant fresh(symbolTable.Repr - old(symbolTable.Repr))
        decreases |input| - pos
      {
        ScanStep();
      }
      result := tokens;
    }

    /** One pass of the scan loop: the matchers are tried in their fixed
        priority order and the first that applies wins; when none does, the
        character is reported and skipped. */
    method ScanStep()
      requires AllValid() && pos < |input|
      modifies this, errorHandler, symbolTable, symbolTable.Repr
      ensures AllValid()
      ensures State() == Step(input, old(State()))
      ensures fresh(symbolTable.Repr - old(symbolTable.Repr))
    {
      tokenStartColumn := column;
      ghost var s0 := State();
      assert s0 == old(State());

      // Priority order for pattern matching
      var rule := 0;
      while rule < RuleCount
        invariant rule <= RuleCount
        invariant AllValid() && State() == s0 && tokenStartColumn == s0.cur.column
        invariant DispatchFrom(input, s0.cur.pos, rule) == Dispatch(input, s0.cur.pos)
        invariant fresh(symbolTable.Repr - old(symbolTable.Repr))
      {
        var matched := TryRule(rule);
        if matched {
          return;
        }
        rule := rule + 1;
      }

      // Nothing matched: report the character and force one step forward
      var ch := Peek();
      errorHandler.ReportInvalidCharacter(line, column, ch);
      ch := Consume();
      assert Cur() == MoveTo(input, s0.cur, s0.cur.pos + 1);
    }

    /** Tries matcher number `k` of the scan loop's priority order. */
    method TryRule(k: nat) returns (matched: bool)
      requires AllValid() && pos < |input| && k < RuleCount
      modifies this, errorHandler, symbolTable, symbolTable.Repr
      ensures AllValid()
      ensures matched == RuleAt(k, input, old(pos)).Some?
      ensures State() == Commit(input, old(State()), tokenStartColumn, RuleAt(k, input, old(pos)))
      ensures tokenStartColumn == old(tokenStartColumn)
      ensures fresh(symbolTable.Repr - old(symbolTable.Repr))
    {
      if k == 0 {
        matched := TryMultiLineComment();
      } else if k == 1 {
        matched := TrySingleLineComment();
      } else if k == 2 {
        matched := TryMultiCharOperator();
      } else if k == 3 {
        matched := TryKeyword();
      } else if k == 4 {
        matched := TryBooleanLiteral();
      } else if k == 5 {
        matched := TryIdentifier();
      } else if k == 6 {
        matched := TryFloatLiteral();
      } else if k == 7 {
        matched := TryIntegerLiteral();
      } else if k == 8 {
        matched := TryStringLiteral();
      } else if k == 9 {
        matched := TryCharLiteral();
      } else if k == 10 {
        matched := TrySingleCharOperator();
      } else if k == 11 {
        matched := TryPunctuator();
      } else {
        matched := TryWhitespace();
      }
    }

    // -------------------------------------------------------------------
    // The matchers. Each applies exactly when its Lexer counterpart does and
    // then changes the state as Lexer.Apply says; otherwise nothing changes.

    method TryMultiLineComment() returns (matched: bool)
      requires Valid() && errorHandler.Valid() && pos < |input|
      modifies this`pos, this`line, this`column, this`commentCount, errorHandler
      ensures Valid() && errorHandler.Valid()
      ensures matched == BlockCommentAt(input, old(pos)).Some?
      ensures State() == Commit(input, old(State()), tokenStartColumn, BlockCommentAt(input, old(pos)))
    {
      if Peek() == '#' && PeekAhead(1) == '*' {
        var startLine, startCol := line, column;
        ghost var c0 := Cur();
        var comment := AppendConsume(c0, ""); // #
        comment := AppendConsume(c0, comment); // *
        var closed;
        comment, closed := AppendCommentBody(c0, comment);
        if closed {
          commentCount := commentCount + 1;
          return true;
        }
        // Unclosed comment
        errorHandler.ReportUnclosedComment(startLine, startCol);
        return true;
      }
      return false;
    }

    method TrySingleLineComment() returns (matched: bool)
      requires Valid() && pos < |input|
      modifies this`pos, this`line, this`column, this`commentCount
      ensures Valid()
      ensures matched == LineCommentAt(input, old(pos)).Some?
      ensures State() == Commit(input, old(State()), tokenStartColumn, LineCommentAt(input, old(pos)))
    {
      if Peek() == '#' && PeekAhead(1) == '#' {
        ghost var c0 := Cur();
        var ch := Consume(); // #
        assert Cur() == MoveTo(input, c0, c0.pos + 1);
        ch := Consume(); // #
        assert Cur() == MoveTo(input, c0, c0.pos + 2);
        SkipWhile(RestOfLine);
        MoveToTrans(input, c0, c0.pos + 2, pos);
        commentCount := commentCount + 1;
        return true;
      }
      return false;
    }

    method TryMultiCharOperator() returns (matched: bool)
      requires Valid() && pos < |input|
      modifies this`pos, this`line, this`column, this`tokens, this`tokenCounts
      ensures Valid()
      ensures matched == TwoCharOperatorAt(input, old(pos)).Some?
      ensures State() == Commit(input, old(State()), tokenStartColumn, TwoCharOperatorAt(input, old(pos)))
    {
      var twoChar := PeekString(2);
      if twoChar in TwoCharOperators {
        ghost var c0 := Cur();
        var lexeme := AppendCount(c0, "", 2);
        var kind := OperatorType(lexeme);
        AddToken(kind, lexeme);
        return true;
      }
      return false;
    }

    /** Whether `keyword` is spelled out at the cursor and is not followed by
        a letter, digit or underscore. */
    method MatchesKeyword(keyword: string) returns (b: bool)
      ensures b == KeywordMatchesAt(input, pos, keyword)
    {
      // Check if there are enough characters
      if pos + |keyword| > |input| {
        return false;
      }
      var i := 0;
      while i < |keyword|
        invariant 0 <= i <= |keyword|
        invariant forall k :: 0 <= k < i ==> input[pos + k] == keyword[k]
      {
        if input[pos + i] != keyword[i] {
          assert input[pos..pos + |keyword|][i] != keyword[i];
          return false;
        }
        i := i + 1;
      }
      assert input[pos..pos + |keyword|] == keyword;
      // It must not be part of a longer identifier
      if pos + |keyword| < |input| {
        var nextChar := input[pos + |keyword|];
        if IsAlphaNumeric(nextChar) {
          return false;
        }
      }
      return true;
    }

    method TryKeyword() returns (matched: bool)
      requires Valid() && pos < |input|
      modifies this`pos, this`line, this`column, this`tokens, this`tokenCounts
      ensures Valid()
      ensures matched == KeywordAt(input, old(pos)).Some?
      ensures State() == Commit(input, old(State()), tokenStartColumn, KeywordAt(input, old(pos)))
    {
      ghost var s0 := State();
      var i := 0;
      while i < |Keywords|
        invariant 0 <= i <= |Keywords|
        invariant FirstKeyword(input, pos, Keywords[i..]) == FirstKeyword(input, pos, Keywords)
        invariant pos == old(pos) && line == old(line) && column == old(column)
        invariant tokens == old(tokens) && tokenCounts == old(tokenCounts)
      {
        var keyword := Keywords[i];
        var found := MatchesKeyword(keyword);
        if found {
          FirstKeywordHit(input, pos, Keywords, i);
          ghost var o := Outcome(pos + |keyword|, Emit(Keyword));
          assert KeywordAt(input, pos) == Some(o);
          ghost var c0 := Cur();
          var lexeme := AppendCount(c0, "", |keyword|);
          AddToken(Keyword, lexeme);
          assert State() == Apply(input, s0, tokenStartColumn, o);
          return true;
        }
        assert Keywords[i..][1..] == Keywords[i + 1..];
        i := i + 1;
      }
      assert Keywords[i..] == [];
      return false;
    }

    method TryBooleanLiteral() returns (matched: bool)
      requires Valid() && pos < |input|
      modifies this`pos, this`line, this`column, this`tokens, this`tokenCounts
      ensures Valid()
      ensures matched == BooleanLiteralAt(input, old(pos)).Some?
      ensures State() == Commit(input, old(State()), tokenStartColumn, BooleanLiteralAt(input, old(pos)))
    {
      var four := PeekString(4);
      var five := PeekString(5);
      ghost var c0 := Cur();

      if five == "false" && !IsAlphaNumeric(PeekAhead(5)) {
        var lexeme := AppendCount(c0, "", 5);
        AddToken(BooleanLiteral, lexeme);
        return true;
      }

      if four == "true" && !IsAlphaNumeric(PeekAhead(4)) {
        var lexeme := AppendCount(c0, "", 4);
        AddToken(BooleanLiteral, lexeme);
        return true;
      }

      return false;
    }

    method TryIdentifier() returns (matched: bool)
      requires AllValid() && pos < |input|
      modifies this`pos, this`line, this`column, this`tokens, this`tokenCounts
      modifies errorHandler, symbolTable, symbolTable.Repr
      ensures AllValid()
      ensures matched == IdentifierAt(input, old(pos)).Some?
      ensures State() == Commit(input, old(State()), tokenStartColumn, IdentifierAt(input, old(pos)))
      ensures fresh(symbolTable.Repr - old(symbolTable.Repr))
    {
      if !IsUpperLetter(Peek()) {
        return false;
      }
      var startLine, startCol := line, column;
      ghost var c0, s0 := Cur(), State();
      assert IdentifierAt(input, c0.pos).Some?;

      // First character must be an uppercase letter
      var sb := AppendConsume(c0, "");
      // Followed by lowercase letters, digits, or underscores
      sb := AppendWhile(c0, sb, IdentifierTail);
      var lexeme := sb;
      assert |lexeme| == pos - c0.pos;

      // Check if it is too long
      if |lexeme| > MaxIdentifierLength {
        assert IdentifierAt(input, c0.pos) == Some(Outcome(pos, Diagnose(InvalidIdentifier, lexeme, IdentifierTooLongReason)));
        errorHandler.ReportInvalidIdentifier(startLine, startCol, lexeme, IdentifierTooLongReason);
        return true;
      }

      assert IdentifierAt(input, c0.pos) == Some(Outcome(pos, EmitIdentifier));
      EmitIdentifierToken(c0, lexeme, startLine, startCol);
      return true;
    }

    /** The end of tryIdentifier for an identifier of allowed length: the
        token is added and the identifier recorded in the symbol table at
        the position where it starts. */
    method EmitIdentifierToken(ghost c0: Cursor, lexeme: string, startLine: int, startCol: int)
      requires AllValid() && Consumed(c0, lexeme) && c0.pos < pos
      requires startLine == c0.line && startCol == c0.column
      modifies this`tokens, this`tokenCounts, symbolTable, symbolTable.Repr
      ensures AllValid()
      ensures State() == Apply(input, old(State()).(cur := c0), tokenStartColumn, Outcome(pos, EmitIdentifier))
      ensures fresh(symbolTable.Repr - old(symbolTable.Repr))
    {
      AddToken(Identifier, lexeme);
      symbolTable.AddIdentifier(lexeme, startLine, startCol);
    }

    /** The speculative part of tryFloatLiteral: an optional sign, digits and
        a point; without either of the last two the cursor is put back. */
    method TryFloatLiteral() returns (matched: bool)
      requires Valid() && errorHandler.Valid() && pos < |input|
      modifies this`pos, this`line, this`column, this`tokens, this`tokenCounts, errorHandler
      ensures Valid() && errorHandler.Valid()
      ensures matched == FloatLiteralAt(input, old(pos)).Some?
      ensures State() == Commit(input, old(State()), tokenStartColumn, FloatLiteralAt(input, old(pos)))
    {
      var savePos, saveLine, saveCol := pos, line, column;
      ghost var c0, s0 := Cur(), State();
      var sb := "";

      // Optional sign
      if Peek() == '+' || Peek() == '-' {
        sb := AppendConsume(c0, sb);
      }
      ghost var d0 := pos;
      assert d0 == c0.pos + SignLength(input, c0.pos);

      // Must have at least one digit before the decimal point
      if !IsDigit(Peek()) {
        pos, line, column := savePos, saveLine, saveCol;
        return false;
      }
      sb := AppendWhile(c0, sb, Digits);

      // Must have a decimal point
      if Peek() != '.' {
        pos, line, column := savePos, saveLine, saveCol;
        return false;
      }
      sb := AppendConsume(c0, sb); // '.'

      assert FloatLiteralAt(input, c0.pos) == Some(FloatAfterPoint(input, c0.pos, pos));
      assert State().(cur := c0) == s0;
      FloatFraction(c0, saveLine, saveCol, sb);
      return true;
    }

    /** tryFloatLiteral after the point: 1 to 6 digits, or the text so far is
        reported as malformed. */
    method FloatFraction(ghost c0: Cursor, saveLine: int, saveCol: int, sb: string)
      requires Valid() && errorHandler.Valid() && Consumed(c0, sb) && c0.pos < pos
      requires saveLine == c0.line && saveCol == c0.column
      modifies this`pos, this`line, this`column, this`tokens, this`tokenCounts, errorHandler
      ensures Valid() && errorHandler.Valid()
      ensures State() == Apply(input, old(State()).(cur := c0), tokenStartColumn, FloatAfterPoint(input, c0.pos, old(pos)))
    {
      // Must have 1-6 digits after the decimal point
      var decStartPos := pos;
      var text := AppendWhile(c0, sb, Digits);
      var decimalDigits := pos - decStartPos;

      if decimalDigits == 0 || decimalDigits > MaxFractionDigits {
        var lexeme := text;
        if decimalDigits > MaxFractionDigits {
          // Consume extra digits (the loop above has left none)
          lexeme := AppendWhile(c0, lexeme, Digits);
        }
        errorHandler.ReportMalformedLiteral(saveLine, saveCol, lexeme, FractionDigitsReason);
        return;
      }

      FloatExponentPart(c0, saveLine, saveCol, text);
    }

    /** The end of tryFloatLiteral: an optional exponent, which needs at least
        one digit, and then the token. */
    method FloatExponentPart(ghost c0: Cursor, saveLine: int, saveCol: int, sb: string)
      requires Valid() && errorHandler.Valid() && Consumed(c0, sb) && c0.pos < pos
      requires saveLine == c0.line && saveCol == c0.column
      modifies this`pos, this`line, this`column, this`tokens, this`tokenCounts, errorHandler
      ensures Valid() && errorHandler.Valid()
      ensures State() == Apply(input, old(State()).(cur := c0), tokenStartColumn, FloatExponent(input, c0.pos, old(pos)))
    {
      ghost var f1 := pos;
      var text := sb;
      // Optional exponent
      if Peek() == 'e' || Peek() == 'E' {
        text := AppendConsume(c0, text);
        // Optional sign in the exponent
        if Peek() == '+' || Peek() == '-' {
          text := AppendConsume(c0, text);
        }
        assert pos == f1 + 1 + SignLength(input, f1 + 1);
        // Must have at least one digit in the exponent
        if !IsDigit(Peek()) {
          assert FloatExponent(input, c0.pos, f1) == Outcome(pos, Diagnose(MalformedLiteral, text, ExponentDigitsReason));
          errorHandler.ReportMalformedLiteral(saveLine, saveCol, text, ExponentDigitsReason);
          return;
        }
        text := AppendWhile(c0, text, Digits);
      }
      assert FloatExponent(input, c0.pos, f1) == Outcome(pos, Emit(FloatLiteral));

      AddToken(FloatLiteral, text);
    }

    method TryIntegerLiteral() returns (matched: bool)
      requires Valid() && pos < |input|
      modifies this`pos, this`line, this`column, this`tokens, this`tokenCounts
      ensures Valid()
      ensures matched == IntegerLiteralAt(input, old(pos)).Some?
      ensures State() == Commit(input, old(State()), tokenStartColumn, IntegerLiteralAt(input, old(pos)))
    {
      var savePos, saveLine, saveCol := pos, line, column;
      ghost var c0 := Cur();
      var sb := "";

      // Optional sign
      if Peek() == '+' || Peek() == '-' {
        sb := AppendConsume(c0, sb);
      }

      // Must have at least one digit
      if !IsDigit(Peek()) {
        pos, line, column := savePos, saveLine, saveCol;
        return false;
      }
      sb := AppendWhile(c0, sb, Digits);

      // A decimal point makes it a float, which is not this matcher's job
      if Peek() == '.' {
        pos, line, column := savePos, saveLine, saveCol;
        return false;
      }

      AddToken(IntegerLiteral, sb);
      return true;
    }

    method TryStringLiteral() returns (matched: bool)
      requires Valid() && errorHandler.Valid() && pos < |input|
      modifies this`pos, this`line, this`column, this`tokens, this`tokenCounts, errorHandler
      ensures Valid() && errorHandler.Valid()
      ensures matched == StringLiteralAt(input, old(pos)).Some?
      ensures State() == Commit(input, old(State()), tokenStartColumn, StringLiteralAt(input, old(pos)))
    {
      if Peek() != '"' {
        return false;
      }
      var startLine, startCol := line, column;
      ghost var c0 := Cur();
      var sb := AppendConsume(c0, ""); // opening quote
      sb := AppendStringBody(c0, sb);

      if pos >= |input| || Peek() != '"' {
        errorHandler.ReportUnterminatedString(startLine, startCol, sb);
        return true;
      }

      sb := AppendConsume(c0, sb); // closing quote
      AddToken(StringLiteral, sb);
      return true;
    }

    method TryCharLiteral() returns (matched: bool)
      requires Valid() && errorHandler.Valid() && pos < |input|
      modifies this`pos, this`line, this`column, this`tokens, this`tokenCounts, errorHandler
      ensures Valid() && errorHandler.Valid()
      ensures matched == CharLiteralAt(input, old(pos)).Some?
      ensures State() == Commit(input, old(State()), tokenStartColumn, CharLiteralAt(input, old(pos)))
    {
      if Peek() != '\'' {
        return false;
      }
      var startLine, startCol := line, column;
      ghost var c0 := Cur();
      var sb := AppendConsume(c0, ""); // opening quote

      if pos >= |input| {
        assert CharLiteralAt(input, c0.pos) == Some(Outcome(pos, Diagnose(UnterminatedChar, sb, UnterminatedCharReason)));
        errorHandler.ReportUnterminatedChar(startLine, startCol, sb);
        return true;
      }

      if Peek() == '\\' {
        sb := AppendConsume(c0, sb); // backslash
        if pos < |input| {
          var next := Peek();
          if next == '\'' || next == '\\' || next == 'n' || next == 't' || next == 'r' {
            sb := AppendConsume(c0, sb);
          } else {
            sb := AppendConsume(c0, sb);
          }
        }
      } else if Peek() != '\'' && Peek() != '\n' {
        sb := AppendConsume(c0, sb);
      }

      assert pos == CharBodyEnd(input, c0.pos + 1);
      if pos >= |input| || Peek() != '\'' {
        assert CharLiteralAt(input, c0.pos) == Some(Outcome(pos, Diagnose(UnterminatedChar, sb, UnterminatedCharReason)));
        errorHandler.ReportUnterminatedChar(startLine, startCol, sb);
        return true;
      }

      assert CharLiteralAt(input, c0.pos) == Some(Outcome(pos + 1, Emit(CharLiteral)));
      sb := AppendConsume(c0, sb); // closing quote
      AddToken(CharLiteral, sb);
      return true;
    }

    method TrySingleCharOperator() returns (matched: bool)
      requires Valid() && pos < |input|
      modifies this`pos, this`line, this`column, this`tokens, this`tokenCounts
      ensures Valid()
      ensures matched == SingleCharOperatorAt(input, old(pos)).Some?
      ensures State() == Commit(input, old(State()), tokenStartColumn, SingleCharOperatorAt(input, old(pos)))
    {
      var ch := Peek();
      if ch in SingleCharOperators {
        ghost var c0 := Cur();
        var lexeme := AppendConsume(c0, "");
        var kind := OperatorType(lexeme);
        AddToken(kind, lexeme);
        return true;
      }
      return false;
    }

    method TryPunctuator() returns (matched: bool)
      requires Valid() && pos < |input|
      modifies this`pos, this`line, this`column, this`tokens, this`tokenCounts
      ensures Valid()
      ensures matched == PunctuatorAt(input, old(pos)).Some?
      ensures State() == Commit(input, old(State()), tokenStartColumn, PunctuatorAt(input, old(pos)))
    {
      var ch := Peek();
      if ch in Punctuators {
        ghost var c0 := Cur();
        var lexeme := AppendConsume(c0, "");
        AddToken(Punctuator, lexeme);
        return true;
      }
      return false;
    }

    method TryWhitespace() returns (matched: bool)
      requires Valid() && pos < |input|
      modifies this`pos, this`line, this`column
      ensures Valid()
      ensures matched == WhitespaceAt(input, old(pos)).Some?
      ensures State() == Commit(input, old(State()), tokenStartColumn, WhitespaceAt(input, old(pos)))
    {
      if IsWhitespace(Peek()) {
        SkipWhile(Blanks);
        return true;
      }
      return false;
    }
  }

  /** What the program does with the text it has read: a new scanner over
      it, then one scan, which leaves it in the state of the reference scan
      of the whole text. */
  method ScanSource(text: string) returns (sc: ManualScanner)
    ensures sc.AllValid() && sc.input == text
    ensures sc.State() == ScanText(text)
  {
    sc := new ManualScanner(text);
    var _ := sc.Scan();
  }
}

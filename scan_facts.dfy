/** What a whole scan guarantees: it only ever appends, each pass records
    at most one thing, the cursor ends on the line that counts the newlines
    read, every token is non-empty and of a proper category, token lines
    never decrease, and the registry's frequencies count the identifier
    tokens emitted while its positions are those of each name's first one. */
module ScanFacts {
  import opened Tokens
  import opened Errors
  import opened Symbols
  import opened Lexer
  import opened LexerFacts

  // ---------------------------------------------------------------------
  // Lines

  /** The number of newlines among the characters at `i`, ..., `e - 1`. */
  function NewlinesIn(input: string, i: nat, e: nat): (n: nat)
    requires i <= e <= |input|
    ensures n <= e - i
    decreases e - i
  {
    if i == e then 0 else NewlinesIn(input, i, e - 1) + (if input[e - 1] == '\n' then 1 else 0)
  }

  /** Moving the cursor over some text raises its line by the number of
      newlines in that text; without a newline, the column grows by the
      length of the text; right after a newline the column is 1. */
  lemma {:induction false} MoveToCountsLines(input: string, c: Cursor, e: nat)
    requires c.pos <= e <= |input|
    ensures MoveTo(input, c, e).line == c.line + NewlinesIn(input, c.pos, e)
    ensures NewlinesIn(input, c.pos, e) == 0 ==> MoveTo(input, c, e).column == c.column + (e - c.pos)
    ensures c.pos < e && input[e - 1] == '\n' ==> MoveTo(input, c, e).column == 1
    decreases e - c.pos
  {
    if c.pos < e {
      MoveToCountsLines(input, c, e - 1);
    }
  }

  /** Text without a newline holds no newline. */
  lemma {:induction false} NoNewlinesIn(input: string, i: nat, e: nat)
    requires i <= e <= |input|
    requires forall j :: i <= j < e ==> input[j] != '\n'
    ensures NewlinesIn(input, i, e) == 0
    decreases e - i
  {
    if i < e {
      NoNewlinesIn(input, i, e - 1);
    }
  }

  // ---------------------------------------------------------------------
  // One pass

  /** Applying an outcome moves the cursor over its text and records exactly
      one thing (a token, an error or a comment) unless it is skipped
      whitespace; what was recorded before is kept. */
  lemma ApplyRecordsOne(input: string, s: ScanState, tokenColumn: int, o: Outcome)
    requires Fits(input, s.cur.pos, o)
    ensures var t := Apply(input, s, tokenColumn, o);
            t.cur == MoveTo(input, s.cur, o.end) && Extends(s, t) &&
            |t.tokens| + |t.errors| + t.comments ==
            |s.tokens| + |s.errors| + s.comments + (if o.effect == Skipped then 0 else 1)
  {
    var t := Apply(input, s, tokenColumn, o);
    assert t.tokens[..|s.tokens|] == s.tokens;
    assert t.errors[..|s.errors|] == s.errors;
  }

  /** A matcher that does not apply changes nothing; one that does leaves the
      cursor at the end of its text. */
  lemma CommitMoves(input: string, s: ScanState, tokenColumn: int, r: Option<Outcome>)
    requires r.Some? ==> Fits(input, s.cur.pos, r.value)
    ensures r.None? ==> Commit(input, s, tokenColumn, r) == s
    ensures r.Some? ==> Commit(input, s, tokenColumn, r).cur == MoveTo(input, s.cur, r.value.end)
  {
  }

  /** After a pass the cursor stands just after the text consumed. */
  lemma StepMovesCursor(input: string, s: ScanState)
    requires s.cur.pos < |input|
    ensures Step(input, s).cur == MoveTo(input, s.cur, Dispatch(input, s.cur.pos).end)
  {
    var o := Dispatch(input, s.cur.pos);
    var after := MoveTo(input, s.cur, o.end);
    assert Step(input, s) == Apply(input, s, s.cur.column, o);
    match o.effect {
      case Skipped =>
      case CommentRemoved =>
      case Emit(_) =>
      case EmitIdentifier =>
      case Diagnose(_, _, _) =>
    }
  }

  /** `t` grew from `s` by appending only: earlier tokens and errors stay as
      they were and the comment counter does not go down. */
  predicate Extends(s: ScanState, t: ScanState)
  {
    |s.tokens| <= |t.tokens| && t.tokens[..|s.tokens|] == s.tokens &&
    |s.errors| <= |t.errors| && t.errors[..|s.errors|] == s.errors &&
    s.comments <= t.comments
  }

  lemma ExtendsTransitive(s: ScanState, t: ScanState, u: ScanState)
    requires Extends(s, t) && Extends(t, u)
    ensures Extends(s, u)
  {
    assert u.tokens[..|s.tokens|] == u.tokens[..|t.tokens|][..|s.tokens|];
    assert u.errors[..|s.errors|] == u.errors[..|t.errors|][..|s.errors|];
  }

  /** A pass records exactly one thing (a token, a diagnostic or a removed
      comment) unless it skips whitespace, and then it records nothing;
      what was recorded before stays as it was. */
  lemma StepRecordsOne(input: string, s: ScanState)
    requires s.cur.pos < |input|
    ensures Extends(s, Step(input, s))
    ensures var t := Step(input, s);
            (|t.tokens| - |s.tokens|) + (|t.errors| - |s.errors|) + (t.comments - s.comments) ==
            if Dispatch(input, s.cur.pos).effect == Skipped then 0 else 1
  {
    var t := Step(input, s);
    assert t.tokens[..|s.tokens|] == s.tokens;
    assert t.errors[..|s.errors|] == s.errors;
  }

  // ---------------------------------------------------------------------
  // The whole scan

  /** A scan only appends to what it started with. */
  lemma {:induction false} RunExtends(input: string, s: ScanState)
    requires s.cur.pos <= |input|
    ensures Extends(s, Run(input, s))
    decreases |input| - s.cur.pos
  {
    if s.cur.pos < |input| {
      var t := Step(input, s);
      StepRecordsOne(input, s);
      RunExtends(input, t);
      ExtendsTransitive(s, t, Run(input, s));
    } else {
      assert s.tokens[..|s.tokens|] == s.tokens && s.errors[..|s.errors|] == s.errors;
    }
  }

  /** A scan leaves the cursor where reading the rest of the input one
      character at a time would leave it. */
  lemma {:induction false} RunCursor(input: string, s: ScanState)
    requires s.cur.pos <= |input|
    ensures Run(input, s).cur == MoveTo(input, s.cur, |input|)
    decreases |input| - s.cur.pos
  {
    if s.cur.pos < |input| {
      var t := Step(input, s);
      StepMovesCursor(input, s);
      RunCursor(input, t);
      MoveToTrans(input, s.cur, t.cur.pos, |input|);
    }
  }

  /** A scan ends on the line the cursor was on plus the number of newlines
      left to read. */
  lemma RunLines(input: string, s: ScanState)
    requires s.cur.pos <= |input|
    ensures Run(input, s).cur.line == s.cur.line + NewlinesIn(input, s.cur.pos, |input|)
  {
    RunCursor(input, s);
    MoveToCountsLines(input, s.cur, |input|);
  }

  /** Every token has a non-empty lexeme and a category other than `Error`. */
  predicate ProperTokens(ts: seq<Token>)
  {
    forall i :: 0 <= i < |ts| ==> |ts[i].lexeme| > 0 && ts[i].kind != Error
  }

  lemma StepKeepsProperTokens(input: string, s: ScanState)
    requires s.cur.pos < |input| && ProperTokens(s.tokens)
    ensures ProperTokens(Step(input, s).tokens)
  {
    DispatchEmitsProperKind(input, s.cur.pos);
  }

  lemma {:induction false} RunKeepsProperTokens(input: string, s: ScanState)
    requires s.cur.pos <= |input| && ProperTokens(s.tokens)
    ensures ProperTokens(Run(input, s).tokens)
    decreases |input| - s.cur.pos
  {
    if s.cur.pos < |input| {
      StepKeepsProperTokens(input, s);
      RunKeepsProperTokens(input, Step(input, s));
    }
  }

  // ---------------------------------------------------------------------
  // The registry counts the identifier tokens

  /** The number of identifier tokens spelled `name`. */
  function IdentifierCount(ts: seq<Token>, name: string): (n: nat)
    ensures n <= |ts|
  {
    if ts == [] then 0
    else IdentifierCount(ts[..|ts| - 1], name) + (if ts[|ts| - 1].kind == Identifier && ts[|ts| - 1].lexeme == name then 1 else 0)
  }

  lemma IdentifierCountAppend(ts: seq<Token>, t: Token, name: string)
    ensures IdentifierCount(ts + [t], name) ==
            IdentifierCount(ts, name) + (if t.kind == Identifier && t.lexeme == name then 1 else 0)
  {
    assert (ts + [t])[..|ts|] == ts;
  }

  /** Every name in the registry is filed under itself, and its frequency is
      the number of identifier tokens with that spelling; names never
      emitted are not in the registry. */
  ghost predicate RegistryAgrees(s: ScanState)
  {
    (forall n :: n in s.symbols ==> s.symbols[n].name == n) &&
    forall n :: IdentifierCount(s.tokens, n) == if n in s.symbols then s.symbols[n].frequency else 0
  }

  lemma StepKeepsRegistry(input: string, s: ScanState)
    requires s.cur.pos < |input| && RegistryAgrees(s)
    ensures RegistryAgrees(Step(input, s))
  {
    var o := Dispatch(input, s.cur.pos);
    var t := Step(input, s);
    DispatchEmitsProperKind(input, s.cur.pos);
    match o.effect
    case Emit(kind) =>
      forall n ensures IdentifierCount(t.tokens, n) == IdentifierCount(s.tokens, n) {
        IdentifierCountAppend(s.tokens, t.tokens[|t.tokens| - 1], n);
        assert t.tokens == s.tokens + [t.tokens[|t.tokens| - 1]];
      }
    case EmitIdentifier =>
      var text := input[s.cur.pos..o.end];
      RegisterKeepsOthers(s.symbols, text, s.cur.line, s.cur.column);
      forall n ensures IdentifierCount(t.tokens, n) == IdentifierCount(s.tokens, n) + (if n == text then 1 else 0) {
        IdentifierCountAppend(s.tokens, t.tokens[|t.tokens| - 1], n);
        assert t.tokens == s.tokens + [t.tokens[|t.tokens| - 1]];
      }
    case _ =>
  }

  lemma {:induction false} RunKeepsRegistry(input: string, s: ScanState)
    requires s.cur.pos <= |input| && RegistryAgrees(s)
    ensures RegistryAgrees(Run(input, s))
    decreases |input| - s.cur.pos
  {
    if s.cur.pos < |input| {
      StepKeepsRegistry(input, s);
      RunKeepsRegistry(input, Step(input, s));
    }
  }

  /** A name is registered on the line where its identifier starts, which
      is also the line filed with its token: an identifier holds no newline. */
  lemma RegisteredOnOneLine(input: string, s: ScanState)
    requires s.cur.pos < |input| && Dispatch(input, s.cur.pos).effect == EmitIdentifier
    ensures Step(input, s).cur.line == s.cur.line
  {
    var pos := s.cur.pos;
    var o := Dispatch(input, pos);
    DispatchRegisters(input, pos);
    IdentifierAtExactly(input, pos);
    NoNewlinesIn(input, pos, o.end);
    MoveToCountsLines(input, s.cur, o.end);
    StepMovesCursor(input, s);
  }

  /** The token is an identifier spelled `name`. */
  predicate Names(t: Token, name: string)
  {
    t.kind == Identifier && t.lexeme == name
  }

  /** The index of the first identifier token spelled `name`, if any. */
  function FirstIdentifier(ts: seq<Token>, name: string): (r: Option<nat>)
    ensures r.Some? ==> r.value < |ts| && Names(ts[r.value], name) &&
                        forall j :: 0 <= j < r.value ==> !Names(ts[j], name)
    ensures r.None? ==> forall j :: 0 <= j < |ts| ==> !Names(ts[j], name)
  {
    if ts == [] then None
    else
      var r := FirstIdentifier(ts[..|ts| - 1], name);
      if r.Some? then r
      else if Names(ts[|ts| - 1], name) then Some(|ts| - 1)
      else None
  }

  lemma FirstIdentifierAppend(ts: seq<Token>, t: Token, name: string)
    ensures FirstIdentifier(ts + [t], name) ==
            if FirstIdentifier(ts, name).Some? then FirstIdentifier(ts, name)
            else if Names(t, name) then Some(|ts|) else None
  {
    assert (ts + [t])[..|ts|] == ts;
  }

  /** A name is in the registry exactly when an identifier token spells
      it, and its entry holds the line and column of the first such token. */
  ghost predicate FirstSightings(s: ScanState)
  {
    forall n ::
      (n in s.symbols <==> FirstIdentifier(s.tokens, n).Some?) &&
      (n in s.symbols ==>
         s.symbols[n].firstLine == s.tokens[FirstIdentifier(s.tokens, n).value].line &&
         s.symbols[n].firstColumn == s.tokens[FirstIdentifier(s.tokens, n).value].column)
  }

  lemma StepKeepsFirstSightings(input: string, s: ScanState)
    requires s.cur.pos < |input| && FirstSightings(s)
    ensures FirstSightings(Step(input, s))
  {
    var o := Dispatch(input, s.cur.pos);
    var t := Step(input, s);
    DispatchEmitsProperKind(input, s.cur.pos);
    match o.effect
    case Emit(kind) =>
      var tok := t.tokens[|t.tokens| - 1];
      assert t.tokens == s.tokens + [tok] && !Names(tok, tok.lexeme);
      forall n ensures FirstIdentifier(t.tokens, n) == FirstIdentifier(s.tokens, n) {
        FirstIdentifierAppend(s.tokens, tok, n);
      }
    case EmitIdentifier =>
      var text := input[s.cur.pos..o.end];
      var tok := t.tokens[|t.tokens| - 1];
      assert t.tokens == s.tokens + [tok] && tok == Token(Identifier, text, t.cur.line, s.cur.column);
      RegisteredOnOneLine(input, s);
      RegisterKeepsOthers(s.symbols, text, s.cur.line, s.cur.column);
      forall n ensures FirstIdentifier(t.tokens, n) ==
                       if FirstIdentifier(s.tokens, n).Some? then FirstIdentifier(s.tokens, n)
                       else if n == text then Some(|s.tokens|) else None {
        FirstIdentifierAppend(s.tokens, tok, n);
      }
    case _ =>
  }

  lemma {:induction false} RunKeepsFirstSightings(input: string, s: ScanState)
    requires s.cur.pos <= |input| && FirstSightings(s)
    ensures FirstSightings(Run(input, s))
    decreases |input| - s.cur.pos
  {
    if s.cur.pos < |input| {
      StepKeepsFirstSightings(input, s);
      RunKeepsFirstSightings(input, Step(input, s));
    }
  }

  // ---------------------------------------------------------------------
  // Token lines

  /** Token lines never go down along the token list, and none lies past the
      cursor's line. */
  predicate LinesInOrder(s: ScanState)
  {
    (forall i, j :: 0 <= i < j < |s.tokens| ==> s.tokens[i].line <= s.tokens[j].line) &&
    (forall i :: 0 <= i < |s.tokens| ==> s.tokens[i].line <= s.cur.line)
  }

  lemma StepKeepsLinesInOrder(input: string, s: ScanState)
    requires s.cur.pos < |input| && LinesInOrder(s)
    ensures LinesInOrder(Step(input, s))
  {
    var o := Dispatch(input, s.cur.pos);
    var t := Step(input, s);
    StepMovesCursor(input, s);
    match o.effect
    case Emit(_) =>
      assert t.tokens == s.tokens + [t.tokens[|t.tokens| - 1]] && t.tokens[|t.tokens| - 1].line == t.cur.line;
    case EmitIdentifier =>
      assert t.tokens == s.tokens + [t.tokens[|t.tokens| - 1]] && t.tokens[|t.tokens| - 1].line == t.cur.line;
    case _ =>
  }

  lemma {:induction false} RunKeepsLinesInOrder(input: string, s: ScanState)
    requires s.cur.pos <= |input| && LinesInOrder(s)
    ensures LinesInOrder(Run(input, s))
    decreases |input| - s.cur.pos
  {
    if s.cur.pos < |input| {
      StepKeepsLinesInOrder(input, s);
      RunKeepsLinesInOrder(input, Step(input, s));
    }
  }

  /** A pass at an upper-case letter: an identifier of up to 31 characters
      is emitted and registered at the position where it starts; a longer one
      is reported there instead, and neither emitted nor registered. */
  lemma IdentifierStep(input: string, s: ScanState)
    requires s.cur.pos < |input| && IsUpperLetter(input[s.cur.pos])
    ensures var t := Step(input, s);
            var e := IdentifierAt(input, s.cur.pos).value.end;
            var text := input[s.cur.pos..e];
            t.cur == MoveTo(input, s.cur, e) && t.comments == s.comments &&
            (|text| <= MaxIdentifierLength ==>
               t.tokens == s.tokens + [Token(Identifier, text, t.cur.line, s.cur.column)] &&
               t.symbols == Register(s.symbols, text, s.cur.line, s.cur.column) &&
               t.errors == s.errors) &&
            (|text| > MaxIdentifierLength ==>
               t.tokens == s.tokens && t.symbols == s.symbols &&
               t.errors == s.errors + [LexicalError(InvalidIdentifier, s.cur.line, s.cur.column, text, IdentifierTooLongReason)])
  {
    UpperCaseStartsIdentifier(input, s.cur.pos);
  }

  // ---------------------------------------------------------------------
  // A scan of a whole input

  /** Scanning an input (which reads all of it, by the contract of `Run`)
      ends on line 1 plus the number of newlines read. */
  lemma ScanTextLines(input: string)
    ensures ScanText(input).cur.line == 1 + NewlinesIn(input, 0, |input|)
  {
    RunLinesFromStart(input, Initial);
  }

  /** `RunLines` for a scan from the initial state; stated over a variable
      state, which keeps the solver from unfolding the scan of a literal. */
  lemma RunLinesFromStart(input: string, s: ScanState)
    requires s == Initial
    ensures Run(input, s).cur.line == 1 + NewlinesIn(input, 0, |input|)
  {
    RunLines(input, s);
  }

  /** Every token of a scan is non-empty and of a proper category. */
  lemma ScanTextTokens(input: string)
    ensures ProperTokens(ScanText(input).tokens)
  {
    RunKeepsProperTokens(input, Initial);
  }

  /** After a scan the registry holds exactly the identifiers emitted, each
      with its number of occurrences as frequency. */
  lemma ScanTextRegistry(input: string)
    ensures RegistryAgrees(ScanText(input))
  {
    assert forall n :: IdentifierCount(Initial.tokens, n) == 0 && n !in Initial.symbols;
    RunKeepsRegistry(input, Initial);
  }

  /** After a scan each registry entry holds the line and column of the
      first identifier token with its name. */
  lemma ScanTextFirstSightings(input: string)
    ensures FirstSightings(ScanText(input))
  {
    assert forall n :: FirstIdentifier(Initial.tokens, n).None? && n !in Initial.symbols;
    RunKeepsFirstSightings(input, Initial);
  }

  /** Positions alone do not order the tokens of a line: a string literal
      holding a backslash and a newline is filed under the line where it
      ends with the column where it starts, so in `   "\<newline>"X` it
      comes on line 2 at column 4, before the identifier `X` at column 2 of
      the same line. */
  lemma EscapedNewlineOutOfColumnOrder()
    ensures var ts := ScanText("   \"\\\n\"X").tokens;
            |ts| == 2 && ts[0].kind == StringLiteral && ts[1].kind == Identifier &&
            ts[0].line == ts[1].line == 2 && ts[0].column == 4 && ts[1].column == 2
  {
    var input := "   \"\\\n\"X";
    var s1 := BlanksFirst(input);
    var s2 := StringSecond(input, s1);
    var s3 := IdentifierLast(input, s2);
    assert ScanText(input) == Run(input, s1) == Run(input, s2) == Run(input, s3) == s3;
  }

  lemma BlanksFirst(input: string) returns (s1: ScanState)
    requires input == "   \"\\\n\"X"
    ensures s1 == Step(input, Initial) && s1 == Initial.(cur := Cursor(3, 1, 4))
  {
    RunLengthExact(input, 0, 3, Blanks);
    WhitespaceIsSkipped(input, 0);
    s1 := Step(input, Initial);
  }

  lemma StringSecond(input: string, s1: ScanState) returns (s2: ScanState)
    requires input == "   \"\\\n\"X" && s1 == Initial.(cur := Cursor(3, 1, 4))
    ensures s2 == Step(input, s1) && s2.cur == Cursor(7, 2, 2) && s2.symbols == map[] &&
            s2.tokens == [Token(StringLiteral, input[3..7], 2, 4)]
  {
    QuoteStartsString(input, 3);
    assert IsStringBody(input, 6, 6);
    assert IsStringBody(input, 4, 6);
    StringLiteralComplete(input, 3, 6);
    s2 := Step(input, s1);
  }

  lemma IdentifierLast(input: string, s2: ScanState) returns (s3: ScanState)
    requires input == "   \"\\\n\"X" && s2.cur == Cursor(7, 2, 2) &&
             s2.tokens == [Token(StringLiteral, input[3..7], 2, 4)]
    ensures s3 == Step(input, s2) && s3.cur.pos == 8 &&
            s3.tokens == s2.tokens + [Token(Identifier, "X", 2, 2)]
  {
    RunLengthExact(input, 8, 8, IdentifierTail);
    IdentifierStep(input, s2);
    s3 := Step(input, s2);
    assert input[7..8] == "X";
    assert MoveTo(input, s2.cur, 8) == Cursor(8, 2, 3);
  }

  /** The tokens of a scan come in order of their lines. */
  lemma ScanTextLinesInOrder(input: string)
    ensures forall i, j :: 0 <= i < j < |ScanText(input).tokens| ==>
              ScanText(input).tokens[i].line <= ScanText(input).tokens[j].line
  {
    RunKeepsLinesInOrder(input, Initial);
  }
}

/** The reference semantics of the hand-written scanner
    (src/ManualScanner.java) as pure functions: the character classes, the
    cursor, one function per matcher telling how much input it consumes at a
    position and what it records, the fixed-priority dispatch, and the whole
    run over an input. The imperative scanner in module Scanner is proved to
    compute exactly this. */
module Lexer {
  import opened Tokens
  import opened Errors
  import opened Symbols

  datatype Option<T> = None | Some(value: T)

  // ---------------------------------------------------------------------
  // Character classes

  predicate IsDigit(c: char) { '0' <= c <= '9' }
  predicate IsUpperLetter(c: char) { 'A' <= c <= 'Z' }
  predicate IsLowerLetter(c: char) { 'a' <= c <= 'z' }
  predicate IsLetter(c: char) { IsUpperLetter(c) || IsLowerLetter(c) }
  predicate IsAlphaNumeric(c: char) { IsLetter(c) || IsDigit(c) || c == '_' }
  predicate IsWhitespace(c: char) { c == ' ' || c == '\t' || c == '\r' || c == '\n' }

  /** A character allowed after the first letter of an identifier. */
  predicate IsIdentifierTail(c: char) { IsLowerLetter(c) || IsDigit(c) || c == '_' }

  predicate IsNotNewline(c: char) { c != '\n' }

  /** The character classes a matcher consumes runs of. */
  datatype CharClass = Digits | IdentifierTail | Blanks | RestOfLine

  predicate InClass(cls: CharClass, c: char)
  {
    match cls
    case Digits => IsDigit(c)
    case IdentifierTail => IsIdentifierTail(c)
    case Blanks => IsWhitespace(c)
    case RestOfLine => IsNotNewline(c)
  }

  // ---------------------------------------------------------------------
  // Constants

  const Keywords: seq<string> :=
    ["start", "finish", "loop", "condition", "declare", "output",
     "input", "function", "return", "break", "continue", "else"]

  const TwoCharOperators: seq<string> :=
    ["**", "==", "!=", "<=", ">=", "&&", "||", "++", "--", "+=", "-=", "*=", "/="]

  const SingleCharOperators: string := "+-*/%=<>!"
  const Punctuators: string := "(){}[],;:"

  const MaxIdentifierLength: nat := 31
  const MaxFractionDigits: nat := 6

  const IdentifierTooLongReason: string := "Identifier exceeds maximum length of 31 characters"
  const FractionDigitsReason: string := "Floating-point literal must have 1-6 digits after decimal point"
  const ExponentDigitsReason: string := "Exponent must have at least one digit"
  // ---------------------------------------------------------------------
  // Looking ahead

  /** The character at `i`, or the sentinel '\0' past the end; within the
      input it is the one-character look-ahead window. */
  function PeekAt(input: string, i: nat): (c: char)
    ensures i < |input| ==> c == input[i]
    ensures i >= |input| ==> c == '\0'
  {
    if i < |input| then input[i] else '\0'
  }

  /** Up to `n` characters from `i`, cut short at the end of the input. */
  function Window(input: string, i: nat, n: nat): (w: string)
    requires i <= |input|
    ensures |w| <= n
    ensures |w| == n ==> i + n <= |input| && w == input[i..i + n]
  {
    input[i..if i + n <= |input| then i + n else |input|]
  }

  /** Length of the longest run of characters of class `cls` from `i` on. */
  function RunLength(input: string, i: nat, cls: CharClass): (n: nat)
    requires i <= |input|
    ensures i + n <= |input|
    ensures i + n == |input| || !InClass(cls, input[i + n])
    decreases |input| - i
  {
    if i < |input| && InClass(cls, input[i]) then 1 + RunLength(input, i + 1, cls) else 0
  }

  /** Every character of the run is of class `cls`. */
  lemma {:induction false} RunLengthAll(input: string, i: nat, cls: CharClass)
    requires i <= |input|
    ensures forall j :: i <= j < i + RunLength(input, i, cls) ==> InClass(cls, input[j])
    decreases |input| - i
  {
    if i < |input| && InClass(cls, input[i]) {
      RunLengthAll(input, i + 1, cls);
    }
  }

  // ---------------------------------------------------------------------
  // The cursor

  datatype Cursor = Cursor(pos: nat, line: int, column: int)

  /** Consuming one character: a newline starts the next line at column 1,
      anything else moves one column right. */
  function Advance(input: string, c: Cursor): (d: Cursor)
    requires c.pos < |input|
    ensures d.pos == c.pos + 1
    ensures input[c.pos] == '\n' ==> d.line == c.line + 1 && d.column == 1
    ensures input[c.pos] != '\n' ==> d.line == c.line && d.column == c.column + 1
  {
    if input[c.pos] == '\n' then Cursor(c.pos + 1, c.line + 1, 1)
    else Cursor(c.pos + 1, c.line, c.column + 1)
  }

  /** Consuming the characters from the cursor up to position `e`, one by one. */
  function MoveTo(input: string, c: Cursor, e: nat): (d: Cursor)
    requires c.pos <= e <= |input|
    ensures d.pos == e
    ensures d.line >= c.line
    decreases e - c.pos
  {
    if e == c.pos then c else Advance(input, MoveTo(input, c, e - 1))
  }

  /** Moving to `m` and then on to `e` is moving to `e`. */
  lemma {:induction false} MoveToTrans(input: string, c: Cursor, m: nat, e: nat)
    requires c.pos <= m <= e <= |input|
    ensures MoveTo(input, MoveTo(input, c, m), e) == MoveTo(input, c, e)
    decreases e - m
  {
    if e > m {
      MoveToTrans(input, c, m, e - 1);
    }
  }

  // ---------------------------------------------------------------------
  // What one successful matcher does

  datatype Effect =
    | Skipped                     // whitespace: nothing is recorded
    | CommentRemoved              // a comment: the comment counter grows
    | Emit(kind: TokenType)       // a token whose lexeme is the consumed text
    | EmitIdentifier              // an identifier token, and the name is registered
    | Diagnose(error: ErrorType, lexeme: string, reason: string)

  /** A successful match: the position just after the text it consumes, and
      what it records. */
  datatype Outcome = Outcome(end: nat, effect: Effect)

  /** The match starting at `pos` consumes at least one character and stays
      within the input. */
  predicate Fits(input: string, pos: nat, o: Outcome)
  {
    pos < o.end <= |input|
  }

  // ---------------------------------------------------------------------
  // The matchers, in priority order. Each is None when it does not apply,
  // in which case the scanner's cursor is left where it was.

  /** End of a block comment's body: the position just after the first `*#`
      at or after `i`, or None when the input ends first. */
  function CommentCloseFrom(input: string, i: nat): (r: Option<nat>)
    requires i <= |input|
    ensures r.Some? ==> i + 2 <= r.value <= |input| && input[r.value - 2] == '*' && input[r.value - 1] == '#'
    decreases |input| - i
  {
    if i >= |input| then None
    else if input[i] == '*' && PeekAt(input, i + 1) == '#' then Some(i + 2)
    else CommentCloseFrom(input, i + 1)
  }

  /** The close found is the first one: no `*#` starts earlier, and none at
      all when there is no close. */
  lemma {:induction false} CommentCloseFirst(input: string, i: nat)
    requires i <= |input|
    ensures var r := CommentCloseFrom(input, i);
      forall j :: i <= j && j + 1 < |input| && (r.Some? ==> j < r.value - 2) ==> !(input[j] == '*' && input[j + 1] == '#')
    decreases |input| - i
  {
    if i < |input| && !(input[i] == '*' && PeekAt(input, i + 1) == '#') {
      CommentCloseFirst(input, i + 1);
    }
  }

  function BlockCommentAt(input: string, pos: nat): (r: Option<Outcome>)
    requires pos < |input|
    ensures r.Some? <==> PeekAt(input, pos) == '#' && PeekAt(input, pos + 1) == '*'
    ensures r.Some? ==> Fits(input, pos, r.value)
  {
    if PeekAt(input, pos) == '#' && PeekAt(input, pos + 1) == '*' then
      match CommentCloseFrom(input, pos + 2)
      case Some(e) => Some(Outcome(e, CommentRemoved))
      case None => Some(Outcome(|input|, Diagnose(UnclosedComment, "#*", UnclosedCommentReason)))
    else None
  }

  function LineCommentAt(input: string, pos: nat): (r: Option<Outcome>)
    requires pos < |input|
    ensures r.Some? <==> PeekAt(input, pos) == '#' && PeekAt(input, pos + 1) == '#'
    ensures r.Some? ==> Fits(input, pos, r.value)
  {
    if PeekAt(input, pos) == '#' && PeekAt(input, pos + 1) == '#' then
      Some(Outcome(pos + 2 + RunLength(input, pos + 2, RestOfLine), CommentRemoved))
    else None
  }

  /** The category of an operator lexeme; `Error` for anything else. */
  function OperatorType(op: string): (t: TokenType)
    ensures op in TwoCharOperators ==> t != Error
    ensures |op| == 1 && op[0] in SingleCharOperators ==> t != Error
  {
    if op == "+" || op == "-" || op == "*" || op == "/" || op == "%" || op == "**" then ArithmeticOp
    else if op == "==" || op == "!=" || op == "<" || op == ">" || op == "<=" || op == ">=" then RelationalOp
    else if op == "&&" || op == "||" || op == "!" then LogicalOp
    else if op == "=" || op == "+=" || op == "-=" || op == "*=" || op == "/=" then AssignmentOp
    else if op == "++" then IncrementOp
    else if op == "--" then DecrementOp
    else Error
  }

  function TwoCharOperatorAt(input: string, pos: nat): (r: Option<Outcome>)
    requires pos < |input|
    ensures r.Some? <==> Window(input, pos, 2) in TwoCharOperators
    ensures r.Some? ==> Fits(input, pos, r.value) && r.value.end == pos + 2
  {
    var w := Window(input, pos, 2);
    if w in TwoCharOperators then Some(Outcome(pos + 2, Emit(OperatorType(w)))) else None
  }

  /** `kw` is spelled out at `pos` and is not followed by a letter, digit or `_`. */
  predicate KeywordMatchesAt(input: string, pos: nat, kw: string)
  {
    pos + |kw| <= |input| && input[pos..pos + |kw|] == kw &&
    (pos + |kw| < |input| ==> !IsAlphaNumeric(input[pos + |kw|]))
  }

  /** The first keyword of `kws` that matches at `pos`. */
  function FirstKeyword(input: string, pos: nat, kws: seq<string>): (r: Option<string>)
    ensures r.Some? ==> KeywordMatchesAt(input, pos, r.value)
  {
    if kws == [] then None
    else if KeywordMatchesAt(input, pos, kws[0]) then Some(kws[0])
    else FirstKeyword(input, pos, kws[1..])
  }

  /** The keyword found is the first of the list that matches: it stands at
      some index `i` of `kws`, and no keyword before `i` matches. */
  lemma {:induction false} FirstKeywordFirst(input: string, pos: nat, kws: seq<string>)
    requires FirstKeyword(input, pos, kws).Some?
    ensures exists i :: 0 <= i < |kws| && kws[i] == FirstKeyword(input, pos, kws).value &&
                        forall j :: 0 <= j < i ==> !KeywordMatchesAt(input, pos, kws[j])
  {
    if !KeywordMatchesAt(input, pos, kws[0]) {
      FirstKeywordFirst(input, pos, kws[1..]);
      var i :| 0 <= i < |kws[1..]| && kws[1..][i] == FirstKeyword(input, pos, kws).value &&
               forall j :: 0 <= j < i ==> !KeywordMatchesAt(input, pos, kws[1..][j]);
      assert kws[i + 1] == kws[1..][i];
      assert forall j :: 0 < j < i + 1 ==> kws[j] == kws[1..][j - 1];
    }
  }

  /** The search only fails when no keyword of the list matches. */
  lemma {:induction false} FirstKeywordNone(input: string, pos: nat, kws: seq<string>)
    ensures FirstKeyword(input, pos, kws).None? <==> forall k :: k in kws ==> !KeywordMatchesAt(input, pos, k)
  {
    if kws != [] {
      FirstKeywordNone(input, pos, kws[1..]);
      assert forall k :: k in kws <==> k == kws[0] || k in kws[1..];
    }
  }

  /** When the search over `kws[i..]` finds what the search over `kws`
      finds, and `kws[i]` matches, then `kws[i]` is the keyword found. */
  lemma FirstKeywordHit(input: string, pos: nat, kws: seq<string>, i: nat)
    requires i < |kws| && KeywordMatchesAt(input, pos, kws[i])
    requires FirstKeyword(input, pos, kws[i..]) == FirstKeyword(input, pos, kws)
    ensures FirstKeyword(input, pos, kws) == Some(kws[i])
  {
    assert kws[i..][0] == kws[i];
  }

  function KeywordAt(input: string, pos: nat): (r: Option<Outcome>)
    requires pos < |input|
    ensures r.Some? ==> Fits(input, pos, r.value)
  {
    match FirstKeyword(input, pos, Keywords)
    case Some(k) =>
      FirstKeywordFirst(input, pos, Keywords);
      Some(Outcome(pos + |k|, Emit(Keyword)))
    case None => None
  }

  function BooleanLiteralAt(input: string, pos: nat): (r: Option<Outcome>)
    requires pos < |input|
    ensures r.Some? ==> Fits(input, pos, r.value)
  {
    if Window(input, pos, 5) == "false" && !IsAlphaNumeric(PeekAt(input, pos + 5)) then
      Some(Outcome(pos + 5, Emit(BooleanLiteral)))
    else if Window(input, pos, 4) == "true" && !IsAlphaNumeric(PeekAt(input, pos + 4)) then
      Some(Outcome(pos + 4, Emit(BooleanLiteral)))
    else None
  }

  function IdentifierAt(input: string, pos: nat): (r: Option<Outcome>)
    requires pos < |input|
    ensures r.Some? <==> IsUpperLetter(input[pos])
    ensures r.Some? ==> Fits(input, pos, r.value)
  {
    if !IsUpperLetter(PeekAt(input, pos)) then None
    else
      var e := pos + 1 + RunLength(input, pos + 1, IdentifierTail);
      if e - pos > MaxIdentifierLength then
        Some(Outcome(e, Diagnose(InvalidIdentifier, input[pos..e], IdentifierTooLongReason)))
      else Some(Outcome(e, EmitIdentifier))
  }

  /** 1 when an optional sign stands at `i`, else 0. */
  function SignLength(input: string, i: nat): (n: nat)
    ensures n <= 1 && (n == 1 ==> i < |input|)
  {
    if PeekAt(input, i) == '+' || PeekAt(input, i) == '-' then 1 else 0
  }

  /** A float is tried speculatively: without digits, or without a `.` after
      them, it does not apply (and the scanner rolls back). Once the `.` is
      there the text is consumed whatever follows. */
  function FloatLiteralAt(input: string, pos: nat): (r: Option<Outcome>)
    requires pos < |input|
    ensures r.Some? ==> Fits(input, pos, r.value)
  {
    var d0 := pos + SignLength(input, pos);
    if !IsDigit(PeekAt(input, d0)) then None
    else
      var d1 := d0 + RunLength(input, d0, Digits);
      if PeekAt(input, d1) != '.' then None
      else Some(FloatAfterPoint(input, pos, d1 + 1))
  }

  /** The rest of a float that starts at `pos`, `f0` being just after its
      point: 1 to 6 fraction digits are required; with none, or with more,
      the text up to the end of the digits is reported. */
  function FloatAfterPoint(input: string, pos: nat, f0: nat): (o: Outcome)
    requires pos < f0 <= |input|
    ensures Fits(input, pos, o)
  {
    var f1 := f0 + RunLength(input, f0, Digits);
    if f1 == f0 || f1 - f0 > MaxFractionDigits then
      Outcome(f1, Diagnose(MalformedLiteral, input[pos..f1], FractionDigitsReason))
    else FloatExponent(input, pos, f1)
  }

  /** The optional exponent of a float that starts at `pos`, `f1` being just
      after its fraction digits: `e` or `E`, an optional sign, and at least
      one digit. */
  function FloatExponent(input: string, pos: nat, f1: nat): (o: Outcome)
    requires pos < f1 <= |input|
    ensures Fits(input, pos, o)
  {
    if PeekAt(input, f1) == 'e' || PeekAt(input, f1) == 'E' then
      var x0 := f1 + 1 + SignLength(input, f1 + 1);
      if !IsDigit(PeekAt(input, x0)) then
        Outcome(x0, Diagnose(MalformedLiteral, input[pos..x0], ExponentDigitsReason))
      else
        Outcome(x0 + RunLength(input, x0, Digits), Emit(FloatLiteral))
    else Outcome(f1, Emit(FloatLiteral))
  }

  function IntegerLiteralAt(input: string, pos: nat): (r: Option<Outcome>)
    requires pos < |input|
    ensures r.Some? ==> Fits(input, pos, r.value)
  {
    var d0 := pos + SignLength(input, pos);
    if !IsDigit(PeekAt(input, d0)) then None
    else
      var d1 := d0 + RunLength(input, d0, Digits);
      if PeekAt(input, d1) == '.' then None
      else Some(Outcome(d1, Emit(IntegerLiteral)))
  }

  /** `input[i..e]` is made of string-body units: a character other than a
      quote, a newline or a backslash; a backslash with whatever character
      follows it; or a lone backslash that ends the input. */
  predicate IsStringBody(input: string, i: nat, e: nat)
    requires i <= e <= |input|
    decreases e - i
  {
    i == e ||
    (input[i] == '\\' && ((i + 2 <= e && IsStringBody(input, i + 2, e)) || i + 1 == e == |input|)) ||
    (input[i] != '"' && input[i] != '\n' && input[i] != '\\' && IsStringBody(input, i + 1, e))
  }

  /** Where a string literal's body stops: at a bare `"`, at a newline, or at
      the end of the input. A backslash always takes the next character with
      it, whatever that character is. */
  function StringBodyEnd(input: string, i: nat): (e: nat)
    requires i <= |input|
    ensures i <= e <= |input|
    ensures e == |input| || input[e] == '"' || input[e] == '\n'
    ensures IsStringBody(input, i, e)
    decreases |input| - i
  {
    if i >= |input| || input[i] == '"' || input[i] == '\n' then i
    else if input[i] == '\\' then (if i + 1 < |input| then StringBodyEnd(input, i + 2) else i + 1)
    else StringBodyEnd(input, i + 1)
  }

  function StringLiteralAt(input: string, pos: nat): (r: Option<Outcome>)
    requires pos < |input|
    ensures r.Some? <==> input[pos] == '"'
    ensures r.Some? ==> Fits(input, pos, r.value)
  {
    if PeekAt(input, pos) != '"' then None
    else
      var e := StringBodyEnd(input, pos + 1);
      if e >= |input| || input[e] != '"' then
        Some(Outcome(e, Diagnose(UnterminatedString, input[pos..e], UnterminatedStringReason)))
      else Some(Outcome(e + 1, Emit(StringLiteral)))
  }

  /** `input[i..e]` is a char literal's body: empty, one character other
      than a quote, a newline or a backslash, or a backslash and whatever
      character follows it. */
  predicate IsCharBody(input: string, i: nat, e: nat)
    requires i <= e <= |input|
  {
    e == i ||
    (e == i + 1 && input[i] != '\'' && input[i] != '\n' && input[i] != '\\') ||
    (e == i + 2 && input[i] == '\\')
  }

  /** No char body starting at `i` ends beyond `e`. */
  predicate NoLongerCharBody(input: string, i: nat, e: nat)
    requires i <= e <= |input|
  {
    forall f :: e < f <= |input| ==> !IsCharBody(input, i, f)
  }

  /** Where a char literal's body stops, `i` being just after the opening
      quote: the longest char body there is, whether or not a closing quote
      follows it; a backslash that ends the input is still consumed. */
  function CharBodyEnd(input: string, i: nat): (e: nat)
    requires i < |input|
    ensures i <= e <= i + 2 && e <= |input|
    ensures e < |input| ==> IsCharBody(input, i, e)
  {
    if input[i] == '\\' then (if i + 1 < |input| then i + 2 else i + 1)
    else if input[i] != '\'' && input[i] != '\n' then i + 1
    else i
  }

  function CharLiteralAt(input: string, pos: nat): (r: Option<Outcome>)
    requires pos < |input|
    ensures r.Some? <==> input[pos] == '\''
    ensures r.Some? ==> Fits(input, pos, r.value)
  {
    if PeekAt(input, pos) != '\'' then None
    else if pos + 1 >= |input| then
      Some(Outcome(pos + 1, Diagnose(UnterminatedChar, input[pos..pos + 1], UnterminatedCharReason)))
    else
      var e := CharBodyEnd(input, pos + 1);
      if e >= |input| || input[e] != '\'' then
        Some(Outcome(e, Diagnose(UnterminatedChar, input[pos..e], UnterminatedCharReason)))
      else Some(Outcome(e + 1, Emit(CharLiteral)))
  }

  function SingleCharOperatorAt(input: string, pos: nat): (r: Option<Outcome>)
    requires pos < |input|
    ensures r.Some? <==> input[pos] in SingleCharOperators
    ensures r.Some? ==> r.value == Outcome(pos + 1, Emit(OperatorType(input[pos..pos + 1])))
    ensures r.Some? ==> Fits(input, pos, r.value) && r.value.effect.kind != Error
  {
    var ch := PeekAt(input, pos);
    if ch in SingleCharOperators then Some(Outcome(pos + 1, Emit(OperatorType([ch])))) else None
  }

  function PunctuatorAt(input: string, pos: nat): (r: Option<Outcome>)
    requires pos < |input|
    ensures r.Some? <==> input[pos] in Punctuators
    ensures r.Some? ==> r.value == Outcome(pos + 1, Emit(Punctuator))
  {
    if PeekAt(input, pos) in Punctuators then Some(Outcome(pos + 1, Emit(Punctuator))) else None
  }

  function WhitespaceAt(input: string, pos: nat): (r: Option<Outcome>)
    requires pos < |input|
    ensures r.Some? <==> IsWhitespace(input[pos])
    ensures r.Some? ==> Fits(input, pos, r.value)
  {
    if IsWhitespace(PeekAt(input, pos)) then Some(Outcome(pos + RunLength(input, pos, Blanks), Skipped))
    else None
  }

  /** No matcher applies: the character is reported and skipped. */
  function InvalidCharacterAt(input: string, pos: nat): (o: Outcome)
    requires pos < |input|
    ensures Fits(input, pos, o) && o.end == pos + 1
    ensures o.effect.Diagnose? && o.effect.error == InvalidCharacter && o.effect.lexeme == input[pos..o.end]
  {
    Outcome(pos + 1, Diagnose(InvalidCharacter, [input[pos]], InvalidCharacterReason(input[pos])))
  }

  /** The number of matchers the scan loop tries. */
  const RuleCount: nat := 13

  /** Matcher `k` of the scan loop, numbered in its fixed priority order. */
  function RuleAt(k: nat, input: string, pos: nat): (r: Option<Outcome>)
    requires pos < |input|
    ensures r.Some? ==> Fits(input, pos, r.value)
  {
    if k == 0 then BlockCommentAt(input, pos)
    else if k == 1 then LineCommentAt(input, pos)
    else if k == 2 then TwoCharOperatorAt(input, pos)
    else if k == 3 then KeywordAt(input, pos)
    else if k == 4 then BooleanLiteralAt(input, pos)
    else if k == 5 then IdentifierAt(input, pos)
    else if k == 6 then FloatLiteralAt(input, pos)
    else if k == 7 then IntegerLiteralAt(input, pos)
    else if k == 8 then StringLiteralAt(input, pos)
    else if k == 9 then CharLiteralAt(input, pos)
    else if k == 10 then SingleCharOperatorAt(input, pos)
    else if k == 11 then PunctuatorAt(input, pos)
    else if k == 12 then WhitespaceAt(input, pos)
    else None
  }

  /** The first of matchers `k`, `k + 1`, ... that applies at `pos`, or the
      invalid-character fallback when none does. */
  function DispatchFrom(input: string, pos: nat, k: nat): (o: Outcome)
    requires pos < |input|
    ensures Fits(input, pos, o)
    decreases RuleCount - k
  {
    if k >= RuleCount then InvalidCharacterAt(input, pos)
    else match RuleAt(k, input, pos)
      case Some(o) => o
      case None => DispatchFrom(input, pos, k + 1)
  }

  /** One pass of the scan loop: the first matcher, in the fixed priority
      order, that applies at `pos`. Every pass consumes at least one
      character and stays within the input, which is why the scan ends. */
  function Dispatch(input: string, pos: nat): (o: Outcome)
    requires pos < |input|
    ensures Fits(input, pos, o)
  {
    DispatchFrom(input, pos, 0)
  }

  // ---------------------------------------------------------------------
  // The whole scan

  /** Everything a scan builds: the cursor, the tokens, the diagnostics,
      the registry's contents and the comment counter. */
  datatype ScanState = ScanState(
    cur: Cursor,
    tokens: seq<Token>,
    errors: seq<LexicalError>,
    symbols: map<string, EntryView>,
    comments: nat)

  const Initial: ScanState := ScanState(Cursor(0, 1, 1), [], [], map[], 0)

  /** Commits outcome `o` at the cursor of `s`. A token carries the line
      reached after its text and the column `tokenColumn` of its first
      character; a diagnostic and a registered name carry the position where
      the match began. */
  function Apply(input: string, s: ScanState, tokenColumn: int, o: Outcome): ScanState
    requires Fits(input, s.cur.pos, o)
  {
    var after := MoveTo(input, s.cur, o.end);
    var text := input[s.cur.pos..o.end];
    match o.effect
    case Skipped => s.(cur := after)
    case CommentRemoved => s.(cur := after, comments := s.comments + 1)
    case Emit(kind) => s.(cur := after, tokens := s.tokens + [Token(kind, text, after.line, tokenColumn)])
    case EmitIdentifier =>
      s.(cur := after,
         tokens := s.tokens + [Token(Identifier, text, after.line, tokenColumn)],
         symbols := Register(s.symbols, text, s.cur.line, s.cur.column))
    case Diagnose(kind, lexeme, reason) =>
      s.(cur := after, errors := s.errors + [LexicalError(kind, s.cur.line, s.cur.column, lexeme, reason)])
  }

  /** The effect of a matcher at the cursor of `s`: `Apply` when it applies,
      no change when it does not. */
  function Commit(input: string, s: ScanState, tokenColumn: int, r: Option<Outcome>): ScanState
    requires r.Some? ==> Fits(input, s.cur.pos, r.value)
  {
    match r
    case Some(o) => Apply(input, s, tokenColumn, o)
    case None => s
  }

  /** One pass of the scan loop. */
  function Step(input: string, s: ScanState): (t: ScanState)
    requires s.cur.pos < |input|
    ensures t.cur.pos > s.cur.pos
  {
    Apply(input, s, s.cur.column, Dispatch(input, s.cur.pos))
  }

  /** The scan loop from `s` to the end of the input; it always reaches it. */
  function Run(input: string, s: ScanState): (t: ScanState)
    requires s.cur.pos <= |input|
    ensures t.cur.pos == |input|
    decreases |input| - s.cur.pos
  {
    if s.cur.pos == |input| then s else Run(input, Step(input, s))
  }

  function ScanText(input: string): ScanState
  {
    Run(input, Initial)
  }
}

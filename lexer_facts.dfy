/** What the reference semantics of module Lexer guarantees: the priority
    order of the matchers, what each kind of input character leads to, the
    shape of what every matcher accepts, and invariants of a whole scan. */
module LexerFacts {
  import opened Tokens
  import opened Errors
  import opened Symbols
  import opened Lexer

  // ---------------------------------------------------------------------
  // Priority

  /** The pass is decided by the first matcher that applies, counting from `k`. */
  lemma {:induction false} DispatchFromFirst(input: string, pos: nat, k: nat, j: nat)
    requires pos < |input| && k <= j < RuleCount
    requires RuleAt(j, input, pos).Some?
    requires forall i :: k <= i < j ==> RuleAt(i, input, pos).None?
    ensures DispatchFrom(input, pos, k) == RuleAt(j, input, pos).value
    decreases j - k
  {
    if k < j {
      DispatchFromFirst(input, pos, k + 1, j);
    }
  }

  /** When no matcher from `k` on applies, the pass is the invalid-character
      fallback. */
  lemma {:induction false} DispatchFromNone(input: string, pos: nat, k: nat)
    requires pos < |input| && k <= RuleCount
    requires forall i :: k <= i < RuleCount ==> RuleAt(i, input, pos).None?
    ensures DispatchFrom(input, pos, k) == InvalidCharacterAt(input, pos)
    decreases RuleCount - k
  {
    if k < RuleCount {
      DispatchFromNone(input, pos, k + 1);
    }
  }

  /** First match wins: a pass takes the outcome of the first matcher, in
      priority order, that applies; and the invalid-character fallback
      (exactly one character, reported) only when none applies. */
  lemma FirstApplicableWins(input: string, pos: nat, j: nat)
    requires pos < |input| && j < RuleCount
    requires RuleAt(j, input, pos).Some?
    requires forall i :: 0 <= i < j ==> RuleAt(i, input, pos).None?
    ensures Dispatch(input, pos) == RuleAt(j, input, pos).value
  {
    DispatchFromFirst(input, pos, 0, j);
  }

  lemma NoneApplicableFallsBack(input: string, pos: nat)
    requires pos < |input|
    requires forall i :: 0 <= i < RuleCount ==> RuleAt(i, input, pos).None?
    ensures Dispatch(input, pos) == InvalidCharacterAt(input, pos)
    ensures Dispatch(input, pos).end == pos + 1
    ensures Dispatch(input, pos).effect == Diagnose(InvalidCharacter, [input[pos]], InvalidCharacterReason(input[pos]))
  {
    DispatchFromNone(input, pos, 0);
  }

  // ---------------------------------------------------------------------
  // What the character at the cursor leads to

  /** Every keyword starts with a lower-case letter. */
  lemma KeywordsStartLowerCase()
    ensures forall i :: 0 <= i < |Keywords| ==> |Keywords[i]| > 0 && IsLowerLetter(Keywords[i][0])
  {
  }

  /** A keyword can only match where a lower-case letter stands. */
  lemma KeywordNeedsLowerCase(input: string, pos: nat)
    requires pos < |input| && !IsLowerLetter(input[pos])
    ensures KeywordAt(input, pos).None?
  {
    if FirstKeyword(input, pos, Keywords).Some? {
      var k := FirstKeyword(input, pos, Keywords).value;
      FirstKeywordFirst(input, pos, Keywords);
      KeywordsStartLowerCase();
    }
  }

  /** A window that spells out `w` starts with the character `w` starts with. */
  lemma WindowHead(input: string, pos: nat, n: nat, w: string)
    requires pos <= |input| && Window(input, pos, n) == w && |w| > 0
    ensures pos < |input| && input[pos] == w[0]
  {
    assert Window(input, pos, n)[0] == input[pos];
  }

  /** `false` and `true` can only match where a lower-case letter stands. */
  lemma BooleanNeedsLowerCase(input: string, pos: nat)
    requires pos < |input| && !IsLowerLetter(input[pos])
    ensures BooleanLiteralAt(input, pos).None?
  {
    if Window(input, pos, 5) == "false" {
      WindowHead(input, pos, 5, "false");
    }
    if Window(input, pos, 4) == "true" {
      WindowHead(input, pos, 4, "true");
    }
  }

  /** An upper-case letter always starts an identifier (or a too-long
      identifier): none of the matchers before it applies. */
  lemma UpperCaseStartsIdentifier(input: string, pos: nat)
    requires pos < |input| && IsUpperLetter(input[pos])
    ensures Dispatch(input, pos) == IdentifierAt(input, pos).value
  {
    KeywordNeedsLowerCase(input, pos);
    BooleanNeedsLowerCase(input, pos);
    FirstApplicableWins(input, pos, 5);
  }

  /** A double quote always starts a string literal, terminated or not. */
  lemma QuoteStartsString(input: string, pos: nat)
    requires pos < |input| && input[pos] == '"'
    ensures Dispatch(input, pos) == StringLiteralAt(input, pos).value
  {
    KeywordNeedsLowerCase(input, pos);
    BooleanNeedsLowerCase(input, pos);
    TwoCharOperatorNeedsSymbol(input, pos);
    FirstApplicableWins(input, pos, 8);
  }

  /** A matcher that does not apply hands the pass on to the next one. */
  lemma PassesOn(input: string, pos: nat, k: nat)
    requires pos < |input| && k < RuleCount && RuleAt(k, input, pos).None?
    ensures DispatchFrom(input, pos, k) == DispatchFrom(input, pos, k + 1)
  {
  }

  /** None of the one-character operators and punctuators is blank. */
  lemma OneCharSymbolsAreNotBlank()
    ensures forall i :: 0 <= i < |SingleCharOperators| ==> !IsWhitespace(SingleCharOperators[i])
    ensures forall i :: 0 <= i < |Punctuators| ==> !IsWhitespace(Punctuators[i])
  {
  }

  /** Before the whitespace matcher, rules 0 to 5 do not apply to a blank. */
  lemma BlankPassesFirstRules(input: string, pos: nat)
    requires pos < |input| && IsWhitespace(input[pos])
    ensures DispatchFrom(input, pos, 0) == DispatchFrom(input, pos, 6)
  {
    KeywordNeedsLowerCase(input, pos);
    BooleanNeedsLowerCase(input, pos);
    TwoCharOperatorNeedsSymbol(input, pos);
    PassesOn(input, pos, 0);
    PassesOn(input, pos, 1);
    PassesOn(input, pos, 2);
    PassesOn(input, pos, 3);
    PassesOn(input, pos, 4);
    PassesOn(input, pos, 5);
  }

  /** Rules 6 to 11 do not apply to a blank either. */
  lemma BlankPassesLaterRules(input: string, pos: nat)
    requires pos < |input| && IsWhitespace(input[pos])
    ensures DispatchFrom(input, pos, 6) == DispatchFrom(input, pos, 12)
  {
    OneCharSymbolsAreNotBlank();
    PassesOn(input, pos, 6);
    PassesOn(input, pos, 7);
    PassesOn(input, pos, 8);
    PassesOn(input, pos, 9);
    PassesOn(input, pos, 10);
    PassesOn(input, pos, 11);
  }

  /** Whitespace is skipped as one run, recording nothing. */
  lemma WhitespaceIsSkipped(input: string, pos: nat)
    requires pos < |input| && IsWhitespace(input[pos])
    ensures Dispatch(input, pos) == Outcome(pos + RunLength(input, pos, Blanks), Skipped)
  {
    BlankPassesFirstRules(input, pos);
    BlankPassesLaterRules(input, pos);
    assert DispatchFrom(input, pos, 12) == WhitespaceAt(input, pos).value;
  }

  /** No two-character operator starts with the comment marker `#`, a
      letter or a blank. */
  lemma TwoCharOperatorsStartWithSymbol()
    ensures forall i :: 0 <= i < |TwoCharOperators| ==>
              |TwoCharOperators[i]| == 2 && TwoCharOperators[i][0] != '#' &&
              !IsLetter(TwoCharOperators[i][0]) && !IsWhitespace(TwoCharOperators[i][0]) &&
              TwoCharOperators[i][0] != '"' && TwoCharOperators[i][0] != '\''
  {
  }

  lemma TwoCharOperatorNeedsSymbol(input: string, pos: nat)
    requires pos < |input|
    ensures Window(input, pos, 2) in TwoCharOperators ==>
            input[pos] != '#' && !IsLetter(input[pos]) && !IsWhitespace(input[pos]) &&
            input[pos] != '"' && input[pos] != '\''
  {
    if Window(input, pos, 2) in TwoCharOperators {
      var i :| 0 <= i < |TwoCharOperators| && TwoCharOperators[i] == Window(input, pos, 2);
      TwoCharOperatorsStartWithSymbol();
      WindowHead(input, pos, 2, TwoCharOperators[i]);
    }
  }

  /** Longest match: where one of the two-character operators stands, the
      pass emits it as one token of two characters, never as two one-character
      tokens, and its category is never `Error`. */
  lemma TwoCharOperatorWins(input: string, pos: nat)
    requires pos < |input| && Window(input, pos, 2) in TwoCharOperators
    ensures Dispatch(input, pos) == Outcome(pos + 2, Emit(OperatorType(input[pos..pos + 2])))
    ensures OperatorType(input[pos..pos + 2]) != Error
  {
    TwoCharOperatorNeedsSymbol(input, pos);
    FirstApplicableWins(input, pos, 2);
  }

  // ---------------------------------------------------------------------
  // Keywords

  /** Every character of `w` is a letter, a digit or `_`. */
  predicate IsWord(w: string)
  {
    forall i :: 0 <= i < |w| ==> IsAlphaNumeric(w[i])
  }

  lemma KeywordsAreWords()
    ensures forall i :: 0 <= i < |Keywords| ==> IsWord(Keywords[i])
  {
  }

  /** Where a word `b` is spelled out, a shorter word's boundary position
      holds one of `b`'s letters, digits or `_`. */
  lemma LongerWordCoversBoundary(input: string, pos: nat, a: string, b: string)
    requires IsWord(b) && |a| < |b| && pos + |b| <= |input| && input[pos..pos + |b|] == b
    ensures pos + |a| < |input| && IsAlphaNumeric(input[pos + |a|])
  {
    assert input[pos + |a|] == b[|a|];
  }

  /** A word that matches at a keyword boundary is the only one that does:
      a longer word would need a letter, digit or `_` where the shorter one
      requires there is none. */
  lemma WordMatchUnique(input: string, pos: nat, a: string, b: string)
    requires IsWord(a) && IsWord(b)
    requires KeywordMatchesAt(input, pos, a) && KeywordMatchesAt(input, pos, b)
    ensures a == b
  {
    if |a| < |b| {
      LongerWordCoversBoundary(input, pos, a, b);
    } else if |b| < |a| {
      LongerWordCoversBoundary(input, pos, b, a);
    }
  }

  /** At most one keyword matches at any position, so the order in which the
      keywords are tried does not change which one is found. */
  lemma AtMostOneKeywordMatches(input: string, pos: nat, i: nat, j: nat)
    requires i < |Keywords| && j < |Keywords|
    requires KeywordMatchesAt(input, pos, Keywords[i]) && KeywordMatchesAt(input, pos, Keywords[j])
    ensures Keywords[i] == Keywords[j]
  {
    KeywordsAreWords();
    WordMatchUnique(input, pos, Keywords[i], Keywords[j]);
  }

  /** The keyword matcher applies exactly when some keyword stands at the
      position with no letter, digit or `_` right after it, and it then
      emits a token whose text is that keyword. */
  lemma KeywordAtExactly(input: string, pos: nat)
    requires pos < |input|
    ensures KeywordAt(input, pos).Some? <==>
            exists i :: 0 <= i < |Keywords| && KeywordMatchesAt(input, pos, Keywords[i])
    ensures KeywordAt(input, pos).Some? ==>
            KeywordAt(input, pos).value.effect == Emit(Keyword) &&
            input[pos..KeywordAt(input, pos).value.end] in Keywords &&
            KeywordMatchesAt(input, pos, input[pos..KeywordAt(input, pos).value.end])
  {
    match FirstKeyword(input, pos, Keywords)
    case Some(k) =>
      FirstKeywordFirst(input, pos, Keywords);
    case None =>
      FirstKeywordNone(input, pos, Keywords);
      forall i | 0 <= i < |Keywords|
        ensures !KeywordMatchesAt(input, pos, Keywords[i])
      {
        assert Keywords[i] in Keywords;
      }
  }

  // ---------------------------------------------------------------------
  // Boolean literals

  /** The boolean matcher applies exactly where `false` or `true` stands as a
      whole word, and it emits that word. */
  lemma BooleanLiteralAtExactly(input: string, pos: nat)
    requires pos < |input|
    ensures BooleanLiteralAt(input, pos).Some? <==>
            KeywordMatchesAt(input, pos, "false") || KeywordMatchesAt(input, pos, "true")
    ensures BooleanLiteralAt(input, pos).Some? ==>
            BooleanLiteralAt(input, pos).value.effect == Emit(BooleanLiteral) &&
            var text := input[pos..BooleanLiteralAt(input, pos).value.end];
            text == "false" || text == "true"
  {
  }

  lemma BooleansAreNotKeywords()
    ensures forall j :: 0 <= j < |Keywords| ==> Keywords[j] != "false" && Keywords[j] != "true"
  {
  }

  /** `false` and `true` are not keywords: where a boolean literal stands no
      keyword matches, so trying keywords first never takes a boolean for a
      keyword. */
  lemma BooleanIsNoKeyword(input: string, pos: nat)
    requires pos < |input| && BooleanLiteralAt(input, pos).Some?
    ensures KeywordAt(input, pos).None?
  {
    BooleanLiteralAtExactly(input, pos);
    if FirstKeyword(input, pos, Keywords).Some? {
      FirstKeywordFirst(input, pos, Keywords);
      var i :| 0 <= i < |Keywords| && KeywordMatchesAt(input, pos, Keywords[i]);
      KeywordsAreWords();
      BooleansAreNotKeywords();
      if KeywordMatchesAt(input, pos, "false") {
        WordMatchUnique(input, pos, Keywords[i], "false");
      } else {
        WordMatchUnique(input, pos, Keywords[i], "true");
      }
    }
  }

  /** Where `false` or `true` stands as a whole word, the pass emits it as a
      boolean literal. */
  lemma BooleanLiteralWins(input: string, pos: nat)
    requires pos < |input| && BooleanLiteralAt(input, pos).Some?
    ensures Dispatch(input, pos) == BooleanLiteralAt(input, pos).value
  {
    BooleanIsNoKeyword(input, pos);
    assert IsLowerLetter(input[pos]) by {
      if Window(input, pos, 5) == "false" {
        WindowHead(input, pos, 5, "false");
      } else {
        WindowHead(input, pos, 4, "true");
      }
    }
    TwoCharOperatorNeedsSymbol(input, pos);
    PassesOn(input, pos, 0);
    PassesOn(input, pos, 1);
    PassesOn(input, pos, 2);
    PassesOn(input, pos, 3);
  }

  // ---------------------------------------------------------------------
  // Character classes

  /** How the character classes relate: whitespace never continues a word,
      an identifier's tail characters are word characters but never
      upper-case, and no digit is a letter. */
  lemma CharClassesApart(c: char)
    ensures IsWhitespace(c) ==> !IsAlphaNumeric(c)
    ensures IsIdentifierTail(c) ==> IsAlphaNumeric(c) && !IsUpperLetter(c)
    ensures IsDigit(c) ==> !IsLetter(c) && IsAlphaNumeric(c)
    ensures IsLetter(c) ==> IsAlphaNumeric(c) && !IsWhitespace(c)
  {
  }

  // ---------------------------------------------------------------------
  // Runs

  /** A run of class `cls` that ends where the class stops is exactly what
      `RunLength` measures. */
  lemma {:induction false} RunLengthExact(input: string, i: nat, e: nat, cls: CharClass)
    requires i <= e <= |input|
    requires forall j :: i <= j < e ==> InClass(cls, input[j])
    requires e == |input| || !InClass(cls, input[e])
    ensures RunLength(input, i, cls) == e - i
    decreases e - i
  {
    if i < e {
      RunLengthExact(input, i + 1, e, cls);
    }
  }

  // ---------------------------------------------------------------------
  // Identifiers

  /** An identifier takes its upper-case first letter and the whole run of
      lower-case letters, digits and `_` after it. Up to 31 characters it is
      emitted (and registered); longer, the whole text is reported as an
      invalid identifier and no token is emitted. */
  lemma IdentifierAtExactly(input: string, pos: nat)
    requires pos < |input| && IsUpperLetter(input[pos])
    ensures var o := IdentifierAt(input, pos).value;
            (forall j :: pos < j < o.end ==> IsIdentifierTail(input[j])) &&
            (o.end == |input| || !IsIdentifierTail(input[o.end])) &&
            (o.end - pos <= MaxIdentifierLength ==> o.effect == EmitIdentifier) &&
            (o.end - pos > MaxIdentifierLength ==>
               o.effect == Diagnose(InvalidIdentifier, input[pos..o.end], IdentifierTooLongReason))
  {
    RunLengthAll(input, pos + 1, IdentifierTail);
  }

  // ---------------------------------------------------------------------
  // Numbers

  predicate IsSign(c: char) { c == '+' || c == '-' }

  /** One or more decimal digits. */
  predicate IsNumeral(t: string)
  {
    |t| > 0 && forall i :: 0 <= i < |t| ==> IsDigit(t[i])
  }

  /** An optional sign followed by a numeral. */
  predicate IsSignedNumeral(t: string)
  {
    |t| > 0 && if IsSign(t[0]) then IsNumeral(t[1..]) else IsNumeral(t)
  }

  /** `e` or `E`, an optional sign and a numeral. */
  predicate IsExponent(t: string)
  {
    |t| > 1 && (t[0] == 'e' || t[0] == 'E') && IsSignedNumeral(t[1..])
  }

  /** The text of a well-formed float: a signed numeral, a point, one to six
      digits, and an optional exponent. */
  predicate IsFloatText(t: string)
  {
    exists p, q :: 0 < p < q <= |t| && q - p - 1 <= MaxFractionDigits && t[p] == '.' &&
      IsSignedNumeral(t[..p]) && IsNumeral(t[p + 1..q]) && (q == |t| || IsExponent(t[q..]))
  }

  lemma FloatTextIntro(t: string, p: nat, q: nat)
    requires 0 < p < q <= |t| && q - p - 1 <= MaxFractionDigits && t[p] == '.'
    requires IsSignedNumeral(t[..p]) && IsNumeral(t[p + 1..q]) && (q == |t| || IsExponent(t[q..]))
    ensures IsFloatText(t)
  {
    assert |t[..p]| == p && |t[q..]| == |t| - q;
  }

  /** A run of digits that starts with a digit is a numeral. */
  lemma DigitRunIsNumeral(input: string, d0: nat)
    requires d0 < |input| && IsDigit(input[d0])
    ensures IsNumeral(input[d0..d0 + RunLength(input, d0, Digits)])
  {
    RunLengthAll(input, d0, Digits);
  }

  /** A text whose first `s` characters are a sign (`s` is 0 or 1) and
      whose rest is a numeral is a signed numeral. */
  lemma SignedNumeralOf(t: string, s: nat)
    requires s <= 1 && s < |t| && (s == 1 <==> IsSign(t[0]))
    requires IsNumeral(t[s..])
    ensures IsSignedNumeral(t)
  {
    if s == 0 {
      assert t[s..] == t;
    }
  }

  /** A suffix of a slice of the input is a slice of the input. */
  lemma SuffixOfSlice(input: string, i: nat, k: nat, j: nat)
    requires i <= k <= j <= |input|
    ensures input[i..j][k - i..] == input[k..j]
  {
  }

  /** The signed numeral that starts at `pos` and ends at `d1`. */
  lemma SignedNumeralAt(input: string, pos: nat, d1: nat)
    requires pos < |input|
    requires var d0 := pos + SignLength(input, pos);
             IsDigit(PeekAt(input, d0)) && d1 == d0 + RunLength(input, d0, Digits)
    ensures pos < d1 <= |input| && IsSignedNumeral(input[pos..d1])
  {
    var s := SignLength(input, pos);
    var d0 := pos + s;
    DigitRunIsNumeral(input, d0);
    SuffixOfSlice(input, pos, d0, d1);
    SignedNumeralOf(input[pos..d1], s);
  }

  /** The integer matcher applies exactly when digits follow the optional
      sign and no point follows them; it then emits the signed numeral,
      taking every digit there is. */
  lemma IntegerLiteralShape(input: string, pos: nat)
    requires pos < |input| && IntegerLiteralAt(input, pos).Some?
    ensures var o := IntegerLiteralAt(input, pos).value;
            o.effect == Emit(IntegerLiteral) && IsSignedNumeral(input[pos..o.end]) &&
            !IsDigit(PeekAt(input, o.end)) && PeekAt(input, o.end) != '.'
  {
    var d0 := pos + SignLength(input, pos);
    SignedNumeralAt(input, pos, d0 + RunLength(input, d0, Digits));
  }

  /** A signed numeral not followed by a digit is what a matcher reads as
      the optional sign and then the whole run of digits. */
  lemma SignedNumeralRun(input: string, i: nat, e: nat)
    requires i < e <= |input| && IsSignedNumeral(input[i..e]) && !IsDigit(PeekAt(input, e))
    ensures var d0 := i + SignLength(input, i);
            d0 < e && IsDigit(input[d0]) && d0 + RunLength(input, d0, Digits) == e
  {
    var t := input[i..e];
    var d0 := i + SignLength(input, i);
    assert input[i] == t[0];
    if IsSign(t[0]) {
      assert forall j :: d0 <= j < e ==> input[j] == t[1..][j - d0];
    } else {
      assert forall j :: d0 <= j < e ==> input[j] == t[j - i];
    }
    RunLengthExact(input, d0, e, Digits);
  }

  /** Conversely, every maximal signed numeral not followed by a point is
      taken whole by the integer matcher. */
  lemma IntegerLiteralComplete(input: string, pos: nat, e: nat)
    requires pos < e <= |input| && IsSignedNumeral(input[pos..e])
    requires !IsDigit(PeekAt(input, e)) && PeekAt(input, e) != '.'
    ensures IntegerLiteralAt(input, pos) == Some(Outcome(e, Emit(IntegerLiteral)))
  {
    SignedNumeralRun(input, pos, e);
  }

  /** The float and the integer matcher never both apply, and one of them
      applies exactly when a digit follows the optional sign. */
  lemma NumberMatchersSplit(input: string, pos: nat)
    requires pos < |input|
    ensures !(FloatLiteralAt(input, pos).Some? && IntegerLiteralAt(input, pos).Some?)
    ensures FloatLiteralAt(input, pos).Some? || IntegerLiteralAt(input, pos).Some? <==>
            IsDigit(PeekAt(input, pos + SignLength(input, pos)))
  {
  }

  /** A slice of a slice is a slice. */
  lemma SliceOfSlice(input: string, i: nat, j: nat, k: nat, l: nat)
    requires i <= k <= l <= j <= |input|
    ensures input[i..j][k - i..l - i] == input[k..l]
  {
    assert forall x :: 0 <= x < l - k ==> input[i..j][k - i..l - i][x] == input[k..l][x];
  }

  /** An emitted exponent part is `e` or `E` and a signed numeral, or empty. */
  lemma FloatExponentShape(input: string, pos: nat, f1: nat)
    requires pos < f1 <= |input| && FloatExponent(input, pos, f1).effect == Emit(FloatLiteral)
    ensures var e := FloatExponent(input, pos, f1).end;
            e == f1 || (f1 < e && (input[f1] == 'e' || input[f1] == 'E') && IsSignedNumeral(input[f1 + 1..e]))
  {
    if FloatExponent(input, pos, f1).end != f1 {
      var x0 := f1 + 1 + SignLength(input, f1 + 1);
      SignedNumeralAt(input, f1 + 1, x0 + RunLength(input, x0, Digits));
    }
  }

  /** What an emitted float is made of: its point at `d1`, one to six
      fraction digits up to `f1`, then the exponent part. */
  lemma FloatParts(input: string, pos: nat) returns (d1: nat, f1: nat)
    requires pos < |input| && FloatLiteralAt(input, pos).Some?
    requires FloatLiteralAt(input, pos).value.effect == Emit(FloatLiteral)
    ensures pos < d1 < f1 <= FloatLiteralAt(input, pos).value.end
    ensures IsSignedNumeral(input[pos..d1]) && input[d1] == '.'
    ensures f1 - d1 - 1 <= MaxFractionDigits && IsNumeral(input[d1 + 1..f1])
    ensures FloatLiteralAt(input, pos).value == FloatExponent(input, pos, f1)
  {
    var d0 := pos + SignLength(input, pos);
    d1 := d0 + RunLength(input, d0, Digits);
    var f0 := d1 + 1;
    f1 := f0 + RunLength(input, f0, Digits);
    SignedNumeralAt(input, pos, d1);
    RunLengthAll(input, f0, Digits);
  }

  /** Every float emitted is well formed. */
  lemma FloatLiteralShape(input: string, pos: nat)
    requires pos < |input| && FloatLiteralAt(input, pos).Some?
    requires FloatLiteralAt(input, pos).value.effect == Emit(FloatLiteral)
    ensures IsFloatText(input[pos..FloatLiteralAt(input, pos).value.end])
  {
    var d1, f1 := FloatParts(input, pos);
    var e := FloatLiteralAt(input, pos).value.end;
    FloatExponentShape(input, pos, f1);
    var t := input[pos..e];
    var p, q := d1 - pos, f1 - pos;
    SliceOfSlice(input, pos, e, pos, d1);
    SliceOfSlice(input, pos, e, d1 + 1, f1);
    if e != f1 {
      SliceOfSlice(input, pos, e, f1, e);
      assert t[q..][1..] == input[f1 + 1..e];
    }
    assert t[p] == '.';
    FloatTextIntro(t, p, q);
  }

  /** A signed numeral followed by a point commits the float matcher, which
      goes on after the point. */
  lemma FloatPointAt(input: string, pos: nat, d1: nat)
    requires pos < d1 < |input| && IsSignedNumeral(input[pos..d1]) && input[d1] == '.'
    ensures FloatLiteralAt(input, pos) == Some(FloatAfterPoint(input, pos, d1 + 1))
  {
    SignedNumeralRun(input, pos, d1);
  }

  /** One to six fraction digits after the point take the float matcher on
      to the exponent part. */
  lemma FloatFractionTaken(input: string, pos: nat, d1: nat, f1: nat)
    requires pos < d1 && d1 + 1 < f1 <= |input|
    requires f1 - d1 - 1 <= MaxFractionDigits && IsNumeral(input[d1 + 1..f1])
    requires !IsDigit(PeekAt(input, f1))
    ensures FloatAfterPoint(input, pos, d1 + 1) == FloatExponent(input, pos, f1)
  {
    assert forall j :: d1 + 1 <= j < f1 ==> input[j] == input[d1 + 1..f1][j - d1 - 1];
    RunLengthExact(input, d1 + 1, f1, Digits);
  }

  /** An exponent part, `e` or `E` and a signed numeral not followed by a
      digit, is taken whole into the float. */
  lemma FloatExponentTaken(input: string, pos: nat, f1: nat, e: nat)
    requires pos < f1 < e <= |input| && IsExponent(input[f1..e]) && !IsDigit(PeekAt(input, e))
    ensures FloatExponent(input, pos, f1) == Outcome(e, Emit(FloatLiteral))
  {
    assert input[f1] == input[f1..e][0];
    SuffixOfSlice(input, f1, f1 + 1, e);
    SignedNumeralRun(input, f1 + 1, e);
  }

  /** Conversely to `FloatLiteralShape`: a signed numeral, a point, one to six
      digits and then either an exponent (`e` or `E` and a signed numeral)
      not followed by a digit, or no exponent and neither a digit nor an `e`
      or `E`, is emitted whole as one float literal. */
  lemma FloatLiteralComplete(input: string, pos: nat, d1: nat, f1: nat, e: nat)
    requires pos < d1 && d1 + 1 < f1 <= e <= |input|
    requires IsSignedNumeral(input[pos..d1]) && input[d1] == '.'
    requires f1 - d1 - 1 <= MaxFractionDigits && IsNumeral(input[d1 + 1..f1])
    requires (e == f1 && !IsDigit(PeekAt(input, f1)) && PeekAt(input, f1) != 'e' && PeekAt(input, f1) != 'E') ||
             (f1 < e && IsExponent(input[f1..e]) && !IsDigit(PeekAt(input, e)))
    ensures FloatLiteralAt(input, pos) == Some(Outcome(e, Emit(FloatLiteral)))
  {
    FloatPointAt(input, pos, d1);
    if f1 < e {
      assert input[f1] == input[f1..e][0];
      FloatFractionTaken(input, pos, d1, f1);
      FloatExponentTaken(input, pos, f1, e);
    } else {
      FloatFractionTaken(input, pos, d1, f1);
    }
  }

  /** Where the point and the end of the fraction digits of a float text are. */
  lemma FloatTextElim(t: string) returns (p: nat, q: nat)
    requires IsFloatText(t)
    ensures 0 < p < q <= |t| && q - p - 1 <= MaxFractionDigits && t[p] == '.'
    ensures IsSignedNumeral(t[..p]) && IsNumeral(t[p + 1..q]) && (q == |t| || IsExponent(t[q..]))
  {
    p, q :| 0 < p < q <= |t| && q - p - 1 <= MaxFractionDigits && t[p] == '.' &&
      IsSignedNumeral(t[..p]) && IsNumeral(t[p + 1..q]) && (q == |t| || IsExponent(t[q..]));
  }

  /** The parts of a float text, read back as slices of the input. */
  lemma FloatTextParts(input: string, pos: nat, e: nat, p: nat, q: nat)
    requires pos < e <= |input| && 0 < p < q <= e - pos
    requires input[pos..e][p] == '.' && IsSignedNumeral(input[pos..e][..p]) &&
             IsNumeral(input[pos..e][p + 1..q]) && (q == e - pos || IsExponent(input[pos..e][q..]))
    ensures p + 1 < q && pos + q <= e
    ensures input[pos + p] == '.' && IsSignedNumeral(input[pos..pos + p]) && IsNumeral(input[pos + p + 1..pos + q])
    ensures q == e - pos || IsExponent(input[pos + q..e])
  {
    assert input[pos..e][..p] == input[pos..pos + p];
    assert |input[pos..e][p + 1..q]| > 0;
    SliceOfSlice(input, pos, e, pos + p + 1, pos + q);
    SuffixOfSlice(input, pos, pos + q, e);
  }

  /** Every well-formed float text that ends where no digit, `e` or `E`
      follows is scanned as exactly one float literal. */
  lemma FloatTextScanned(input: string, pos: nat, e: nat)
    requires pos < e <= |input| && IsFloatText(input[pos..e])
    requires !IsDigit(PeekAt(input, e)) && PeekAt(input, e) != 'e' && PeekAt(input, e) != 'E'
    ensures FloatLiteralAt(input, pos) == Some(Outcome(e, Emit(FloatLiteral)))
  {
    var p, q := FloatTextElim(input[pos..e]);
    FloatTextParts(input, pos, e, p, q);
    if q == e - pos {
      FloatLiteralComplete(input, pos, pos + p, e, e);
    } else {
      FloatLiteralComplete(input, pos, pos + p, pos + q, e);
    }
  }

  /** One to six fraction digits followed by `e` or `E`, an optional sign and
      no digit: the text up to and including that sign is reported as a
      malformed literal, for want of exponent digits. */
  lemma FloatExponentRejected(input: string, pos: nat, d1: nat, f1: nat, x: nat)
    requires pos < d1 && d1 + 1 < f1 < x <= |input|
    requires IsSignedNumeral(input[pos..d1]) && input[d1] == '.'
    requires f1 - d1 - 1 <= MaxFractionDigits && IsNumeral(input[d1 + 1..f1])
    requires input[f1] == 'e' || input[f1] == 'E'
    requires (x == f1 + 1 && !IsSign(PeekAt(input, x))) || (x == f1 + 2 && IsSign(input[f1 + 1]))
    requires !IsDigit(PeekAt(input, x))
    ensures FloatLiteralAt(input, pos) == Some(Outcome(x, Diagnose(MalformedLiteral, input[pos..x], ExponentDigitsReason)))
  {
    FloatPointAt(input, pos, d1);
    FloatFractionTaken(input, pos, d1, f1);
  }

  /** A point followed by no digit, or by more than six, makes the text up to
      the end of those digits a malformed literal. */
  lemma FloatFractionRejected(input: string, pos: nat, d1: nat, f1: nat)
    requires pos < d1 < f1 <= |input|
    requires IsSignedNumeral(input[pos..d1]) && input[d1] == '.'
    requires forall j :: d1 < j < f1 ==> IsDigit(input[j])
    requires !IsDigit(PeekAt(input, f1))
    requires f1 == d1 + 1 || f1 - d1 - 1 > MaxFractionDigits
    ensures FloatLiteralAt(input, pos) == Some(Outcome(f1, Diagnose(MalformedLiteral, input[pos..f1], FractionDigitsReason)))
  {
    FloatPointAt(input, pos, d1);
    RunLengthExact(input, d1 + 1, f1, Digits);
  }

  /** A float that is not emitted is reported as a malformed literal whose
      lexeme is exactly the text consumed, with one of the two reasons. */
  lemma MalformedFloatReported(input: string, pos: nat)
    requires pos < |input| && FloatLiteralAt(input, pos).Some?
    requires FloatLiteralAt(input, pos).value.effect != Emit(FloatLiteral)
    ensures var o := FloatLiteralAt(input, pos).value;
            o.effect.Diagnose? && o.effect.error == MalformedLiteral && o.effect.lexeme == input[pos..o.end] &&
            (o.effect.reason == FractionDigitsReason || o.effect.reason == ExponentDigitsReason)
  {
  }

  /** Whatever its outcome, a float never stops in front of a digit: all the
      digits of each part are consumed. */
  lemma FloatTakesAllDigits(input: string, pos: nat)
    requires pos < |input| && FloatLiteralAt(input, pos).Some?
    ensures !IsDigit(PeekAt(input, FloatLiteralAt(input, pos).value.end))
  {
  }

  // ---------------------------------------------------------------------
  // Strings and characters

  /** The body scan stops at the first quote, newline or end of input that
      is not inside an escape: any well-formed body that reaches one of them
      is exactly what the scan finds. */
  lemma {:induction false} StringBodyEndFirst(input: string, i: nat, e: nat)
    requires i <= e <= |input| && IsStringBody(input, i, e)
    requires e == |input| || input[e] == '"' || input[e] == '\n'
    ensures StringBodyEnd(input, i) == e
    decreases e - i
  {
    if i < e {
      if input[i] == '\\' {
        if i + 2 <= e && IsStringBody(input, i + 2, e) {
          StringBodyEndFirst(input, i + 2, e);
        }
      } else {
        StringBodyEndFirst(input, i + 1, e);
      }
    }
  }

  /** A string literal is either emitted with both its quotes, or reported
      as unterminated, with the text consumed as lexeme, when a newline or
      the end of the input comes before the closing quote; in both cases
      what lies after the opening quote is a well-formed body, with no bare
      quote or newline outside an escape. */
  lemma StringLiteralShape(input: string, pos: nat)
    requires pos < |input| && input[pos] == '"'
    ensures var o := StringLiteralAt(input, pos).value;
            var text := input[pos..o.end];
            (o.effect == Emit(StringLiteral) && |text| >= 2 && text[0] == '"' && text[|text| - 1] == '"') ||
            (o.effect == Diagnose(UnterminatedString, text, UnterminatedStringReason) &&
             (o.end == |input| || input[o.end] == '\n'))
    ensures var o := StringLiteralAt(input, pos).value;
            o.effect == Emit(StringLiteral) ==> pos + 2 <= o.end && IsStringBody(input, pos + 1, o.end - 1)
    ensures var o := StringLiteralAt(input, pos).value;
            o.effect != Emit(StringLiteral) ==> pos + 1 <= o.end && IsStringBody(input, pos + 1, o.end)
  {
  }

  /** Conversely: a well-formed body followed by a quote is emitted as one
      string literal; followed by a newline or the end of the input it is
      reported as unterminated. */
  lemma StringLiteralComplete(input: string, pos: nat, e: nat)
    requires pos < |input| && input[pos] == '"'
    requires pos + 1 <= e <= |input| && IsStringBody(input, pos + 1, e)
    ensures e < |input| && input[e] == '"' ==>
              StringLiteralAt(input, pos) == Some(Outcome(e + 1, Emit(StringLiteral)))
    ensures e == |input| || input[e] == '\n' ==>
              StringLiteralAt(input, pos) ==
              Some(Outcome(e, Diagnose(UnterminatedString, input[pos..e], UnterminatedStringReason)))
  {
    if e == |input| || input[e] == '"' || input[e] == '\n' {
      StringBodyEndFirst(input, pos + 1, e);
    }
  }

  /** A char literal's body is the longest one available after the opening
      quote, whether or not a closing quote follows it: a character other
      than a quote, a newline or a backslash is always taken, an escape
      always takes two characters, and a backslash that ends the input is
      taken alone. */
  lemma CharBodyLongest(input: string, i: nat)
    requires i < |input|
    ensures !(input[i] == '\\' && i + 1 == |input|) ==> IsCharBody(input, i, CharBodyEnd(input, i))
    ensures input[i] == '\\' && i + 1 == |input| ==> CharBodyEnd(input, i) == |input|
    ensures NoLongerCharBody(input, i, CharBodyEnd(input, i))
  {
  }

  /** A char literal is emitted with both its quotes and a body of at most
      one character or one escape (possibly empty); otherwise it is reported
      as unterminated, with the text consumed as lexeme, and no closing
      quote follows that text. */
  lemma CharLiteralShape(input: string, pos: nat)
    requires pos < |input| && input[pos] == '\''
    ensures var o := CharLiteralAt(input, pos).value;
            var text := input[pos..o.end];
            o.effect == Emit(CharLiteral) ==>
              2 <= |text| <= 4 && text[0] == '\'' && text[|text| - 1] == '\'' && (|text| == 4 ==> text[1] == '\\')
    ensures var o := CharLiteralAt(input, pos).value;
            o.effect != Emit(CharLiteral) ==>
              o.effect == Diagnose(UnterminatedChar, input[pos..o.end], UnterminatedCharReason) &&
              (o.end == |input| || input[o.end] != '\'')
    ensures var o := CharLiteralAt(input, pos).value;
            o.effect == Emit(CharLiteral) ==> IsCharBody(input, pos + 1, o.end - 1)
    ensures var o := CharLiteralAt(input, pos).value;
            o.effect != Emit(CharLiteral) ==>
              pos + 1 <= o.end &&
              (IsCharBody(input, pos + 1, o.end) || (o.end == |input| == pos + 2 && input[pos + 1] == '\\')) &&
              NoLongerCharBody(input, pos + 1, o.end)
  {
    if pos + 1 < |input| {
      CharBodyLongest(input, pos + 1);
    }
  }

  /** Conversely: a quote, a well-formed body and a closing quote are
      emitted as one char literal. */
  lemma CharLiteralComplete(input: string, pos: nat, e: nat)
    requires pos < e < |input| && input[pos] == '\'' && IsCharBody(input, pos + 1, e) && input[e] == '\''
    ensures CharLiteralAt(input, pos) == Some(Outcome(e + 1, Emit(CharLiteral)))
  {
  }

  /** Conversely: when the longest body after the opening quote is not
      followed by a closing quote, exactly that body is consumed with the
      opening quote and reported as an unterminated char literal; a
      backslash that ends the input is consumed too. */
  lemma CharLiteralUnterminated(input: string, pos: nat, e: nat)
    requires pos < |input| && input[pos] == '\''
    requires pos + 1 <= e <= |input| && IsCharBody(input, pos + 1, e)
    requires NoLongerCharBody(input, pos + 1, e)
    requires e == |input| || input[e] != '\''
    ensures e == pos + 1 && e + 1 == |input| && input[e] == '\\' ==>
              CharLiteralAt(input, pos) ==
              Some(Outcome(e + 1, Diagnose(UnterminatedChar, input[pos..e + 1], UnterminatedCharReason)))
    ensures !(e == pos + 1 && e + 1 == |input| && input[e] == '\\') ==>
              CharLiteralAt(input, pos) ==
              Some(Outcome(e, Diagnose(UnterminatedChar, input[pos..e], UnterminatedCharReason)))
  {
    if pos + 1 < |input| {
      CharBodyLongest(input, pos + 1);
    }
  }

  // ---------------------------------------------------------------------
  // Comments

  /** A block comment ends at the first `*#` after its opening `#*`, and is
      counted; with no `*#` left, the rest of the input is consumed and an
      unclosed comment is reported with lexeme `#*`. */
  lemma BlockCommentShape(input: string, pos: nat)
    requires pos + 1 < |input| && input[pos] == '#' && input[pos + 1] == '*'
    ensures var o := BlockCommentAt(input, pos).value;
            o.effect == CommentRemoved ==>
              pos + 4 <= o.end && input[o.end - 2] == '*' && input[o.end - 1] == '#' &&
              forall j :: pos + 2 <= j < o.end - 2 ==> !(input[j] == '*' && input[j + 1] == '#')
    ensures var o := BlockCommentAt(input, pos).value;
            o.effect != CommentRemoved ==>
              o.end == |input| && o.effect == Diagnose(UnclosedComment, "#*", UnclosedCommentReason) &&
              forall j :: pos + 2 <= j && j + 1 < |input| ==> !(input[j] == '*' && input[j + 1] == '#')
  {
    CommentCloseFirst(input, pos + 2);
  }

  /** A line comment runs up to the next newline, which it leaves in place,
      or to the end of the input. */
  lemma LineCommentShape(input: string, pos: nat)
    requires pos + 1 < |input| && input[pos] == '#' && input[pos + 1] == '#'
    ensures var o := LineCommentAt(input, pos).value;
            o.effect == CommentRemoved &&
            (o.end == |input| || input[o.end] == '\n') &&
            forall j :: pos <= j < o.end ==> input[j] != '\n'
  {
    RunLengthAll(input, pos + 2, RestOfLine);
  }

  // ---------------------------------------------------------------------
  // What a pass may emit

  /** No matcher emits a token of category `Error`, and none emits an
      identifier token without registering it. */
  lemma RuleEmitsProperKind(input: string, pos: nat, k: nat)
    requires pos < |input|
    ensures var r := RuleAt(k, input, pos);
            r.Some? && r.value.effect.Emit? ==> r.value.effect.kind != Error && r.value.effect.kind != Identifier
  {
    if k == 6 && FloatLiteralAt(input, pos).Some? {
      var d0 := pos + SignLength(input, pos);
      var d1 := d0 + RunLength(input, d0, Digits);
      var f0 := d1 + 1;
      var f1 := f0 + RunLength(input, f0, Digits);
      assert FloatLiteralAt(input, pos).value == FloatAfterPoint(input, pos, f0);
    }
  }

  lemma {:induction false} DispatchFromEmitsProperKind(input: string, pos: nat, k: nat)
    requires pos < |input|
    ensures var o := DispatchFrom(input, pos, k);
            o.effect.Emit? ==> o.effect.kind != Error && o.effect.kind != Identifier
    decreases RuleCount - k
  {
    if k < RuleCount {
      RuleEmitsProperKind(input, pos, k);
      if RuleAt(k, input, pos).None? {
        DispatchFromEmitsProperKind(input, pos, k + 1);
      }
    }
  }

  /** Only the identifier matcher registers a name. */
  lemma RuleRegistersOnlyIdentifiers(input: string, pos: nat, k: nat)
    requires pos < |input|
    ensures var r := RuleAt(k, input, pos);
            r.Some? && r.value.effect == EmitIdentifier ==> k == 5
  {
    if k == 6 && FloatLiteralAt(input, pos).Some? {
      var d0 := pos + SignLength(input, pos);
      var d1 := d0 + RunLength(input, d0, Digits);
      assert FloatLiteralAt(input, pos).value == FloatAfterPoint(input, pos, d1 + 1);
    }
  }

  lemma {:induction false} DispatchFromRegisters(input: string, pos: nat, k: nat)
    requires pos < |input|
    ensures var o := DispatchFrom(input, pos, k);
            o.effect == EmitIdentifier ==> IdentifierAt(input, pos).Some? && o == IdentifierAt(input, pos).value
    decreases RuleCount - k
  {
    if k < RuleCount {
      RuleRegistersOnlyIdentifiers(input, pos, k);
      if RuleAt(k, input, pos).None? {
        DispatchFromRegisters(input, pos, k + 1);
      }
    }
  }

  /** A pass registers a name only where an upper-case letter starts an
      identifier, and then consumes exactly that identifier. */
  lemma DispatchRegisters(input: string, pos: nat)
    requires pos < |input|
    ensures var o := Dispatch(input, pos);
            o.effect == EmitIdentifier ==> IsUpperLetter(input[pos]) && o == IdentifierAt(input, pos).value
  {
    DispatchFromRegisters(input, pos, 0);
  }

  /** A pass never emits a token of category `Error`, and identifier tokens
      only come with a registration. */
  lemma DispatchEmitsProperKind(input: string, pos: nat)
    requires pos < |input|
    ensures Dispatch(input, pos).effect.Emit? ==>
            Dispatch(input, pos).effect.kind != Error && Dispatch(input, pos).effect.kind != Identifier
  {
    DispatchFromEmitsProperKind(input, pos, 0);
  }
}

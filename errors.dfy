/** The diagnostic sink (src/ErrorHandler.java): an append-only list of
    lexical errors together with a counter that always equals its length. */
module Errors {

  datatype ErrorType =
    | InvalidCharacter
    | MalformedLiteral
    | InvalidIdentifier
    | UnclosedComment
    | UnterminatedString
    | UnterminatedChar

  /** One recorded diagnostic; never changed once recorded. */
  datatype LexicalError = LexicalError(kind: ErrorType, line: int, column: int, lexeme: string, reason: string)

  // The fixed reasons of the helpers that do not take one from their caller.
  const UnclosedCommentReason: string := "Multi-line comment not closed"
  const UnterminatedStringReason: string := "String literal not terminated"
  const UnterminatedCharReason: string := "Character literal not terminated"

  /** The reason given for a character no rule accepts; it names that
      character, so two different characters get two different reasons. */
  function InvalidCharacterReason(ch: char): (r: string)
    ensures |r| == 36 && r[19] == ch
    ensures r[..19] == "Invalid character '" && r[20..] == "' not recognized"
  {
    "Invalid character '" + [ch] + "' not recognized"
  }

  /** Number of errors of type `t` in `errors` (one stream filter of the summary). */
  function CountOfType(errors: seq<LexicalError>, t: ErrorType): (n: nat)
    ensures n <= |errors|
  {
    if errors == [] then 0
    else CountOfType(errors[..|errors| - 1], t) + (if errors[|errors| - 1].kind == t then 1 else 0)
  }

  /** The six per-type counts shown by the error summary. */
  datatype ErrorSummary = ErrorSummary(
    invalidCharacters: nat,
    malformedLiterals: nat,
    invalidIdentifiers: nat,
    unclosedComments: nat,
    unterminatedStrings: nat,
    unterminatedChars: nat)
  {
    function Total(): nat
    {
      invalidCharacters + malformedLiterals + invalidIdentifiers +
      unclosedComments + unterminatedStrings + unterminatedChars
    }
  }

  function SumOfTypeCounts(errors: seq<LexicalError>): nat
  {
    CountOfType(errors, InvalidCharacter) + CountOfType(errors, MalformedLiteral) +
    CountOfType(errors, InvalidIdentifier) + CountOfType(errors, UnclosedComment) +
    CountOfType(errors, UnterminatedString) + CountOfType(errors, UnterminatedChar)
  }

  /** Every error has exactly one of the six types, so the six counts add up
      to the number of errors. */
  lemma {:induction false} TypeCountsSumToLength(errors: seq<LexicalError>)
    ensures SumOfTypeCounts(errors) == |errors|
  {
    if errors != [] {
      TypeCountsSumToLength(errors[..|errors| - 1]);
    }
  }

  /** Appending one error raises the count of its own type by one and leaves
      the other five counts alone. */
  lemma CountOfTypeAppend(errors: seq<LexicalError>, e: LexicalError, t: ErrorType)
    ensures CountOfType(errors + [e], t) == CountOfType(errors, t) + (if e.kind == t then 1 else 0)
  {
    assert (errors + [e])[..|errors|] == errors;
  }

  class ErrorHandler {
    var errors: seq<LexicalError>
    var errorCount: int

    /** The counter mirrors the list. */
    ghost predicate Valid()
      reads this
    {
      errorCount == |errors|
    }

    constructor ()
      ensures Valid() && errors == []
    {
      errors := [];
      errorCount := 0;
    }

    /** Appends exactly one error with the given fields; earlier errors stay as
        they were (so only the count of `kind` grows, by CountOfTypeAppend). */
    method ReportError(kind: ErrorType, line: int, column: int, lexeme: string, reason: string)
      requires Valid()
      modifies this
      ensures Valid()
      ensures errors == old(errors) + [LexicalError(kind, line, column, lexeme, reason)]
    {
      var error := LexicalError(kind, line, column, lexeme, reason);
      errors := errors + [error];
      errorCount := errorCount + 1;
    }

    method ReportInvalidCharacter(line: int, column: int, ch: char)
      requires Valid()
      modifies this
      ensures Valid()
      ensures errors == old(errors) + [LexicalError(InvalidCharacter, line, column, [ch], InvalidCharacterReason(ch))]
    {
      ReportError(InvalidCharacter, line, column, [ch], InvalidCharacterReason(ch));
    }

    method ReportMalformedLiteral(line: int, column: int, lexeme: string, reason: string)
      requires Valid()
      modifies this
      ensures Valid()
      ensures errors == old(errors) + [LexicalError(MalformedLiteral, line, column, lexeme, reason)]
    {
      ReportError(MalformedLiteral, line, column, lexeme, reason);
    }

    method ReportInvalidIdentifier(line: int, column: int, lexeme: string, reason: string)
      requires Valid()
      modifies this
      ensures Valid()
      ensures errors == old(errors) + [LexicalError(InvalidIdentifier, line, column, lexeme, reason)]
    {
      ReportError(InvalidIdentifier, line, column, lexeme, reason);
    }

    /** The lexeme recorded is always the opening delimiter `#*`. */
    method ReportUnclosedComment(line: int, column: int)
      requires Valid()
      modifies this
      ensures Valid()
      ensures errors == old(errors) + [LexicalError(UnclosedComment, line, column, "#*", UnclosedCommentReason)]
    {
      ReportError(UnclosedComment, line, column, "#*", UnclosedCommentReason);
    }

    method ReportUnterminatedString(line: int, column: int, lexeme: string)
      requires Valid()
      modifies this
      ensures Valid()
      ensures errors == old(errors) + [LexicalError(UnterminatedString, line, column, lexeme, UnterminatedStringReason)]
    {
      ReportError(UnterminatedString, line, column, lexeme, UnterminatedStringReason);
    }

    method ReportUnterminatedChar(line: int, column: int, lexeme: string)
      requires Valid()
      modifies this
      ensures Valid()
      ensures errors == old(errors) + [LexicalError(UnterminatedChar, line, column, lexeme, UnterminatedCharReason)]
    {
      ReportError(UnterminatedChar, line, column, lexeme, UnterminatedCharReason);
    }

    function HasErrors(): (b: bool)
      reads this
      requires Valid()
      ensures b <==> errors != []
    {
      errorCount > 0
    }

    function GetErrorCount(): (n: int)
      reads this
      requires Valid()
      ensures n == |errors|
    {
      errorCount
    }

    /** A copy of the list as it stands. */
    method GetErrors() returns (r: seq<LexicalError>)
      ensures r == errors
    {
      r := errors;
    }

    /** The per-type counts of the summary; together they account for every error. */
    function Summary(): (s: ErrorSummary)
      reads this
      requires Valid()
      ensures s.Total() == errorCount
      ensures s.invalidCharacters == CountOfType(errors, InvalidCharacter)
      ensures s.malformedLiterals == CountOfType(errors, MalformedLiteral)
      ensures s.invalidIdentifiers == CountOfType(errors, InvalidIdentifier)
      ensures s.unclosedComments == CountOfType(errors, UnclosedComment)
      ensures s.unterminatedStrings == CountOfType(errors, UnterminatedString)
      ensures s.unterminatedChars == CountOfType(errors, UnterminatedChar)
    {
      TypeCountsSumToLength(errors);
      ErrorSummary(
        CountOfType(errors, InvalidCharacter),
        CountOfType(errors, MalformedLiteral),
        CountOfType(errors, InvalidIdentifier),
        CountOfType(errors, UnclosedComment),
        CountOfType(errors, UnterminatedString),
        CountOfType(errors, UnterminatedChar))
    }

    method Clear()
      modifies this
      ensures Valid() && errors == []
    {
      errors := [];
      errorCount := 0;
    }
  }
}

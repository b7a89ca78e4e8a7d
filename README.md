# A verified model of a hand-written lexical scanner

This project models the core of a small hand-written scanner for a toy
language. The language has:

- `#* ... *#` block comments and `## ...` line comments;
- twelve lower-case keywords and the boolean literals `true` and `false`;
- identifiers of the form `[A-Z][a-z0-9_]*`, at most 31 characters long;
- signed integer and float literals (1 to 6 fraction digits, an optional
  exponent);
- string and character literals with backslash escapes;
- one- and two-character operators, punctuators and whitespace.

The scanner walks the input with a cursor (position, line, column). At each
position it tries thirteen matchers in a fixed priority order. The first one
that applies consumes some text and does one of these:

- emits a token;
- removes a comment;
- skips whitespace;
- reports a lexical error to the error handler.

If no matcher applies, the character is reported as invalid and skipped.
Every identifier emitted is also recorded in a symbol table, with its first
position and its frequency.

The model has two layers:

- **Reference semantics** (module `Lexer`). Pure functions state what each
  matcher consumes at a position and what it records. `Dispatch` is one pass
  of the priority loop. `Run`/`ScanText` is the whole scan over an input.
- **The imperative scanner** (module `Scanner`, class `ManualScanner`). Its
  fields are those of the source, and each matcher is a `Try…` method. Every
  `Try…` method is proved to change the scanner's state exactly as the
  corresponding matcher function says (`Commit`), so `Scan` is proved to
  compute `Run`. A freshly constructed scanner is in state `Initial`, and
  `ScanSource` proves that a new scanner followed by `Scan` ends in
  `ScanText(input)`.

The properties of the language are proved about the reference semantics.
Module `LexerFacts` covers single matchers and the priority order. Module
`ScanFacts` covers the whole scan.

| module | file | models |
|---|---|---|
| `Tokens` | tokens.dfy | token categories and tokens, per-category counts |
| `Errors` | errors.dfy | error kinds, lexical errors, the error handler |
| `Symbols` | symbols.dfy | symbol entries, the symbol table, the listing order by name |
| `Lexer` | lexer.dfy | character classes, cursor, matchers, priority dispatch, the whole scan |
| `LexerFacts` | lexer_facts.dfy | priority, shape and completeness lemmas about the matchers |
| `ScanFacts` | scan_facts.dfy | line counting, append-only results, token and registry invariants of a scan |
| `Scanner` | scanner.dfy | the imperative scanner, proved against `Lexer` |

## Model

| member | source | states |
|---|---|---|
| Tokens.CountKind | src/ManualScanner.java:463-467 | the number of tokens of a category never exceeds the number of tokens |
| Tokens.CountKindAppend | src/ManualScanner.java:466 | adding a token raises the count of its own category by one and leaves every other category's count unchanged |
| Scanner.CountsAfterAppend | src/ManualScanner.java:466 | the per-category map, updated as `addToken` does, still holds the counts of the token list after the append |
| Errors.CountOfType | src/ErrorHandler.java:71-76 | the number of errors of one kind is at most the number of errors |
| Errors.TypeCountsSumToLength | src/ErrorHandler.java:68-76 | the six per-kind counts of the summary add up to the total number of errors |
| Errors.CountOfTypeAppend | src/ErrorHandler.java:13-17 | reporting an error raises the count of its kind by one and leaves the other kinds' counts unchanged |
| Errors.ErrorHandler.constructor | src/ErrorHandler.java:8-11 | a new handler holds no errors and its counter is 0 |
| Errors.ErrorHandler.ReportError | src/ErrorHandler.java:13-18 | the error is appended after all earlier ones, and the counter stays equal to the number of errors |
| Errors.ErrorHandler.ReportInvalidCharacter | src/ErrorHandler.java:20-24 | appends an invalid-character error whose lexeme is the one character and whose reason names it |
| Errors.InvalidCharacterReason | src/ErrorHandler.java:20-24 | the reason is `Invalid character 'c' not recognized` with the character itself in place of `c`, so it names the character |
| Errors.ErrorHandler.ReportMalformedLiteral | src/ErrorHandler.java:26-28 | appends a malformed-literal error with the given lexeme and reason |
| Errors.ErrorHandler.ReportInvalidIdentifier | src/ErrorHandler.java:30-32 | appends an invalid-identifier error with the given lexeme and reason |
| Errors.ErrorHandler.ReportUnclosedComment | src/ErrorHandler.java:34-37 | appends an unclosed-comment error with lexeme `#*` and the fixed reason |
| Errors.ErrorHandler.ReportUnterminatedString | src/ErrorHandler.java:39-42 | appends an unterminated-string error with the given lexeme and the fixed reason |
| Errors.ErrorHandler.ReportUnterminatedChar | src/ErrorHandler.java:44-47 | appends an unterminated-char error with the given lexeme and the fixed reason |
| Errors.ErrorHandler.HasErrors | src/ErrorHandler.java:49-51 | true exactly when some error has been reported |
| Errors.ErrorHandler.GetErrorCount | src/ErrorHandler.java:53-55 | the counter equals the number of errors reported |
| Errors.ErrorHandler.GetErrors | src/ErrorHandler.java:57-59 | returns the errors in the order they were reported, as a value the caller cannot alter |
| Errors.ErrorHandler.Summary | src/ErrorHandler.java:61-84 | the per-kind counts of the printed summary, each equal to the number of errors of that kind, and their total equals the counter |
| Errors.ErrorHandler.Clear | src/ErrorHandler.java:86-89 | afterwards no errors are held and the counter is 0 |
| Symbols.Register | src/SymbolTable.java:13-22 | a new name gets an entry of type `IDENTIFIER`, frequency 1 and the given first position; a known name only has its frequency raised by one |
| Symbols.RegisterKeepsOthers | src/SymbolTable.java:13-22 | registering a name leaves every other entry as it was, and the table grows by one exactly when the name is new |
| Symbols.NameLessIrreflexive | src/SymbolTable.java:48 | no name sorts before itself |
| Symbols.NameLessTransitive | src/SymbolTable.java:48 | the name order is transitive |
| Symbols.NameLessTotal | src/SymbolTable.java:48 | of two different names, one sorts before the other |
| Symbols.InsertByName | src/SymbolTable.java:47-48 | inserting an entry into a name-sorted list keeps it sorted, and the result is a permutation of the list plus the entry |
| Symbols.SymbolEntry.constructor | src/SymbolTable.java:70-76 | a new entry has type `IDENTIFIER`, frequency 1 and the given name and first position |
| Symbols.SymbolEntry.IncrementFrequency | src/SymbolTable.java:78-80 | raises the frequency by one and changes nothing else |
| Symbols.SymbolEntry.SetType | src/SymbolTable.java:102-104 | replaces the type and changes nothing else |
| Symbols.SymbolTable.constructor | src/SymbolTable.java:9-11 | a new table is empty and holds no entry object that existed before |
| Symbols.SymbolTable.AddIdentifier | src/SymbolTable.java:13-22 | the table's contents become `Register` of the old contents; every name already present keeps its own entry object; a known name's entry is updated in place and the set of entry objects is unchanged, while a new name gets a freshly allocated entry object, which joins that set |
| Symbols.SymbolTable.Contains | src/SymbolTable.java:24-26 | true exactly when the name has an entry |
| Symbols.SymbolTable.GetEntry | src/SymbolTable.java:28-30 | null exactly when the name has no entry; otherwise the very object filed under the name in the table, one of the table's entry objects, whose contents are the name's entry |
| Symbols.SymbolTable.GetSize | src/SymbolTable.java:32-34 | the number of distinct names registered |
| Symbols.SymbolTable.Clear | src/SymbolTable.java:58-60 | afterwards the table is empty |
| Symbols.SymbolTable.SortedEntries | src/SymbolTable.java:47-48 | lists every entry of the table exactly once and nothing else, in strictly ascending order of name |
| Lexer.Window | src/ManualScanner.java:479-482 | the look-ahead string is at most `n` long, and when it is `n` long it is the input's next `n` characters |
| Lexer.PeekAt | src/ManualScanner.java:469-477 | the character at a position, or the sentinel `'\0'` at or past the end of the input |
| Lexer.Advance | src/ManualScanner.java:484-493 | consuming one character moves the position by one; a newline raises the line by one and resets the column to 1, any other character raises the column by one |
| Lexer.RunLength | src/ManualScanner.java:175-177 | a run of a character class stays in the input and stops at the end or at the first character outside the class |
| Lexer.RunLengthAll | src/ManualScanner.java:175-177 | every character of a run belongs to the class |
| Lexer.MoveTo | src/ManualScanner.java:484-493 | consuming up to a position puts the cursor there and never lowers the line |
| Lexer.MoveToTrans | src/ManualScanner.java:484-493 | consuming in two stretches is consuming in one |
| Lexer.CommentCloseFrom | src/ManualScanner.java:72-80 | a block comment's end, when found, lies just after a `*#` within the input |
| Lexer.CommentCloseFirst | src/ManualScanner.java:72-80 | that end is the first `*#`; when none is found, no `*#` occurs in the rest of the input |
| Lexer.BlockCommentAt | src/ManualScanner.java:64-87 | applies exactly when `#*` is at the cursor, and then consumes at least one character within the input |
| Lexer.LineCommentAt | src/ManualScanner.java:89-101 | applies exactly when `##` is at the cursor, and then consumes at least one character within the input |
| Lexer.OperatorType | src/ManualScanner.java:443-461 | every two-character operator and every one-character operator gets a category other than `ERROR` |
| Lexer.TwoCharOperatorAt | src/ManualScanner.java:103-120 | applies exactly when the next two characters are one of the thirteen two-character operators, and then consumes exactly those two |
| Lexer.FirstKeyword | src/ManualScanner.java:122-135 | a keyword found matches at the cursor, followed by no letter, digit or `_` |
| Lexer.FirstKeywordFirst | src/ManualScanner.java:124-133 | the keyword found is the first in the list that matches |
| Lexer.FirstKeywordNone | src/ManualScanner.java:122-135 | no keyword is found exactly when none of the list matches |
| Lexer.FirstKeywordHit | src/ManualScanner.java:124-133 | when a keyword matches and no earlier one does, that keyword is found |
| Lexer.KeywordAt | src/ManualScanner.java:122-135 | a keyword match consumes at least one character within the input |
| Lexer.BooleanLiteralAt | src/ManualScanner.java:194-213 | a boolean match consumes at least one character within the input |
| Lexer.IdentifierAt | src/ManualScanner.java:162-192 | applies exactly when an upper-case letter is at the cursor, and then consumes within the input |
| Lexer.SignLength | src/ManualScanner.java:222-225 | the optional sign is at most one character and lies within the input |
| Lexer.FloatLiteralAt | src/ManualScanner.java:215-247 | a float match consumes at least one character within the input |
| Lexer.FloatAfterPoint | src/ManualScanner.java:249-268 | the fraction part of a float consumes within the input |
| Lexer.FloatExponent | src/ManualScanner.java:270-292 | the exponent part of a float consumes within the input |
| Lexer.IntegerLiteralAt | src/ManualScanner.java:295-330 | an integer match consumes at least one character within the input |
| Lexer.StringBodyEnd | src/ManualScanner.java:342-358 | a string's body stops at the end of the input, at a quote or at a newline, never before where it starts, and what it passes over is a well-formed body: no quote or newline outside a backslash escape |
| Lexer.StringLiteralAt | src/ManualScanner.java:332-368 | applies exactly when a double quote is at the cursor, and then consumes within the input |
| Lexer.CharBodyEnd | src/ManualScanner.java:385-398 | a character literal's body is at most two characters long and lies within the input; when more input follows, it is empty, one character other than a quote, a newline or a backslash, or a backslash and the character after it |
| Lexer.CharLiteralAt | src/ManualScanner.java:370-408 | applies exactly when a single quote is at the cursor, and then consumes within the input |
| Lexer.SingleCharOperatorAt | src/ManualScanner.java:410-420 | applies exactly when one of `+-*/%=<>!` is at the cursor, and then consumes exactly that character and emits it as a token of its own operator category, never `ERROR` |
| Lexer.PunctuatorAt | src/ManualScanner.java:422-431 | applies exactly when one of `(){}[],;:` is at the cursor, and then consumes exactly that character and emits a `PUNCTUATOR` token |
| Lexer.WhitespaceAt | src/ManualScanner.java:433-441 | applies exactly when a blank is at the cursor, and then consumes within the input |
| Lexer.InvalidCharacterAt | src/ManualScanner.java:55-58 | the fallback consumes exactly the one character at the cursor and reports it as an invalid character with that character as lexeme |
| Lexer.RuleAt | src/ManualScanner.java:41-53 | whichever matcher applies consumes at least one character within the input |
| Lexer.DispatchFrom | src/ManualScanner.java:41-58 | the first applicable matcher from a given priority on, or the invalid-character fallback, consumes at least one character within the input |
| Lexer.Dispatch | src/ManualScanner.java:37-59 | every pass of the scan loop consumes at least one character and stays within the input |
| Lexer.Step | src/ManualScanner.java:37-59 | every pass moves the cursor strictly forward |
| Lexer.Run | src/ManualScanner.java:36-62 | the scan loop ends, and it ends with the whole input consumed |
| LexerFacts.DispatchFromFirst | src/ManualScanner.java:41-53 | from priority `k` on, the first matcher that applies decides the pass |
| LexerFacts.DispatchFromNone | src/ManualScanner.java:55-58 | from priority `k` on, when no matcher applies the pass is the invalid-character fallback |
| LexerFacts.FirstApplicableWins | src/ManualScanner.java:41-53 | a pass is decided by the first matcher, in priority order, that applies |
| LexerFacts.NoneApplicableFallsBack | src/ManualScanner.java:55-58 | when no matcher applies, the pass reports the character as invalid, with its own reason, and skips just that character |
| LexerFacts.KeywordsStartLowerCase | src/ManualScanner.java:19-22 | every keyword is non-empty and starts with a lower-case letter |
| LexerFacts.KeywordNeedsLowerCase | src/ManualScanner.java:122-160 | no keyword matches unless a lower-case letter is at the cursor |
| LexerFacts.WindowHead | src/ManualScanner.java:479-482 | a non-empty look-ahead string starts with the character at the cursor |
| LexerFacts.BooleanNeedsLowerCase | src/ManualScanner.java:194-213 | no boolean literal matches unless a lower-case letter is at the cursor |
| LexerFacts.UpperCaseStartsIdentifier | src/ManualScanner.java:41-46 | at an upper-case letter, the pass is the identifier matcher: no earlier matcher applies |
| LexerFacts.QuoteStartsString | src/ManualScanner.java:41-49 | at a double quote, the pass is the string literal matcher: no earlier matcher applies |
| LexerFacts.PassesOn | src/ManualScanner.java:41-53 | a matcher that does not apply hands the pass on to the next one |
| LexerFacts.OneCharSymbolsAreNotBlank | src/ManualScanner.java:410-431 | no one-character operator or punctuator is a blank |
| LexerFacts.BlankPassesFirstRules | src/ManualScanner.java:41-46 | at a blank, none of the first six matchers applies |
| LexerFacts.BlankPassesLaterRules | src/ManualScanner.java:47-52 | at a blank, none of the matchers from floats to punctuators applies |
| LexerFacts.WhitespaceIsSkipped | src/ManualScanner.java:433-441 | at a blank, the pass skips the whole run of blanks and records nothing |
| LexerFacts.TwoCharOperatorsStartWithSymbol | src/ManualScanner.java:107-111 | every two-character operator has length 2 and starts with neither `#`, nor a letter, nor a blank, nor a quote |
| LexerFacts.TwoCharOperatorNeedsSymbol | src/ManualScanner.java:103-120 | a two-character operator only matches where a symbol, not `#`, a letter, a blank or a quote, is at the cursor |
| LexerFacts.TwoCharOperatorWins | src/ManualScanner.java:41-43 | where a two-character operator is at the cursor, the pass emits it as one token of its operator category, never as two one-character tokens |
| LexerFacts.KeywordsAreWords | src/ManualScanner.java:19-22 | every keyword consists of letters, digits and `_` only |
| LexerFacts.LongerWordCoversBoundary | src/ManualScanner.java:150-157 | when a word is a proper prefix of another one that matches, the character after the shorter word is alphanumeric |
| LexerFacts.WordMatchUnique | src/ManualScanner.java:137-160 | two words that both match at the same position are equal |
| LexerFacts.AtMostOneKeywordMatches | src/ManualScanner.java:122-135 | at most one keyword matches at a position, so the iteration order of the keyword set does not matter |
| LexerFacts.KeywordAtExactly | src/ManualScanner.java:122-160 | the keyword matcher applies exactly when some keyword matches at the cursor, not followed by a letter, digit or `_`, and then emits a `KEYWORD` token whose text is in the keyword set and matches there |
| LexerFacts.BooleanLiteralAtExactly | src/ManualScanner.java:194-213 | the boolean matcher applies exactly when `false` or `true` is at the cursor, not followed by a letter, digit or `_`, and then consumes exactly that word |
| LexerFacts.BooleansAreNotKeywords | src/ManualScanner.java:19-22 | neither `false` nor `true` is a keyword |
| LexerFacts.BooleanIsNoKeyword | src/ManualScanner.java:122-135 | where a boolean literal matches, no keyword does |
| LexerFacts.BooleanLiteralWins | src/ManualScanner.java:41-45 | where a boolean literal matches, the pass emits it as a boolean literal |
| LexerFacts.RunLengthExact | src/ManualScanner.java:175-177 | a stretch of class characters followed by the end or by a character outside the class is exactly the run |
| LexerFacts.CharClassesApart | src/ManualScanner.java:495-517 | no blank is a letter, digit or `_`; an identifier's tail characters are letters, digits or `_` but never upper-case; no digit is a letter; every letter is a word character and not a blank |
| LexerFacts.IdentifierAtExactly | src/ManualScanner.java:162-192 | an identifier takes the whole run of `[a-z0-9_]` after its first letter; up to 31 characters it is emitted and registered, longer it is reported as an invalid identifier with its whole text |
| LexerFacts.FloatTextIntro | src/ManualScanner.java:215-293 | a signed numeral, a point, one to six digits and an optional exponent form float text |
| LexerFacts.DigitRunIsNumeral | src/ManualScanner.java:235-237 | a non-empty run of digits is a numeral |
| LexerFacts.SignedNumeralAt | src/ManualScanner.java:221-237 | the optional sign followed by the whole run of digits is a signed numeral |
| LexerFacts.SignedNumeralRun | src/ManualScanner.java:221-237 | conversely, a signed numeral followed by no digit is exactly the optional sign and the whole run of digits that the matchers read |
| LexerFacts.IntegerLiteralShape | src/ManualScanner.java:295-330 | an integer literal is emitted as a signed numeral that is followed by neither a digit nor a point |
| LexerFacts.IntegerLiteralComplete | src/ManualScanner.java:295-330 | conversely, every signed numeral followed by neither a digit nor a point is taken whole as an integer literal |
| LexerFacts.NumberMatchersSplit | src/ManualScanner.java:215-330 | the float and the integer matcher never both apply, and one of them applies exactly when a digit follows the optional sign |
| LexerFacts.FloatExponentShape | src/ManualScanner.java:270-292 | the exponent part, when emitted, is empty or an `e`/`E`, an optional sign and digits |
| LexerFacts.FloatParts | src/ManualScanner.java:215-293 | an emitted float splits into a signed numeral, a point, one to six fraction digits and the exponent part |
| LexerFacts.FloatLiteralShape | src/ManualScanner.java:215-293 | every emitted float literal is float text |
| LexerFacts.FloatPointAt | src/ManualScanner.java:215-247 | a signed numeral followed by a point commits the float matcher, which goes on after the point and no longer rolls back |
| LexerFacts.FloatFractionTaken | src/ManualScanner.java:249-268 | one to six fraction digits, all of them, take the float on to its exponent part |
| LexerFacts.FloatExponentTaken | src/ManualScanner.java:270-292 | an `e` or `E` followed by a signed numeral that no digit follows is taken whole into the float, which is emitted |
| LexerFacts.FloatLiteralComplete | src/ManualScanner.java:215-293 | conversely to `FloatLiteralShape`: a signed numeral, a point, one to six digits and either a maximal exponent or nothing that could continue the number is emitted whole as one float literal |
| LexerFacts.FloatTextScanned | src/ManualScanner.java:215-293 | every float text followed by neither a digit nor `e`/`E` is scanned as exactly that one float literal |
| LexerFacts.FloatExponentRejected | src/ManualScanner.java:270-284 | an `e` or `E` with an optional sign but no digit after it is reported as a malformed literal for want of exponent digits, with the text up to the sign consumed |
| LexerFacts.FloatFractionRejected | src/ManualScanner.java:249-268 | a point followed by no digit, or by more than six, is reported as a malformed literal for its fraction digits, with the text up to the last digit consumed |
| LexerFacts.MalformedFloatReported | src/ManualScanner.java:257-284 | a float that is not emitted is reported as a malformed literal whose lexeme is the text consumed, with one of the two reasons |
| LexerFacts.FloatTakesAllDigits | src/ManualScanner.java:235-288 | a float match, whatever its outcome, never stops in front of a digit |
| LexerFacts.StringLiteralShape | src/ManualScanner.java:332-368 | a string literal is emitted with both quotes, or reported as unterminated with the text consumed when a newline or the end of the input comes first; either way, what follows the opening quote has no quote or newline outside a backslash escape |
| LexerFacts.StringBodyEndFirst | src/ManualScanner.java:342-358 | the body scan stops at the first quote, newline or end of input outside an escape: any well-formed body that reaches one of them ends exactly where the scan does |
| LexerFacts.StringLiteralComplete | src/ManualScanner.java:332-368 | conversely, a well-formed body followed by a quote is emitted as one string literal, and one followed by a newline or the end of the input is reported as unterminated with the text consumed |
| LexerFacts.CharBodyLongest | src/ManualScanner.java:385-398 | a character literal's body is the longest body available after the opening quote, whether or not a closing quote follows: a character other than a quote, a newline or a backslash is always taken, an escape takes two characters, and a backslash that ends the input is taken alone |
| LexerFacts.CharLiteralShape | src/ManualScanner.java:370-408 | a character literal is emitted with both quotes and a body between them that is empty, one character other than a quote, a newline or a backslash, or one escape; otherwise it is reported as unterminated with the text consumed, no closing quote follows, and that text is the opening quote with the longest body available (or a lone trailing backslash) |
| LexerFacts.CharLiteralComplete | src/ManualScanner.java:370-408 | conversely, a quote, a well-formed body and a closing quote are emitted as one character literal |
| LexerFacts.CharLiteralUnterminated | src/ManualScanner.java:370-403 | conversely, when the longest body after the opening quote is not followed by a closing quote, exactly the quote and that body are reported as an unterminated character literal (with a backslash that ends the input taken as well) |
| LexerFacts.BlockCommentShape | src/ManualScanner.java:64-87 | a block comment ends at the first `*#` and is counted; with no `*#` left, the rest of the input is consumed and an unclosed comment is reported with lexeme `#*` |
| LexerFacts.LineCommentShape | src/ManualScanner.java:89-101 | a line comment is counted and runs up to the next newline, which it leaves unconsumed, or to the end of the input |
| LexerFacts.RuleEmitsProperKind | src/ManualScanner.java:103-431 | no matcher emits an `ERROR` token, and none emits an identifier token without registering it |
| LexerFacts.DispatchFromEmitsProperKind | src/ManualScanner.java:41-58 | the same holds from any priority on |
| LexerFacts.DispatchEmitsProperKind | src/ManualScanner.java:37-59 | no pass emits an `ERROR` token, and identifier tokens come only with a registration |
| LexerFacts.RuleRegistersOnlyIdentifiers | src/ManualScanner.java:103-431 | of all matchers, only the identifier matcher registers a name |
| LexerFacts.DispatchFromRegisters | src/ManualScanner.java:41-58 | from any priority on, a pass that registers a name is the identifier matcher's outcome |
| LexerFacts.DispatchRegisters | src/ManualScanner.java:37-59 | a pass registers a name only at an upper-case letter, and then consumes exactly the identifier that starts there |
| ScanFacts.NewlinesIn | src/ManualScanner.java:484-493 | the newlines in a stretch are at most its length |
| ScanFacts.NoNewlinesIn | src/ManualScanner.java:484-493 | text without a newline counts no newline |
| ScanFacts.MoveToCountsLines | src/ManualScanner.java:484-493 | consuming text raises the line by its number of newlines; without a newline the column grows by its length; after a newline the column is 1 |
| ScanFacts.StepMovesCursor | src/ManualScanner.java:37-59 | after a pass the cursor stands just after the text consumed |
| ScanFacts.ApplyRecordsOne | src/ManualScanner.java:37-59 | applying a matcher's outcome moves the cursor over its text, keeps everything recorded before, and records exactly one token, error or comment unless it skipped whitespace |
| ScanFacts.CommitMoves | src/ManualScanner.java:41-53 | a matcher that does not apply leaves the state as it was; one that applies leaves the cursor at the end of its text |
| ScanFacts.ExtendsTransitive | src/ManualScanner.java:36-62 | growing by appending, twice over, is growing by appending |
| ScanFacts.StepRecordsOne | src/ManualScanner.java:37-59 | a pass only appends, and records exactly one token, error or comment, except when it skips whitespace, which records nothing |
| ScanFacts.RunExtends | src/ManualScanner.java:36-62 | a scan only appends to the tokens and errors it started with |
| ScanFacts.RunCursor | src/ManualScanner.java:36-62 | a scan leaves the cursor where consuming the rest of the input character by character would |
| ScanFacts.RunLines | src/ManualScanner.java:529 | a scan ends on its starting line plus the number of newlines left to read |
| ScanFacts.StepKeepsProperTokens | src/ManualScanner.java:463-467 | a pass keeps every token non-empty and of a category other than `ERROR` |
| ScanFacts.RunKeepsProperTokens | src/ManualScanner.java:36-62 | a scan keeps every token non-empty and of a category other than `ERROR` |
| ScanFacts.IdentifierCount | src/SymbolTable.java:78-80 | the identifier tokens with a given spelling are at most all the tokens |
| ScanFacts.IdentifierCountAppend | src/ManualScanner.java:188-189 | an identifier token adds one to the count of its own spelling and nothing to others |
| ScanFacts.StepKeepsRegistry | src/ManualScanner.java:188-189 | a pass keeps each name's frequency in the symbol table equal to its number of identifier tokens |
| ScanFacts.RunKeepsRegistry | src/SymbolTable.java:13-22 | a scan keeps each name's frequency equal to its number of identifier tokens |
| ScanFacts.RegisteredOnOneLine | src/ManualScanner.java:162-192 | a pass that registers an identifier ends on the line it started on, so the line registered and the line of the identifier's token agree |
| ScanFacts.FirstIdentifier | src/SymbolTable.java:13-22 | gives the index of an identifier token with the given spelling before which no other has it, or none when no token has it |
| ScanFacts.FirstIdentifierAppend | src/ManualScanner.java:188-189 | appending a token keeps the first identifier of every spelling, and makes the new token first for its spelling if it is an identifier spelled so for the first time |
| ScanFacts.StepKeepsFirstSightings | src/SymbolTable.java:13-22 | a pass keeps a name in the symbol table exactly when an identifier token spells it, with the line and column of the first such token |
| ScanFacts.RunKeepsFirstSightings | src/SymbolTable.java:13-22 | a scan keeps each entry's first line and column at the first identifier token with its name |
| ScanFacts.StepKeepsLinesInOrder | src/ManualScanner.java:463-467 | a pass keeps the token lines non-decreasing and none past the cursor's line, because a token's line is the line reached after its text |
| ScanFacts.RunKeepsLinesInOrder | src/ManualScanner.java:36-62 | a scan keeps the token lines non-decreasing |
| ScanFacts.IdentifierStep | src/ManualScanner.java:162-192 | at an upper-case letter, a pass emits and registers an identifier of up to 31 characters at its start position, and otherwise reports it there, emitting and registering nothing |
| ScanFacts.ScanTextLines | src/ManualScanner.java:529 | the line count reported after a scan is 1 plus the number of newlines in the input |
| ScanFacts.ScanTextTokens | src/ManualScanner.java:36-62 | every token of a scan is non-empty and of a category other than `ERROR` |
| ScanFacts.ScanTextRegistry | src/SymbolTable.java:13-22 | after a scan, the symbol table holds exactly the identifiers emitted, each filed under its own name with its number of occurrences as frequency |
| ScanFacts.ScanTextFirstSightings | src/SymbolTable.java:13-22 | after a scan, each entry's first line and column are those of the first identifier token with its name |
| ScanFacts.ScanTextLinesInOrder | src/ManualScanner.java:463-467 | the tokens of a scan come in order of their lines |
| ScanFacts.EscapedNewlineOutOfColumnOrder | src/ManualScanner.java:463-467 | on the input `   "\` newline `"X`, the string literal token is filed at line 2, column 4 and the identifier after it at line 2, column 2, so tokens are not in (line, column) order |
| Scanner.ManualScanner.constructor | src/ManualScanner.java:24-34 | a new scanner is at position 0, line 1, column 1, with no tokens, errors, symbols or comments: the initial scan state; its error handler, its symbol table and the table's entry objects are all newly allocated |
| Scanner.ManualScanner.Peek | src/ManualScanner.java:469-472 | the character under the cursor, or `'\0'` at the end of the input |
| Scanner.ManualScanner.PeekAhead | src/ManualScanner.java:474-477 | the character `offset` places ahead of the cursor, or `'\0'` past the end of the input |
| Scanner.ManualScanner.PeekString | src/ManualScanner.java:479-482 | the next `length` characters of the input, or all that are left when fewer remain |
| Scanner.ManualScanner.Consume | src/ManualScanner.java:484-493 | returns the character at the cursor and advances the cursor over it |
| Scanner.ManualScanner.AddToken | src/ManualScanner.java:463-467 | appends a token at the current line and the token's start column, and keeps the per-category counts in step |
| Scanner.ManualScanner.AppendConsume | src/ManualScanner.java:224 | consumes one character and extends the collected text by it |
| Scanner.ManualScanner.AppendCount | src/ManualScanner.java:127-129 | consumes `n` characters and extends the collected text by them |
| Scanner.ManualScanner.AppendWhile | src/ManualScanner.java:175-177 | consumes the whole run of a character class and extends the collected text by it |
| Scanner.ManualScanner.SkipWhile | src/ManualScanner.java:94-96 | consumes the whole run of a character class |
| Scanner.ManualScanner.AppendCommentBody | src/ManualScanner.java:72-80 | consumes up to the first `*#` inclusive, or to the end of the input when there is none, and says which |
| Scanner.ManualScanner.AppendStringBody | src/ManualScanner.java:342-358 | consumes a string's body up to a closing quote, a newline or the end of the input |
| Scanner.ManualScanner.Scan | src/ManualScanner.java:36-62 | the scanner's state becomes the reference scan of the rest of the input, and the tokens are returned |
| Scanner.ScanSource | src/ManualScanner.java:563-564 | a new scanner over a text, scanned once, ends in the reference scan of the whole text |
| Scanner.ManualScanner.ScanStep | src/ManualScanner.java:37-59 | one pass of the loop changes the state exactly as the reference pass does |
| Scanner.ManualScanner.TryRule | src/ManualScanner.java:41-53 | trying matcher `k` reports whether it applies and commits its outcome |
| Scanner.ManualScanner.TryMultiLineComment | src/ManualScanner.java:64-87 | commits the block comment matcher's outcome, and reports whether it applied |
| Scanner.ManualScanner.TrySingleLineComment | src/ManualScanner.java:89-101 | commits the line comment matcher's outcome, and reports whether it applied |
| Scanner.ManualScanner.TryMultiCharOperator | src/ManualScanner.java:103-120 | commits the two-character operator matcher's outcome, and reports whether it applied |
| Scanner.ManualScanner.MatchesKeyword | src/ManualScanner.java:137-160 | true exactly when the keyword is at the cursor and not followed by a letter, digit or `_` |
| Scanner.ManualScanner.TryKeyword | src/ManualScanner.java:122-135 | commits the keyword matcher's outcome, and reports whether it applied |
| Scanner.ManualScanner.TryBooleanLiteral | src/ManualScanner.java:194-213 | commits the boolean matcher's outcome, and reports whether it applied |
| Scanner.ManualScanner.TryIdentifier | src/ManualScanner.java:162-192 | commits the identifier matcher's outcome, including the symbol table update, and reports whether it applied |
| Scanner.ManualScanner.EmitIdentifierToken | src/ManualScanner.java:187-188 | adds the identifier token and records the identifier at its start position in the symbol table, exactly as the reference outcome says |
| Scanner.ManualScanner.TryFloatLiteral | src/ManualScanner.java:215-247 | commits the float matcher's outcome, restoring the cursor when it does not apply, and reports whether it applied |
| Scanner.ManualScanner.FloatFraction | src/ManualScanner.java:249-268 | commits the fraction part's outcome |
| Scanner.ManualScanner.FloatExponentPart | src/ManualScanner.java:270-292 | commits the exponent part's outcome |
| Scanner.ManualScanner.TryIntegerLiteral | src/ManualScanner.java:295-330 | commits the integer matcher's outcome, restoring the cursor when it does not apply, and reports whether it applied |
| Scanner.ManualScanner.TryStringLiteral | src/ManualScanner.java:332-368 | commits the string matcher's outcome, and reports whether it applied |
| Scanner.ManualScanner.TryCharLiteral | src/ManualScanner.java:370-408 | commits the character literal matcher's outcome, and reports whether it applied |
| Scanner.ManualScanner.TrySingleCharOperator | src/ManualScanner.java:410-420 | commits the one-character operator matcher's outcome, and reports whether it applied |
| Scanner.ManualScanner.TryPunctuator | src/ManualScanner.java:422-431 | commits the punctuator matcher's outcome, and reports whether it applied |
| Scanner.ManualScanner.TryWhitespace | src/ManualScanner.java:433-441 | commits the whitespace matcher's outcome, and reports whether it applied |

## Left out

- Printing is not modelled. This covers `printTokens`, `printStatistics`, the output of `printErrorSummary`, the formatting of `SymbolTable.print`, every `toString`, and the echo of each error to standard error. Only the counts and the listing order they print are modelled, as `Summary` and `SortedEntries`.
- `main` and `readFile` are not modelled, because they are file and console I/O. The input text is a parameter of the scanner.
- The getters `getTokens`, `getErrorHandler` and `getSymbolTable` are not modelled, because they only read fields, and those fields are visible in the model.
- The keyword set's iteration order is not modelled. The source keeps the keywords in a hash set, and the model tries them in a fixed list order. `AtMostOneKeywordMatches` shows that the order cannot change the outcome.
- The symbol table's hash map becomes a Dafny map from names to entry objects. A ghost map of entry values mirrors it.
- Error reasons are kept as fixed strings. The reason for an invalid character is built from the character, as in the source.
- Scanner.ManualScanner.ScanStep writes the chain of thirteen `if (tryX()) continue;` tests as a loop over the matcher index that calls `TryRule`. The order is the same and the first match still wins.
- Scanner.ManualScanner.AppendWhile stops at the end of the input, where the source's `peek` returns the `'\0'` sentinel. No class of characters it consumes contains `'\0'`, so the two agree.
- Scanner.ManualScanner.FloatFraction counts fraction digits as a difference of positions rather than with `decimalDigits++`. The loop at lines 260-263 that consumes extra digits is kept as written; the digit loop before it has already consumed every digit, so it consumes nothing.
- The categories `SINGLE_LINE_COMMENT`, `MULTI_LINE_COMMENT`, `WHITESPACE`, `ERROR` and `EOF` are in the datatype, but no matcher emits them. The model proves that no `ERROR` token is ever emitted.
- A token's line is the line reached after its text, because `addToken` runs after consumption. This is modelled as written. It matters only for a string or character literal whose text holds a backslash followed by a newline. Token lines still never decrease (`ScanTextLinesInOrder`), but tokens are not in (line, column) order when such a literal is followed on its last line by a token to the left of the literal's start column (`EscapedNewlineOutOfColumnOrder`).
- `Token.java` is not part of this model. The token is modelled from its use at src/ManualScanner.java:464, with a category, a lexeme, a line and a column.
- The per-category token counts are statistics for printing. They are kept equal to the counts of the token list, but their printed order is not modelled.
- The empty character literal `''` is accepted and emitted as a character literal, as the source does.
- Characters are Unicode scalar values, while a Java `char` is a UTF-16 code unit. A character outside the Basic Multilingual Plane is one character here, so it draws one invalid-character error and moves the column by one; the source sees two units and reports two errors, moving the column by two.

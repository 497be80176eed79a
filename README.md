# Fortran prescanner and parse state, modelled in Dafny

This project models two pieces of the f18 Fortran front end.

**The prescanner** (`lib/parser/prescan.cc`) reads a physical source buffer one line at
a time. It does four things:

- It classifies each line: compiler directive, comment, INCLUDE line, preprocessor
  directive of one of four kinds, or plain source. The rules differ between fixed-form
  and free-form source.
- It decides whether the next line continues the current one, and where that line's
  content starts.
- It keeps a registry of compiler-directive sentinels: a two-hash Bloom filter backed
  by an exact set.
- It cuts the characters of a line into tokens. Along the way it pairs two-character
  operators, detects Hollerith literals, counts delimiter nesting, squeezes free-form
  blanks, pads fixed-form character literals to the column limit, and builds the
  label field.

**The parse state** (`lib/parser/parse-state.h`) is the parser's backtracking state.
It holds a bounded cursor, a message list with deferral, a context stack, and the
flags that `CombineFailedParses` merges.

How the model is built:

- **The buffer** is a `string` (`seq<char>`) that ends in a newline (`Lines.WellFormed`).
  Every pointer of the source becomes a `nat` index into it.
- **The classifiers and recognisers** exist twice:
  - as pure specification functions over the buffer, in the modules `Lines`,
    `Continuations` and `IncludePaths`;
  - as the loops the source writes, as methods of the class `Prescan.Prescanner` (or
    module-level methods of `Prescan`), each proved to compute its specification
    function.
- **The module `LineFacts`** holds the properties stated about the specification
  functions: column-by-column shapes of INCLUDE lines, of fixed-form comment lines, of
  compiler-directive, comment and continuation lines in their common layouts,
  precedence in `ClassifyLine`, the INCLUDE path round trip, the operator table, and
  the delimiter-nesting bound.
- **The scanner state** lives in the class `Prescan.Prescanner`. Its methods update
  the cursors (`at`, `column`, `nextLine`) and the flags (`delimiterNesting`,
  `preventHollerith`, `inCharLiteral`, `insertASpace`, …) in place.
  - Tokens go into a `Tokens.TokenSequence`, whose fields are the closed tokens and
    the open one.
  - Diagnostics are appended to a `messages` sequence.
  - The recursion among `NextChar`, `Continuation`, `SkipCommentLine` and
    `TokenizePreprocessorDirective` terminates by a lexicographic measure: whether a
    preprocessor directive is being read, then a fixed rank per method.
- **The sentinel registry** is the class `Sentinels.SentinelRegistry`. It holds a
  `bool` array for the Bloom bits and a set of sentinel strings.
- **`ParseState`** is the class `ParseStates.ParseState`. The message context is a
  stack of frames.

Some declarations live in headers that are not part of this model (`prescan.h`,
`characters.h`, `token-sequence.h`). What the calls in `prescan.cc` need from them is
written out and named that way below:

- `prime1`/`prime2`/the bitset size are taken as 1019 and 1021.
- `IsCComment`, `BeginSourceLine`, `EmitChar`/`EmitCharAndAdvance` and the
  `TokenSequence` operations are reconstructed from how `prescan.cc` uses them.

## Model

| member | source | states |
|---|---|---|
| Chars.DecimalDigitValue | lib/parser/prescan.cc:446 | the value of a decimal digit is below ten |
| Chars.ToLowerCaseLetter | lib/parser/prescan.cc:532 | an upper-case letter maps to its lower-case partner (code + 32); every other character is left alone; the result is never an upper-case letter |
| Chars.ToLower | lib/parser/prescan.cc:1063-1065 | case-folding a string keeps its length and folds each position |
| Chars.ToLowerIdempotent | lib/parser/prescan.cc:1063-1065 | folding yields an all-lower-case string; folding twice equals folding once; an all-lower-case string is its own fold |
| Chars.CString | lib/parser/prescan.cc:1076-1078 | a NUL-terminated buffer spells its longest NUL-free prefix; when that prefix is shorter than the buffer, a NUL follows it |
| Continuations.DirectiveColumnsMatch | lib/parser/prescan.cc:836-850 | when the sentinel columns of a continued fixed-form directive match, columns j to 6 lie on the line with no newline |
| Continuations.FixedContinuationLine | lib/parser/prescan.cc:825-889 | a fixed-form continuation's content starts within the next line; a space is requested only for a continued directive, and only when the caller said one might be needed |
| Continuations.DirectiveContinuation | lib/parser/prescan.cc:831-858 | a continued fixed-form directive's content starts within the line; a space is requested only if the caller allowed it |
| Continuations.FreeContinuationLine | lib/parser/prescan.cc:891-933 | a free-form continuation's content starts within the next line |
| Continuations.SentinelContinuation | lib/parser/prescan.cc:897-916 | a continued free-form directive's content starts after the '!' and within the line |
| IncludePaths.ScanPath | lib/parser/prescan.cc:719-729 | path scanning either stops at the line's newline (malformed), or stops at a closing quote not followed by another quote, with no newline before it and a newline-free path no longer than the scanned text |
| IncludePaths.Escape | lib/parser/prescan.cc:721-729 | the written form of a path, with each quote doubled, is never shorter than the path |
| IncludePaths.ScanEscaped | lib/parser/prescan.cc:721-729 | scanning the written form of a path followed by a lone closing quote returns that path and the position of the closing quote: each doubled quote yields one quote |
| IncludePaths.FirstQuote | lib/parser/prescan.cc:715-718 | the first quote at or after the given position, with no quote before it |
| IncludePaths.ParseInclude | lib/parser/prescan.cc:714-742 | a malformed path spans from the first quote to the line's newline; a good path is found exactly when the path scan from the first quote closes, and it is the scanned path; it has no newline, and the excess-characters range after it ends at the first '!' or newline |
| IncludePaths.StatementEnd | lib/parser/prescan.cc:738-739 | the first '!' or newline at or after the position |
| LineFacts.IncludeLineShape | lib/parser/prescan.cc:700-712 | IsIncludeLine yields offset q exactly when the line is blanks, then "include" in any case, then blanks, then a quote at q |
| LineFacts.IncludeLineWord | lib/parser/prescan.cc:700-712 | one direction of IncludeLineShape: a found offset has the blanks-include-blanks-quote shape |
| LineFacts.IncludeLineFromWord | lib/parser/prescan.cc:700-712 | the other direction: that shape yields exactly the quote's offset |
| LineFacts.UnclosedPathMalformed | lib/parser/prescan.cc:721-730 | a path with no closing quote before the newline scans as malformed at the line's end |
| LineFacts.IncludeWithoutClosingQuote | lib/parser/prescan.cc:730-734 | with no closing quote, the INCLUDE parse is malformed from the first quote to the newline |
| LineFacts.IncludePathRoundTrip | lib/parser/prescan.cc:719-729 | parsing a quoted path whose quotes are doubled returns exactly that path |
| LineFacts.FixedBlankRun | lib/parser/prescan.cc:669-681 | the blank run of a fixed-form line (blanks, tabs, and a column-6 '0' with no tab before it) ends at the first character outside it, and reports whether a tab came before that character |
| LineFacts.FixedFormCommentCases | lib/parser/prescan.cc:662-689 | with or without tabs in the blank run: a fixed-form line is a comment exactly when column 1 is one of !*Cc% (or D/d with debug lines off), or a tab-free run reaches the column limit, or the run ends at a '!' outside a literal that is not column 6 of a tab-free run, or at the newline |
| LineFacts.BangInColumnSix | lib/parser/prescan.cc:685-687 | five blanks followed by '!' in column 6 do not make a comment line |
| LineFacts.SkipWhiteAndCCommentsToPlain | lib/parser/prescan.cc:361-376 | skipping blanks and block comments stops at the first non-blank character that does not open a block comment |
| LineFacts.FreeFormCommentShape | lib/parser/prescan.cc:691-698 | a free-form line whose first non-blank character does not open a block comment is a comment exactly when that character is '!' or the newline, and the comment starts there |
| LineFacts.DirectiveBeforeComment | lib/parser/prescan.cc:1089-1101 | a compiler-directive line is classified as that directive even though it is also a comment line, in both forms |
| LineFacts.HashLineIsDirective | lib/parser/prescan.cc:1087-1124 | a line starting with '#' is classified by the directive word after the '#' (conditional, include, definition or other), whatever the form |
| LineFacts.HashRest | lib/parser/prescan.cc:1107-1122 | after the directive and comment tests, a '#' line is neither INCLUDE nor source: its kind is chosen by the directive word |
| LineFacts.HashInColumnSix | lib/parser/prescan.cc:769-772 | in fixed form, a '#' in column 6 after five blanks is not a preprocessor line, and the line is source |
| LineFacts.FreeFormDirectiveShape | lib/parser/prescan.cc:1030-1059 | a free-form line of blanks, '!' and a word of 1 to 6 characters ended by blank, tab or '&' is a directive exactly when the next non-blank is not '!' and the folded word is registered; its sentinel is that word |
| LineFacts.FreeFormNotDirective | lib/parser/prescan.cc:1032-1043 | a free-form line without a leading '!', or with an empty word after it, is not a directive |
| LineFacts.FixedSentinelWord | lib/parser/prescan.cc:995-1008 | a run of non-blank sentinel characters from column 2 is collected case-folded, one per column: a scan that has gathered the first characters of the folded word gathers all of it |
| LineFacts.FixedSentinelBlanks | lib/parser/prescan.cc:995-1000 | blanks up to column 5 end the sentinel scan at column 6 with what was collected |
| LineFacts.FixedFormDirectiveShape | lib/parser/prescan.cc:988-1027 | a fixed-form line with a comment character in column 1, a sentinel of one to four characters from column 2 and blanks to column 5 is a directive exactly when column 6 is blank, tab or '0' and the folded sentinel is registered; its sentinel is that word and its payload starts at column 7 |
| LineFacts.FixedFormDollarDigit | lib/parser/prescan.cc:1003-1005 | after "$" in column 2, a digit in columns 3-5 (after blanks) ends the sentinel: the line is a directive exactly when "$" is registered, with its payload at the digit |
| LineFacts.FixedSentinelDigit | lib/parser/prescan.cc:995-1005 | after "$", the scan skips blanks and stops at the digit |
| LineFacts.FixedContinuationCases | lib/parser/prescan.cc:860-888 | outside a directive, a fixed-form line is tried in order: column-1 '&' (feature on) continues at column 2; else tab+digit at column 3; else five blanks + a column-6 mark at column 7; else open delimiters without a comment character at column 1; it continues exactly in these cases and never inserts a space |
| LineFacts.FreeContinuationCases | lib/parser/prescan.cc:917-931 | outside a directive, a free-form line whose first non-blank is '&' continues after it; a '!', blank or '#' line never continues; any other line continues exactly after a trailing '&' or inside open brackets, at one blank before its first character, or at it with a space requested when it has no indentation |
| LineFacts.SentinelContinuationCases | lib/parser/prescan.cc:897-916 | inside a directive, a free-form line continues only when it is '!' and the sentinel; then an '&' after the sentinel puts the content after it (a space requested unless the line before ended with '&'), and otherwise it continues at the next non-blank exactly when the line before ended with '&' |
| LineFacts.TwoCharOperators | lib/parser/prescan.cc:515-522 | a character pair forms one token exactly when it is one of <= >= /= == != // :: ** ## && \|\| << >> => |
| LineFacts.NestingBounds | lib/parser/prescan.cc:508-512 | over any characters, delimiter nesting stays at or above zero and never exceeds the start plus the number of openers |
| LineFacts.NestingStepInverse | lib/parser/prescan.cc:508-512 | a matching closer undoes an opener, and a closer at depth zero leaves it at zero |
| Lines.LineEnd | lib/parser/prescan.cc:239-248 | the position of the first newline at or after i |
| Lines.SkipWhite | lib/parser/prescan.cc:354-359 | the first position at or after i that is neither blank nor tab |
| Lines.SkipSpaceChars | lib/parser/prescan.cc:767-768 | the first position at or after i that is not a blank |
| Lines.FirstCloseFrom | lib/parser/prescan.cc:378-389 | the first position whose two preceding characters are "*/", or none when there is none |
| Lines.CCommentEndInside | lib/parser/prescan.cc:378-389 | in a newline-terminated buffer, a closed block comment ends before the end of the buffer |
| Lines.SkipWhiteAndCComments | lib/parser/prescan.cc:361-376 | skipping stops at a non-blank, and stops at a block-comment opener only when that comment is never closed |
| Lines.FixedSentinelScan | lib/parser/prescan.cc:995-1008 | the fixed-form sentinel scan stays within columns 2 to 6 of the line and yields a lower-case sentinel no longer than the columns read |
| Lines.IsFixedFormCompilerDirectiveLine | lib/parser/prescan.cc:988-1027 | a fixed-form directive begins with a comment character and has a non-empty registered sentinel of at most four characters; its payload lies within the buffer |
| Lines.FixedBlankEnd | lib/parser/prescan.cc:669-681 | the blank run stops at a character that is neither blank nor tab, and never at a column-6 '0' when no tab was seen |
| Lines.IsFreeFormComment | lib/parser/prescan.cc:691-698 | a free-form comment is found at a '!' or newline reached after blanks and closed block comments |
| Lines.WordEnd | lib/parser/prescan.cc:1036-1040 | the first newline, blank, tab or '&' at or after i |
| Lines.FreeDirectiveAfterWord | lib/parser/prescan.cc:1044-1054 | a directive found after the sentinel word has a registered sentinel and a payload within the buffer |
| Lines.IsFreeFormCompilerDirectiveLine | lib/parser/prescan.cc:1029-1059 | a free-form directive has a registered sentinel and a payload within the buffer |
| Lines.IsIncludeLine | lib/parser/prescan.cc:700-712 | a found INCLUDE offset points at a quote |
| Lines.IsPreprocessorDirectiveLine | lib/parser/prescan.cc:765-780 | a preprocessor line yields the first non-blank after its '#' |
| ParseStates.Pushed | lib/parser/parse-state.h:127-131 | pushing puts the new frame on top of the context, one frame deeper |
| ParseStates.Popped | lib/parser/parse-state.h:133-136 | popping a non-empty context removes exactly its top frame |
| ParseStates.PopUndoesPush | lib/parser/parse-state.h:127-136 | a pop after a push restores the previous context |
| ParseStates.PopsUndoPushes | lib/parser/parse-state.h:127-136 | n pops after n pushes restore the original context |
| ParseStates.PushAll | lib/parser/parse-state.h:127-131 | pushing a run of frames deepens the context by their number |
| ParseStates.ParseState.constructor | lib/parser/parse-state.h:42-43 | a fresh state has its cursor at 0, its limit at the text size, no messages, no context, no user state and every flag clear |
| ParseStates.ParseState.Copy | lib/parser/parse-state.h:44-51 | the copy takes every field of the original except the messages, which start empty |
| ParseStates.ParseState.Assign | lib/parser/parse-state.h:61-70 | assignment takes every field of the other state and keeps this state's own messages |
| ParseStates.ParseState.SetAnyErrorRecovery | lib/parser/parse-state.h:90 | sets the error-recovery flag and nothing else |
| ParseStates.ParseState.SetAnyConformanceViolation | lib/parser/parse-state.h:93 | sets the conformance-violation flag and nothing else |
| ParseStates.ParseState.SetUserState | lib/parser/parse-state.h:96-99 | replaces the user state and nothing else |
| ParseStates.ParseState.SetInFixedForm | lib/parser/parse-state.h:102-105 | sets the fixed-form flag to the given value and nothing else |
| ParseStates.ParseState.SetDeferMessages | lib/parser/parse-state.h:108-111 | sets the defer-messages flag to the given value and nothing else |
| ParseStates.ParseState.SetAnyDeferredMessages | lib/parser/parse-state.h:114-117 | sets the deferred-messages flag to the given value and nothing else |
| ParseStates.ParseState.SetAnyTokenMatched | lib/parser/parse-state.h:120-123 | sets the token-matched flag to the given value and nothing else |
| ParseStates.ParseState.PushContext | lib/parser/parse-state.h:127-131 | pushes a frame recording the cursor and the text |
| ParseStates.ParseState.PopContext | lib/parser/parse-state.h:133-136 | on a non-empty context, removes its top frame |
| ParseStates.ParseState.Say | lib/parser/parse-state.h:138-144 | when deferring, records only that a message was deferred; otherwise appends exactly one message carrying the current context |
| ParseStates.ParseState.SayHere | lib/parser/parse-state.h:145-151 | as Say, for a one-character range at the cursor |
| ParseStates.ParseState.Nonstandard | lib/parser/parse-state.h:156-162 | always sets the conformance-violation flag; says the message (as Say) only when the user state warns about the feature |
| ParseStates.ParseState.IsNonstandardOk | lib/parser/parse-state.h:163-169 | returns false exactly when a user state disables the feature, and then changes nothing; otherwise returns true, sets the conformance-violation flag, and when the feature warns, records a deferred message if deferring and otherwise appends exactly one message at the cursor, keeping the deferred flag; a feature that does not warn leaves the messages and the deferred flag alone |
| ParseStates.ParseState.BytesRemaining | lib/parser/parse-state.h:195-198 | the unsigned 64-bit difference limit − p: exact when the cursor is inside the text, wrapped when it has run past the limit |
| ParseStates.ParseState.UncheckedAdvance | lib/parser/parse-state.h:173-177 | returns the old cursor and moves it forward by n |
| ParseStates.ParseState.GetNextChar | lib/parser/parse-state.h:179-185 | before the limit, returns the cursor and advances by one; at or past it, returns nothing and leaves the cursor |
| ParseStates.ParseState.PeekAtNextChar | lib/parser/parse-state.h:187-193 | returns the cursor exactly when not at the end, without moving it |
| ParseStates.ParseState.CombineFailedParses | lib/parser/parse-state.h:200-213 | takes prev's position and messages when prev matched and this did not, or prev got further; appends prev's messages when both matched at the same place; keeps its own otherwise; ORs the deferred, conformance and recovery flags |
| ParseStates.AtEndIffNoBytesRemain | lib/parser/parse-state.h:171-198 | inside the text, being at the end, peeking nothing and zero bytes remaining are the same condition |
| Prescan.SkipWhiteSpace | lib/parser/prescan.cc:354-359 | the loop returns the first non-blank position (SkipWhite) |
| Prescan.ParseIncludeScan | lib/parser/prescan.cc:714-742 | the loops of FortranInclude compute ParseInclude |
| Prescan.FindQuote | lib/parser/prescan.cc:715-718 | the loop finds the first quote (FirstQuote) |
| Prescan.PathLoop | lib/parser/prescan.cc:719-729 | the path loop computes ScanPath |
| Prescan.StatementEndScan | lib/parser/prescan.cc:738-739 | the loop finds the first '!' or newline (StatementEnd) |
| Prescan.LabelScan | lib/parser/prescan.cc:251-262 | the label-field scan stays within the line, keeps at most 7 − column characters, and reads nothing once past column 6 |
| Prescan.LabelKeepsNoBlanks | lib/parser/prescan.cc:256-260 | the label field keeps no blank, tab or newline |
| Prescan.LabelLoop | lib/parser/prescan.cc:251-262 | the label loop ends where LabelScan says and appends exactly the kept characters to the open token |
| Prescan.CloseLabel | lib/parser/prescan.cc:263-276 | closing the label field closes the open token, padded to column 7 |
| Prescan.LabelCloseText | lib/parser/prescan.cc:263-276 | closing a field that reached column n adds the field's text followed by 7 − n blanks |
| Prescan.LabelFieldPadsToSix | lib/parser/prescan.cc:250-277 | the label field always contributes exactly six columns of text: the kept characters and then blanks |
| Prescan.SentinelWordScan | lib/parser/prescan.cc:1036-1057 | the free-form sentinel loop reads at most seven characters, ends at the word's end when shorter, and yields the folded word |
| Prescan.FixedFormDirectiveScan | lib/parser/prescan.cc:988-1027 | the loops compute IsFixedFormCompilerDirectiveLine |
| Prescan.RegisteredSentinel | lib/parser/prescan.cc:1021 | a registry lookup of a lower-case word returns it exactly when it is registered |
| Prescan.FreeFormDirectiveScan | lib/parser/prescan.cc:1029-1059 | the loops compute IsFreeFormCompilerDirectiveLine |
| Prescan.DirectiveAfterWordScan | lib/parser/prescan.cc:1044-1054 | the code after the sentinel word computes FreeDirectiveAfterWord |
| Prescan.IncludeLineScan | lib/parser/prescan.cc:700-712 | the loops compute IsIncludeLine |
| Prescan.LineEndScan | lib/parser/prescan.cc:279-283 | the loop finds the line's newline (LineEnd) |
| Prescan.FixedSentinelColumns | lib/parser/prescan.cc:995-1008 | the column loop computes FixedSentinelScan and yields a lower-case sentinel |
| Prescan.DirectiveContinuationScan | lib/parser/prescan.cc:831-858 | the loops compute DirectiveContinuation |
| Prescan.FixedContinuationScan | lib/parser/prescan.cc:825-889 | the code computes FixedContinuationLine |
| Prescan.SpellsSentinelAt | lib/parser/prescan.cc:901-905 | the loop tests that the line spells the sentinel, case-folded, at p |
| Prescan.FreeContinuationScan | lib/parser/prescan.cc:891-933 | the code computes FreeContinuationLine |
| Prescan.SentinelContinuationScan | lib/parser/prescan.cc:897-916 | the code computes SentinelContinuation |
| Prescan.HollerithCountValue | lib/parser/prescan.cc:442-447 | the digit count saturates: it equals the decimal value below maxHollerith, and is at least maxHollerith otherwise |
| Prescan.Prescanner.constructor | lib/parser/prescan.cc:32-35 | a prescanner starts at the beginning of its text, with the given character sizes, at nesting 0, with no sentinels, no messages and every flag clear |
| Prescan.Prescanner.Nested | lib/parser/prescan.cc:37-45 | a nested prescanner inherits features, form, column limit, the leading-'&' flag and the sentinel registry (copied), one level deeper, over its own text and character sizes, with the rest of its state fresh |
| Prescan.Prescanner.Say | lib/parser/prescan.cc:74-76 | appends exactly one message |
| Prescan.Prescanner.BeginPrescan | lib/parser/prescan.cc:64-79 | prescanning proceeds exactly when the nesting is at most 100; otherwise it reports the circular-include error |
| Prescan.Prescanner.FortranInclude | lib/parser/prescan.cc:714-742 | a malformed path reports "malformed path name string" and yields no path; a good path is returned, with an "excess characters" warning exactly when something other than a comment follows it |
| Prescan.Prescanner.SourceFormChange | lib/parser/prescan.cc:1126-1132 | "!dir$ free" selects free form, "!dir$ fixed" fixed form, and any other text leaves the form |
| Prescan.Prescanner.AddCompilerDirectiveSentinel | lib/parser/prescan.cc:1061-1070 | the sentinel joins the registry, which stays consistent |
| Prescan.Prescanner.SkipCComment | lib/parser/prescan.cc:378-389 | the loop computes the block comment's end (CCommentEnd), which lies at least four characters on and inside the buffer |
| Prescan.Prescanner.SkipWhiteSpaceAndCComments | lib/parser/prescan.cc:361-376 | the loop computes SkipWhiteAndCComments under the scanner's current mode |
| Prescan.Prescanner.IsFixedFormCommentLine | lib/parser/prescan.cc:662-689 | the loop computes Lines.IsFixedFormCommentLine |
| Prescan.Prescanner.IsFreeFormComment | lib/parser/prescan.cc:691-698 | computes Lines.IsFreeFormComment |
| Prescan.Prescanner.IsIncludeLine | lib/parser/prescan.cc:700-712 | computes Lines.IsIncludeLine |
| Prescan.Prescanner.IsPreprocessorDirectiveLine | lib/parser/prescan.cc:765-780 | the loops compute Lines.IsPreprocessorDirectiveLine |
| Prescan.Prescanner.IsFixedFormCompilerDirectiveLine | lib/parser/prescan.cc:988-1027 | computes Lines.IsFixedFormCompilerDirectiveLine with the live registry |
| Prescan.Prescanner.IsFreeFormCompilerDirectiveLine | lib/parser/prescan.cc:1029-1059 | computes Lines.IsFreeFormCompilerDirectiveLine with the live registry |
| Prescan.Prescanner.ClassifyLine | lib/parser/prescan.cc:1087-1124 | computes Lines.ClassifyLine, whose precedence LineFacts states |
| Prescan.Prescanner.NextLine | lib/parser/prescan.cc:239-248 | the next line starts just after the current line's newline |
| Prescan.Prescanner.BeginSourceLine | lib/parser/prescan.cc:943 | a new source line starts at column 1 with the per-line flags and the delimiter nesting reset |
| Prescan.Prescanner.BeginSourceLineAndAdvance | lib/parser/prescan.cc:230 | as BeginSourceLine at the next line, which then advances past that line |
| Prescan.Prescanner.LabelField | lib/parser/prescan.cc:250-277 | moves the cursor past the label columns and closes the kept label characters as tokens padded to column 7 |
| Prescan.Prescanner.LabelColumns | lib/parser/prescan.cc:251-262 | the label loop over the live cursor: cursor, column and open token as LabelScan says |
| Prescan.Prescanner.SkipToEndOfLine | lib/parser/prescan.cc:279-283 | the cursor moves to the line's newline and the column by the same distance |
| Prescan.Prescanner.FixedFormContinuationLine | lib/parser/prescan.cc:825-889 | returns the continuation's content start that FixedContinuationLine computes and requests the space it says; sets the tab flag exactly for a tab+digit line outside a directive; warns about a column-1 '&' exactly when the feature warns |
| Prescan.Prescanner.WarnColumn1Ampersand | lib/parser/prescan.cc:861-868 | warns "nonstandard usage" exactly for an accepted column-1 '&' whose feature warns |
| Prescan.Prescanner.FreeFormContinuationLine | lib/parser/prescan.cc:891-933 | returns the continuation's content start that FreeContinuationLine computes and requests the space it says |
| Prescan.Prescanner.NextChar | lib/parser/prescan.cc:295-321 | moves the cursor forward, keeps the scanner state consistent, and sets the tab flag on reaching a tab outside a directive; in free form outside a directive, when the next character is plain (no byte-order mark, newline, '&', or '!' outside a literal) it moves exactly one position and begins no line; while no new line begins, preventHollerith and the delimiter nesting are unchanged |
| Prescan.Prescanner.SkipByteOrderMarks | lib/parser/prescan.cc:297-301 | the cursor ends past every byte-order mark at it, and does not move when there is none |
| Prescan.Prescanner.FollowContinuations | lib/parser/prescan.cc:305-319 | follows continuation lines without moving backwards and sets the tab flag on reaching a tab; in free form at a plain character it does not move and begins no line; while no new line begins, preventHollerith and the delimiter nesting are unchanged |
| Prescan.Prescanner.ContinuationStep | lib/parser/prescan.cc:312-316 | one continuation step reports progress only when the cursor moved; at a character other than a newline or '&' it reports none and moves nothing; while no new line begins, preventHollerith and the delimiter nesting are unchanged |
| Prescan.Prescanner.SkipCComments | lib/parser/prescan.cc:323-345 | stops at neither a closed block comment nor a directive's backslash-newline; while no new line begins, preventHollerith and the delimiter nesting are unchanged |
| Prescan.Prescanner.CCommentStep | lib/parser/prescan.cc:324-343 | one step either moves the cursor forward or shows that neither loop condition holds; while no new line begins, preventHollerith and the delimiter nesting are unchanged |
| Prescan.Prescanner.SkipSpaces | lib/parser/prescan.cc:347-352 | stops at a non-blank and clears the pending space |
| Prescan.Prescanner.Continuation | lib/parser/prescan.cc:976-986 | only at a newline or '&' can a continuation be taken, and otherwise nothing moves; then, unless the '&' or the text after it is inside a character literal, the search passes a chain of skippable lines (SkipChain: each a comment line or, outside a directive, a conditional or other '#' line, classified with the configuration of its moment, a comment passed to the start of the next line) from the next line to the line where it stops; when no continuation is taken that line is the next line and is not skippable; the result is whether FixedContinuationLine (fixed form, column 7) or FreeContinuationLine (free form) accepts that line, judged at the nesting on entry when every line passed is a comment line (OnlyComments, including when none was passed), and a taken continuation puts the cursor at its content start; while no new line begins, preventHollerith and the delimiter nesting are unchanged |
| Prescan.Prescanner.FixedFormContinuation | lib/parser/prescan.cc:935-950 | an '&' inside a character literal is no continuation; otherwise the search passes a chain of skippable lines (SkipChain: each a comment line or, outside a directive, a conditional or other '#' line, classified with the configuration of its moment, a comment passed to the start of the next line) from the next line to the line where it stops; when no continuation is taken that line is the next line and is not skippable; the result is whether FixedContinuationLine accepts that line, judged at the nesting on entry when every line passed is a comment line (OnlyComments, including when none was passed), and a taken continuation puts the cursor at its content start, in column 7; while no new line begins, preventHollerith and the delimiter nesting are unchanged |
| Prescan.Prescanner.FixedContinuationStep | lib/parser/prescan.cc:941-948 | one step: a continuation exactly when FixedContinuationLine accepts the next line at the current nesting, with the cursor at its content start in column 7; otherwise it skips that line exactly when it is a skippable line (SkippableLine, as SkipCommentLine decides), moving the next-line cursor forward (to the start of the following line after a comment, with no source line begun), and if it does not skip, the next line and the configuration are unchanged; while no new line begins, preventHollerith and the delimiter nesting are unchanged |
| Prescan.Prescanner.TakeFixedContinuation | lib/parser/prescan.cc:942-947 | a found continuation puts the cursor on the next line at column 7; otherwise the cursors are unchanged and no line begins |
| Prescan.Prescanner.FreeFormContinuation | lib/parser/prescan.cc:952-974 | non-comment text after the '&' inside a character literal ends the attempt with the cursor unchanged; otherwise the search passes a chain of skippable lines (SkipChain: each a comment line or, outside a directive, a conditional or other '#' line, classified with the configuration of its moment, a comment passed to the start of the next line) from the next line to the line where it stops; when no continuation is taken that line is the next line and is not skippable; the result is whether FreeContinuationLine accepts that line, judged at the nesting on entry when every line passed is a comment line (OnlyComments, including when none was passed), and a taken continuation puts the cursor at its content start; while no new line begins, preventHollerith and the delimiter nesting are unchanged |
| Prescan.Prescanner.FreeContinuationStep | lib/parser/prescan.cc:966-972 | one step: a continuation exactly when FreeContinuationLine accepts the next line at the current nesting, with the cursor at its content start; otherwise it skips that line exactly when it is a skippable line (SkippableLine, as SkipCommentLine decides), moving the next-line cursor forward (to the start of the following line after a comment, with no source line begun), and if it does not skip, the next line and the configuration are unchanged; while no new line begins, preventHollerith and the delimiter nesting are unchanged |
| Prescan.SkipChainExtend | lib/parser/prescan.cc:941-948 | passing one more skippable line, to the start of the following line when it is a comment, extends the chain of lines a continuation search passed |
| Prescan.OnlyCommentsExtend | lib/parser/prescan.cc:966-972 | after one more passed line, the passed lines are all comment lines exactly when they were before and the new one is a comment line |
| Prescan.Prescanner.TakeFreeContinuation | lib/parser/prescan.cc:967-971 | a found continuation puts the cursor on the next line; otherwise the cursors are unchanged and no line begins |
| Prescan.Prescanner.AmpersandTail | lib/parser/prescan.cc:953-965 | notes a trailing '&'; stops inside a character literal when text follows; warns "missing ! before comment after &" exactly when text other than a comment follows and the feature warns |
| Prescan.Prescanner.SkipCommentLine | lib/parser/prescan.cc:786-823 | skips the next line exactly when it is a comment, or a conditional/other preprocessor directive outside a directive (SkippableLine under the configuration on entry), moving the next-line cursor forward, to the following line after a comment, which begins no source line; when it does not skip, the next line and the configuration are unchanged; after '&', an INCLUDE line suppresses the newline; at the end of the text, the newline is suppressed only after '&' in a nested scan; while no new line begins, preventHollerith and the delimiter nesting are unchanged |
| Prescan.Prescanner.SkipClassifiedLine | lib/parser/prescan.cc:796-822 | given the next line's kind, skips it exactly in the cases SkipCommentLine states; a comment line is passed to the start of the following line without beginning a source line |
| Prescan.Prescanner.SuppressNewline | lib/parser/prescan.cc:816-818 | moves to the newline and sets both the omit-newline and skip-leading-'&' flags |
| Prescan.Prescanner.TokenizePreprocessorDirective | lib/parser/prescan.cc:228-237 | reads the whole next line as a directive and leaves the cursor at that line's newline, outside the directive mode again |
| Prescan.Prescanner.EmitCharAndAdvance | lib/parser/prescan.cc:448 | appends the character to the open token, advances, and returns the character now under the cursor; in free form outside a directive, when the next character is plain (PlainChar: no newline, '&', byte order mark, or comment '!'), the cursor moves exactly one position and no line begins; while no new line begins, preventHollerith and the delimiter nesting are unchanged |
| Prescan.Prescanner.EmitBytes | lib/parser/prescan.cc:623-627 | appends exactly the given bytes of the buffer, in order, to the open token and closes nothing |
| Prescan.Prescanner.PadOutCharacterLiteral | lib/parser/prescan.cc:644-660 | pads nothing, moving nothing, unless in fixed form, with no tab, just before the newline; there, below the column limit, it pads one blank at once and advances the column; any padding is a single blank within the column limit and comes with progress of the cursors |
| Prescan.Prescanner.PadContinuation | lib/parser/prescan.cc:651-657 | a taken tab-free fixed-form continuation sets column 6 and moves the next-line cursor past the line it started from; the cursor ends at most one position before the continuation line's start: on that line, or on the newline before it when the line continues at its first character (open brackets); while no new line begins, preventHollerith and the delimiter nesting are unchanged |
| Prescan.Prescanner.ExponentAndKind | lib/parser/prescan.cc:531-548 | takes an exponent exactly when the character folds to 'e' or 'd', emitting it folded; otherwise changes nothing |
| Prescan.Prescanner.ExponentTail | lib/parser/prescan.cc:537-546 | the sign, digits and kind suffix only extend the open token |
| Prescan.Prescanner.EmitLiteralChar | lib/parser/prescan.cc:560-572 | a backslash is doubled when escapes are off; the escape state toggles on a backslash only when escapes are on, and clears on any other character |
| Prescan.Prescanner.PadOutLiteral | lib/parser/prescan.cc:573-574 | the padding loop only extends the open token; in free form it moves nothing and begins no line |
| Prescan.Prescanner.DoubledQuote | lib/parser/prescan.cc:584-598 | emits the quote, advances, and continues the literal exactly when another quote follows; in free form outside a directive, at a plain next character, it moves exactly one position and begins no line |
| Prescan.Prescanner.LiteralStep | lib/parser/prescan.cc:559-599 | one literal character either advances or stops at the newline, and only extends the open token; in free form outside a directive, when LiteralClose says the literal closes uninterrupted, a finished step ends exactly where LiteralClose says and an unfinished one leaves LiteralClose of the rest unchanged, with no line begun |
| Prescan.Prescanner.LiteralNext | lib/parser/prescan.cc:584-599 | the part of a literal step after the move: a finished literal ends where LiteralClose says, and an unfinished one stays in character-literal mode with LiteralClose of the rest unchanged, when nothing interrupts it in free form; only extends the open token |
| Prescan.Prescanner.QuotedCharacterLiteral | lib/parser/prescan.cc:550-601 | the literal starts with its opening quote, ends outside character-literal mode, and moves past a quote that is not the newline; in free form outside a directive, when no newline, '&', byte-order mark or comment interrupts it, the cursor ends just after the first closing quote that is not doubled or escaped (LiteralClose), with no line begun |
| Prescan.Prescanner.LiteralCloseAfterQuote | lib/parser/prescan.cc:584-598 | a literal closed by LiteralClose ends at least two characters on, just after a quote equal to the opening one that is not followed by another, at a plain character |
| Prescan.Prescanner.HollerithCharacter | lib/parser/prescan.cc:609-634 | one Hollerith character only extends the open token; in free form outside a directive, when HollerithEnd says the literal ends uninterrupted, it moves one character along HollerithEnd (or to its last step when it stops), with no line begun |
| Prescan.Prescanner.HollerithBytes | lib/parser/prescan.cc:614-633 | a character moves the cursor forward and only extends the open token; at a plain next character, it stops exactly when that character does not decode, and otherwise moves past its decoded size |
| Prescan.Prescanner.HollerithCopy | lib/parser/prescan.cc:614-633 | a decoding character's bytes, exactly, go into the open token and the cursor moves onto its last byte; a character that does not decode stops the literal and moves nothing |
| Prescan.Prescanner.HollerithCharacters | lib/parser/prescan.cc:609-634 | the counting loop only extends the open token; in free form outside a directive, when nothing interrupts the literal, it stops where HollerithEnd says the literal's last step starts, with no line begun |
| Prescan.Prescanner.Hollerith | lib/parser/prescan.cc:603-640 | the literal starts with 'H', moves past the 'h', and ends outside character-literal mode; in free form outside a directive, when nothing interrupts it, it ends where HollerithEnd says: after count characters, at the newline when the line ends first, or just after a character that does not decode |
| Prescan.Prescanner.HollerithEndOnLine | lib/parser/prescan.cc:603-640 | an uninterrupted Hollerith literal ends on the line it started on |
| Prescan.Prescanner.NumberToken | lib/parser/prescan.cc:441-475 | emits the digits starting with the first character; in free form outside a directive, when the character after the digit run is plain, they are exactly that run (DigitRunEnd) and no line began before the suffix, so the Hollerith count is the run's value; enters Hollerith exactly when the character after the digits is 'h'/'H', the value is in 1 to maxHollerith − 1, and Hollerith was not prevented (the flag on entry, unless a line began in between); clears preventHollerith; while no new line begins, the delimiter nesting is unchanged |
| Prescan.Prescanner.DigitString | lib/parser/prescan.cc:442-453 | emits the digits it passes, which start with the character at the cursor, and returns their saturated value and number; in free form outside a directive, when the character after the digit run at the cursor is plain, the digits are exactly that run (DigitRunEnd) and the cursor stops on its end with no line begun; while no new line begins, preventHollerith and the delimiter nesting are unchanged |
| Prescan.DigitRunEnd | lib/parser/prescan.cc:446-453 | the first position at or after p that is not a decimal digit: every position before it is a digit |
| Prescan.IdentifierEnd | lib/parser/prescan.cc:486-488 | the first position at or after p that cannot be in a name: every position before it can |
| Prescan.Prescanner.DigitStep | lib/parser/prescan.cc:446-452 | one digit goes into the open token and onto the digits taken, the capped count stays HollerithCount of those digits, and the cursor moves forward, by exactly one position when in free form outside a directive the next character is plain, so that digits equal to the buffer up to the cursor stay equal; while no new line begins, preventHollerith and the delimiter nesting are unchanged |
| Prescan.Prescanner.NumberSuffix | lib/parser/prescan.cc:454-474 | enters Hollerith exactly under the three conditions, emitting 'H' first; otherwise only extends the token |
| Prescan.Prescanner.NumberTail | lib/parser/prescan.cc:461-474 | the non-Hollerith suffixes only extend the open token |
| Prescan.Prescanner.DotToken | lib/parser/prescan.cc:476-485 | a '.' token starts with '.' and clears preventHollerith; while no new line begins, the delimiter nesting is unchanged |
| Prescan.Prescanner.FractionDigits | lib/parser/prescan.cc:458-460 | the fraction and exponent advance and only extend the open token |
| Prescan.Prescanner.NameChars | lib/parser/prescan.cc:486-488 | emits the name's characters and stops at one that cannot be in a name; in free form outside a directive, when the first such character is plain, it stops exactly there (IdentifierEnd) |
| Prescan.Prescanner.NameToken | lib/parser/prescan.cc:486-496 | a name starts with its first character and ends at a character that cannot be in a name; in free form outside a directive, when the first such character after the start is plain, the name ends exactly there (IdentifierEnd); that character is a quote exactly when the result says so; preventHollerith is set after an unquoted name and cleared after a quoted one; while no new line begins, the delimiter nesting is unchanged |
| Prescan.Prescanner.StarToken | lib/parser/prescan.cc:497-505 | emits "**" exactly when the next character is '*', leaving the Hollerith guard alone unless a line began; after a lone '*', preventHollerith is the negated slash flag; while no new line begins, the delimiter nesting is unchanged |
| Prescan.Prescanner.CountDelimiter | lib/parser/prescan.cc:508-512 | nesting rises on an opener and falls on a closer only while positive |
| Prescan.Prescanner.OperatorToken | lib/parser/prescan.cc:506-526 | emits the character at the cursor, plus the next one exactly when the pair is a two-character operator; a lone operator clears preventHollerith, and a lone '/' sets the slash flag; while no new line begins, the delimiter nesting takes one step (NestingStep) on the first character |
| Prescan.Prescanner.NextToken | lib/parser/prescan.cc:391-529 | returns false exactly at the end of the line, closing nothing; otherwise closes exactly one token; in free form a run of blanks becomes one " " token exactly when it is inside a directive, or neither follows '(' nor precedes '(' or ')'; every other token's kind matches its first character and the token starts with it; the payload of the kind is tied to the buffer (PayloadFits): a name is quoted exactly when it ends at a quote; an operator is paired exactly when its first character and the next form a two-character operator; a '*' is a power exactly when a '*' follows; in free form outside a directive a name ends exactly at IdentifierEnd and a number's digits are exactly the digit run (DigitRunEnd) when the character ending them is plain; a number's digits start with its first character, and it is a Hollerith exactly when they are followed by 'h' or 'H', the guard was off and their value is in 1 to maxHollerith − 1; while no new line begins, the delimiter nesting follows the token (NestingAfter); sets or clears preventHollerith by the token's kind |
| Prescan.Prescanner.TokenAfterBlanks | lib/parser/prescan.cc:430-528 | the part of NextToken after blanks: never a blank token; the kind matches the first character, the closed token starts with it (after the pending space); the payload of the kind is tied to the buffer (PayloadFits): a name is quoted exactly when it ends at a quote; an operator is paired exactly when its first character and the next form a two-character operator; a '*' is a power exactly when a '*' follows; in free form outside a directive a name ends exactly at IdentifierEnd and a number's digits are exactly the digit run (DigitRunEnd) when the character ending them is plain; a number's digits start with its first character, and it is a Hollerith exactly when they are followed by 'h' or 'H', the guard was off and their value is in 1 to maxHollerith − 1; while no new line begins, the delimiter nesting follows the token (NestingAfter); preventHollerith follows the kind |
| Prescan.Prescanner.FreeFormBlanks | lib/parser/prescan.cc:396-428 | skips the blank run (after block comments); closes a single " " token exactly when the run is non-empty and kept by the compression rule, and otherwise leaves the tokens unchanged; the cursor ends at the first non-blank |
| Prescan.Prescanner.SqueezeBlanks | lib/parser/prescan.cc:404-428 | at a blank, moves to the first non-blank and closes " " exactly when the compression rule keeps the run (inside a directive, or not after '(' and not before '(', ')' or the newline); elsewhere does nothing |
| Prescan.Prescanner.TokenBody | lib/parser/prescan.cc:437-526 | one non-blank token whose kind matches its first character and whose text starts with it; the payload of the kind is tied to the buffer (PayloadFits): a name is quoted exactly when it ends at a quote; an operator is paired exactly when its first character and the next form a two-character operator; a '*' is a power exactly when a '*' follows; in free form outside a directive a name ends exactly at IdentifierEnd and a number's digits are exactly the digit run (DigitRunEnd) when the character ending them is plain; a number's digits start with its first character, and it is a Hollerith exactly when they are followed by 'h' or 'H', the guard was off and their value is in 1 to maxHollerith − 1; while no new line begins, the delimiter nesting follows the token (NestingAfter); preventHollerith follows the kind as NextToken states |
| Sentinels.Byte | lib/parser/prescan.cc:1064 | a character's low byte is below 256 |
| Sentinels.Pack | lib/parser/prescan.cc:1062-1065 | the packed key fits in 64 bits, because the shift wraps |
| Sentinels.Bit1 | lib/parser/prescan.cc:1066 | the first Bloom index lies inside the bitset |
| Sentinels.Bit2 | lib/parser/prescan.cc:1067 | the second Bloom index lies inside the bitset |
| Sentinels.SentinelRegistry.constructor | lib/parser/prescan.cc:32-35 | a new registry has no sentinels and no Bloom bit set |
| Sentinels.SentinelRegistry.Copy | lib/parser/prescan.cc:44-45 | a copied registry has the same set and the same bits |
| Sentinels.SentinelRegistry.Add | lib/parser/prescan.cc:1061-1070 | adding sets exactly the two Bloom bits of the folded sentinel and inserts it into the set |
| Sentinels.SentinelRegistry.Lookup | lib/parser/prescan.cc:1072-1085 | finds a candidate exactly when its NUL-terminated key is non-empty, passes both Bloom probes and is in the set; for a lower-case candidate, exactly when the key is non-empty and registered |
| Sentinels.PackCString | lib/parser/prescan.cc:1074-1078 | the loop reads the NUL-terminated key and packs it |
| Sentinels.LowerCaseTagFound | lib/parser/prescan.cc:1061-1085 | a registered lower-case tag passes both Bloom probes: no false negatives |
| Sentinels.CStringWithoutNul | lib/parser/prescan.cc:1076-1078 | a string without NUL is its own NUL-terminated key |
| Tokens.TokenSequence.constructor | lib/parser/prescan.cc:232 | a new token sequence is empty |
| Tokens.TokenSequence.Text | lib/parser/prescan.cc:232 | the text of a sequence includes its open token |
| Tokens.TokenSequence.PutNextTokenChar | lib/parser/prescan.cc:424 | appends one character to the open token and to the text |
| Tokens.TokenSequence.CloseToken | lib/parser/prescan.cc:425 | closes the open token, keeping the text |
| Tokens.TokenSequence.Put | lib/parser/prescan.cc:266 | adds a string to the open token and closes it |
| Tokens.Spaces | lib/parser/prescan.cc:266 | n blanks |

## Left out

- The statement loop (`Statement`, lib/parser/prescan.cc:95-226) and the rest of `Prescan` (lib/parser/prescan.cc:80-92) are not modelled. They drive the tokenizer and hand tokens to the cooked output.
- The macro engine (`preprocessor_.Directive`, `MacroReplacement`) is not modelled. SkipCommentLine tokenizes the directive line and drops the tokens where the source hands them to it.
- Opening the included file and scanning it recursively (lib/parser/prescan.cc:743-762) are file I/O. FortranInclude returns the path instead.
- Character decoding is a parameter: the sequence `decoded` (the constructors' `sizes`) gives the byte count of the character at each position, 0 for a bad one. UTF-8 byte-order marks are skipped, but the change of encoding they cause is not recorded.
- Provenance is replaced by buffer positions. Message texts are kept, but message formatting and the cooked output (`Put`, `Emit`) are not modelled.
- A nested prescanner in the source shares its parent's message list. Here it starts its own.
- Prescan.Prescanner.QuotedCharacterLiteral: takes the doubled-quote step only when the quote is not a newline. The source reaches that step with a newline quote only on an odd path: a literal opened by '_' at the last column followed by a continuation. There, its `NextChar` would fail its own CHECK, and the model skips the step. It states the emitted literal only as a prefix (the opening quote), not its whole text. Where the literal ends is stated against LiteralClose only in free form, outside a directive, with nothing interrupting it: not for fixed-form padding and blank-skipping, not for a literal broken by a continuation, and not for an unclosed literal that stops at the newline.
- Prescan.Prescanner.DoubledQuote: states only that continuing the literal implies being back in character-literal mode, not the flag's full value.
- Prescan.Prescanner.Hollerith: states the emitted literal only as a prefix ('H'), not its whole text. Where it ends is stated against HollerithEnd only in free form, outside a directive, with nothing interrupting it (no continuation, '&', byte-order mark or fixed-form padding on the way); the truncated case at a newline is covered by HollerithEnd, the interrupted ones are not.
- Prescan.Prescanner.HollerithCharacter: states that the open token is extended and how far the cursor moves along HollerithEnd, not by which bytes; the bytes of one character are stated by HollerithCopy.
- Prescan.Prescanner.HollerithBytes: states that the open token is extended and where the cursor ends, not by which bytes; HollerithCopy, which it calls after NextChar, states the exact bytes.
- Prescan.Prescanner.EmitBytes: copies the character's bytes from the buffer as they are. The source decodes the character and emits its UTF-8 encoding, which differs for other source encodings; encoding conversion is not modelled, so HollerithBytes states the copy, not the re-encoding.
- Prescan.Prescanner.ExponentTail: states only that the open token is extended, not that its text spells the exponent.
- Prescan.Prescanner.ExponentAndKind: states the folded exponent letter and whether one was taken; the sign, digits and kind suffix after it are stated only as an extension of the open token.
- Prescan.Prescanner.PadOutLiteral: states only that the open token is extended by the padding, not how many blanks.
- Prescan.Prescanner.LiteralStep: states only that the open token is extended, not by which characters.
- Prescan.Prescanner.NumberTail: states only that the open token is extended, not which suffix is taken.
- Prescan.Prescanner.FractionDigits: states only that the open token is extended, not that it spells the fraction.
- Prescan.Prescanner.DotToken: states the token only as a prefix ('.').
- Prescan.Prescanner.TokenBody: the digit run and the name end are stated exactly only under the plain condition of DigitString and NameToken.
- Prescan.Prescanner.TokenBody: states the kind with its payload, the preventHollerith and nesting rules, the token's first character and the cursor's progress, not the token's whole text.
- Prescan.Prescanner.NameToken: states the token only as a prefix (its first character), not the whole text; where the name ends is stated exactly only in free form outside a directive when the character that ends it is plain, because a continuation, a comment '!' or a byte order mark makes NextChar move by more than one position.
- Prescan.Prescanner.NameChars: the same end condition as NameToken.
- Prescan.Prescanner.DigitString: the digits are stated to be exactly the digit run only in free form outside a directive when the character after the run is plain; across a continuation, a comment, a byte order mark or fixed-form blanks only the first digit and the digit-only content are stated.
- Prescan.Prescanner.NumberToken: the same condition on the digits as DigitString.
- Prescan.Prescanner.TokenAfterBlanks: the digit and name conditions of DigitString and NameToken, through PayloadFits.
- Prescan.Prescanner.NextToken: the digit run and the name end are stated exactly only under the plain condition of DigitString and NameToken, through PayloadFits.
- Prescan.Prescanner.NextToken: states the token count, the blank-compression rule, each token's first character, the kind's payload and the preventHollerith and nesting rules, not the text of every non-blank token.
- Prescan.Prescanner.NextToken: the Hollerith guard is stated unchanged after `**` (and on entry to a number) only when no new source line began meanwhile, because a continuation taken inside the token begins a line, which resets the guard; the ghost counter `linesBegun` records this.
- Prescan.Prescanner.OperatorToken: states that the guard is cleared only after a lone operator; after a pair it is left to the line-crossing rule above. Likewise the nesting step on the first character is stated only while no new line begins, since taking a continuation inside the token resets the nesting.
- Prescan.Prescanner.NextChar: states the cursor's progress, the tab flag, the one-character move at a plain character in free form, and the unchanged guard and nesting while no line begins; not the full new state after continuations, or in fixed form.
- Prescan.Prescanner.FollowContinuations: states the cursor's progress, the tab flag and the plain case, not which lines were joined.
- Prescan.Prescanner.Continuation: each line the search passes is stated skippable under the configuration (form, literal and directive modes, sentinels) it was classified with, which the ghost result `configs` returns; those configurations are not related to the one on entry, because skipping a '#' line runs the tokenizer over it, and its effect on the character-literal mode is not stated. The line is judged at the nesting on entry when every line passed is a comment line; once a '#' line was passed the nesting it is judged at is not stated, because the tokenizer run over that directive begins a source line, which resets the nesting, and then counts the directive's own brackets.
- Prescan.Prescanner.FixedFormContinuation: the same configuration and '#'-line nesting gaps as Continuation.
- Prescan.Prescanner.FreeFormContinuation: the same configuration and '#'-line nesting gaps as Continuation.
- Prescan.Prescanner.SkipCComments: states where scanning stops (not at a closed block comment, not at a directive's line splice), not that only closed block comments and backslash-newline splices were passed on the way.
- Prescan.Prescanner.CCommentStep: states progress or the stop condition, not that what it passed was one closed block comment or one line splice.
- Prescan.Prescanner.TokenizePreprocessorDirective: states where the cursor ends, not the tokens it returns.
- Prescan.Prescanner.SkipByteOrderMarks: states only that the cursor ends past every byte-order mark.
- Prescan.Prescanner.LabelField: never emits a label character dropped in the source (a blank, or '0' in column 6). It emits the kept characters one at a time, as `EmitChar` does.
- `Messages::Merge` is modelled as appending prev's messages. The ordering that `Merge` applies is not modelled.
- The current-position range that `Say(text)` and `Nonstandard(lf, msg)` use is modelled as one character at the cursor.
- The parser's language-feature control is modelled as two sets, enabled and warned, in the user state. The prescanner's features are record fields.
- ParseStates.ParseState.BytesRemaining keeps the source's unsigned 64-bit subtraction, so a cursor past the limit gives a wrapped count. Cursor positions themselves are unbounded naturals.
- The move constructor and move assignment of ParseState (lib/parser/parse-state.h:52-60, 71-81) differ from the copies only in moving messages, and are not modelled separately.

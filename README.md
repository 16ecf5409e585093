# Mermaid editor utilities, modelled in Dafny

This project models the text-processing core of a Mermaid diagram editor, together with the rules of its stub authentication service:

- **The syntax validator** (`MermaidValidator`) is a line-by-line heuristic checker. It detects the diagram type from the first line. It flags bracket mismatches, invalid flowchart arrows and misplaced sequence arrows. Then it appends at most one diagnostic taken from the renderer's own parser. The parser's verdict is an input (`ParseOutcome`).
- **The formatter** (`MermaidFormatter`, with the regex rewrites in `Rewrite`) re-indents each trimmed line by a running depth counter. `beautifyCode` adds the arrow-spacing and whitespace rewrites on top of that.
- **The auto-completer** (`MermaidAutoComplete`) has four item pools. It chooses one from the text before the cursor, filters it by the word being typed and returns at most ten items.
- **The authentication service** (`AuthService`) covers the email pattern, the login and registration checks, token validation, and the session of current user and token. Login and register set the session; logout clears it.

`Text` holds the string primitives all of these share: JavaScript `trim`, `toLowerCase`, `includes`, `indexOf`, `split` and `join` on one separator, and counting. A character stands for one UTF-16 code unit, as JavaScript's `length` and indices count. Whitespace is the ECMAScript set that `trim` and `\s` use.

The files are:
- `text.dfy`: modules `Wrappers` and `Text`.
- `validator.dfy` and `validator_examples.dfy`: the validator and worked examples of it.
- `rewrite.dfy` and `formatter.dfy`: the formatter.
- `autocomplete.dfy`: the auto-completer.
- `auth.dfy`: the authentication service.

The form of each model follows the code it models:
- Loops that push onto an array become methods with loop invariants. Each is proved equal to a recursive specification function: `CheckLines`, `ValidateSyntax`, `FormatCode` and `BeautifyCode`.
- Computations become functions. Global regex replacements become left-to-right recursive rewrites that resume after each match.
- The auth service's mutable session becomes a class with two fields. `Login`, `Register` and `Logout` update it.
- The auto-completer's pools are fields that are never reassigned. So the object is a datatype value `AutoComplete` with member functions, and `Instance` is the shared instance with the pools as initialised.

## Model

| member | source | states |
|---|---|---|
| MermaidValidator.Classify | project/src/utils/mermaidValidator.ts:118-132 | Definition: the substring tests of `detectDiagramType` on the lower-cased line, in source order; its meaning is stated by `ClassifyFirstMatchWins` and `ClassifyNoMatch` |
| MermaidValidator.DetectDiagramType | project/src/utils/mermaidValidator.ts:117-133 | Definition: `Classify` of the first line of the trimmed text, with no comment line skipped; its meaning is stated by `DetectLeadingLine` and `ClassifyTrimEnd` |
| MermaidValidator.ClassifyFirstMatchWins | project/src/utils/mermaidValidator.ts:118-132 | The first keyword of the ordered detection table that occurs in the lower-cased first line decides the kind; earlier keywords must be absent |
| MermaidValidator.ClassifyNoMatch | project/src/utils/mermaidValidator.ts:132 | With no table keyword present, the kind is `unknown` |
| MermaidValidator.ClassifyTrimEnd | project/src/utils/mermaidValidator.ts:118 | Trailing whitespace on the first line never changes the detected kind |
| MermaidValidator.KeywordsIgnoreTrailingWhitespace | project/src/utils/mermaidValidator.ts:118-130 | Each detection keyword occurs in a line exactly when it occurs in the line without its trailing whitespace |
| MermaidValidator.ClassifyByTable | project/src/utils/mermaidValidator.ts:117-133 | Two lines containing the same table keywords get the same kind |
| MermaidValidator.DetectLeadingLine | project/src/utils/mermaidValidator.ts:117-118 | When the text starts with a non-blank line, only that line decides the kind, whatever follows |
| MermaidValidator.HasSequenceArrows | project/src/utils/mermaidValidator.ts:170-172 | Definition: the regex test `->>\|-->>`; its meaning is stated by `SequenceArrowMeaning` |
| MermaidValidator.HasInvalidFlowchartArrow | project/src/utils/mermaidValidator.ts:135-168 | Definition: an arrow-like pattern, none of the valid arrows and no sequence arrow; its meaning is stated by `InvalidArrowMeaning` |
| MermaidValidator.FindBareArrow | project/src/utils/mermaidValidator.ts:175 | Finds the leftmost match of `->(?!>)` at or after a position, or reports that there is none |
| MermaidValidator.InvalidArrowPosition | project/src/utils/mermaidValidator.ts:174-177 | Definition: one past the leftmost `->(?!>)`, or 1; its meaning is stated by `InvalidArrowColumn` |
| MermaidValidator.FindSequenceArrow | project/src/utils/mermaidValidator.ts:180 | Finds the leftmost match of `->>\|-->>` at or after a position, or reports that there is none |
| MermaidValidator.SequenceArrowPosition | project/src/utils/mermaidValidator.ts:179-182 | Definition: one past the leftmost `->>\|-->>`, or 1; its meaning is stated by `SequenceArrowMeaning` |
| MermaidValidator.InvalidArrowMeaning | project/src/utils/mermaidValidator.ts:135-168 | An invalid flowchart arrow means exactly this: a `->`, no `->>` and none of the six valid arrows |
| MermaidValidator.InvalidArrowColumn | project/src/utils/mermaidValidator.ts:174-177 | On a flagged line the column is one past the first `->`, so the fallback of 1 is never used |
| MermaidValidator.SequenceArrowMeaning | project/src/utils/mermaidValidator.ts:170-182 | The sequence-arrow test holds exactly when `->>` occurs; the reported column is one past a real match |
| MermaidValidator.LinesSnoc | project/src/utils/mermaidValidator.ts:29-83 | One more line appends its own diagnostics, numbered after the others |
| MermaidValidator.LinesStep | project/src/utils/mermaidValidator.ts:29-83 | One step of the scan over the lines extends the diagnostics of the prefix by those of the next line |
| MermaidValidator.IsKnownValidationIssue | project/src/utils/mermaidValidator.ts:184-193 | Definition: the lower-cased message contains `arrow`, `bracket` or `syntax`; `ParserVerdictAppends` states that such a message appends nothing |
| MermaidValidator.DigitRun | project/src/utils/mermaidValidator.ts:92 | The `\d+` after `line ` is the maximal run of digits |
| MermaidValidator.FindLineReference | project/src/utils/mermaidValidator.ts:92 | Finds the leftmost case-insensitive `line <digits>`, or reports that there is none |
| MermaidValidator.ReportedLine | project/src/utils/mermaidValidator.ts:92-93 | Definition: the decimal value of the digits after the leftmost `line `, or 1; `ReportedLineExample` and `NoLineReferenceWithoutL` show both cases |
| MermaidValidator.FindParsePrefix | project/src/utils/mermaidValidator.ts:198 | Finds the leftmost case-insensitive `Parse error on line <digits>:`, or reports that there is none |
| MermaidValidator.RemoveParsePrefix | project/src/utils/mermaidValidator.ts:198 | Without a match the message is unchanged; the result is never longer |
| MermaidValidator.LineEnd | project/src/utils/mermaidValidator.ts:199 | The end of the line: the first line terminator at or after a position, or the end of the text |
| MermaidValidator.FindExpecting | project/src/utils/mermaidValidator.ts:199 | Finds the leftmost case-insensitive `Expecting ` followed by ` got ` on the same line, or reports that there is none |
| MermaidValidator.ReplaceExpecting | project/src/utils/mermaidValidator.ts:199 | Without a match the message is unchanged |
| MermaidValidator.CleanErrorMessage | project/src/utils/mermaidValidator.ts:195-201 | The cleaned message has no whitespace at either end |
| MermaidValidator.Validation | project/src/utils/mermaidValidator.ts:14-115 | Definition: nothing for blank text, else the per-line diagnostics followed by the parser's; its properties are stated by the lemmas from `BlankTextHasNoDiagnostics` to `ParserVerdictAppends` |
| MermaidValidator.CheckBrackets | project/src/utils/mermaidValidator.ts:36-60 | The square-bracket warning, then the curly-bracket warning, as the callback pushes them |
| MermaidValidator.CheckArrows | project/src/utils/mermaidValidator.ts:62-82 | Appends the invalid-arrow error (flowcharts only), then the sequence-arrow warning (every kind but sequence) |
| MermaidValidator.CheckLine | project/src/utils/mermaidValidator.ts:29-83 | The callback's pushes for one line equal the line's specified diagnostics |
| MermaidValidator.CheckLines | project/src/utils/mermaidValidator.ts:26-83 | The `forEach` over the lines yields every line's diagnostics, numbered from 1, in order |
| MermaidValidator.ValidateSyntax | project/src/utils/mermaidValidator.ts:14-115 | The method's result equals the specification `Validation` of the text and the parser's verdict |
| MermaidValidator.BlankTextHasNoDiagnostics | project/src/utils/mermaidValidator.ts:17-19 | Whitespace-only text gets no diagnostics, whatever the parser says |
| MermaidValidator.SkippedLinesAreSilent | project/src/utils/mermaidValidator.ts:31-33 | Blank lines and `%%` comment lines contribute nothing |
| MermaidValidator.LineDiagnosticsOrder | project/src/utils/mermaidValidator.ts:35-82 | A line gets at most four diagnostics, all on that line, in the order square, curly, arrow, sequence arrow |
| MermaidValidator.BracketWarnings | project/src/utils/mermaidValidator.ts:36-60 | A bracket warning appears exactly when both sides of that bracket kind occur in different numbers; it is a warning at the line's end; parentheses never count |
| MermaidValidator.ArrowDiagnostics | project/src/utils/mermaidValidator.ts:62-82 | The arrow error appears exactly on flowchart lines with an invalid arrow; the sequence warning appears exactly on non-sequence lines with `->>`; each has its severity and column |
| MermaidValidator.LinesDiagnosticsInLineOrder | project/src/utils/mermaidValidator.ts:29-83 | The per-line diagnostics name lines 1 to n in non-decreasing order |
| MermaidValidator.ParserVerdictAppends | project/src/utils/mermaidValidator.ts:85-112 | The parser's verdict only appends, and at most one item. A known issue appends nothing. An unknown failure appends an error at the line it names, with the cleaned message. An unreadable failure appends a `Validation error: ` warning at line 1, column 1 |
| MermaidValidatorExamples.ClassifyGraphHeader | project/src/utils/mermaidValidator.ts:130 | `graph TD` is detected as a flowchart |
| MermaidValidatorExamples.GraphHeaderIsClean | project/src/utils/mermaidValidator.ts:29-83 | The header line `graph TD` draws no per-line diagnostic |
| MermaidValidatorExamples.BareArrowLine | project/src/utils/mermaidValidator.ts:62-71 | The flowchart line ` A->B` gets exactly the invalid-arrow error at column 3 |
| MermaidValidatorExamples.AcceptedTwoLineText | project/src/utils/mermaidValidator.ts:14-115 | An accepted two-line text of any kind with a clean header gets exactly the second line's diagnostics |
| MermaidValidatorExamples.BareArrowExample | project/src/utils/mermaidValidator.ts:14-115 | `graph TD\n A->B` with an accepting parser gives one error, on line 2 at column 3 |
| MermaidValidatorExamples.SequenceArrowLine | project/src/utils/mermaidValidator.ts:73-82 | The flowchart line ` A->>B` gets exactly the sequence-arrow warning at column 3 |
| MermaidValidatorExamples.SequenceArrowInFlowchartExample | project/src/utils/mermaidValidator.ts:14-115 | `graph TD\n A->>B` gives one warning, not the invalid-arrow error |
| MermaidValidatorExamples.ReportedLineExample | project/src/utils/mermaidValidator.ts:92-93 | The message `Line 3` names line 3 |
| MermaidValidatorExamples.NoLineReferenceWithoutL | project/src/utils/mermaidValidator.ts:92-93 | A message without the letter `l` names line 1 |
| MermaidValidatorExamples.WholeExpectingLine | project/src/utils/mermaidValidator.ts:197-200 | A message that is one `Expecting … got …` line cleans to `Syntax error` |
| MermaidValidatorExamples.ExpectingMessageExample | project/src/utils/mermaidValidator.ts:91-100 | The parse failure `Expecting X got Y` becomes one error `Syntax error` at line 1, column 1 |
| MermaidValidatorExamples.CleanFlowchartExample | project/src/utils/mermaidValidator.ts:14-115 | `graph TD\n  A-->B` with an accepting parser gets no diagnostics |
| MermaidValidatorExamples.ClassifySequenceHeader | project/src/utils/mermaidValidator.ts:119 | `sequenceDiagram` is detected as a sequence diagram |
| MermaidValidatorExamples.SequenceDiagramExample | project/src/utils/mermaidValidator.ts:14-115 | `sequenceDiagram\n  A->>B` with an accepting parser gets no diagnostics: `->>` is not reported in a sequence diagram |
| MermaidValidatorExamples.LineTwoErrorPrefix | project/src/utils/mermaidValidator.ts:198 | The prefix `Parse error on line 2:` is cut out of the message, and the line break after it stays |
| MermaidValidatorExamples.LineTwoErrorExample | project/src/utils/mermaidValidator.ts:91-100 | The parse failure `Parse error on line 2:\nExpecting X got Z` becomes one error `Syntax error` at line 2, column 1 |
| MermaidFormatter.IsDiagramDeclaration | project/src/utils/mermaidFormatter.ts:66-74 | Definition: the line starts with one of the twelve diagram keywords; `FlushLeft` states that such lines are written with no indentation |
| MermaidFormatter.AlnumRun | project/src/utils/mermaidFormatter.ts:82 | The `[A-Za-z0-9]+` run at a position is maximal |
| MermaidFormatter.IsNodeOrConnection | project/src/utils/mermaidFormatter.ts:76-83 | Definition: one of four arrows occurs, or an identifier at the start is directly followed by an opening bracket; `FlatLines` and `FlushLeft` state the depth such lines get |
| MermaidFormatter.NeedsIndent | project/src/utils/mermaidFormatter.ts:85-92 | Definition: not a comment, declaration or style line; its meaning in the default branch is stated by `DefaultIndent` |
| MermaidFormatter.Format | project/src/utils/mermaidFormatter.ts:11-64 | Definition: the formatted lines of the split text, joined; its properties are stated by `FormatLineByLine`, `FormatIdempotent` and `FlushLeft` |
| MermaidFormatter.FormatLine | project/src/utils/mermaidFormatter.ts:18-60 | The loop body for one trimmed line pushes the specified output line and leaves the specified counter |
| MermaidFormatter.FormatCode | project/src/utils/mermaidFormatter.ts:11-64 | The loop over the lines, with its depth counter, yields `Format(code)` |
| MermaidFormatter.FormatFromCons | project/src/utils/mermaidFormatter.ts:17-61 | Formatting a line and then the rest depends only on the counter after the line |
| MermaidFormatter.FormatSuffix | project/src/utils/mermaidFormatter.ts:17-61 | The output from line i on is the formatting of the input from line i on, started at the counter reached there |
| MermaidFormatter.FormatFromAt | project/src/utils/mermaidFormatter.ts:17-61 | Output line i is input line i, trimmed, behind the indentation for the counter reached there |
| MermaidFormatter.FormattedLineTrims | project/src/utils/mermaidFormatter.ts:18-60 | Re-indenting changes nothing but the whitespace around a line |
| MermaidFormatter.FormatFromHasNoBreaks | project/src/utils/mermaidFormatter.ts:12-63 | Formatted lines contain no line break when the input lines contain none |
| MermaidFormatter.FormatSplits | project/src/utils/mermaidFormatter.ts:12-63 | The lines of the output are exactly the formatted lines of the input |
| MermaidFormatter.FormatLineByLine | project/src/utils/mermaidFormatter.ts:11-64 | The output has as many lines as the input; line i is input line i, trimmed, after four spaces per level of depth |
| MermaidFormatter.FormatFromTwice | project/src/utils/mermaidFormatter.ts:17-61 | Formatting formatted lines from the same counter gives them back |
| MermaidFormatter.FormatIdempotent | project/src/utils/mermaidFormatter.ts:11-64 | `formatCode` applied to its own output changes nothing |
| MermaidFormatter.DefaultIndent | project/src/utils/mermaidFormatter.ts:85-92 | On a line that reaches the default branch, `needsIndent` holds exactly when the line is not a `%%` comment |
| MermaidFormatter.FlushLeft | project/src/utils/mermaidFormatter.ts:20-60 | Lists the lines written with no indentation: blank lines, declarations, `end` at depth one or less, and subgraph, style or comment lines at depth zero |
| MermaidFormatter.FlatLines | project/src/utils/mermaidFormatter.ts:45-60 | Inside a block, lines that neither open nor close a block are written at the block's depth and leave the counter alone |
| MermaidFormatter.OpenLine | project/src/utils/mermaidFormatter.ts:33-37 | A `subgraph` line is written at the current depth and raises the counter by one |
| MermaidFormatter.CloseLine | project/src/utils/mermaidFormatter.ts:39-43 | `end` lowers the counter by one and is written at the lowered depth |
| MermaidFormatter.SubgraphBlock | project/src/utils/mermaidFormatter.ts:33-43 | A flat subgraph: opening and `end` at the enclosing depth, body one level deeper, counter restored after |
| MermaidFormatter.TrimmedLines | project/src/utils/mermaidFormatter.ts:107 | Maps `trimEnd` over the lines, keeping their number |
| MermaidFormatter.Beautify | project/src/utils/mermaidFormatter.ts:94-113 | Definition: the arrow rules and the whitespace rules applied to `Format(code)`; its properties are stated by `BeautifyWhitespace` and `SpaceArrowsSeparates` |
| MermaidFormatter.BeautifyCode | project/src/utils/mermaidFormatter.ts:94-113 | The pipeline of rewrites on the re-indented text yields `Beautify(code)` |
| MermaidFormatter.SpaceArrowsSeparates | project/src/utils/mermaidFormatter.ts:98-101 | After each arrow rule, no word character touches its arrow on that rule's side; together the four rules insert only spaces |
| MermaidFormatter.SpaceArrowsUnneeded | project/src/utils/mermaidFormatter.ts:98-101 | Text whose arrows are already spaced passes through the arrow rules unchanged |
| MermaidFormatter.TrimLineEndsLines | project/src/utils/mermaidFormatter.ts:107 | The lines of the result are the input lines, each without trailing whitespace |
| MermaidFormatter.TrimLineEndsClean | project/src/utils/mermaidFormatter.ts:107 | After trimming line ends, no non-newline whitespace stands before a newline |
| MermaidFormatter.TidyNoDoubleSpaces | project/src/utils/mermaidFormatter.ts:104-112 | The output never has two spaces in a row, indentation included |
| MermaidFormatter.TidyNoBlankRuns | project/src/utils/mermaidFormatter.ts:107-112 | The output never has three newlines in a row |
| MermaidFormatter.TidyTrimmed | project/src/utils/mermaidFormatter.ts:112 | The output has no whitespace at either end |
| MermaidFormatter.TidyLineEndsClean | project/src/utils/mermaidFormatter.ts:104-112 | In the output, no non-newline whitespace ends a line |
| MermaidFormatter.SplitLinesClean | project/src/utils/mermaidFormatter.ts:107 | Clean line ends, counted character by character, mean that no line of the split ends in whitespace |
| MermaidFormatter.TidyLines | project/src/utils/mermaidFormatter.ts:104-112 | No line of the output ends in whitespace |
| MermaidFormatter.BeautifyWhitespace | project/src/utils/mermaidFormatter.ts:94-113 | `beautifyCode` output has no double spaces, no triple newlines, no whitespace at its ends, and no line that ends in whitespace |
| Rewrite.SpaceBeforeSeparates | project/src/utils/mermaidFormatter.ts:98-100 | After `replace(/(\w)p/g, '$1 p')`, no word character directly precedes a `p` |
| Rewrite.SpaceAfterSeparates | project/src/utils/mermaidFormatter.ts:99-101 | After `replace(/p(\w)/g, 'p $1')`, no word character directly follows a `p` |
| Rewrite.SpaceBeforeOnlySpaces | project/src/utils/mermaidFormatter.ts:98-100 | The rule inserts only spaces: removing spaces gives the same text before and after |
| Rewrite.SpaceAfterOnlySpaces | project/src/utils/mermaidFormatter.ts:99-101 | The rule inserts only spaces: removing spaces gives the same text before and after |
| Rewrite.SpaceBeforeUnneeded | project/src/utils/mermaidFormatter.ts:98-100 | Where no word character precedes a `p`, the rule changes nothing |
| Rewrite.SpaceAfterUnneeded | project/src/utils/mermaidFormatter.ts:99-101 | Where no word character follows a `p`, the rule changes nothing |
| Rewrite.CapAtOne | project/src/utils/mermaidFormatter.ts:104 | After `/ {2,}/g` becomes one space, no two spaces are adjacent |
| Rewrite.CapAtTwo | project/src/utils/mermaidFormatter.ts:110 | After `/\n{3,}/g` becomes two newlines, no three newlines are adjacent |
| Rewrite.CapOnlyRemoves | project/src/utils/mermaidFormatter.ts:104-110 | Capping runs removes only the run character; every other character is kept, in order |
| Rewrite.CapPair | project/src/utils/mermaidFormatter.ts:104-110 | Capping runs creates no adjacent pair that starts with another character |
| Text.Trim | project/src/utils/mermaidFormatter.ts:18 | `trim()` is empty exactly for all-whitespace text; otherwise it starts and ends with non-whitespace |
| Text.TrimTrimmed | project/src/utils/mermaidFormatter.ts:18 | Trimming text that is already trimmed changes nothing |
| Text.TrimAfterSpaces | project/src/utils/mermaidFormatter.ts:18 | Leading indentation does not survive `trim()` |
| Text.Lower | project/src/utils/mermaidValidator.ts:118 | `toLowerCase()` keeps the length and lower-cases every character |
| Text.IndexOf | project/src/utils/mermaidValidator.ts:175-176 | Finds the leftmost occurrence exactly when the text contains the pattern |
| Text.JoinSplit | project/src/utils/mermaidFormatter.ts:107 | Joining the pieces of a split on the same separator gives the text back |
| Text.SplitJoin | project/src/utils/mermaidFormatter.ts:107 | Splitting a join of separator-free pieces gives the pieces back |
| Text.ContainsLowerTrimEnd | project/src/utils/mermaidValidator.ts:118-130 | A whitespace-free pattern occurs in the lower-cased text exactly when it occurs without trailing whitespace |
| MermaidAutoComplete.Clamp | project/src/utils/mermaidAutoComplete.ts:91 | `substring(0, cursor)` clamps the cursor into the text: negative gives 0, past the end gives the length |
| MermaidAutoComplete.CurrentLineIsSuffix | project/src/utils/mermaidAutoComplete.ts:92 | The current line is the text after the last line break: a suffix without `\n`, preceded by `\n` when shorter |
| MermaidAutoComplete.CurrentLineAfterBreak | project/src/utils/mermaidAutoComplete.ts:92 | After a line break, the current line is exactly what was typed since |
| MermaidAutoComplete.LastWord | project/src/utils/mermaidAutoComplete.ts:93-94 | The last word is the whitespace-free tail of the trimmed line, preceded by whitespace when shorter |
| MermaidAutoComplete.Word | project/src/utils/mermaidAutoComplete.ts:92-94 | Definition: the last word of the trimmed current line; `WordOnLine` states that it occurs in the current line, and `BlankHasNoWord` when it is empty |
| MermaidAutoComplete.Choose | project/src/utils/mermaidAutoComplete.ts:97-122 | Definition: the first of the four branch conditions that holds picks the pool; its meaning is stated by `ChoicePriority` |
| MermaidAutoComplete.Matching | project/src/utils/mermaidAutoComplete.ts:126-130 | The filter keeps exactly the items whose lower-cased label contains the lower-cased word, in pool order |
| MermaidAutoComplete.MatchingCounts | project/src/utils/mermaidAutoComplete.ts:126-130 | Every matching item is kept as often as the pool holds it, and no other item is kept |
| MermaidAutoComplete.MatchingAppend | project/src/utils/mermaidAutoComplete.ts:116-130 | Filtering concatenated pools filters each pool in turn |
| MermaidAutoComplete.Select | project/src/utils/mermaidAutoComplete.ts:125-133 | At most ten items, in pool order, all matching the word when one is typed: exactly the first min(10, n) of the n qualifying items |
| MermaidAutoComplete.SelectAll | project/src/utils/mermaidAutoComplete.ts:125-133 | With no word typed, a pool of at most ten comes back whole |
| MermaidAutoComplete.SelectFew | project/src/utils/mermaidAutoComplete.ts:125-133 | With a word typed and at most ten matches, exactly the matches come back |
| MermaidAutoComplete.AutoComplete.Suggest | project/src/utils/mermaidAutoComplete.ts:90-133 | At most ten items from the chosen pool, each matching the typed word: exactly the first min(10, n) of the n qualifying items, in pool order |
| MermaidAutoComplete.AutoComplete.GetSuggestions | project/src/utils/mermaidAutoComplete.ts:90-133 | Never more than ten suggestions |
| MermaidAutoComplete.InstancePools | project/src/utils/mermaidAutoComplete.ts:13-89 | The shared instance holds the six declaration keywords and the six arrows, with their labels in order |
| MermaidAutoComplete.SuggestComplete | project/src/utils/mermaidAutoComplete.ts:125-133 | Nothing is lost unless more than ten items qualify: the whole pool with no word, every match with a word |
| MermaidAutoComplete.BlankHasNoWord | project/src/utils/mermaidAutoComplete.ts:93-99 | At the start of the text or of a line, the current line trims to nothing and no word is typed |
| MermaidAutoComplete.BlankSuggestsFlowchart | project/src/utils/mermaidAutoComplete.ts:98-100 | At the start of the text or of a line, the declaration pool comes back unfiltered |
| MermaidAutoComplete.BlankSuggestsDeclarations | project/src/utils/mermaidAutoComplete.ts:98-100 | For the shared instance, that means exactly the six declarations, in order |
| MermaidAutoComplete.WordOnLine | project/src/utils/mermaidAutoComplete.ts:92-94 | The typed word occurs in the current line |
| MermaidAutoComplete.ChoicePriority | project/src/utils/mermaidAutoComplete.ts:97-122 | Each pool is chosen exactly when its condition holds and no earlier one does; `lastWord === 'style'` never decides alone |
| MermaidAutoComplete.CursorAfterHeader | project/src/utils/mermaidAutoComplete.ts:91-100 | With the cursor right after `graph TD` and its line break, the six declarations come back |
| MermaidAutoComplete.AfterCursorIrrelevant | project/src/utils/mermaidAutoComplete.ts:91 | Text at or after the cursor never changes the suggestions |
| MermaidAutoComplete.SymbolArrowsDoNotMatch | project/src/utils/mermaidAutoComplete.ts:62-65 | No identifier matches the four arrows made of symbols only |
| MermaidAutoComplete.TailArrowMatches | project/src/utils/mermaidAutoComplete.ts:66-67 | `--x` and `--o` match an identifier exactly when it is that letter, in either case |
| MermaidAutoComplete.ArrowsSelected | project/src/utils/mermaidAutoComplete.ts:126-130 | Filtering the arrow pool by an identifier leaves `--x` for `x`, `--o` for `o`, and nothing otherwise |
| MermaidAutoComplete.ArrowsAfterIdentifier | project/src/utils/mermaidAutoComplete.ts:103-130 | After a bare identifier, the suggestions are `--x`, `--o` or nothing, as above |
| AuthService.ValidateEmail | project/src/utils/authService.ts:195-198 | Definition: some `@` and `.` split the email into the three runs of `[^\s@]+`; its meaning is stated by `EmailCharacterization` |
| AuthService.EmailCharacterization | project/src/utils/authService.ts:195-198 | The email pattern accepts exactly the strings with no whitespace, exactly one `@`, a non-empty part before it, and after it a `.` that is neither first nor last |
| AuthService.LoginNameIsLocalPart | project/src/utils/authService.ts:27-31 | A login user is named by the text before the `@`, which is non-empty and has no `@` or whitespace |
| AuthService.LoginAccepted | project/src/utils/authService.ts:27 | Definition: a valid email and a password of at least six characters; `AuthService.AuthService.Login` succeeds exactly when it holds |
| AuthService.RegisterProblem | project/src/utils/authService.ts:70-96 | Registration passes exactly when all four checks hold; otherwise the message names the first check that fails, in source order |
| AuthService.RegisteredNameClean | project/src/utils/authService.ts:91-102 | A name that passes is stored trimmed, with at least two characters |
| AuthService.ValidateToken | project/src/utils/authService.ts:157-168 | Definition: starts with `token_` and is longer than 20 characters; `IssuedTokenValid` states when an issued token passes |
| AuthService.IssuedTokenValid | project/src/utils/authService.ts:37-163 | An issued token `token_<stamp>_<random>` passes `validateToken` exactly when stamp and random part have more than 13 characters between them |
| AuthService.ResetPassword | project/src/utils/authService.ts:170-192 | Succeeds exactly when the email follows the rule, with the message `Password reset instructions sent to your email`; otherwise it returns the invalid-email message; it never carries a user or a token |
| AuthService.AuthService.constructor | project/src/utils/authService.ts:15-222 | Restores a stored user and token when both are present and the token is non-empty; otherwise the session is empty |
| AuthService.AuthService.GetCurrentUser | project/src/utils/authService.ts:142-145 | Definition: the current user field; read by the ensures of `Login`, `Register` and `Logout` |
| AuthService.AuthService.IsAuthenticated | project/src/utils/authService.ts:147-150 | Definition: a user and a token are both present; `Login`, `Register` and `Logout` state its value afterwards |
| AuthService.AuthService.GetAuthToken | project/src/utils/authService.ts:152-155 | Definition: the token field; read by the ensures of `Login`, `Register` and `Logout` |
| AuthService.AuthService.Login | project/src/utils/authService.ts:21-61 | Succeeds exactly for a valid email and a password of six or more characters, then sets the session to the new user and token and authenticates. The id, token, creation time and last-login time come from four separate clock readings. Otherwise it returns the rejection and leaves the session unchanged |
| AuthService.AuthService.Register | project/src/utils/authService.ts:64-125 | Succeeds exactly when no check fails, then sets the session to the new user and token; the id, token and creation time come from separate clock readings. Otherwise it returns the first failing check's message and leaves the session unchanged |
| AuthService.AuthService.Logout | project/src/utils/authService.ts:128-139 | Clears user and token; the service is no longer authenticated |

## Left out

- Case folding is ASCII only. JavaScript's `toLowerCase` and the `/i` flag also fold non-ASCII letters; the model does not.
- The renderer's `mermaid.parse` is not modelled. Its verdict is an input, so what the real parser accepts is outside the model.
- `parseInt` of the line number is modelled as an exact decimal value. A digit string longer than a double can hold exactly is not rounded as JavaScript would round it.
- Promises, `setTimeout` delays, `Date.now`, `Math.random` and `localStorage` are not modelled. Time stamps, random token parts and the stored session are parameters.
- The `try`/`catch` fallbacks of `login`, `register`, `logout`, `validateToken` and `resetPassword` are not modelled. Nothing inside those blocks throws without I/O. The storage helpers' own error handling is left out with the storage itself.
- A stored user that fails `JSON.parse` is not modelled; the constructor receives the stored user already parsed.
- The `getInstance` singletons of the four classes are not modelled. `MermaidAutoComplete.Instance` stands for the exported auto-completer.
- Detection of the diagram type takes the first line of the trimmed text, so a leading `%%` comment line decides the kind (`MermaidValidator.DetectDiagramType`).
- At offset 9 of `graph TD\nA` the text before the cursor ends in a line break, so the declarations come back (`MermaidAutoComplete.CursorAfterHeader`).
- A cursor that is `NaN` or not an integer is not modelled. The cursor is an `int`, clamped as `substring` clamps it.
- The validator's `forEach` callback is split into the methods `CheckBrackets`, `CheckArrows` and `CheckLine`. The formatter's loop body is the method `FormatLine`. These splits keep each proof small; they follow the source's order of tests exactly.
- The auto-completer's `kind` field is the datatype `ItemKind` rather than a string.
- `MermaidFormatter.TidyNoDoubleSpaces`: `beautifyCode` collapses indentation to a single space. The model proves this behaviour; it is not treated as a bug.
- `MermaidFormatter.SpaceArrowsSeparates`: each arrow rule is proved to separate its own arrow on its own side, right after that rule runs. The model does not prove that later rules keep earlier separations, or that all four separations hold together in the final text.
- `AuthService.AuthService.Register`: the `lastLogin` field is absent from a registered user (`None`), as in the source. `createdAt` is a clock-reading parameter.

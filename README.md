# markdown-doctest in Dafny

This project models the core of markdown-doctest, a tool that finds the
JavaScript code snippets in Markdown documents and runs each one as a test.

**Parsing** (`src/parse-code-snippets-from-markdown.js`). A document is split
into lines. Each line is classified by `parseLine` into one of seven actions:
start fence, end fence, skip marker, share marker, return assertion, log
assertion, or plain line. The first rule that matches wins. The actions are
folded over one state record, which holds:
- the snippets found so far;
- a pending skip flag;
- a sticky share-code flag.

The parse fails when the last snippet was never closed.
- `text.dfy` models JavaScript's `trim` and `split`.
- `snippet_parser.dfy` models the line predicates and the regular expressions,
  written out as matchers. It also models the actions, both as functions on
  a `State` value and as methods of the class `ParserState`, which updates its
  fields in place. The method `ParseCodeSnippets` is proved equal to the
  function `ParseSpec`.
- `parser_properties.dfy`, `rewrite_properties.dfy` and `fold_properties.dfy`
  prove what the matchers mean, what the return-assertion rewrite does, and
  what the fold computes.

**Running** (`src/doctest.js`).
- `sandbox.dfy` models the sandbox every snippet runs in:
  - the resolution order of `require`;
  - the `console.log` stack that `__logStackPop` pops;
  - the user's globals laid over the built-ins.
- `doctest.dfy` models `test`, `testFile`, `runTests` and `flattenArray`. Babel
  and the virtual machine are oracles in a `Tools` value. The host those
  calls reach is a class `Host` that records every call, in order, in an
  event trace. The methods `Test`, `TestFile` and `RunTests` are proved equal
  to the functions `TestSpec`, `FileSpec` and `RunSpec`, which give the
  results and the events appended to the trace.
- `doctest_properties.dfy` and `run_properties.dfy` prove the testing
  protocol:
  - one result per snippet, in order;
  - skips;
  - pass exactly when nothing was thrown;
  - `beforeEach` before the code;
  - one fresh sandbox per snippet, or one per file when the file shares code;
  - every execution runs in a sandbox made before it;
  - a parse error in any document stops the whole run;
  - what `flattenArray` computes.
- `report.dfy` models the counts and the success rule of `printResults`, and
  the location `markDownErrorLocation` prints for a failure.

Where the code and the tool's documentation disagree, the model follows the
code:
- `runTests` parses every document (`files.map(parseCodeSnippets)`) before
  testing any. A document whose last snippet is open therefore stops the
  whole run. It is not reported as one failing document.
- The log stack is last-in, first-out (`logStack.pop()`). Several logs
  followed by several `// log =>` assertions are checked newest first.
- Sandboxes in the trace are named by the position of the event that made
  them.

## Model

| member | source | states |
|---|---|---|
| Text.TrimIsTrimmed | src/parse-code-snippets-from-markdown.js:3-6 | `trim` leaves text that neither starts nor ends with whitespace, cut out of the line with only whitespace around it |
| Text.TrimOfTrimmed | src/parse-code-snippets-from-markdown.js:3-6 | a line with no whitespace at either end is its own trim |
| Text.Split | src/parse-code-snippets-from-markdown.js:125-126 | `split('\n')` gives at least one piece, and no piece holds a newline |
| Text.JoinSplit | src/parse-code-snippets-from-markdown.js:125-126 | joining the pieces of `split` with the separator gives the contents back |
| Text.SplitJoin | src/parse-code-snippets-from-markdown.js:125-126 | splitting joined newline-free pieces gives the pieces back |
| SnippetParser.LeadingWhitespace | src/parse-code-snippets-from-markdown.js:9-10 | the `^\s*` run is all whitespace and is followed by a non-whitespace character or the end |
| SnippetParser.LineEndIsFirstNewline | src/parse-code-snippets-from-markdown.js:8 | the line end found is the first newline, or the end of the code when there is none |
| SnippetParser.FindLastLineIsLeftmost | src/parse-code-snippets-from-markdown.js:8 | the last-line match found is a match of `/[^\n]+\r?\n$/m`, and no match starts before it; when none is found there is none at all |
| SnippetParser.Step | src/parse-code-snippets-from-markdown.js:14-85 | one line adds exactly one snippet when it opens one and none otherwise. It never changes an earlier snippet or a complete last one. The skip flag is set by a skip marker and cleared by a start fence. The share flag, once set, stays set |
| SnippetParser.ParserState.constructor | src/parse-code-snippets-from-markdown.js:119-123 | the initial record has no snippets, no pending skip and no sharing |
| SnippetParser.ParserState.StartNewSnippet | src/parse-code-snippets-from-markdown.js:14-21 | appends an empty, incomplete snippet for this file and line, carrying the pending skip flag, and clears the flag |
| SnippetParser.ParserState.AddLineToLastSnippet | src/parse-code-snippets-from-markdown.js:23-33 | appends the line and a newline to the last snippet if it is open, and changes nothing otherwise |
| SnippetParser.ParserState.AddReturnAssertionToLastSnippet | src/parse-code-snippets-from-markdown.js:35-49 | rewrites the open last snippet's last line into a binding and a deep-equality check, and changes nothing without an open snippet |
| SnippetParser.ParserState.AddLogAssertionToLastSnippet | src/parse-code-snippets-from-markdown.js:51-63 | appends the log check on the trimmed expression to the open last snippet, and changes nothing otherwise |
| SnippetParser.ParserState.EndSnippet | src/parse-code-snippets-from-markdown.js:65-73 | marks the last snippet complete, and changes nothing when there are none |
| SnippetParser.ParserState.Skip | src/parse-code-snippets-from-markdown.js:75-79 | sets the pending skip flag and nothing else |
| SnippetParser.ParserState.ShareCodeInFile | src/parse-code-snippets-from-markdown.js:81-85 | sets the share flag and nothing else |
| SnippetParser.ParserState.Conclude | src/parse-code-snippets-from-markdown.js:130-142 | fails with the incomplete error when the last snippet is open; otherwise gives the file name, the snippets and the share flag |
| SnippetParser.ParserState.Perform | src/parse-code-snippets-from-markdown.js:87-113 | carries out the action `parseLine` chose, as the pure step does |
| SnippetParser.FoldActions | src/parse-code-snippets-from-markdown.js:119-128 | folding the actions over one fresh record gives the pure fold |
| SnippetParser.ParseCodeSnippets | src/parse-code-snippets-from-markdown.js:115-143 | split, classify, fold and check give exactly `ParseSpec` |
| ParserProperties.FenceThenNonWordMeans | src/parse-code-snippets-from-markdown.js:3 | the fence-then-`\W*` matcher holds exactly when some position holds three backticks followed by non-word characters only |
| ParserProperties.FenceThenNonWordSound | src/parse-code-snippets-from-markdown.js:3 | when the matcher holds, it yields a position where three backticks are followed by non-word characters to the end |
| ParserProperties.FenceThenNonWordComplete | src/parse-code-snippets-from-markdown.js:3 | three backticks at any position followed by non-word characters to the end make the matcher hold |
| ParserProperties.TagAfterFenceMeans | src/parse-code-snippets-from-markdown.js:3 | a tag ends the text after a fence exactly when some fence match places it there |
| ParserProperties.FenceTagAtEndMeans | src/parse-code-snippets-from-markdown.js:3 | the start-fence matcher holds exactly when some fence and tag match end the text |
| ParserProperties.MatchAtMeans | src/parse-code-snippets-from-markdown.js:3 | a match may end at the text's end or one whitespace character before it (`\s?$`) |
| ParserProperties.StartFenceIsRegexMatch | src/parse-code-snippets-from-markdown.js:3 | `isStartOfSnippet` holds exactly when `/```\W*(JavaScript\|js\|es6)\s?$/i` matches the trimmed line |
| ParserProperties.CommentBodySound | src/parse-code-snippets-from-markdown.js:9-10 | what follows `^\s*\/\/\s?` is found only on a line of that shape |
| ParserProperties.CommentBodyOf | src/parse-code-snippets-from-markdown.js:9-10 | every line of that shape gives its body |
| ParserProperties.ReturnAssertionSound | src/parse-code-snippets-from-markdown.js:9 | a captured return expression comes from a line of the pattern's shape |
| ParserProperties.ReturnAssertionComplete | src/parse-code-snippets-from-markdown.js:9 | every line of the pattern's shape gives its expression |
| ParserProperties.ReturnAssertionIsRegexMatch | src/parse-code-snippets-from-markdown.js:9-11 | group 1 of the return-assertion pattern is x exactly when the line has the pattern's shape around x |
| ParserProperties.LogTailSound | src/parse-code-snippets-from-markdown.js:10 | the part after `log` has the shape `\s?=>(.+)\r?` |
| ParserProperties.LogAssertionSound | src/parse-code-snippets-from-markdown.js:10 | a captured log expression comes from a line of the pattern's shape |
| ParserProperties.LogAssertionComplete | src/parse-code-snippets-from-markdown.js:10 | every line of the log pattern's shape gives its expression |
| ParserProperties.LogAssertionIsRegexMatch | src/parse-code-snippets-from-markdown.js:10-12 | group 1 of the log-assertion pattern is x exactly when the line has the pattern's shape around x |
| ParserProperties.StartFenceLastChar | src/parse-code-snippets-from-markdown.js:3 | a start fence ends with the last letter of one of its tags |
| ParserProperties.MarkersAreNotStartFences | src/parse-code-snippets-from-markdown.js:3-6 | an end fence, skip marker or share marker never opens a snippet |
| ParserProperties.CommentLineIsNoMarker | src/parse-code-snippets-from-markdown.js:4-10 | a `//` comment line trims to text starting with `/`, so it is none of the marker lines |
| ParserProperties.ReturnAndLogExclusive | src/parse-code-snippets-from-markdown.js:9-12 | no line is both a return assertion and a log assertion |
| ParserProperties.ClassificationOrder | src/parse-code-snippets-from-markdown.js:87-113 | each action is chosen exactly when its own test holds and no earlier test does; only the start fence needs the priority |
| ParserProperties.StartFenceWinsOverAssertion | src/parse-code-snippets-from-markdown.js:87-106 | every start-fence line opens a snippet, even when it also matches the return- or log-assertion pattern |
| ParserProperties.PatternsOverlap | src/parse-code-snippets-from-markdown.js:3-9 | the start-fence and return-assertion patterns both match the line `// => ```js`, which then opens a snippet |
| RewriteProperties.MatchEndIsLineEnd | src/parse-code-snippets-from-markdown.js:8 | a last-line match from a given start ends just past the first newline |
| RewriteProperties.LeftmostMatch | src/parse-code-snippets-from-markdown.js:8 | a match with none before it is the one `replace` finds |
| RewriteProperties.WrapFirstLine | src/parse-code-snippets-from-markdown.js:40-44 | a first line followed by the end or a line terminator is the one replaced |
| RewriteProperties.ShiftedMatch | src/parse-code-snippets-from-markdown.js:8 | matching looks only forward, so a match shifts with a prefix |
| RewriteProperties.NoMatchInWholeLines | src/parse-code-snippets-from-markdown.js:8 | no match starts inside whole lines without a blank line |
| RewriteProperties.NoMatchAfterWholeLines | src/parse-code-snippets-from-markdown.js:8 | such a prefix adds no match |
| RewriteProperties.MatchAfterWholeLines | src/parse-code-snippets-from-markdown.js:8 | the leftmost match after such a prefix is the shifted leftmost match of the rest |
| RewriteProperties.ReplaceAfterWholeLines | src/parse-code-snippets-from-markdown.js:40-44 | the rewrite never touches such a prefix |
| RewriteProperties.ReplaceShifted | src/parse-code-snippets-from-markdown.js:40-44 | a shifted match is replaced after the prefix |
| RewriteProperties.RewriteWrapsLastLine | src/parse-code-snippets-from-markdown.js:35-49 | in code without a blank line, a return assertion wraps the last line into `var __returnValue=` and a deep-equality check |
| RewriteProperties.SecondReturnAssertionWrapsFirst | src/parse-code-snippets-from-markdown.js:35-49 | the rewrite leaves a blank line, so a second return assertion in the same snippet wraps the first rewritten line again |
| RewriteProperties.RewriteOfBlankCode | src/parse-code-snippets-from-markdown.js:39-44 | in a snippet whose code is empty or only newlines, `/[^\n]+\r?\n$/m` finds no line and a return assertion leaves the code unchanged |
| FoldProperties.FoldConcat | src/parse-code-snippets-from-markdown.js:125-128 | folding two runs of lines is folding the second from where the first left off |
| FoldProperties.Openings | src/parse-code-snippets-from-markdown.js:88-90 | the positions of the opening lines lie within the document |
| FoldProperties.OpeningsAreOpen | src/parse-code-snippets-from-markdown.js:88-90 | every listed position opens a snippet |
| FoldProperties.OpeningsAreAll | src/parse-code-snippets-from-markdown.js:88-90 | every opening position is listed |
| FoldProperties.OpeningsIncrease | src/parse-code-snippets-from-markdown.js:88-90 | the positions are listed in increasing order |
| FoldProperties.StepKeepsOrigins | src/parse-code-snippets-from-markdown.js:14-85 | no step changes an existing snippet's file, line or skip flag |
| FoldProperties.StepKeepsCompleteness | src/parse-code-snippets-from-markdown.js:14-85 | only an end fence changes whether a snippet is complete |
| FoldProperties.StepOpensSnippet | src/parse-code-snippets-from-markdown.js:14-21 | an opening appends an empty, open snippet that carries the pending skip flag |
| FoldProperties.SkipFlag | src/parse-code-snippets-from-markdown.js:14-16 | the pending skip flag is set by a skip marker and cleared by the next opening |
| FoldProperties.SnippetOrigins | src/parse-code-snippets-from-markdown.js:14-21 | every snippet's origin agrees with the opening that made it |
| FoldProperties.CloseIffEndFence | src/parse-code-snippets-from-markdown.js:87-94 | a line closes a snippet exactly when it is an end fence |
| FoldProperties.SkipIffSkipMarker | src/parse-code-snippets-from-markdown.js:87-98 | a line sets skip exactly when it is the skip marker |
| FoldProperties.ShareIffShareMarker | src/parse-code-snippets-from-markdown.js:87-102 | a line sets sharing exactly when it is the share marker |
| FoldProperties.LineNumbersAreOpenings | src/parse-code-snippets-from-markdown.js:125-128 | snippet j carries the file name and the 1-based line of the j-th opening |
| FoldProperties.SnippetsStartAtFences | src/parse-code-snippets-from-markdown.js:125-128 | every snippet's line number is that of a start-fence line of the document |
| FoldProperties.OpeningHasSnippet | src/parse-code-snippets-from-markdown.js:14-21 | every opening action yields a snippet numbered by its line |
| FoldProperties.EveryFenceOpensSnippet | src/parse-code-snippets-from-markdown.js:87-90 | every start-fence line yields a snippet |
| FoldProperties.SnippetsInSourceOrder | src/parse-code-snippets-from-markdown.js:125-128 | snippets come in the order of their fences |
| FoldProperties.SkipAndOpen | src/parse-code-snippets-from-markdown.js:87-98 | the opening and skip actions are chosen by start fences and skip markers |
| FoldProperties.SkipActions | src/parse-code-snippets-from-markdown.js:125-127 | that holds for every line of a document |
| FoldProperties.PendingSkipFromLines | src/parse-code-snippets-from-markdown.js:75-79 | a pending skip action comes from a skip marker with no start fence after it |
| FoldProperties.SkipMarkerIsPending | src/parse-code-snippets-from-markdown.js:75-79 | a skip marker with no start fence after it is pending |
| FoldProperties.PendingSkipIsSkipBefore | src/parse-code-snippets-from-markdown.js:14-16 | a skip is pending before a line exactly when a skip marker precedes it with no start fence between |
| FoldProperties.SkipReachesNextFenceOnly | src/parse-code-snippets-from-markdown.js:14-16 | a snippet is skipped exactly when a skip marker lies between the previous fence and its own |
| FoldProperties.ShareFlag | src/parse-code-snippets-from-markdown.js:81-85 | the share flag is set once any line asks for it and never cleared |
| FoldProperties.ShareIffMarker | src/parse-code-snippets-from-markdown.js:81-85 | a file shares its code exactly when one of its lines is the share marker |
| FoldProperties.HasOpenSnippetStep | src/parse-code-snippets-from-markdown.js:14-73 | an opening leaves a snippet open, a closing leaves none, and anything else keeps the state |
| FoldProperties.OpenIffUnclosed | src/parse-code-snippets-from-markdown.js:125-128 | a snippet is open after the fold exactly when an opening has no closing after it |
| FoldProperties.FenceActions | src/parse-code-snippets-from-markdown.js:87-94 | the opening and closing actions are chosen by the start and end fences |
| FoldProperties.UnclosedOpeningIsFence | src/parse-code-snippets-from-markdown.js:87-94 | an unclosed opening comes from an unclosed start fence |
| FoldProperties.UnclosedFenceIsOpening | src/parse-code-snippets-from-markdown.js:87-94 | an unclosed start fence gives an unclosed opening |
| FoldProperties.IncompleteIffUnclosedFence | src/parse-code-snippets-from-markdown.js:132-136 | the parse fails, with `Snippet parsing was incomplete`, exactly when some start fence has no end fence after it |
| FoldProperties.OnlyLastSnippetChecked | src/parse-code-snippets-from-markdown.js:132-136 | only the last snippet is checked: for the lines "```js", "```js", "```" the first snippet stays incomplete, the second is closed, and the parse succeeds |
| FoldProperties.FinishedSnippetsFrozen | src/parse-code-snippets-from-markdown.js:23-73 | a complete snippet, or one that is no longer last, never changes |
| FoldProperties.PlainLinesAccumulate | src/parse-code-snippets-from-markdown.js:23-33 | plain lines inside an open snippet are appended to its code with their newlines |
| FoldProperties.ClosedStateIgnoresCode | src/parse-code-snippets-from-markdown.js:23-63 | with no open snippet, code and assertion lines change nothing |
| Sandbox.Lookup | src/doctest.js:40-44 | the table gives the module when the name is in it, and otherwise the module-not-found error naming it |
| Sandbox.FirstRegexMatchAt | src/doctest.js:29-37 | the first matching pattern's handler is called with its match |
| Sandbox.NoRegexMatch | src/doctest.js:29-38 | when no pattern matches, no handler is called |
| Sandbox.RegexHandlerWins | src/doctest.js:29-37 | the first matching pattern decides, whatever the table holds |
| Sandbox.TableDecidesWithoutMatch | src/doctest.js:40-44 | with no matching pattern the table decides |
| Sandbox.SandboxRequire | src/doctest.js:28-45 | the loop over the patterns, then the table lookup, gives exactly the resolution order above |
| Sandbox.PopUndoesPush | src/doctest.js:47-54 | a pop returns what the last log pushed and restores the stack |
| Sandbox.PopsReverseLogs | src/doctest.js:47-54 | pops after several logs return them newest first and leave the stack as it was |
| Sandbox.PopEmpty | src/doctest.js:54 | popping an empty stack gives `undefined` and leaves it empty |
| Sandbox.LogStack.constructor | src/doctest.js:47 | a sandbox's log stack starts empty |
| Sandbox.LogStack.Log | src/doctest.js:49-51 | `console.log` pushes its arguments as one entry |
| Sandbox.LogStack.PopEntry | src/doctest.js:54 | `__logStackPop` removes and returns the newest entry |
| Sandbox.SandboxGlobals | src/doctest.js:53-59 | the names are the built-ins and the user's globals; a user global wins over a built-in of the same name |
| Sandbox.OnlyBuiltinsByDefault | src/doctest.js:53-59 | without user globals a snippet sees exactly the four built-ins |
| Doctest.Presets | src/doctest.js:92-98 | es2015 always comes first; stage-0 is added exactly when the Babel options set `stage` to 0 |
| Doctest.Host.MakeSandbox | src/doctest.js:73 | making a sandbox records it, named by its trace position |
| Doctest.Host.BeforeEach | src/doctest.js:107-109 | records the call to `beforeEach` |
| Doctest.Host.Transpile | src/doctest.js:113 | gives Babel's answer and records the call |
| Doctest.Host.Execute | src/doctest.js:116 | gives what the virtual machine threw and records the run |
| Doctest.Test | src/doctest.js:83-129 | the test of one snippet gives `TestSpec`'s result and appends its events |
| Doctest.TryBlock | src/doctest.js:111-121 | the try block transpiles unless Babel is off, runs the code, and records what was thrown |
| Doctest.TestAll | src/doctest.js:74-79 | the snippets are tested in order, each seeing the trace the earlier ones left |
| Doctest.TestNext | src/doctest.js:74-76 | one more snippet extends the results and the trace |
| Doctest.TestFile | src/doctest.js:64-81 | a file that shares code gets one sandbox, made before any snippet is looked at |
| Doctest.ParseDocuments | src/doctest.js:16-17 | every document is parsed in order, and the first parse error ends it |
| Doctest.TestDocuments | src/doctest.js:18-20 | the parsed files are tested in order and their results flattened |
| Doctest.TestNextFile | src/doctest.js:18 | one more file extends the results and the trace |
| Doctest.RunTests | src/doctest.js:14-21 | a parse error returns the error and touches nothing; otherwise the run gives `RunSpec`'s results and trace |
| Doctest.ParseErrorSticks | src/doctest.js:17 | once a prefix of the documents fails to parse, the whole list fails with the same error |
| Doctest.FlattenOnes | src/doctest.js:79 | flattening the per-snippet results of a file gives them back |
| DoctestProperties.PrepareShape | src/doctest.js:101-109 | before the try block, a test makes at most one sandbox, named by its position, and calls `beforeEach` once if it is set |
| DoctestProperties.TryShape | src/doctest.js:111-121 | the try block transpiles at most once and runs at most once, in the sandbox it was given |
| DoctestProperties.BeforeEachRunsFirst | src/doctest.js:107-116 | `beforeEach` is called once per tested snippet, before the code is transpiled or run |
| DoctestProperties.SnippetSandbox | src/doctest.js:101-116 | a snippet runs in the file's sandbox when shared, and otherwise in one fresh sandbox made first |
| DoctestProperties.TryVerdict | src/doctest.js:111-123 | the status is decided by the first throw in the try block |
| DoctestProperties.PassIffNothingThrown | src/doctest.js:83-127 | a skipped snippet is skipped with an empty stack and no events. Otherwise it passes exactly when nothing is thrown, and fails with the thrown stack, or "" when there is none |
| DoctestProperties.TranspiledCodeRuns | src/doctest.js:111-116 | with Babel on, the snippet is transpiled with the presets and the transpiled code is run. With Babel off, the snippet's own code is run. A Babel error means nothing is run |
| DoctestProperties.ResultsFollowSnippets | src/doctest.js:74-87 | one result per snippet, in order, skipped exactly when the snippet is |
| DoctestProperties.SandboxesPerSnippet | src/doctest.js:72-77 | unshared snippets get one sandbox per tested snippet; shared ones get none and run in the shared one |
| DoctestProperties.BeforeEachPerSnippet | src/doctest.js:107-109 | `beforeEach` is called once per tested snippet |
| DoctestProperties.OneResultPerSnippet | src/doctest.js:64-81 | a file gives one result per snippet, in order |
| DoctestProperties.SandboxesPerFile | src/doctest.js:64-81 | a file that shares code makes exactly one sandbox, first, and runs everything in it |
| DoctestProperties.BeforeEachPerFile | src/doctest.js:64-81 | a file calls `beforeEach` once per tested snippet |
| DoctestProperties.TestKeepsNamesFresh | src/doctest.js:101-105 | every sandbox a test makes is fresh |
| DoctestProperties.TestKeepsExecutionsInMadeSandboxes | src/doctest.js:101-116 | a test runs code only in a sandbox made before it |
| DoctestProperties.SnippetsKeepTraceSound | src/doctest.js:72-77 | testing a file's snippets keeps both |
| DoctestProperties.FileKeepsTraceSound | src/doctest.js:64-81 | testing a file keeps both |
| DoctestProperties.FilesKeepTraceSound | src/doctest.js:18-20 | testing the files keeps both |
| DoctestProperties.RunTraceIsSound | src/doctest.js:14-21 | in a whole run every sandbox is fresh and every execution runs in a sandbox made before it |
| DoctestProperties.OwnSandboxIsUnused | src/doctest.js:103-105 | no earlier code has run in a snippet's own sandbox |
| RunProperties.ParsesIffEachParses | src/doctest.js:17 | the documents parse exactly when each one does |
| RunProperties.ParsedInOrder | src/doctest.js:17 | the parsed files are the documents' parses, in order |
| RunProperties.FirstParseErrorWins | src/doctest.js:16-17 | a failing list fails with its first failing document's error |
| RunProperties.ParseErrorAbortsRun | src/doctest.js:14-21 | a run fails before any test exactly when some document has an unclosed start fence, and then with the incomplete error |
| RunProperties.RunCoversAllSnippets | src/doctest.js:14-21 | one result per snippet of every file, file after file, skipped exactly when the snippet is |
| RunProperties.RunTestsEverySnippet | src/doctest.js:14-21 | a run that parses tests every snippet of every document once, in document order |
| RunProperties.FlattenLength | src/doctest.js:131-133 | the flattened array holds as many elements as the parts together |
| RunProperties.FlattenAppend | src/doctest.js:131-133 | flattening distributes over concatenation |
| RunProperties.FlattenSingle | src/doctest.js:131-133 | an array part is spliced in and a plain value appended |
| Report.NatToDecimal | src/doctest.js:148-157 | a count prints as decimal digits with no leading zero |
| Report.DecimalRoundTrip | src/doctest.js:217-218 | `parseInt` of a printed number gives the number |
| Report.CountStatus | src/doctest.js:140-142 | a count is at most the number of results |
| Report.CountsCoverResults | src/doctest.js:140-142 | passing, failing and skipping add up to the number of results |
| Report.CountZeroIffAbsent | src/doctest.js:140-142 | a count is zero exactly when no result has that status |
| Report.CountAppend | src/doctest.js:140-142 | counting the results of two runs joined gives the sum of the two counts, for every status |
| Report.SuccessIffNoFailure | src/doctest.js:144-146 | a run is successful exactly when no result failed |
| Report.SkipsDoNotDecide | src/doctest.js:140-146 | skipped results add only to the skip count and never change success |
| Report.CountReadsBack | src/doctest.js:148-157 | the number after a line's heading reads back as the count |
| Report.SummaryReadsBack | src/doctest.js:148-158 | the summary shows the pass count, the skip line only with skips, and `Success!` exactly when nothing failed, otherwise the fail count |
| Report.FieldReadsBack | src/doctest.js:222-225 | a `:number` field reads back from the right |
| Report.LocationReadsBack | src/doctest.js:213-226 | the location names the snippet's file, and the snippet's line plus the in-sandbox line with the column when the stack matches, and the bare line otherwise |
| Report.FailureHeaders | src/doctest.js:136-138 | one `Failed -` line per failed result |
| Report.HeadersNameFailures | src/doctest.js:161-162 | each header names the location of a failed result |

## Left out

- Reading the files (`read`, `src/doctest.js:23-25`) is left out. The model starts from documents already read.
- Console output is left out: colours, the progress dots, and the stack details and `globals` hint of `printFailure`. `relevantStackDetails` and the text of `moduleNotFoundError` are also left out.
- Babel and the virtual machine are oracles in `Tools`. What a snippet does when it runs is left out, including the `__deepStrictEqual` checks.
- Regular-expression matching in `require` and in `markDownErrorLocation` is an oracle parameter, `exec` or `locate`. A `regexRequire` key that is not a valid regular expression, and a handler that throws, are not modelled.
- Sandbox.Resolve: a `require` entry whose value is `undefined` is modelled as absent from the table.
- Sandbox.Lookup: names the `require` object inherits from `Object.prototype` (`toString`, `constructor`, ...) are modelled as absent, so they give the module-not-found error; in the source `config.require[moduleName]` finds them and no error is thrown. The table holds the object's own entries only.
- A `beforeEach` that throws is not modelled; in the source it aborts the run.
- `babel: true` is not modelled. In the source `'stage' in true` throws. Only a missing option, `false`, or an options object whose `stage` is an integer or absent are modelled.
- `throw null` or `throw undefined` is not modelled. In the source, reading `e.stack` in the catch then throws. A thrown value without a stack is modelled as an exception whose stack is absent.
- Report.DecimalValue: JavaScript numbers are doubles, but counts and line numbers are unbounded naturals here.
- Line shifts from Babel's transpilation are not modelled. The in-sandbox line is added as the stack reports it.
- Effects that reach across sandboxes through objects in the user's globals are left to the execution oracle: `Tools.execute` receives the whole earlier trace, runs in other sandboxes included, and may answer according to it; the model states nothing about such effects.

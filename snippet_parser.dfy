/** The Markdown snippet parser: a document is split into lines, every line is
    classified into one of seven actions, and the actions are applied in order
    to one parser state (the list of snippets, a pending skip flag and a sticky
    share-code flag). The state record is a class whose methods change it in
    place, as the source's action functions do; `Apply` and `Process` are the
    value-level specification those methods are proved against. */
module SnippetParser {
  import opened Wrappers
  import opened Text

  const Fence: string := "```"
  const SkipMarker: string := "<!-- skip-example -->"
  const ShareMarker: string := "<!-- share-code-between-examples -->"
  const IncompleteMessage: string := "Snippet parsing was incomplete"

  /** A fenced code block. `code` grows while the block is open; `lineNumber`
      is the 1-based line of the opening fence. */
  datatype Snippet = Snippet(code: string, fileName: string, lineNumber: nat, complete: bool, skip: bool)

  /** The record threaded through the lines. */
  datatype State = State(snippets: seq<Snippet>, skip: bool, shareCodeInFile: bool)

  const InitialState: State := State([], false, false)

  datatype ParsedFile = ParsedFile(fileName: string, codeSnippets: seq<Snippet>, shareCodeInFile: bool)

  datatype ParseError = ParseError(message: string)

  /** What a line does to the state, as chosen by `ParseLine`. The two
      assertion actions carry the text their pattern captured. */
  datatype Action =
    | OpenSnippet
    | CloseSnippet
    | SetSkip
    | ShareCode
    | ReturnAssertion(expression: string)
    | LogAssertion(expression: string)
    | PlainLine(line: string)

  // ----- Start fence: /```\W*(JavaScript|js|es6)\s?$/i on the trimmed line

  /** One of the tags `JavaScript`, `js`, `es6`, in any case. */
  predicate IsTag(u: string) {
    EqualsIgnoreCase(u, "javascript") || EqualsIgnoreCase(u, "js") || EqualsIgnoreCase(u, "es6")
  }

  /** `p` ends with a fence followed by non-word characters only. */
  predicate FenceThenNonWord(p: string)
    decreases |p|
  {
    |p| >= 3 && (p[|p| - 3..] == Fence || (!IsWordChar(p[|p| - 1]) && FenceThenNonWord(p[..|p| - 1])))
  }

  predicate TagAfterFence(s: string, tag: string) {
    |s| >= |tag| && EqualsIgnoreCase(s[|s| - |tag|..], tag) && FenceThenNonWord(s[..|s| - |tag|])
  }

  predicate FenceTagAtEnd(s: string) {
    TagAfterFence(s, "javascript") || TagAfterFence(s, "js") || TagAfterFence(s, "es6")
  }

  predicate IsStartOfSnippet(line: string) {
    var t := Trim(line);
    FenceTagAtEnd(t) || (|t| > 0 && IsWhitespace(t[|t| - 1]) && FenceTagAtEnd(t[..|t| - 1]))
  }

  /** The regular expression's own reading: a fence at `i`, non-word
      characters up to `k`, then a tag, an optional `\s`, and the end. */
  ghost predicate StartFenceMatchAt(t: string, i: int, k: int) {
    0 <= i && i + 3 <= k <= |t| && t[i..i + 3] == Fence
    && (forall m | i + 3 <= m < k :: !IsWordChar(t[m]))
    && (IsTag(t[k..]) || (k < |t| && IsWhitespace(t[|t| - 1]) && IsTag(t[k..|t| - 1])))
  }

  ghost predicate StartFenceRegex(t: string) {
    exists i, k :: StartFenceMatchAt(t, i, k)
  }

  // ----- Other whole-line markers

  predicate IsEndOfSnippet(line: string) {
    Trim(line) == Fence
  }

  predicate IsSkip(line: string) {
    Trim(line) == SkipMarker
  }

  predicate IsCodeSharedInFile(line: string) {
    Trim(line) == ShareMarker
  }

  // ----- Assertion comments: /^\s*\/\/\s?\=\>(.+)\r?$/ and /^\s*\/\/\s?log\s?=>(.+)\r?$/

  /** The length of the `\s*` run at the front of `s`. */
  function LeadingWhitespace(s: string): (n: nat)
    ensures n <= |s| && AllWhitespace(s[..n])
    ensures n == |s| || !IsWhitespace(s[n])
  {
    |s| - |TrimStart(s)|
  }

  /** `\s?` followed by a token that does not start with whitespace. */
  function SkipOptionalSpace(s: string): string {
    if s != [] && IsWhitespace(s[0]) then s[1..] else s
  }

  predicate NoLineTerminator(x: string) {
    forall k | 0 <= k < |x| :: !IsLineTerminator(x[k])
  }

  /** `(.+)\r?$` against the rest of the line: group 1, if it matches. */
  function CaptureToEnd(r: string): Option<string> {
    var x := if r != [] && r[|r| - 1] == '\r' then r[..|r| - 1] else r;
    if x != [] && NoLineTerminator(x) then Some(x) else None
  }

  /** What follows `^\s*\/\/\s?`, the opening both assertion patterns share. */
  function CommentBody(line: string): Option<string> {
    var r := line[LeadingWhitespace(line)..];
    if |r| >= 2 && r[..2] == "//" then Some(SkipOptionalSpace(r[2..])) else None
  }

  /** `line.match(returnAssertionPattern())[1]`, or None when it does not match. */
  function MatchReturnAssertion(line: string): Option<string> {
    match CommentBody(line)
    case None => None
    case Some(r2) => if |r2| >= 2 && r2[..2] == "=>" then CaptureToEnd(r2[2..]) else None
  }

  /** `line.match(logAssertionPattern())[1]`, or None when it does not match. */
  function MatchLogAssertion(line: string): Option<string> {
    match CommentBody(line)
    case None => None
    case Some(r2) =>
      if |r2| >= 3 && r2[..3] == "log" then
        var r3 := SkipOptionalSpace(r2[3..]);
        if |r3| >= 2 && r3[..2] == "=>" then CaptureToEnd(r3[2..]) else None
      else None
  }

  ghost predicate OptionalSpace(s: string) {
    s == [] || (|s| == 1 && IsWhitespace(s[0]))
  }

  ghost predicate OptionalCarriageReturn(cr: string) {
    cr == [] || cr == "\r"
  }

  ghost predicate CapturedText(x: string) {
    x != [] && NoLineTerminator(x)
  }

  /** How the return-assertion pattern reads `line`: `w`, `s` and `cr` are what
      `^\s*`, `\s?` and `\r?$` consume, `x` is group 1. */
  ghost predicate ReturnAssertionShape(line: string, w: string, s: string, x: string, cr: string) {
    line == w + ("//" + (s + ("=>" + (x + cr))))
    && AllWhitespace(w) && OptionalSpace(s) && CapturedText(x) && OptionalCarriageReturn(cr)
  }

  /** How the log-assertion pattern reads `line`. */
  ghost predicate LogAssertionShape(line: string, w: string, s1: string, s2: string, x: string, cr: string) {
    line == w + ("//" + (s1 + ("log" + (s2 + ("=>" + (x + cr))))))
    && AllWhitespace(w) && OptionalSpace(s1) && OptionalSpace(s2) && CapturedText(x) && OptionalCarriageReturn(cr)
  }

  // ----- The return-assertion rewrite: code.replace(/[^\n]+\r?\n$/m, ...)

  /** The first newline at or after `p`, or the end of `code`. */
  function LineEnd(code: string, p: nat): (e: nat)
    requires p <= |code|
    ensures p <= e <= |code|
    decreases |code| - p
  {
    if p == |code| || code[p] == '\n' then p else LineEnd(code, p + 1)
  }

  /** `LineEnd` stops at the first newline, and at the end of `code` only
      when there is none. */
  lemma {:induction false} LineEndIsFirstNewline(code: string, p: nat)
    requires p <= |code|
    ensures var e := LineEnd(code, p);
      (forall m | p <= m < e :: code[m] != '\n') && (e == |code| || code[e] == '\n')
    decreases |code| - p
  {
    if p < |code| && code[p] != '\n' {
      LineEndIsFirstNewline(code, p + 1);
    }
  }

  /** `/[^\n]+\r?\n$/m` matches `code[p..q]`: a non-empty run without newline,
      its newline, and then the end of the code or a line terminator. */
  ghost predicate LastLinePatternAt(code: string, p: int, q: int) {
    0 <= p && p + 1 < q <= |code| && code[q - 1] == '\n'
    && (forall m | p <= m < q - 1 :: code[m] != '\n')
    && (q == |code| || IsLineTerminator(code[q]))
  }

  /** The leftmost match at or after `p`, as `replace` finds it. */
  function FindLastLine(code: string, p: nat): (r: Option<(nat, nat)>)
    requires p <= |code|
    ensures r.Some? ==> p <= r.value.0 <= r.value.1 <= |code|
    decreases |code| - p
  {
    if p == |code| then None
    else if code[p] == '\n' then FindLastLine(code, p + 1)
    else
      var e := LineEnd(code, p);
      if e == |code| then None
      else if e + 1 == |code| || IsLineTerminator(code[e + 1]) then Some((p, e + 1))
      else FindLastLine(code, e + 1)
  }

  /** `FindLastLine` finds a match with no match starting before it, or
      reports that there is none at or after `p`. */
  lemma {:induction false} FindLastLineIsLeftmost(code: string, p: nat)
    requires p <= |code|
    ensures var r := FindLastLine(code, p);
      && (r.Some? ==> LastLinePatternAt(code, r.value.0, r.value.1))
      && (r.Some? ==> forall p', q' | p <= p' < r.value.0 :: !LastLinePatternAt(code, p', q'))
      && (r.None? ==> forall p', q' | p <= p' :: !LastLinePatternAt(code, p', q'))
    decreases |code| - p
  {
    if p < |code| {
      if code[p] == '\n' {
        FindLastLineIsLeftmost(code, p + 1);
      } else {
        var e := LineEnd(code, p);
        LineEndIsFirstNewline(code, p);
        if e < |code| && !(e + 1 == |code| || IsLineTerminator(code[e + 1])) {
          FindLastLineIsLeftmost(code, e + 1);
        }
      }
    }
  }

  /** `code.replace(/[^\n]+\r?\n$/m, replacer)`: the first match, if any,
      replaced by what `replacer` makes of it. */
  function ReplaceLastLine(code: string, replacer: string -> string): string {
    match FindLastLine(code, 0)
    case None => code
    case Some((p, q)) => code[..p] + replacer(code[p..q]) + code[q..]
  }

  /** The replacer of a return assertion: bind the matched line's value, then
      compare it with the expected expression. */
  function ReturnAssertionCode(lastLine: string, expression: string): string {
    "var __returnValue=" + lastLine + "\n" + "__deepStrictEqual(__returnValue," + expression + ")\n"
  }

  function ReturnAssertionReplacer(expression: string): string -> string {
    lastLine => ReturnAssertionCode(lastLine, expression)
  }

  /** `code` with its first matching line wrapped into a return-value assertion. */
  function RewriteLastLine(code: string, expression: string): string {
    ReplaceLastLine(code, ReturnAssertionReplacer(expression))
  }

  function LogAssertionCode(expression: string): string {
    "__deepStrictEqual(Array.from(__logStackPop()),[" + Trim(expression) + "])\n"
  }

  // ----- Classification and the state transition

  /** parseLine: the first predicate that holds decides the action. */
  function ParseLine(line: string): Action {
    if IsStartOfSnippet(line) then OpenSnippet
    else if IsEndOfSnippet(line) then CloseSnippet
    else if IsSkip(line) then SetSkip
    else if IsCodeSharedInFile(line) then ShareCode
    else if MatchReturnAssertion(line).Some? then ReturnAssertion(MatchReturnAssertion(line).value)
    else if MatchLogAssertion(line).Some? then LogAssertion(MatchLogAssertion(line).value)
    else PlainLine(line)
  }

  function Last(snippets: seq<Snippet>): Snippet
    requires snippets != []
  {
    snippets[|snippets| - 1]
  }

  predicate HasOpenSnippet(st: State) {
    st.snippets != [] && !Last(st.snippets).complete
  }

  function WithLastCode(st: State, code: string): State
    requires st.snippets != []
  {
    st.(snippets := st.snippets[|st.snippets| - 1 := Last(st.snippets).(code := code)])
  }

  function AppendToOpen(st: State, text: string): State {
    if HasOpenSnippet(st) then WithLastCode(st, Last(st.snippets).code + text) else st
  }

  /** How the action functions of the code lines edit the code of the open
      snippet: a return assertion rewrites a line, a log assertion and a
      plain line append. The marker lines leave code alone. */
  function EditCode(code: string, a: Action): string {
    match a
    case ReturnAssertion(x) => RewriteLastLine(code, x)
    case LogAssertion(x) => code + LogAssertionCode(x)
    case PlainLine(line) => code + (line + "\n")
    case _ => code
  }

  /** One step of the fold, for the line numbered `lineNumber` of `fileName`,
      with `edit` standing for what the code lines do to the open snippet's
      code. The markers act on the state; a code line changes the open
      snippet only, and nothing when no snippet is open. */
  function Step(st: State, a: Action, fileName: string, lineNumber: nat, edit: (string, Action) -> string): (r: State)
    ensures |r.snippets| == |st.snippets| + (if a.OpenSnippet? then 1 else 0)
    ensures forall j | 0 <= j < |st.snippets| - 1 :: r.snippets[j] == st.snippets[j]
    ensures st.snippets != [] && Last(st.snippets).complete ==> r.snippets[|st.snippets| - 1] == Last(st.snippets)
    ensures r.skip == (a.SetSkip? || (st.skip && !a.OpenSnippet?))
    ensures r.shareCodeInFile == (st.shareCodeInFile || a.ShareCode?)
  {
    match a
    case OpenSnippet =>
      State(st.snippets + [Snippet("", fileName, lineNumber, false, st.skip)], false, st.shareCodeInFile)
    case CloseSnippet =>
      if st.snippets == [] then st
      else st.(snippets := st.snippets[|st.snippets| - 1 := Last(st.snippets).(complete := true)])
    case SetSkip => st.(skip := true)
    case ShareCode => st.(shareCodeInFile := true)
    case _ => if HasOpenSnippet(st) then WithLastCode(st, edit(Last(st.snippets).code, a)) else st
  }

  /** The step of the source's reduce: the action function of the line
      applied to the state. */
  function Apply(st: State, a: Action, fileName: string, lineNumber: nat): State {
    Step(st, a, fileName, lineNumber, EditCode)
  }

  /** `lines.map(parseLine)`: every line classified on its own. */
  function ParseLines(lines: seq<string>): seq<Action> {
    seq(|lines|, i requires 0 <= i < |lines| => ParseLine(lines[i]))
  }

  /** The reduce over `actions` starting from `st`, action `k` (0-based)
      being applied for line number `offset + k + 1`. */
  function Fold(st: State, actions: seq<Action>, fileName: string, offset: nat, edit: (string, Action) -> string): State
    decreases |actions|
  {
    if actions == [] then st
    else
      var n := |actions| - 1;
      Step(Fold(st, actions[..n], fileName, offset, edit), actions[n], fileName, offset + |actions|, edit)
  }

  /** The reduce of a whole document, from the initial state. */
  function Reduce(actions: seq<Action>, fileName: string): State {
    Fold(InitialState, actions, fileName, 0, EditCode)
  }

  lemma ReduceStep(actions: seq<Action>, i: nat, fileName: string)
    requires i < |actions|
    ensures Reduce(actions[..i + 1], fileName) == Apply(Reduce(actions[..i], fileName), actions[i], fileName, i + 1)
  {
    assert actions[..i + 1][..i] == actions[..i];
  }

  /** The state after the lines of a document. */
  function Process(lines: seq<string>, fileName: string): State {
    Reduce(ParseLines(lines), fileName)
  }

  /** The outcome once the lines are folded: the error when the last snippet
      was never closed, the parsed file otherwise. */
  function Finish(st: State, fileName: string): Result<ParsedFile, ParseError> {
    if HasOpenSnippet(st) then Err(ParseError(IncompleteMessage))
    else Ok(ParsedFile(fileName, st.snippets, st.shareCodeInFile))
  }

  /** parseCodeSnippets as a value: the snippets and the share flag, or the
      error when the last snippet was never closed. */
  function ParseSpec(contents: string, fileName: string): Result<ParsedFile, ParseError> {
    Finish(Process(Split(contents, '\n'), fileName), fileName)
  }

  /** The state record the source mutates while it folds over the lines. */
  class ParserState {
    var snippets: seq<Snippet>
    var skip: bool
    var shareCodeInFile: bool

    ghost function Value(): State
      reads this
    {
      State(snippets, skip, shareCodeInFile)
    }

    constructor ()
      ensures Value() == InitialState
    {
      snippets := [];
      skip := false;
      shareCodeInFile := false;
    }

    method StartNewSnippet(fileName: string, lineNumber: nat)
      modifies this
      ensures snippets == old(snippets) + [Snippet("", fileName, lineNumber, false, old(skip))]
      ensures !skip && shareCodeInFile == old(shareCodeInFile)
    {
      var pending := skip;
      skip := false;
      snippets := snippets + [Snippet("", fileName, lineNumber, false, pending)];
    }

    method AddLineToLastSnippet(line: string)
      modifies this
      ensures Value() == AppendToOpen(old(Value()), line + "\n")
    {
      if snippets != [] && !snippets[|snippets| - 1].complete {
        var last := snippets[|snippets| - 1];
        snippets := snippets[|snippets| - 1 := last.(code := last.code + (line + "\n"))];
      }
    }

    method AddReturnAssertionToLastSnippet(expression: string)
      modifies this
      ensures old(HasOpenSnippet(Value())) ==>
        Value() == WithLastCode(old(Value()), RewriteLastLine(old(Last(snippets).code), expression))
      ensures !old(HasOpenSnippet(Value())) ==> Value() == old(Value())
    {
      if snippets != [] && !snippets[|snippets| - 1].complete {
        var last := snippets[|snippets| - 1];
        snippets := snippets[|snippets| - 1 := last.(code := RewriteLastLine(last.code, expression))];
      }
    }

    method AddLogAssertionToLastSnippet(expression: string)
      modifies this
      ensures Value() == AppendToOpen(old(Value()), LogAssertionCode(expression))
    {
      if snippets != [] && !snippets[|snippets| - 1].complete {
        var last := snippets[|snippets| - 1];
        snippets := snippets[|snippets| - 1 := last.(code := last.code + LogAssertionCode(expression))];
      }
    }

    method EndSnippet()
      modifies this
      ensures old(snippets) == [] ==> Value() == old(Value())
      ensures old(snippets) != [] ==>
        snippets == old(snippets)[|old(snippets)| - 1 := old(Last(snippets)).(complete := true)]
      ensures skip == old(skip) && shareCodeInFile == old(shareCodeInFile)
    {
      if snippets != [] {
        var last := snippets[|snippets| - 1];
        snippets := snippets[|snippets| - 1 := last.(complete := true)];
      }
    }

    method Skip()
      modifies this
      ensures snippets == old(snippets) && skip && shareCodeInFile == old(shareCodeInFile)
    {
      skip := true;
    }

    method ShareCodeInFile()
      modifies this
      ensures snippets == old(snippets) && skip == old(skip) && shareCodeInFile
    {
      shareCodeInFile := true;
    }

    /** The end of parseCodeSnippets: the error if the last snippet is
        still open, the parsed file otherwise. */
    method Conclude(fileName: string) returns (r: Result<ParsedFile, ParseError>)
      ensures r == Finish(Value(), fileName)
    {
      if snippets != [] && !snippets[|snippets| - 1].complete {
        return Err(ParseError(IncompleteMessage));
      }
      return Ok(ParsedFile(fileName, snippets, shareCodeInFile));
    }

    /** Calls the action function `parseLine` returned, as the reduce does. */
    method Perform(a: Action, fileName: string, lineNumber: nat)
      modifies this
      ensures Value() == Apply(old(Value()), a, fileName, lineNumber)
    {
      match a
      case OpenSnippet => StartNewSnippet(fileName, lineNumber);
      case CloseSnippet => EndSnippet();
      case SetSkip => Skip();
      case ShareCode => ShareCodeInFile();
      case ReturnAssertion(x) => AddReturnAssertionToLastSnippet(x);
      case LogAssertion(x) => AddLogAssertionToLastSnippet(x);
      case PlainLine(line) => AddLineToLastSnippet(line);
    }
  }

  /** The reduce of parseCodeSnippets: one fresh state record, every action
      performed on it in order. */
  method FoldActions(actions: seq<Action>, fileName: string) returns (state: ParserState)
    ensures fresh(state) && state.Value() == Reduce(actions, fileName)
  {
    state := new ParserState();
    var i := 0;
    while i < |actions|
      invariant 0 <= i <= |actions|
      invariant fresh(state) && state.Value() == Reduce(actions[..i], fileName)
    {
      ReduceStep(actions, i, fileName);
      state.Perform(actions[i], fileName, i + 1);
      i := i + 1;
    }
    assert actions[..|actions|] == actions;
  }

  /** parseCodeSnippets: split the contents into lines, classify them, fold
      the actions over one state record, and reject the document if its last
      snippet is open. */
  method ParseCodeSnippets(contents: string, fileName: string) returns (r: Result<ParsedFile, ParseError>)
    ensures r == ParseSpec(contents, fileName)
  {
    var lines := Split(contents, '\n');
    var actions := ParseLines(lines);
    var state := FoldActions(actions, fileName);
    r := state.Conclude(fileName);
  }
}

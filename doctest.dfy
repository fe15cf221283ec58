/** The test runner: every document is parsed into snippets, then every
    snippet is transpiled and executed in a sandbox, one result per snippet.

    Babel and the `vm` module are outside the model. They are the two
    functions of `Tools`: `transpile` gives Babel's output or what it threw,
    and `execute` says what running code in a sandbox threw, given
    everything the run has done so far (the sandbox's state is whatever the
    earlier executions in it left behind). A `Host` records the run as a
    trace of `Event`s; sandboxes are named by the length of the trace when
    they are made, which makes every name fresh. What a sandbox holds is
    modelled in the module `Sandbox`. */
module Doctest {
  import opened Wrappers
  import opened SnippetParser

  datatype Status = Pass | Fail | Skip

  /** `{status, codeSnippet, stack}`. */
  datatype TestResult = TestResult(status: Status, codeSnippet: Snippet, stack: string)

  /** The `babel` key of the configuration: `false`, absent, or an options
      object whose `stage` may be set. */
  datatype BabelConfig = BabelOff | BabelDefault | BabelOptions(stage: Option<int>)

  datatype Preset = Es2015 | Stage0

  /** The configuration as the runner reads it: `babel`, and whether a
      `beforeEach` hook is set. */
  datatype Config = Config(babel: BabelConfig, hasBeforeEach: bool)

  /** Whatever a step threw; only its `stack` property is read. */
  datatype Exception = Exception(stack: Option<string>)

  /** `e.stack || ''`. */
  function StackOf(e: Exception): string {
    match e.stack
    case Some(s) => s
    case None => ""
  }

  /** The presets `test` hands to Babel: es2015 always, then stage-0 when the
      options ask for stage 0. */
  function Presets(babel: BabelConfig): (r: seq<Preset>)
    ensures |r| >= 1 && r[0] == Es2015
    ensures Stage0 in r <==> babel == BabelOptions(Some(0))
  {
    if babel == BabelOptions(Some(0)) then [Es2015, Stage0] else [Es2015]
  }

  datatype Event =
    | SandboxMade(sandbox: nat)
    | BeforeEachCalled
    | Transpiled(source: string, presets: seq<Preset>)
    | Executed(code: string, sandbox: nat)

  /** Babel's `transform(...).code` and `vm.runInNewContext`. */
  datatype Tools = Tools(
    transpile: (string, seq<Preset>) -> Result<string, Exception>,
    execute: (seq<Event>, string, nat) -> Option<Exception>)

  /** One snippet's result and the events its test adds to the trace. */
  datatype Tested = Tested(result: TestResult, events: seq<Event>)

  /** Several snippets' results and the events their tests add. */
  datatype Run = Run(results: seq<TestResult>, events: seq<Event>)

  /** The snippets read from one document. */
  datatype Document = Document(fileName: string, contents: string)

  // ===== One snippet

  /** The sandbox a snippet runs in: the file's, or a fresh one. */
  function SandboxFor(shared: Option<nat>, history: seq<Event>): nat {
    match shared
    case Some(sandbox) => sandbox
    case None => |history|
  }

  /** Making the snippet's own sandbox when it has no shared one, then
      `beforeEach`. */
  function Prepare(config: Config, shared: Option<nat>, history: seq<Event>): seq<Event> {
    var made := if shared.None? then [SandboxMade(|history|)] else [];
    if config.hasBeforeEach then made + [BeforeEachCalled] else made
  }

  /** The result of a snippet whose `try` block threw `thrown`, if
      anything: a pass with an empty stack, or a failure with the stack of
      what was thrown. */
  function Verdict(snippet: Snippet, thrown: Option<Exception>): TestResult {
    match thrown
    case None => TestResult(Pass, snippet, "")
    case Some(e) => TestResult(Fail, snippet, StackOf(e))
  }

  /** Running `code` in `sandbox` after the trace `history`. */
  function ExecuteSpec(tools: Tools, snippet: Snippet, code: string, sandbox: nat, history: seq<Event>): Tested {
    Tested(Verdict(snippet, tools.execute(history, code, sandbox)), [Executed(code, sandbox)])
  }

  /** The `try` block of a test and its `catch`, after the trace `history`:
      transpiling (unless Babel is off) and executing throw into the same
      `catch`. */
  function TrySpec(tools: Tools, config: Config, snippet: Snippet, sandbox: nat, history: seq<Event>): Tested {
    if config.babel.BabelOff? then ExecuteSpec(tools, snippet, snippet.code, sandbox, history)
    else
      var transpiled := [Transpiled(snippet.code, Presets(config.babel))];
      match tools.transpile(snippet.code, Presets(config.babel))
      case Err(e) => Tested(Verdict(snippet, Some(e)), transpiled)
      case Ok(code) =>
        var t := ExecuteSpec(tools, snippet, code, sandbox, history + transpiled);
        Tested(t.result, transpiled + t.events)
  }

  /** `test(config, fileName, sandbox)(snippet)` after the trace `history`;
      `shared` is the file's sandbox when it has one. */
  function TestSpec(tools: Tools, config: Config, snippet: Snippet, shared: Option<nat>, history: seq<Event>): Tested {
    if snippet.skip then Tested(TestResult(Skip, snippet, ""), [])
    else
      var prepared := Prepare(config, shared, history);
      var t := TrySpec(tools, config, snippet, SandboxFor(shared, history), history + prepared);
      Tested(t.result, prepared + t.events)
  }

  // ===== One file

  /** The snippets tested one after the other, each seeing the trace the
      earlier ones left. */
  function TestSnippets(tools: Tools, config: Config, snippets: seq<Snippet>, shared: Option<nat>, history: seq<Event>): (r: Run)
    decreases |snippets|
  {
    if snippets == [] then Run([], [])
    else
      var n := |snippets| - 1;
      var done := TestSnippets(tools, config, snippets[..n], shared, history);
      var t := TestSpec(tools, config, snippets[n], shared, history + done.events);
      Run(done.results + [t.result], done.events + t.events)
  }

  /** `testFile(config)(file)`: a sandbox for the whole file when it shares
      code, made before any snippet is looked at. */
  function FileSpec(tools: Tools, config: Config, file: ParsedFile, history: seq<Event>): Run {
    if file.shareCodeInFile then
      var made := [SandboxMade(|history|)];
      var run := TestSnippets(tools, config, file.codeSnippets, Some(|history|), history + made);
      Run(run.results, made + run.events)
    else TestSnippets(tools, config, file.codeSnippets, None, history)
  }

  // ===== The whole run

  /** `parseCodeSnippets` on one document. */
  function Parse(doc: Document): Result<ParsedFile, ParseError> {
    ParseSpec(doc.contents, doc.fileName)
  }

  /** `files.map(parse)`: the first document that fails to parse ends it.
      The run passes `Parse`; the order argument holds for any parser. */
  function ParseAll(parse: Document -> Result<ParsedFile, ParseError>, docs: seq<Document>): Result<seq<ParsedFile>, ParseError>
    decreases |docs|
  {
    if docs == [] then Ok([])
    else
      var n := |docs| - 1;
      match ParseAll(parse, docs[..n])
      case Err(e) => Err(e)
      case Ok(files) =>
        match parse(docs[n])
        case Err(e) => Err(e)
        case Ok(file) => Ok(files + [file])
  }

  /** The files tested one after the other. */
  function TestFiles(tools: Tools, config: Config, files: seq<ParsedFile>, history: seq<Event>): Run
    decreases |files|
  {
    if files == [] then Run([], [])
    else
      var n := |files| - 1;
      var done := TestFiles(tools, config, files[..n], history);
      var run := FileSpec(tools, config, files[n], history + done.events);
      Run(done.results + run.results, done.events + run.events)
  }

  /** `runTests(files, config)`: every document is parsed before any is
      tested. */
  function RunSpec(tools: Tools, config: Config, docs: seq<Document>, history: seq<Event>): Result<Run, ParseError> {
    match ParseAll(Parse, docs)
    case Err(e) => Err(e)
    case Ok(files) => Ok(TestFiles(tools, config, files, history))
  }

  // ===== flattenArray

  /** An element of the array `flattenArray` reduces: a value, which
      `concat` appends, or an array, whose elements it appends. */
  datatype Piece<T> = One(item: T) | Many(items: seq<T>)

  function Size<T>(p: Piece<T>): nat {
    match p
    case One(_) => 1
    case Many(xs) => |xs|
  }

  /** `acc.concat(p)`. */
  function Concat<T>(acc: seq<T>, p: Piece<T>): seq<T> {
    match p
    case One(x) => acc + [x]
    case Many(xs) => acc + xs
  }

  /** `array.reduce((a, b) => a.concat(b), [])`. */
  function Flatten<T>(pieces: seq<Piece<T>>): seq<T>
    decreases |pieces|
  {
    if pieces == [] then [] else Concat(Flatten(pieces[..|pieces| - 1]), pieces[|pieces| - 1])
  }

  function Ones<T>(xs: seq<T>): (r: seq<Piece<T>>)
    ensures |r| == |xs| && forall i | 0 <= i < |xs| :: r[i] == One(xs[i])
  {
    seq(|xs|, i requires 0 <= i < |xs| => One(xs[i]))
  }

  // ===== The host

  /** The world a run acts on: the tools, and the trace of what has been
      done so far. */
  class Host {
    const tools: Tools
    var events: seq<Event>

    constructor (tools: Tools)
      ensures this.tools == tools && events == []
    {
      this.tools := tools;
      events := [];
    }

    /** `makeTestSandbox(config)`. */
    method MakeSandbox() returns (sandbox: nat)
      modifies this
      ensures sandbox == |old(events)| && events == old(events) + [SandboxMade(sandbox)]
    {
      sandbox := |events|;
      events := events + [SandboxMade(sandbox)];
    }

    /** `config.beforeEach()`. */
    method BeforeEach()
      modifies this
      ensures events == old(events) + [BeforeEachCalled]
    {
      events := events + [BeforeEachCalled];
    }

    /** `babel.transform(source, {presets}).code`. */
    method Transpile(source: string, presets: seq<Preset>) returns (r: Result<string, Exception>)
      modifies this
      ensures r == tools.transpile(source, presets)
      ensures events == old(events) + [Transpiled(source, presets)]
    {
      r := tools.transpile(source, presets);
      events := events + [Transpiled(source, presets)];
    }

    /** `vm.runInNewContext(code, sandbox)`: what it threw, if anything. */
    method Execute(code: string, sandbox: nat) returns (thrown: Option<Exception>)
      modifies this
      ensures thrown == tools.execute(old(events), code, sandbox)
      ensures events == old(events) + [Executed(code, sandbox)]
    {
      thrown := tools.execute(events, code, sandbox);
      events := events + [Executed(code, sandbox)];
    }
  }

  /** `test(config, fileName, sandbox)(snippet)`; `shared` is `None` when
      no sandbox is passed. */
  method Test(host: Host, config: Config, snippet: Snippet, shared: Option<nat>) returns (r: TestResult)
    modifies host
    ensures r == TestSpec(host.tools, config, snippet, shared, old(host.events)).result
    ensures host.events == old(host.events) + TestSpec(host.tools, config, snippet, shared, old(host.events)).events
  {
    if snippet.skip {
      return TestResult(Skip, snippet, "");
    }
    var sandbox: nat;
    match shared {
      case Some(s) =>
        sandbox := s;
      case None =>
        sandbox := host.MakeSandbox();
    }
    if config.hasBeforeEach {
      host.BeforeEach();
    }
    assert host.events == old(host.events) + Prepare(config, shared, old(host.events));
    r := TryBlock(host, config, snippet, sandbox);
  }

  /** The `try` block of `test` and its `catch`. */
  method TryBlock(host: Host, config: Config, snippet: Snippet, sandbox: nat) returns (r: TestResult)
    modifies host
    ensures r == TrySpec(host.tools, config, snippet, sandbox, old(host.events)).result
    ensures host.events == old(host.events) + TrySpec(host.tools, config, snippet, sandbox, old(host.events)).events
  {
    var code := snippet.code;
    if !config.babel.BabelOff? {
      var out := host.Transpile(snippet.code, Presets(config.babel));
      if out.Err? {
        return Verdict(snippet, Some(out.error));
      }
      code := out.value;
    }
    var thrown := host.Execute(code, sandbox);
    r := Verdict(snippet, thrown);
  }

  /** `codeSnippets.map(test(config, fileName, sandbox))`, flattened. */
  method TestAll(host: Host, config: Config, snippets: seq<Snippet>, shared: Option<nat>) returns (results: seq<TestResult>)
    modifies host
    ensures results == TestSnippets(host.tools, config, snippets, shared, old(host.events)).results
    ensures host.events == old(host.events) + TestSnippets(host.tools, config, snippets, shared, old(host.events)).events
  {
    var tested: seq<TestResult> := [];
    for i := 0 to |snippets|
      invariant host.events == old(host.events) + TestSnippets(host.tools, config, snippets[..i], shared, old(host.events)).events
      invariant tested == TestSnippets(host.tools, config, snippets[..i], shared, old(host.events)).results
    {
      tested := TestNext(host, config, snippets, shared, i, old(host.events), tested);
    }
    assert snippets[..|snippets|] == snippets;
    FlattenOnes(tested);
    results := Flatten(Ones(tested));
  }

  /** One turn of the `map` in `TestAll`: the snippet at `i` is tested. */
  method TestNext(host: Host, config: Config, snippets: seq<Snippet>, shared: Option<nat>, i: nat, ghost start: seq<Event>, tested: seq<TestResult>)
    returns (tested': seq<TestResult>)
    requires i < |snippets|
    requires host.events == start + TestSnippets(host.tools, config, snippets[..i], shared, start).events
    requires tested == TestSnippets(host.tools, config, snippets[..i], shared, start).results
    modifies host
    ensures host.events == start + TestSnippets(host.tools, config, snippets[..i + 1], shared, start).events
    ensures tested' == TestSnippets(host.tools, config, snippets[..i + 1], shared, start).results
  {
    assert snippets[..i + 1][..i] == snippets[..i];
    ghost var done := TestSnippets(host.tools, config, snippets[..i], shared, start);
    var r := Test(host, config, snippets[i], shared);
    AppendAssoc(start, done.events, TestSpec(host.tools, config, snippets[i], shared, start + done.events).events);
    tested' := tested + [r];
  }

  /** `testFile(config)(file)`. */
  method TestFile(host: Host, config: Config, file: ParsedFile) returns (results: seq<TestResult>)
    modifies host
    ensures results == FileSpec(host.tools, config, file, old(host.events)).results
    ensures host.events == old(host.events) + FileSpec(host.tools, config, file, old(host.events)).events
  {
    if file.shareCodeInFile {
      var sandbox := host.MakeSandbox();
      results := TestAll(host, config, file.codeSnippets, Some(sandbox));
    } else {
      results := TestAll(host, config, file.codeSnippets, None);
    }
  }

  /** `files.map(parseCodeSnippets)`. */
  method ParseDocuments(docs: seq<Document>) returns (r: Result<seq<ParsedFile>, ParseError>)
    ensures r == ParseAll(Parse, docs)
  {
    var files: seq<ParsedFile> := [];
    for i := 0 to |docs|
      invariant ParseAll(Parse, docs[..i]) == Ok(files)
    {
      assert docs[..i + 1][..i] == docs[..i];
      var parsed := ParseCodeSnippets(docs[i].contents, docs[i].fileName);
      if parsed.Err? {
        ParseErrorSticks(Parse, docs, i + 1);
        return Err(parsed.error);
      }
      files := files + [parsed.value];
    }
    assert docs[..|docs|] == docs;
    return Ok(files);
  }

  /** `files.map(testFile(config))`, flattened. */
  method TestDocuments(host: Host, config: Config, files: seq<ParsedFile>) returns (results: seq<TestResult>)
    modifies host
    ensures results == TestFiles(host.tools, config, files, old(host.events)).results
    ensures host.events == old(host.events) + TestFiles(host.tools, config, files, old(host.events)).events
  {
    var pieces: seq<Piece<TestResult>> := [];
    for i := 0 to |files|
      invariant host.events == old(host.events) + TestFiles(host.tools, config, files[..i], old(host.events)).events
      invariant Flatten(pieces) == TestFiles(host.tools, config, files[..i], old(host.events)).results
    {
      pieces := TestNextFile(host, config, files, i, old(host.events), pieces);
    }
    assert files[..|files|] == files;
    results := Flatten(pieces);
  }

  /** One turn of the `map` in `TestDocuments`: the file at `i` is tested
      and its results become one more array for `flattenArray`. */
  method TestNextFile(host: Host, config: Config, files: seq<ParsedFile>, i: nat, ghost start: seq<Event>, pieces: seq<Piece<TestResult>>)
    returns (pieces': seq<Piece<TestResult>>)
    requires i < |files|
    requires host.events == start + TestFiles(host.tools, config, files[..i], start).events
    requires Flatten(pieces) == TestFiles(host.tools, config, files[..i], start).results
    modifies host
    ensures host.events == start + TestFiles(host.tools, config, files[..i + 1], start).events
    ensures Flatten(pieces') == TestFiles(host.tools, config, files[..i + 1], start).results
  {
    assert files[..i + 1][..i] == files[..i];
    ghost var done := TestFiles(host.tools, config, files[..i], start);
    var rs := TestFile(host, config, files[i]);
    AppendAssoc(start, done.events, FileSpec(host.tools, config, files[i], start + done.events).events);
    pieces' := pieces + [Many(rs)];
    assert pieces'[..|pieces|] == pieces;
  }

  /** `runTests(files, config)` on documents already read: all of them are
      parsed before any is tested. */
  method RunTests(host: Host, config: Config, docs: seq<Document>) returns (r: Result<seq<TestResult>, ParseError>)
    modifies host
    ensures RunSpec(host.tools, config, docs, old(host.events)).Err? ==>
      r == Err(RunSpec(host.tools, config, docs, old(host.events)).error) && host.events == old(host.events)
    ensures RunSpec(host.tools, config, docs, old(host.events)).Ok? ==>
      && r == Ok(RunSpec(host.tools, config, docs, old(host.events)).value.results)
      && host.events == old(host.events) + RunSpec(host.tools, config, docs, old(host.events)).value.events
  {
    var parsed := ParseDocuments(docs);
    if parsed.Err? {
      return Err(parsed.error);
    }
    var results := TestDocuments(host, config, parsed.value);
    return Ok(results);
  }

  lemma AppendAssoc<T>(a: seq<T>, b: seq<T>, c: seq<T>)
    ensures a + (b + c) == (a + b) + c
  {
  }

  /** Once a prefix of the documents fails to parse, the whole list fails
      with the same error. */
  lemma {:induction false} ParseErrorSticks(parse: Document -> Result<ParsedFile, ParseError>, docs: seq<Document>, i: nat)
    requires i <= |docs| && ParseAll(parse, docs[..i]).Err?
    ensures ParseAll(parse, docs) == ParseAll(parse, docs[..i])
    decreases |docs| - i
  {
    if i < |docs| {
      assert docs[..i + 1][..i] == docs[..i];
      ParseErrorSticks(parse, docs, i + 1);
    } else {
      assert docs[..i] == docs;
    }
  }

  /** Flattening values, none of them an array, gives them back. */
  lemma {:induction false} FlattenOnes<T>(xs: seq<T>)
    ensures Flatten(Ones(xs)) == xs
    decreases |xs|
  {
    if xs != [] {
      var n := |xs| - 1;
      assert Ones(xs)[..n] == Ones(xs[..n]);
      FlattenOnes(xs[..n]);
      assert xs[..n] + [xs[n]] == xs;
    }
  }
}

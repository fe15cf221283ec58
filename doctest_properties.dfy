/** What the runner promises about one snippet, one file and a whole run:
    the trace each test leaves (sandboxes made, `beforeEach` calls, what is
    transpiled and executed, and where), and the results it returns. */
module DoctestProperties {
  import opened Wrappers
  import opened Text
  import opened SnippetParser
  import FoldProperties
  import opened Doctest

  // ===== Counting events and snippets

  function CountWhere<T>(xs: seq<T>, p: T -> bool): nat
    decreases |xs|
  {
    if xs == [] then 0 else CountWhere(xs[..|xs| - 1], p) + (if p(xs[|xs| - 1]) then 1 else 0)
  }

  predicate IsSandboxMade(e: Event) {
    e.SandboxMade?
  }

  predicate IsBeforeEach(e: Event) {
    e.BeforeEachCalled?
  }

  predicate IsExecution(e: Event) {
    e.Executed?
  }

  predicate IsTested(s: Snippet) {
    !s.skip
  }

  function Sandboxes(events: seq<Event>): nat {
    CountWhere(events, IsSandboxMade)
  }

  function BeforeEachCalls(events: seq<Event>): nat {
    CountWhere(events, IsBeforeEach)
  }

  function Executions(events: seq<Event>): nat {
    CountWhere(events, IsExecution)
  }

  /** The snippets of a file that are not skipped. */
  function TestedCount(snippets: seq<Snippet>): nat {
    CountWhere(snippets, IsTested)
  }

  lemma {:induction false} CountAppend<T>(xs: seq<T>, ys: seq<T>, p: T -> bool)
    ensures CountWhere(xs + ys, p) == CountWhere(xs, p) + CountWhere(ys, p)
    decreases |ys|
  {
    if ys == [] {
      assert xs + ys == xs;
    } else {
      var n := |ys| - 1;
      assert (xs + ys)[..|xs + ys| - 1] == xs + ys[..n];
      assert (xs + ys)[|xs + ys| - 1] == ys[n];
      CountAppend(xs, ys[..n], p);
    }
  }

  lemma CountSingle<T>(x: T, p: T -> bool)
    ensures CountWhere([x], p) == (if p(x) then 1 else 0)
  {
    assert [x][..0] == [];
  }

  // ===== The shape of one test's events

  /** Events that throw nothing: making a sandbox and calling `beforeEach`. */
  predicate Quiet(e: Event) {
    e.SandboxMade? || e.BeforeEachCalled?
  }

  /** The events of the `try` block. */
  predicate Work(e: Event) {
    e.Transpiled? || e.Executed?
  }

  /** Every execution among `events` is in `sandbox`. */
  ghost predicate RunsIn(events: seq<Event>, sandbox: nat) {
    forall i | 0 <= i < |events| && events[i].Executed? :: events[i].sandbox == sandbox
  }

  lemma PrepareShape(config: Config, shared: Option<nat>, history: seq<Event>)
    ensures var p := Prepare(config, shared, history);
      && |p| == (if shared.None? then 1 else 0) + (if config.hasBeforeEach then 1 else 0)
      && (forall i | 0 <= i < |p| :: Quiet(p[i]))
      && Sandboxes(p) == (if shared.None? then 1 else 0)
      && BeforeEachCalls(p) == (if config.hasBeforeEach then 1 else 0)
      && Executions(p) == 0
      && (shared.None? ==> p[0] == SandboxMade(|history|))
      && (forall i | 0 <= i < |p| && p[i].SandboxMade? :: i == 0 && shared.None?)
  {
    var made: seq<Event> := if shared.None? then [SandboxMade(|history|)] else [];
    assert CountWhere(made, IsSandboxMade) == |made| && CountWhere(made, IsBeforeEach) == 0 && CountWhere(made, IsExecution) == 0 by {
      if shared.None? {
        CountSingle(SandboxMade(|history|), IsSandboxMade);
        CountSingle(SandboxMade(|history|), IsBeforeEach);
        CountSingle(SandboxMade(|history|), IsExecution);
      }
    }
    if config.hasBeforeEach {
      CountAppend(made, [BeforeEachCalled], IsSandboxMade);
      CountAppend(made, [BeforeEachCalled], IsBeforeEach);
      CountAppend(made, [BeforeEachCalled], IsExecution);
      CountSingle(BeforeEachCalled, IsSandboxMade);
      CountSingle(BeforeEachCalled, IsBeforeEach);
      CountSingle(BeforeEachCalled, IsExecution);
    }
  }

  lemma TryShape(tools: Tools, config: Config, snippet: Snippet, sandbox: nat, history: seq<Event>)
    ensures var w := TrySpec(tools, config, snippet, sandbox, history).events;
      && 1 <= |w| <= 2
      && (forall i | 0 <= i < |w| :: Work(w[i]))
      && RunsIn(w, sandbox)
      && Sandboxes(w) == 0 && BeforeEachCalls(w) == 0 && Executions(w) <= 1
  {
    var w := TrySpec(tools, config, snippet, sandbox, history).events;
    CountSingle(w[0], IsSandboxMade);
    CountSingle(w[0], IsBeforeEach);
    CountSingle(w[0], IsExecution);
    if |w| == 2 {
      assert w == [w[0]] + [w[1]];
      CountSingle(w[1], IsSandboxMade);
      CountSingle(w[1], IsBeforeEach);
      CountSingle(w[1], IsExecution);
      CountAppend([w[0]], [w[1]], IsSandboxMade);
      CountAppend([w[0]], [w[1]], IsBeforeEach);
      CountAppend([w[0]], [w[1]], IsExecution);
    } else {
      assert w == [w[0]];
    }
  }

  // ===== One snippet

  /** The preparation's events come before every event of the `try` block. */
  lemma QuietBeforeWork(p: seq<Event>, w: seq<Event>)
    requires forall i | 0 <= i < |p| :: Quiet(p[i])
    requires forall i | 0 <= i < |w| :: Work(w[i])
    ensures forall i, j | 0 <= i < |p + w| && 0 <= j < |p + w| && Quiet((p + w)[i]) && Work((p + w)[j]) :: i < j
  {
  }

  /** Joining the preparation's events to the `try` block's keeps the
      sandbox the block runs in and the position of every sandbox made. */
  lemma JoinedSandboxes(p: seq<Event>, w: seq<Event>, sandbox: nat)
    requires forall i | 0 <= i < |p| :: Quiet(p[i])
    requires forall i | 0 <= i < |w| :: Work(w[i])
    requires RunsIn(w, sandbox)
    ensures RunsIn(p + w, sandbox)
    ensures forall i | 0 <= i < |p + w| && (p + w)[i].SandboxMade? :: i < |p| && (p + w)[i] == p[i]
  {
    forall i | 0 <= i < |p + w| && (p + w)[i].Executed?
      ensures (p + w)[i].sandbox == sandbox
    {
      assert (p + w)[i] == w[i - |p|];
    }
  }

  /** `beforeEach` is called once for every snippet that is not skipped,
      and before it is transpiled or executed; never for a skipped one. */
  lemma BeforeEachRunsFirst(tools: Tools, config: Config, snippet: Snippet, shared: Option<nat>, history: seq<Event>)
    ensures var t := TestSpec(tools, config, snippet, shared, history);
      && BeforeEachCalls(t.events) == (if config.hasBeforeEach && !snippet.skip then 1 else 0)
      && forall i, j | 0 <= i < |t.events| && 0 <= j < |t.events| && t.events[i].BeforeEachCalled? && Work(t.events[j]) :: i < j
  {
    if !snippet.skip {
      var p := Prepare(config, shared, history);
      var w := TrySpec(tools, config, snippet, SandboxFor(shared, history), history + p).events;
      PrepareShape(config, shared, history);
      TryShape(tools, config, snippet, SandboxFor(shared, history), history + p);
      CountAppend(p, w, IsBeforeEach);
      QuietBeforeWork(p, w);
    }
  }

  /** A snippet without a shared sandbox gets one of its own, made first and
      named after the trace so far, and runs in it; a snippet with the
      file's sandbox makes none and runs in the file's. */
  lemma SnippetSandbox(tools: Tools, config: Config, snippet: Snippet, shared: Option<nat>, history: seq<Event>)
    ensures var t := TestSpec(tools, config, snippet, shared, history);
      && Sandboxes(t.events) == (if shared.None? && !snippet.skip then 1 else 0)
      && RunsIn(t.events, SandboxFor(shared, history))
      && (shared.None? && !snippet.skip ==> t.events[0] == SandboxMade(|history|))
      && (forall i | 0 <= i < |t.events| && t.events[i].SandboxMade? :: i == 0 && shared.None?)
  {
    if !snippet.skip {
      var p := Prepare(config, shared, history);
      var sandbox := SandboxFor(shared, history);
      var w := TrySpec(tools, config, snippet, sandbox, history + p).events;
      PrepareShape(config, shared, history);
      TryShape(tools, config, snippet, sandbox, history + p);
      CountAppend(p, w, IsSandboxMade);
      JoinedSandboxes(p, w, sandbox);
    }
  }

  /** What the step `e` threw, after the trace `history`: Babel's error for
      a transpile, the execution's for an execution, nothing otherwise. */
  function StepThrew(tools: Tools, history: seq<Event>, e: Event): Option<Exception> {
    match e
    case Transpiled(source, presets) =>
      (match tools.transpile(source, presets)
       case Err(x) => Some(x)
       case Ok(_) => None)
    case Executed(code, sandbox) => tools.execute(history, code, sandbox)
    case _ => None
  }

  /** What the first step of `events` that threw threw. */
  function FirstThrown(tools: Tools, history: seq<Event>, events: seq<Event>): Option<Exception>
    decreases |events|
  {
    if events == [] then None
    else
      match StepThrew(tools, history, events[0])
      case Some(x) => Some(x)
      case None => FirstThrown(tools, history + [events[0]], events[1..])
  }

  lemma {:induction false} FirstThrownAfterQuiet(tools: Tools, history: seq<Event>, quiet: seq<Event>, rest: seq<Event>)
    requires forall i | 0 <= i < |quiet| :: Quiet(quiet[i])
    ensures FirstThrown(tools, history, quiet + rest) == FirstThrown(tools, history + quiet, rest)
    decreases |quiet|
  {
    if quiet != [] {
      assert (quiet + rest)[0] == quiet[0];
      assert (quiet + rest)[1..] == quiet[1..] + rest;
      assert history + [quiet[0]] + quiet[1..] == history + quiet;
      FirstThrownAfterQuiet(tools, history + [quiet[0]], quiet[1..], rest);
    } else {
      assert quiet + rest == rest && history + quiet == history;
    }
  }

  lemma TryVerdict(tools: Tools, config: Config, snippet: Snippet, sandbox: nat, history: seq<Event>)
    ensures TrySpec(tools, config, snippet, sandbox, history).result
      == Verdict(snippet, FirstThrown(tools, history, TrySpec(tools, config, snippet, sandbox, history).events))
  {
    var w := TrySpec(tools, config, snippet, sandbox, history).events;
    if config.babel.BabelOff? {
      assert w[1..] == [];
    } else {
      var presets := Presets(config.babel);
      match tools.transpile(snippet.code, presets) {
        case Err(e) =>
          assert w == [Transpiled(snippet.code, presets)];
          assert StepThrew(tools, history, w[0]) == Some(e);
        case Ok(code) =>
          assert w == [Transpiled(snippet.code, presets), Executed(code, sandbox)];
          var x := Executed(code, sandbox);
          var h := history + [Transpiled(snippet.code, presets)];
          assert w[1..] == [x] && [x][1..] == [];
          assert FirstThrown(tools, h, [x]) == tools.execute(h, code, sandbox) by {
            assert FirstThrown(tools, h + [x], []) == None;
          }
      }
    }
  }

  /** A snippet that is not skipped passes exactly when none of its steps
      threw, with an empty stack; it fails otherwise, with the stack of the
      first thing thrown. A skipped snippet is skipped, with an empty stack
      and without any event. */
  lemma PassIffNothingThrown(tools: Tools, config: Config, snippet: Snippet, shared: Option<nat>, history: seq<Event>)
    ensures var t := TestSpec(tools, config, snippet, shared, history);
      && t.result.codeSnippet == snippet
      && (snippet.skip ==> t.result == TestResult(Skip, snippet, "") && t.events == [])
      && (!snippet.skip ==> (t.result.status == Pass <==> FirstThrown(tools, history, t.events).None?))
      && (!snippet.skip && t.result.status != Pass ==>
            t.result.status == Fail && t.result.stack == StackOf(FirstThrown(tools, history, t.events).value))
      && (t.result.status == Pass ==> t.result.stack == "")
  {
    if !snippet.skip {
      var p := Prepare(config, shared, history);
      var sandbox := SandboxFor(shared, history);
      var w := TrySpec(tools, config, snippet, sandbox, history + p).events;
      PrepareShape(config, shared, history);
      FirstThrownAfterQuiet(tools, history, p, w);
      TryVerdict(tools, config, snippet, sandbox, history + p);
    }
  }

  /** What is executed: the snippet's own code when Babel is off, otherwise
      the snippet's code is transpiled with the configured presets and
      Babel's output is executed, unless Babel threw, in which case nothing
      is. Execution is always the last step. */
  lemma TranspiledCodeRuns(tools: Tools, config: Config, snippet: Snippet, shared: Option<nat>, history: seq<Event>)
    requires !snippet.skip
    ensures var t := TestSpec(tools, config, snippet, shared, history);
      var sandbox := SandboxFor(shared, history);
      var presets := Presets(config.babel);
      && (config.babel.BabelOff? ==>
            t.events[|t.events| - 1] == Executed(snippet.code, sandbox)
            && forall i | 0 <= i < |t.events| :: !t.events[i].Transpiled?)
      && (!config.babel.BabelOff? ==> Transpiled(snippet.code, presets) in t.events)
      && (!config.babel.BabelOff? && tools.transpile(snippet.code, presets).Ok? ==>
            t.events[|t.events| - 1] == Executed(tools.transpile(snippet.code, presets).value, sandbox))
      && (!config.babel.BabelOff? && tools.transpile(snippet.code, presets).Err? ==> Executions(t.events) == 0)
  {
    var p := Prepare(config, shared, history);
    var sandbox := SandboxFor(shared, history);
    var presets := Presets(config.babel);
    var w := TrySpec(tools, config, snippet, sandbox, history + p).events;
    var events := TestSpec(tools, config, snippet, shared, history).events;
    PrepareShape(config, shared, history);
    TryEvents(tools, config, snippet, sandbox, history + p);
    assert events == p + w;
    assert events[|events| - 1] == w[|w| - 1];
    if config.babel.BabelOff? {
      forall i | 0 <= i < |events|
        ensures !events[i].Transpiled?
      {
        if i >= |p| {
          assert events[i] == w[i - |p|];
        }
      }
    } else {
      assert events[|p|] == w[0];
      if tools.transpile(snippet.code, presets).Err? {
        CountAppend(p, w, IsExecution);
        CountSingle(w[0], IsExecution);
      }
    }
  }

  /** The `try` block's events: the transpilation when Babel is on, then
      the execution unless Babel threw. */
  lemma TryEvents(tools: Tools, config: Config, snippet: Snippet, sandbox: nat, history: seq<Event>)
    ensures var w := TrySpec(tools, config, snippet, sandbox, history).events;
      var presets := Presets(config.babel);
      && (config.babel.BabelOff? ==> w == [Executed(snippet.code, sandbox)])
      && (!config.babel.BabelOff? && tools.transpile(snippet.code, presets).Ok? ==>
            w == [Transpiled(snippet.code, presets), Executed(tools.transpile(snippet.code, presets).value, sandbox)])
      && (!config.babel.BabelOff? && tools.transpile(snippet.code, presets).Err? ==>
            w == [Transpiled(snippet.code, presets)])
  {
  }

  // ===== One file

  /** One result per snippet, in the snippets' order; a skipped snippet's
      result is a skip with an empty stack, any other's a pass or a
      failure. */
  lemma {:induction false} ResultsFollowSnippets(tools: Tools, config: Config, snippets: seq<Snippet>, shared: Option<nat>, history: seq<Event>)
    ensures |TestSnippets(tools, config, snippets, shared, history).results| == |snippets|
    ensures forall k | 0 <= k < |snippets| ::
      && TestSnippets(tools, config, snippets, shared, history).results[k].codeSnippet == snippets[k]
      && (TestSnippets(tools, config, snippets, shared, history).results[k].status == Skip <==> snippets[k].skip)
      && (snippets[k].skip ==> TestSnippets(tools, config, snippets, shared, history).results[k].stack == "")
    decreases |snippets|
  {
    if snippets != [] {
      var n := |snippets| - 1;
      var done := TestSnippets(tools, config, snippets[..n], shared, history);
      ResultsFollowSnippets(tools, config, snippets[..n], shared, history);
      PassIffNothingThrown(tools, config, snippets[n], shared, history + done.events);
      var results := TestSnippets(tools, config, snippets, shared, history).results;
      forall k | 0 <= k < |snippets|
        ensures results[k].codeSnippet == snippets[k]
        ensures results[k].status == Skip <==> snippets[k].skip
        ensures snippets[k].skip ==> results[k].stack == ""
      {
        if k < n {
          assert results[k] == done.results[k] && snippets[k] == snippets[..n][k];
        }
      }
    }
  }

  /** Without a shared sandbox every snippet that is not skipped makes its
      own, and a skipped one makes none; with one, no snippet makes a
      sandbox and all of them run in the shared one. */
  lemma {:induction false} SandboxesPerSnippet(tools: Tools, config: Config, snippets: seq<Snippet>, shared: Option<nat>, history: seq<Event>)
    ensures Sandboxes(TestSnippets(tools, config, snippets, shared, history).events)
      == (if shared.None? then TestedCount(snippets) else 0)
    ensures shared.Some? ==> RunsIn(TestSnippets(tools, config, snippets, shared, history).events, shared.value)
    decreases |snippets|
  {
    if snippets != [] {
      var n := |snippets| - 1;
      var done := TestSnippets(tools, config, snippets[..n], shared, history);
      var t := TestSpec(tools, config, snippets[n], shared, history + done.events);
      SandboxesPerSnippet(tools, config, snippets[..n], shared, history);
      SnippetSandbox(tools, config, snippets[n], shared, history + done.events);
      CountAppend(done.events, t.events, IsSandboxMade);
      var events := done.events + t.events;
      if shared.Some? {
        forall i | 0 <= i < |events| && events[i].Executed?
          ensures events[i].sandbox == shared.value
        {
          if i >= |done.events| {
            assert events[i] == t.events[i - |done.events|];
          }
        }
      }
    }
  }

  /** `beforeEach` is called once per snippet that is not skipped, when
      it is set, and never otherwise. */
  lemma {:induction false} BeforeEachPerSnippet(tools: Tools, config: Config, snippets: seq<Snippet>, shared: Option<nat>, history: seq<Event>)
    ensures BeforeEachCalls(TestSnippets(tools, config, snippets, shared, history).events)
      == (if config.hasBeforeEach then TestedCount(snippets) else 0)
    decreases |snippets|
  {
    if snippets != [] {
      var n := |snippets| - 1;
      var done := TestSnippets(tools, config, snippets[..n], shared, history);
      var t := TestSpec(tools, config, snippets[n], shared, history + done.events);
      BeforeEachPerSnippet(tools, config, snippets[..n], shared, history);
      BeforeEachRunsFirst(tools, config, snippets[n], shared, history + done.events);
      CountAppend(done.events, t.events, IsBeforeEach);
    }
  }

  /** `testFile` gives one result per snippet of the file, in order. */
  lemma OneResultPerSnippet(tools: Tools, config: Config, file: ParsedFile, history: seq<Event>)
    ensures |FileSpec(tools, config, file, history).results| == |file.codeSnippets|
    ensures forall k | 0 <= k < |file.codeSnippets| ::
      && FileSpec(tools, config, file, history).results[k].codeSnippet == file.codeSnippets[k]
      && (FileSpec(tools, config, file, history).results[k].status == Skip <==> file.codeSnippets[k].skip)
  {
    if file.shareCodeInFile {
      ResultsFollowSnippets(tools, config, file.codeSnippets, Some(|history|), history + [SandboxMade(|history|)]);
    } else {
      ResultsFollowSnippets(tools, config, file.codeSnippets, None, history);
    }
  }

  /** A file that shares code gets exactly one sandbox, made before
      anything else and even when it has no snippet, and all its snippets
      run in it; any other file makes one sandbox per snippet that is not
      skipped. */
  lemma SandboxesPerFile(tools: Tools, config: Config, file: ParsedFile, history: seq<Event>)
    ensures Sandboxes(FileSpec(tools, config, file, history).events)
      == (if file.shareCodeInFile then 1 else TestedCount(file.codeSnippets))
    ensures file.shareCodeInFile ==>
      && FileSpec(tools, config, file, history).events[0] == SandboxMade(|history|)
      && RunsIn(FileSpec(tools, config, file, history).events, |history|)
  {
    if file.shareCodeInFile {
      var made := [SandboxMade(|history|)];
      var run := TestSnippets(tools, config, file.codeSnippets, Some(|history|), history + made);
      SandboxesPerSnippet(tools, config, file.codeSnippets, Some(|history|), history + made);
      CountAppend(made, run.events, IsSandboxMade);
      CountSingle(SandboxMade(|history|), IsSandboxMade);
      var events := made + run.events;
      forall i | 0 <= i < |events| && events[i].Executed?
        ensures events[i].sandbox == |history|
      {
        assert events[i] == run.events[i - 1];
      }
    } else {
      SandboxesPerSnippet(tools, config, file.codeSnippets, None, history);
    }
  }

  /** Per file, `beforeEach` is called once per snippet that is not
      skipped, when it is set. */
  lemma BeforeEachPerFile(tools: Tools, config: Config, file: ParsedFile, history: seq<Event>)
    ensures BeforeEachCalls(FileSpec(tools, config, file, history).events)
      == (if config.hasBeforeEach then TestedCount(file.codeSnippets) else 0)
  {
    if file.shareCodeInFile {
      var made := [SandboxMade(|history|)];
      var run := TestSnippets(tools, config, file.codeSnippets, Some(|history|), history + made);
      BeforeEachPerSnippet(tools, config, file.codeSnippets, Some(|history|), history + made);
      CountAppend(made, run.events, IsBeforeEach);
      CountSingle(SandboxMade(|history|), IsBeforeEach);
    } else {
      BeforeEachPerSnippet(tools, config, file.codeSnippets, None, history);
    }
  }

  // ===== Sandboxes are fresh

  /** Every sandbox made in `trace` is named by its position, so no two
      share a name. */
  ghost predicate FreshNames(trace: seq<Event>) {
    forall i | 0 <= i < |trace| && trace[i].SandboxMade? :: trace[i].sandbox == i
  }

  /** Every execution in `trace` runs in a sandbox made before it. */
  ghost predicate RunsInMadeSandboxes(trace: seq<Event>) {
    forall j | 0 <= j < |trace| && trace[j].Executed? :: trace[j].sandbox < j && trace[trace[j].sandbox].SandboxMade?
  }

  ghost predicate SoundTrace(trace: seq<Event>) {
    FreshNames(trace) && RunsInMadeSandboxes(trace)
  }

  /** The sandbox `shared`, if any, has been made in `trace`. */
  ghost predicate Made(trace: seq<Event>, shared: Option<nat>) {
    shared.Some? ==> shared.value < |trace| && trace[shared.value].SandboxMade?
  }

  lemma TestKeepsNamesFresh(tools: Tools, config: Config, snippet: Snippet, shared: Option<nat>, history: seq<Event>)
    requires FreshNames(history)
    ensures FreshNames(history + TestSpec(tools, config, snippet, shared, history).events)
  {
    var events := TestSpec(tools, config, snippet, shared, history).events;
    SnippetSandbox(tools, config, snippet, shared, history);
    var trace := history + events;
    forall i | 0 <= i < |trace| && trace[i].SandboxMade?
      ensures trace[i].sandbox == i
    {
      if i >= |history| {
        assert trace[i] == events[i - |history|];
      }
    }
  }

  lemma TestKeepsExecutionsInMadeSandboxes(tools: Tools, config: Config, snippet: Snippet, shared: Option<nat>, history: seq<Event>)
    requires RunsInMadeSandboxes(history) && Made(history, shared)
    ensures RunsInMadeSandboxes(history + TestSpec(tools, config, snippet, shared, history).events)
  {
    var events := TestSpec(tools, config, snippet, shared, history).events;
    SnippetSandbox(tools, config, snippet, shared, history);
    var trace := history + events;
    forall j | 0 <= j < |trace| && trace[j].Executed?
      ensures trace[j].sandbox < j && trace[trace[j].sandbox].SandboxMade?
    {
      if j >= |history| {
        assert trace[j] == events[j - |history|];
        if shared.None? {
          assert trace[|history|] == events[0];
        }
      }
    }
  }

  lemma {:induction false} SnippetsKeepTraceSound(tools: Tools, config: Config, snippets: seq<Snippet>, shared: Option<nat>, history: seq<Event>)
    requires SoundTrace(history) && Made(history, shared)
    ensures SoundTrace(history + TestSnippets(tools, config, snippets, shared, history).events)
    decreases |snippets|
  {
    if snippets == [] {
      assert history + [] == history;
    } else {
      var n := |snippets| - 1;
      var done := TestSnippets(tools, config, snippets[..n], shared, history);
      SnippetsKeepTraceSound(tools, config, snippets[..n], shared, history);
      var h := history + done.events;
      assert Made(h, shared) by {
        if shared.Some? {
          assert h[shared.value] == history[shared.value];
        }
      }
      TestKeepsNamesFresh(tools, config, snippets[n], shared, h);
      TestKeepsExecutionsInMadeSandboxes(tools, config, snippets[n], shared, h);
      AppendAssoc(history, done.events, TestSpec(tools, config, snippets[n], shared, h).events);
    }
  }

  lemma FileKeepsTraceSound(tools: Tools, config: Config, file: ParsedFile, history: seq<Event>)
    requires SoundTrace(history)
    ensures SoundTrace(history + FileSpec(tools, config, file, history).events)
  {
    if file.shareCodeInFile {
      var made := [SandboxMade(|history|)];
      var h := history + made;
      assert SoundTrace(h) by {
        forall j | 0 <= j < |h| && h[j].Executed?
          ensures h[j].sandbox < j && h[h[j].sandbox].SandboxMade?
        {
          assert h[j] == history[j] && h[history[j].sandbox] == history[history[j].sandbox];
        }
      }
      SnippetsKeepTraceSound(tools, config, file.codeSnippets, Some(|history|), h);
      AppendAssoc(history, made, TestSnippets(tools, config, file.codeSnippets, Some(|history|), h).events);
    } else {
      SnippetsKeepTraceSound(tools, config, file.codeSnippets, None, history);
    }
  }

  lemma {:induction false} FilesKeepTraceSound(tools: Tools, config: Config, files: seq<ParsedFile>, history: seq<Event>)
    requires SoundTrace(history)
    ensures SoundTrace(history + TestFiles(tools, config, files, history).events)
    decreases |files|
  {
    if files == [] {
      assert history + [] == history;
    } else {
      var n := |files| - 1;
      var done := TestFiles(tools, config, files[..n], history);
      FilesKeepTraceSound(tools, config, files[..n], history);
      FileKeepsTraceSound(tools, config, files[n], history + done.events);
      AppendAssoc(history, done.events, FileSpec(tools, config, files[n], history + done.events).events);
    }
  }

  /** A run from an empty trace makes every sandbox fresh and runs every
      snippet in a sandbox made before it: the file's, or the snippet's
      own, which no earlier snippet ran in. */
  lemma RunTraceIsSound(tools: Tools, config: Config, docs: seq<Document>)
    ensures RunSpec(tools, config, docs, []).Ok? ==> SoundTrace(RunSpec(tools, config, docs, []).value.events)
  {
    if ParseAll(Parse, docs).Ok? {
      FilesKeepTraceSound(tools, config, ParseAll(Parse, docs).value, []);
      assert [] + TestFiles(tools, config, ParseAll(Parse, docs).value, []).events == RunSpec(tools, config, docs, []).value.events;
    }
  }

  /** In a sound trace, a snippet's own sandbox has never been executed in
      before its test. */
  lemma OwnSandboxIsUnused(history: seq<Event>)
    requires SoundTrace(history)
    ensures forall j | 0 <= j < |history| && history[j].Executed? :: history[j].sandbox != SandboxFor(None, history)
  {
  }
}

/** The sandbox `makeTestSandbox` builds for the snippets: a `require` that
    resolves module names through the configuration, a console whose `log`
    pushes onto a stack that `__logStackPop` pops, and the user's globals laid
    over the built-in ones. Values the snippets exchange with the host are of
    an arbitrary type `V`; regular-expression matching is the parameter
    `exec`. */
module Sandbox {
  import opened Wrappers

  // ===== sandboxRequire

  /** What `regex.exec(name)` returns when it matches: the whole match, then
      every group, `None` for a group that took no part in the match. */
  type MatchArray = seq<Option<string>>

  /** One entry of `config.regexRequire`: a pattern and the handler called
      with the spread match. */
  datatype RegexRequire<V> = RegexRequire(pattern: string, handler: MatchArray -> V)

  /** The module part of the configuration: the `regexRequire` entries in
      their property order (none when the key is absent), and the
      `require` table, `None` when the configuration has none. A name the
      table maps to `undefined` is modelled as absent from it. */
  datatype RequireConfig<V> = RequireConfig(regexRequire: seq<RegexRequire<V>>, require: Option<map<string, V>>)

  /** Why `require` throws: the name is in no table (the module-not-found
      error names it), or there is no `require` table to look it up in. */
  datatype RequireError = ModuleNotFound(moduleName: string) | RequireTableMissing

  /** The handler of the first entry whose pattern matches `name`, applied
      to the match. */
  function FirstRegexMatch<V>(entries: seq<RegexRequire<V>>, exec: (string, string) -> Option<MatchArray>, name: string): Option<V>
    decreases |entries|
  {
    if entries == [] then None
    else
      match exec(entries[0].pattern, name)
      case Some(m) => Some(entries[0].handler(m))
      case None => FirstRegexMatch(entries[1..], exec, name)
  }

  /** The exact lookup that follows the patterns. */
  function Lookup<V>(require: Option<map<string, V>>, name: string): (r: Result<V, RequireError>)
    ensures r.Ok? <==> require.Some? && name in require.value
    ensures r.Ok? ==> r.value == require.value[name]
    ensures require.Some? && name !in require.value ==> r == Err(ModuleNotFound(name))
  {
    match require
    case None => Err(RequireTableMissing)
    case Some(table) => if name in table then Ok(table[name]) else Err(ModuleNotFound(name))
  }

  /** `sandboxRequire(name)` as a value: the regex handlers first, then the
      table. */
  function Resolve<V>(config: RequireConfig<V>, exec: (string, string) -> Option<MatchArray>, name: string): Result<V, RequireError> {
    match FirstRegexMatch(config.regexRequire, exec, name)
    case Some(v) => Ok(v)
    case None => Lookup(config.require, name)
  }

  /** Entry `i` is the first whose pattern matches `name`. */
  ghost predicate FirstMatchAt<V>(entries: seq<RegexRequire<V>>, exec: (string, string) -> Option<MatchArray>, name: string, i: int) {
    && 0 <= i < |entries|
    && exec(entries[i].pattern, name).Some?
    && forall k | 0 <= k < i :: exec(entries[k].pattern, name).None?
  }

  lemma {:induction false} FirstRegexMatchAt<V>(entries: seq<RegexRequire<V>>, exec: (string, string) -> Option<MatchArray>, name: string, i: nat)
    requires FirstMatchAt(entries, exec, name, i)
    ensures FirstRegexMatch(entries, exec, name) == Some(entries[i].handler(exec(entries[i].pattern, name).value))
    decreases i
  {
    if i > 0 {
      assert exec(entries[0].pattern, name).None?;
      assert FirstMatchAt(entries[1..], exec, name, i - 1) by {
        forall k | 0 <= k < i - 1
          ensures exec(entries[1..][k].pattern, name).None?
        {
          assert entries[1..][k] == entries[k + 1];
        }
      }
      FirstRegexMatchAt(entries[1..], exec, name, i - 1);
    }
  }

  lemma {:induction false} NoRegexMatch<V>(entries: seq<RegexRequire<V>>, exec: (string, string) -> Option<MatchArray>, name: string)
    requires forall k | 0 <= k < |entries| :: exec(entries[k].pattern, name).None?
    ensures FirstRegexMatch(entries, exec, name).None?
    decreases |entries|
  {
    if entries != [] {
      assert exec(entries[0].pattern, name).None?;
      assert forall k | 0 <= k < |entries| - 1 :: entries[1..][k] == entries[k + 1];
      NoRegexMatch(entries[1..], exec, name);
    }
  }

  /** The first matching pattern decides, whatever the table holds. */
  lemma RegexHandlerWins<V>(config: RequireConfig<V>, exec: (string, string) -> Option<MatchArray>, name: string, i: nat)
    requires FirstMatchAt(config.regexRequire, exec, name, i)
    ensures Resolve(config, exec, name)
      == Ok(config.regexRequire[i].handler(exec(config.regexRequire[i].pattern, name).value))
  {
    FirstRegexMatchAt(config.regexRequire, exec, name, i);
  }

  /** When no pattern matches, the table decides: its value, or the
      module-not-found error naming the module. */
  lemma TableDecidesWithoutMatch<V>(config: RequireConfig<V>, exec: (string, string) -> Option<MatchArray>, name: string)
    requires forall k | 0 <= k < |config.regexRequire| :: exec(config.regexRequire[k].pattern, name).None?
    ensures Resolve(config, exec, name) == Lookup(config.require, name)
  {
    NoRegexMatch(config.regexRequire, exec, name);
  }

  /** sandboxRequire: try the patterns in order and call the handler of the
      first that matches; otherwise look the name up, throwing when it is
      not there. */
  method SandboxRequire<V>(config: RequireConfig<V>, exec: (string, string) -> Option<MatchArray>, name: string)
    returns (r: Result<V, RequireError>)
    ensures r == Resolve(config, exec, name)
  {
    var entries := config.regexRequire;
    var i := 0;
    while i < |entries|
      invariant 0 <= i <= |entries|
      invariant FirstRegexMatch(entries[i..], exec, name) == FirstRegexMatch(entries, exec, name)
    {
      var m := exec(entries[i].pattern, name);
      if m.Some? {
        return Ok(entries[i].handler(m.value));
      }
      assert entries[i..][1..] == entries[i + 1..];
      i := i + 1;
    }
    match config.require {
      case None =>
        return Err(RequireTableMissing);
      case Some(table) =>
        if name !in table {
          return Err(ModuleNotFound(name));
        }
        return Ok(table[name]);
    }
  }

  // ===== The log stack

  /** `logStack.pop()`: the most recent entry, or `undefined` on an empty
      stack, and what remains. */
  function Pop<T>(stack: seq<T>): (Option<T>, seq<T>) {
    if stack == [] then (None, []) else (Some(stack[|stack| - 1]), stack[..|stack| - 1])
  }

  /** `n` pops in a row: what each returned, in order, and what remains. */
  function PopMany<T>(stack: seq<T>, n: nat): (seq<Option<T>>, seq<T>)
    decreases n
  {
    if n == 0 then ([], stack)
    else
      var (x, rest) := Pop(stack);
      var (xs, left) := PopMany(rest, n - 1);
      ([x] + xs, left)
  }

  /** `xs` last to first, each as a popped value. */
  function ReversedSome<T>(xs: seq<T>): (r: seq<Option<T>>)
    ensures |r| == |xs| && forall i | 0 <= i < |xs| :: r[i] == Some(xs[|xs| - 1 - i])
  {
    seq(|xs|, i requires 0 <= i < |xs| => Some(xs[|xs| - 1 - i]))
  }

  /** A pop returns what the last push pushed and restores the stack. */
  lemma PopUndoesPush<T>(stack: seq<T>, x: T)
    ensures Pop(stack + [x]) == (Some(x), stack)
  {
    assert (stack + [x])[..|stack|] == stack;
  }

  /** Last in, first out: pops after several logs return them newest first,
      and leave the stack as it was before them. */
  lemma {:induction false} PopsReverseLogs<T>(stack: seq<T>, xs: seq<T>)
    ensures PopMany(stack + xs, |xs|) == (ReversedSome(xs), stack)
    decreases |xs|
  {
    if xs != [] {
      var n := |xs| - 1;
      assert stack + xs == (stack + xs[..n]) + [xs[n]];
      PopUndoesPush(stack + xs[..n], xs[n]);
      assert Pop(stack + xs) == (Some(xs[n]), stack + xs[..n]);
      PopsReverseLogs(stack, xs[..n]);
      assert |xs[..n]| == n;
      assert PopMany(stack + xs, |xs|) == ([Some(xs[n])] + ReversedSome(xs[..n]), stack);
      assert [Some(xs[n])] + ReversedSome(xs[..n]) == ReversedSome(xs);
    } else {
      assert stack + xs == stack;
    }
  }

  /** Popping an empty stack yields `undefined` and leaves it empty. */
  lemma PopEmpty<T>()
    ensures Pop<T>([]) == (None, [])
  {
  }

  /** The `logStack` array of one sandbox: one entry per `console.log` call,
      holding the call's arguments. */
  class LogStack<T> {
    var entries: seq<seq<T>>

    constructor ()
      ensures entries == []
    {
      entries := [];
    }

    /** `console.log(...value)`. */
    method Log(value: seq<T>)
      modifies this
      ensures entries == old(entries) + [value]
    {
      entries := entries + [value];
    }

    /** `__logStackPop()`. */
    method PopEntry() returns (r: Option<seq<T>>)
      modifies this
      ensures (r, entries) == Pop(old(entries))
    {
      if entries == [] {
        return None;
      }
      r := Some(entries[|entries| - 1]);
      entries := entries[..|entries| - 1];
    }
  }

  // ===== The sandbox's globals

  /** A name visible to a snippet: one of the four built-ins or a value of
      `config.globals`. */
  datatype Global<V> = LogStackPop | DeepStrictEqual | Require | Console | UserGlobal(value: V)

  function Builtins<V>(): map<string, Global<V>> {
    map["__logStackPop" := LogStackPop, "__deepStrictEqual" := DeepStrictEqual, "require" := Require, "console" := Console]
  }

  /** `Object.assign({}, sandboxGlobals, config.globals)`: the built-ins and
      the user's globals, a user global winning over a built-in of the same
      name. */
  function SandboxGlobals<V>(globals: map<string, V>): (r: map<string, Global<V>>)
    ensures r.Keys == Builtins<V>().Keys + globals.Keys
    ensures forall k | k in globals :: r[k] == UserGlobal(globals[k])
    ensures forall k | k in Builtins<V>() && k !in globals :: r[k] == Builtins<V>()[k]
  {
    Builtins() + map k | k in globals :: UserGlobal(globals[k])
  }

  /** Without user globals a snippet sees exactly the four built-ins. */
  lemma OnlyBuiltinsByDefault<V>()
    ensures SandboxGlobals<V>(map[]) == Builtins<V>()
  {
  }
}

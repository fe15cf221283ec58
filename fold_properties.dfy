/** What the fold of `parseCodeSnippets` guarantees about the state it builds:
    one snippet per start fence, in order, numbered by its fence line; a skip
    marker reaching only the next fence; a sticky share flag; parsing failing
    exactly when a fence is left unclosed; and snippets that are finished
    never changing again. */
module FoldProperties {
  import opened Wrappers
  import opened Text
  import opened SnippetParser
  import opened ParserProperties

  /** The fold from the initial state with any code edit `edit`. Most of
      what follows holds whatever the code lines do to the code, so it is
      stated for every `edit`; `Reduce` is the run with the source's edit. */
  function Run(actions: seq<Action>, fileName: string, edit: (string, Action) -> string): State {
    Fold(InitialState, actions, fileName, 0, edit)
  }

  // ===== Composition

  /** Folding two runs of actions is folding the second from where the first
      left off. */
  lemma {:induction false} FoldConcat(st: State, a: seq<Action>, b: seq<Action>, fileName: string, offset: nat, edit: (string, Action) -> string)
    ensures Fold(st, a + b, fileName, offset, edit) == Fold(Fold(st, a, fileName, offset, edit), b, fileName, offset + |a|, edit)
    decreases |b|
  {
    if b == [] {
      assert a + b == a;
    } else {
      var b' := b[..|b| - 1];
      assert (a + b)[..|a + b| - 1] == a + b';
      assert (a + b)[|a + b| - 1] == b[|b| - 1];
      FoldConcat(st, a, b', fileName, offset, edit);
    }
  }

  // ===== Where snippets come from

  /** The positions (0-based) of the actions that open a snippet, in order. */
  function Openings(actions: seq<Action>): (ks: seq<nat>)
    ensures forall j | 0 <= j < |ks| :: ks[j] < |actions|
    decreases |actions|
  {
    if actions == [] then []
    else
      var n := |actions| - 1;
      if actions[n].OpenSnippet? then Openings(actions[..n]) + [n] else Openings(actions[..n])
  }

  /** Every position `Openings` lists holds an opening action. */
  lemma {:induction false} OpeningsAreOpen(actions: seq<Action>)
    ensures forall j | 0 <= j < |Openings(actions)| :: actions[Openings(actions)[j]].OpenSnippet?
    decreases |actions|
  {
    if actions != [] {
      var n := |actions| - 1;
      var pre := actions[..n];
      OpeningsAreOpen(pre);
      var ks' := Openings(pre);
      var ks := Openings(actions);
      forall j | 0 <= j < |ks|
        ensures actions[ks[j]].OpenSnippet?
      {
        if j < |ks'| {
          assert ks[j] == ks'[j] && actions[ks'[j]] == pre[ks'[j]];
        }
      }
    }
  }

  /** Every opening action is listed by `Openings`. */
  lemma {:induction false} OpeningsAreAll(actions: seq<Action>)
    ensures forall k | 0 <= k < |actions| && actions[k].OpenSnippet? :: k in Openings(actions)
    decreases |actions|
  {
    if actions != [] {
      var pre := actions[..|actions| - 1];
      OpeningsAreAll(pre);
      assert forall k | 0 <= k < |pre| :: actions[k] == pre[k];
    }
  }

  /** `Openings` lists positions in increasing order. */
  lemma {:induction false} OpeningsIncrease(actions: seq<Action>)
    ensures forall j, j' | 0 <= j < j' < |Openings(actions)| :: Openings(actions)[j] < Openings(actions)[j']
    decreases |actions|
  {
    if actions != [] {
      var n := |actions| - 1;
      OpeningsIncrease(actions[..n]);
      var ks, ks' := Openings(actions), Openings(actions[..n]);
      forall j, j' | 0 <= j < j' < |ks|
        ensures ks[j] < ks[j']
      {
        assert ks[j] == ks'[j];
      }
    }
  }

  /** What a snippet keeps from the moment it is opened. */
  datatype Origin = Origin(fileName: string, lineNumber: nat, skip: bool)

  function OriginOf(s: Snippet): Origin {
    Origin(s.fileName, s.lineNumber, s.skip)
  }

  /** No action after position `k` opens a snippet. */
  ghost predicate NoOpeningAfter(actions: seq<Action>, k: int) {
    forall m | 0 <= m < |actions| && k < m :: !actions[m].OpenSnippet?
  }

  /** No action after position `k` closes a snippet. */
  ghost predicate NoClosingAfter(actions: seq<Action>, k: int) {
    forall m | 0 <= m < |actions| && k < m :: !actions[m].CloseSnippet?
  }

  /** A skip marker is pending when one was seen and no fence opened since. */
  ghost predicate PendingSkip(actions: seq<Action>) {
    exists k | 0 <= k < |actions| :: actions[k].SetSkip? && NoOpeningAfter(actions, k)
  }

  /** One step changes no snippet's origin. */
  lemma StepKeepsOrigins(st: State, a: Action, fileName: string, lineNumber: nat, edit: (string, Action) -> string)
    ensures var r := Step(st, a, fileName, lineNumber, edit);
      forall j | 0 <= j < |st.snippets| :: OriginOf(r.snippets[j]) == OriginOf(st.snippets[j])
  {
  }

  /** Only a closing step changes whether a snippet is complete. */
  lemma StepKeepsCompleteness(st: State, a: Action, fileName: string, lineNumber: nat, edit: (string, Action) -> string)
    requires !a.CloseSnippet?
    ensures var r := Step(st, a, fileName, lineNumber, edit);
      forall j | 0 <= j < |st.snippets| :: r.snippets[j].complete == st.snippets[j].complete
  {
  }

  /** An opening step appends an empty, open snippet carrying the pending
      skip flag. */
  lemma StepOpensSnippet(st: State, fileName: string, lineNumber: nat, edit: (string, Action) -> string)
    ensures Step(st, OpenSnippet, fileName, lineNumber, edit).snippets[|st.snippets|]
      == Snippet("", fileName, lineNumber, false, st.skip)
  {
  }

  lemma PendingSkipStep(actions: seq<Action>)
    requires actions != []
    ensures var n := |actions| - 1;
      PendingSkip(actions) <==> actions[n].SetSkip? || (!actions[n].OpenSnippet? && PendingSkip(actions[..n]))
  {
    var n := |actions| - 1;
    var pre := actions[..n];
    if PendingSkip(actions) {
      var k :| 0 <= k < |actions| && actions[k].SetSkip? && NoOpeningAfter(actions, k);
      if k < n {
        assert pre[k].SetSkip? && NoOpeningAfter(pre, k);
      }
    }
    if actions[n].SetSkip? {
      assert NoOpeningAfter(actions, n);
    } else if !actions[n].OpenSnippet? && PendingSkip(pre) {
      var k :| 0 <= k < |pre| && pre[k].SetSkip? && NoOpeningAfter(pre, k);
      assert actions[k].SetSkip? && NoOpeningAfter(actions, k);
    }
  }

  /** The pending skip flag after some actions: set by a skip marker, cleared
      by the next fence. */
  lemma {:induction false} SkipFlag(actions: seq<Action>, fileName: string, edit: (string, Action) -> string)
    ensures Run(actions, fileName, edit).skip <==> PendingSkip(actions)
    decreases |actions|
  {
    if actions != [] {
      var n := |actions| - 1;
      SkipFlag(actions[..n], fileName, edit);
      PendingSkipStep(actions);
    }
  }

  /** Snippet `j` was opened by the `j`-th opening action, belongs to the
      file being parsed, and carries the skip flag of the state just before
      its fence. */
  ghost predicate OriginsAgree(actions: seq<Action>, fileName: string, edit: (string, Action) -> string) {
    var st := Run(actions, fileName, edit);
    var ks := Openings(actions);
    && |st.snippets| == |ks|
    && forall j | 0 <= j < |ks| ::
         OriginOf(st.snippets[j]) == Origin(fileName, ks[j] + 1, Run(actions[..ks[j]], fileName, edit).skip)
  }

  lemma {:induction false} SnippetOrigins(actions: seq<Action>, fileName: string, edit: (string, Action) -> string)
    ensures OriginsAgree(actions, fileName, edit)
    decreases |actions|
  {
    if actions != [] {
      SnippetOrigins(actions[..|actions| - 1], fileName, edit);
      OriginsStep(actions, fileName, edit);
    }
  }

  lemma OriginsStep(actions: seq<Action>, fileName: string, edit: (string, Action) -> string)
    requires actions != [] && OriginsAgree(actions[..|actions| - 1], fileName, edit)
    ensures OriginsAgree(actions, fileName, edit)
  {
    var n := |actions| - 1;
    var pre := actions[..n];
    var a := actions[n];
    var st := Run(pre, fileName, edit);
    var r := Run(actions, fileName, edit);
    assert r == Step(st, a, fileName, |actions|, edit);
    StepKeepsOrigins(st, a, fileName, |actions|, edit);
    if a.OpenSnippet? {
      StepOpensSnippet(st, fileName, |actions|, edit);
    }
    var ks := Openings(actions);
    var ks' := Openings(pre);
    forall j | 0 <= j < |ks|
      ensures OriginOf(r.snippets[j]) == Origin(fileName, ks[j] + 1, Run(actions[..ks[j]], fileName, edit).skip)
    {
      if j < |ks'| {
        PrefixOfPrefix(actions, n, ks[j]);
      }
    }
  }

  lemma PrefixOfPrefix<T>(s: seq<T>, n: nat, m: nat)
    requires m <= n <= |s|
    ensures s[..n][..m] == s[..m]
  {
  }

  /** An end fence closes: no end fence is also a start fence. */
  lemma CloseIffEndFence(line: string)
    ensures ParseLine(line).CloseSnippet? <==> IsEndOfSnippet(line)
  {
    if IsEndOfSnippet(line) {
      MarkersAreNotStartFences(line);
    }
  }

  /** A skip marker sets the skip flag: it is neither kind of fence. */
  lemma SkipIffSkipMarker(line: string)
    ensures ParseLine(line).SetSkip? <==> IsSkip(line)
  {
    if IsSkip(line) {
      MarkersAreNotStartFences(line);
      assert !IsEndOfSnippet(line);
    }
  }

  /** A share marker sets the share flag: it is no fence and no skip marker. */
  lemma ShareIffShareMarker(line: string)
    ensures ParseLine(line).ShareCode? <==> IsCodeSharedInFile(line)
  {
    if IsCodeSharedInFile(line) {
      MarkersAreNotStartFences(line);
      assert !IsEndOfSnippet(line) && !IsSkip(line);
    }
  }

  /** Snippet `j` carries the file name and the 1-based number of the line of
      the `j`-th opening action. */
  lemma LineNumbersAreOpenings(actions: seq<Action>, fileName: string, edit: (string, Action) -> string)
    ensures var ss := Run(actions, fileName, edit).snippets; var ks := Openings(actions);
      && |ss| == |ks|
      && forall j | 0 <= j < |ss| :: ss[j].lineNumber == ks[j] + 1 && ss[j].fileName == fileName
  {
    var ss := Run(actions, fileName, edit).snippets;
    SnippetOrigins(actions, fileName, edit);
    forall j | 0 <= j < |ss|
      ensures ss[j].lineNumber == Openings(actions)[j] + 1 && ss[j].fileName == fileName
    {
      assert OriginOf(ss[j]).lineNumber == Openings(actions)[j] + 1;
    }
  }

  /** Every snippet of `ss` starts at a start-fence line of `lines`, the
      1-based number of which it carries, and names `fileName`. */
  ghost predicate StartAtFences(ss: seq<Snippet>, lines: seq<string>, fileName: string) {
    forall j | 0 <= j < |ss| ::
      1 <= ss[j].lineNumber <= |lines| && IsStartOfSnippet(lines[ss[j].lineNumber - 1])
      && ss[j].fileName == fileName
  }

  /** Every snippet starts at a start-fence line of the file it was parsed
      from, and carries that line's 1-based number. */
  lemma SnippetsStartAtFences(lines: seq<string>, fileName: string)
    ensures StartAtFences(Process(lines, fileName).snippets, lines, fileName)
  {
    var ss := Process(lines, fileName).snippets;
    assert ss == Reduce(ParseLines(lines), fileName).snippets;
    assert forall m | 0 <= m < |lines| :: ParseLines(lines)[m].OpenSnippet? ==> IsStartOfSnippet(lines[m]) by {
      FenceActions(lines);
    }
    OpeningsAtOpenLines(ParseLines(lines), lines, fileName);
  }

  /** Snippets start where the actions open one, so at lines that open. */
  lemma OpeningsAtOpenLines(actions: seq<Action>, lines: seq<string>, fileName: string)
    requires |actions| == |lines|
    requires forall m | 0 <= m < |lines| :: actions[m].OpenSnippet? ==> IsStartOfSnippet(lines[m])
    ensures StartAtFences(Reduce(actions, fileName).snippets, lines, fileName)
  {
    assert Reduce(actions, fileName) == Run(actions, fileName, EditCode);
    LineNumbersAreOpenings(actions, fileName, EditCode);
    OpeningsAreOpen(actions);
  }

  /** Every opening action opens a snippet numbered by its line. */
  lemma OpeningHasSnippet(actions: seq<Action>, fileName: string, k: nat, edit: (string, Action) -> string) returns (j: nat)
    requires k < |actions| && actions[k].OpenSnippet?
    ensures j < |Run(actions, fileName, edit).snippets| && Run(actions, fileName, edit).snippets[j].lineNumber == k + 1
  {
    LineNumbersAreOpenings(actions, fileName, edit);
    OpeningsAreAll(actions);
    var ks := Openings(actions);
    j :| 0 <= j < |ks| && ks[j] == k;
  }

  /** Every start-fence line opens a snippet. */
  lemma EveryFenceOpensSnippet(lines: seq<string>, fileName: string, k: nat) returns (j: nat)
    requires k < |lines| && IsStartOfSnippet(lines[k])
    ensures j < |Process(lines, fileName).snippets| && Process(lines, fileName).snippets[j].lineNumber == k + 1
  {
    FenceActions(lines);
    j := OpeningHasSnippet(ParseLines(lines), fileName, k, EditCode);
  }

  /** Snippets come in the order of their fences. */
  lemma SnippetsInSourceOrder(lines: seq<string>, fileName: string)
    ensures var ss := Process(lines, fileName).snippets;
      forall j, j' | 0 <= j < j' < |ss| :: ss[j].lineNumber < ss[j'].lineNumber
  {
    LineNumbersAreOpenings(ParseLines(lines), fileName, EditCode);
    OpeningsIncrease(ParseLines(lines));
  }

  /** No line strictly between lines `k` and `i` (0-based) is a start fence. */
  ghost predicate NoStartFenceBetween(lines: seq<string>, k: int, i: int) {
    forall m | 0 <= m < |lines| && k < m < i :: !IsStartOfSnippet(lines[m])
  }

  /** A skip marker comes before line `i` (0-based), with no start fence
      after it and before line `i`. */
  ghost predicate SkipBefore(lines: seq<string>, i: int) {
    exists k | 0 <= k < |lines| && k < i :: IsSkip(lines[k]) && NoStartFenceBetween(lines, k, i)
  }

  /** `actions` open a snippet and set the skip flag at the start fences and
      the skip markers of `lines`, and only there. */
  ghost predicate SkipAndOpenFollowLines(actions: seq<Action>, lines: seq<string>) {
    && |actions| == |lines|
    && forall m | 0 <= m < |lines| ::
         (actions[m].OpenSnippet? <==> IsStartOfSnippet(lines[m])) && (actions[m].SetSkip? <==> IsSkip(lines[m]))
  }

  lemma SkipAndOpen(line: string)
    ensures ParseLine(line).OpenSnippet? <==> IsStartOfSnippet(line)
    ensures ParseLine(line).SetSkip? <==> IsSkip(line)
  {
    if IsStartOfSnippet(line) {
      assert ParseLine(line) == OpenSnippet;
      if IsSkip(line) {
        MarkersAreNotStartFences(line);
        assert false;
      }
    } else {
      assert !ParseLine(line).OpenSnippet?;
      SkipIffSkipMarker(line);
    }
  }

  lemma SkipActions(lines: seq<string>)
    ensures SkipAndOpenFollowLines(ParseLines(lines), lines)
  {
    var actions := ParseLines(lines);
    forall m | 0 <= m < |lines|
      ensures (actions[m].OpenSnippet? <==> IsStartOfSnippet(lines[m])) && (actions[m].SetSkip? <==> IsSkip(lines[m]))
    {
      assert actions[m] == ParseLine(lines[m]);
      SkipAndOpen(lines[m]);
    }
  }

  /** A skip action with no opening after it, before line `i`, is a skip
      marker with no start fence after it. */
  lemma PendingSkipFromLines(actions: seq<Action>, lines: seq<string>, i: nat, k: nat)
    requires SkipAndOpenFollowLines(actions, lines)
    requires k < i <= |lines| && actions[..i][k].SetSkip? && NoOpeningAfter(actions[..i], k)
    ensures IsSkip(lines[k]) && NoStartFenceBetween(lines, k, i)
  {
    var pre := actions[..i];
    forall m | 0 <= m < |lines| && k < m < i
      ensures !IsStartOfSnippet(lines[m])
    {
      assert !pre[m].OpenSnippet?;
    }
  }

  /** A skip marker with no start fence after it, before line `i`, is a
      skip action with no opening after it. */
  lemma SkipMarkerIsPending(actions: seq<Action>, lines: seq<string>, i: nat, k: nat)
    requires SkipAndOpenFollowLines(actions, lines)
    requires k < i <= |lines| && IsSkip(lines[k]) && NoStartFenceBetween(lines, k, i)
    ensures actions[..i][k].SetSkip? && NoOpeningAfter(actions[..i], k)
  {
    var pre := actions[..i];
    forall m | 0 <= m < |pre| && k < m
      ensures !pre[m].OpenSnippet?
    {
      assert !IsStartOfSnippet(lines[m]);
    }
  }

  /** A skip is pending before line `i` exactly when a skip marker precedes
      it with no start fence in between. */
  lemma PendingSkipIsSkipBefore(lines: seq<string>, i: nat)
    requires i <= |lines|
    ensures PendingSkip(ParseLines(lines)[..i]) <==> SkipBefore(lines, i)
  {
    var actions := ParseLines(lines);
    var pre := actions[..i];
    SkipActions(lines);
    if PendingSkip(pre) {
      var k :| 0 <= k < |pre| && pre[k].SetSkip? && NoOpeningAfter(pre, k);
      PendingSkipFromLines(actions, lines, i, k);
    }
    if SkipBefore(lines, i) {
      var k :| 0 <= k < |lines| && k < i && IsSkip(lines[k]) && NoStartFenceBetween(lines, k, i);
      SkipMarkerIsPending(actions, lines, i, k);
    }
  }

  /** A skip marker affects the next fence only: the snippet is skipped
      exactly when a skip line comes after the previous fence and before its
      own. */
  lemma SkipReachesNextFenceOnly(lines: seq<string>, fileName: string, j: nat)
    requires j < |Process(lines, fileName).snippets|
    ensures var s := Process(lines, fileName).snippets[j];
      1 <= s.lineNumber <= |lines| && (s.skip <==> SkipBefore(lines, s.lineNumber - 1))
  {
    var actions := ParseLines(lines);
    SnippetOrigins(actions, fileName, EditCode);
    var k := Openings(actions)[j];
    SkipFlag(actions[..k], fileName, EditCode);
    PendingSkipIsSkipBefore(lines, k);
  }

  // ===== The share flag

  /** Some action asks for shared code. */
  ghost predicate AnyShare(actions: seq<Action>) {
    exists k | 0 <= k < |actions| :: actions[k].ShareCode?
  }

  lemma AnyShareStep(actions: seq<Action>)
    requires actions != []
    ensures var n := |actions| - 1;
      AnyShare(actions) <==> actions[n].ShareCode? || AnyShare(actions[..n])
  {
    var n := |actions| - 1;
    var pre := actions[..n];
    if AnyShare(pre) {
      var k :| 0 <= k < |pre| && pre[k].ShareCode?;
      assert actions[k].ShareCode?;
    }
    if AnyShare(actions) {
      var k :| 0 <= k < |actions| && actions[k].ShareCode?;
      if k < n {
        assert pre[k].ShareCode?;
      }
    }
  }

  /** The share flag is set once any line asks for it, and never cleared. */
  lemma {:induction false} ShareFlag(actions: seq<Action>, fileName: string, edit: (string, Action) -> string)
    ensures Run(actions, fileName, edit).shareCodeInFile <==> AnyShare(actions)
    decreases |actions|
  {
    if actions != [] {
      var n := |actions| - 1;
      ShareFlag(actions[..n], fileName, edit);
      AnyShareStep(actions);
    }
  }

  /** At the level of lines: the file shares its code exactly when one of its
      lines is the share marker. */
  lemma ShareIffMarker(lines: seq<string>, fileName: string)
    ensures Process(lines, fileName).shareCodeInFile <==> exists k | 0 <= k < |lines| :: IsCodeSharedInFile(lines[k])
  {
    var actions := ParseLines(lines);
    ShareFlag(actions, fileName, EditCode);
    forall k | 0 <= k < |lines|
      ensures actions[k].ShareCode? <==> IsCodeSharedInFile(lines[k])
    {
      ShareIffShareMarker(lines[k]);
    }
  }

  // ===== Completion

  /** Some action opened a snippet and no later action closed one. */
  ghost predicate UnclosedOpening(actions: seq<Action>) {
    exists k | 0 <= k < |actions| :: actions[k].OpenSnippet? && NoClosingAfter(actions, k)
  }

  /** One step: an opening leaves a snippet open, a closing leaves none open,
      anything else keeps whether one is open. */
  lemma HasOpenSnippetStep(st: State, a: Action, fileName: string, lineNumber: nat, edit: (string, Action) -> string)
    ensures HasOpenSnippet(Step(st, a, fileName, lineNumber, edit)) <==>
      a.OpenSnippet? || (!a.CloseSnippet? && HasOpenSnippet(st))
  {
    if a.OpenSnippet? {
      StepOpensSnippet(st, fileName, lineNumber, edit);
    } else if !a.CloseSnippet? {
      StepKeepsCompleteness(st, a, fileName, lineNumber, edit);
    }
  }

  lemma UnclosedOpeningStep(actions: seq<Action>)
    requires actions != []
    ensures var n := |actions| - 1;
      UnclosedOpening(actions) <==>
        actions[n].OpenSnippet? || (!actions[n].CloseSnippet? && UnclosedOpening(actions[..n]))
  {
    var n := |actions| - 1;
    var pre := actions[..n];
    if actions[n].OpenSnippet? {
      assert NoClosingAfter(actions, n);
    } else if actions[n].CloseSnippet? {
      assert forall k | 0 <= k < n :: !NoClosingAfter(actions, k);
    } else {
      if UnclosedOpening(pre) {
        var k :| 0 <= k < |pre| && pre[k].OpenSnippet? && NoClosingAfter(pre, k);
        assert actions[k].OpenSnippet? && NoClosingAfter(actions, k);
      }
      if UnclosedOpening(actions) {
        var k :| 0 <= k < |actions| && actions[k].OpenSnippet? && NoClosingAfter(actions, k);
        assert pre[k].OpenSnippet? && NoClosingAfter(pre, k);
      }
    }
  }

  /** A snippet is still open after some actions exactly when some action
      opened one and no action after it closed one. */
  lemma {:induction false} OpenIffUnclosed(actions: seq<Action>, fileName: string, edit: (string, Action) -> string)
    ensures HasOpenSnippet(Run(actions, fileName, edit)) <==> UnclosedOpening(actions)
    decreases |actions|
  {
    if actions != [] {
      var n := |actions| - 1;
      OpenIffUnclosed(actions[..n], fileName, edit);
      HasOpenSnippetStep(Run(actions[..n], fileName, edit), actions[n], fileName, |actions|, edit);
      UnclosedOpeningStep(actions);
    }
  }

  /** No line after line `k` (0-based) is an end fence. */
  ghost predicate NoEndFenceAfter(lines: seq<string>, k: int) {
    forall m | 0 <= m < |lines| && k < m :: !IsEndOfSnippet(lines[m])
  }

  /** Some start fence has no end fence on any later line. */
  ghost predicate UnclosedFence(lines: seq<string>) {
    exists k | 0 <= k < |lines| :: IsStartOfSnippet(lines[k]) && NoEndFenceAfter(lines, k)
  }

  /** The opening and closing actions are chosen by the start and end fences. */
  lemma FenceActions(lines: seq<string>)
    ensures forall m | 0 <= m < |lines| ::
      && (ParseLines(lines)[m].OpenSnippet? <==> IsStartOfSnippet(lines[m]))
      && (ParseLines(lines)[m].CloseSnippet? <==> IsEndOfSnippet(lines[m]))
  {
    forall m | 0 <= m < |lines|
      ensures ParseLines(lines)[m].CloseSnippet? <==> IsEndOfSnippet(lines[m])
    {
      CloseIffEndFence(lines[m]);
    }
  }

  lemma UnclosedOpeningIsFence(lines: seq<string>)
    requires UnclosedOpening(ParseLines(lines))
    ensures UnclosedFence(lines)
  {
    var actions := ParseLines(lines);
    FenceActions(lines);
    var k :| 0 <= k < |actions| && actions[k].OpenSnippet? && NoClosingAfter(actions, k);
    assert IsStartOfSnippet(lines[k]) && NoEndFenceAfter(lines, k);
  }

  lemma UnclosedFenceIsOpening(lines: seq<string>)
    requires UnclosedFence(lines)
    ensures UnclosedOpening(ParseLines(lines))
  {
    var actions := ParseLines(lines);
    FenceActions(lines);
    var k :| 0 <= k < |lines| && IsStartOfSnippet(lines[k]) && NoEndFenceAfter(lines, k);
    assert actions[k].OpenSnippet? && NoClosingAfter(actions, k);
  }

  /** Parsing fails, with the incomplete-snippet error, exactly when some
      start fence has no end fence on any later line. */
  lemma IncompleteIffUnclosedFence(contents: string, fileName: string)
    ensures ParseSpec(contents, fileName).Err? <==> UnclosedFence(Split(contents, '\n'))
    ensures ParseSpec(contents, fileName).Err? ==> ParseSpec(contents, fileName).error == ParseError(IncompleteMessage)
  {
    var lines := Split(contents, '\n');
    OpenIffUnclosed(ParseLines(lines), fileName, EditCode);
    if UnclosedFence(lines) {
      UnclosedFenceIsOpening(lines);
    }
    if UnclosedOpening(ParseLines(lines)) {
      UnclosedOpeningIsFence(lines);
    }
  }

  /** Two snippets, the first left open and the second closed, and a
      successful finish. */
  ghost predicate FirstOpenLastClosed(st: State, fileName: string) {
    && Finish(st, fileName).Ok?
    && |st.snippets| == 2 && !st.snippets[0].complete && st.snippets[1].complete
  }

  /** Only the last snippet is checked: a fence opened inside an open snippet
      leaves the earlier one incomplete, yet the parse succeeds. The lines
      are those of a document reading "```js", "```js", "```". */
  lemma OnlyLastSnippetChecked(fileName: string)
    ensures FirstOpenLastClosed(Process(["```js", "```js", "```"], fileName), fileName)
  {
    var lines := ["```js", "```js", "```"];
    FenceLineOpens();
    EndFenceLineCloses();
    var actions := ParseLines(lines);
    assert actions[0] == ParseLine(lines[0]) && actions[1] == ParseLine(lines[1]) && actions[2] == ParseLine(lines[2]);
    assert Process(lines, fileName) == Reduce(actions, fileName);
    OpenOpenClose(actions, fileName);
  }

  /** "```js" is a start fence. */
  lemma FenceLineOpens()
    ensures ParseLine("```js") == OpenSnippet
  {
    var line := "```js";
    TrimOfTrimmed(line);
    assert line[3..] == "js";
    assert line[..3] == Fence;
  }

  /** "```" is an end fence. */
  lemma EndFenceLineCloses()
    ensures ParseLine("```") == CloseSnippet
  {
    TrimOfTrimmed("```");
    CloseIffEndFence("```");
  }

  /** The fold of an opening, another opening and a closing. */
  lemma OpenOpenClose(actions: seq<Action>, fileName: string)
    requires |actions| == 3 && actions[0] == OpenSnippet && actions[1] == OpenSnippet && actions[2] == CloseSnippet
    ensures FirstOpenLastClosed(Reduce(actions, fileName), fileName)
  {
    assert actions[..2][..1] == [OpenSnippet] && actions[..2][1] == OpenSnippet;
    var one := Reduce([OpenSnippet], fileName);
    assert [OpenSnippet][..0] == [];
    assert one.snippets == [Snippet("", fileName, 1, false, false)];
    var two := Reduce(actions[..2], fileName);
    assert two == Apply(one, OpenSnippet, fileName, 2);
    assert Reduce(actions, fileName) == Apply(two, CloseSnippet, fileName, 3);
  }

  // ===== Finished snippets are frozen

  /** A snippet that is no longer the last one, or that is complete, is never
      changed by later lines. */
  lemma {:induction false} FinishedSnippetsFrozen(st: State, actions: seq<Action>, fileName: string, offset: nat, edit: (string, Action) -> string, j: nat)
    requires j < |st.snippets| && (j < |st.snippets| - 1 || st.snippets[j].complete)
    ensures |Fold(st, actions, fileName, offset, edit).snippets| >= |st.snippets|
    ensures Fold(st, actions, fileName, offset, edit).snippets[j] == st.snippets[j]
    decreases |actions|
  {
    if actions != [] {
      var n := |actions| - 1;
      FinishedSnippetsFrozen(st, actions[..n], fileName, offset, edit, j);
      var mid := Fold(st, actions[..n], fileName, offset, edit);
      assert Fold(st, actions, fileName, offset, edit) == Step(mid, actions[n], fileName, offset + |actions|, edit);
    }
  }

  // ===== How code accumulates

  /** What `addLine` appends for each of `lines`: the line and a newline. */
  function Appended(lines: seq<string>): string
    decreases |lines|
  {
    if lines == [] then "" else Appended(lines[..|lines| - 1]) + (lines[|lines| - 1] + "\n")
  }

  /** Plain lines inside an open snippet are appended to its code, each with
      its newline, and nothing else changes. */
  lemma {:induction false} PlainLinesAccumulate(st: State, lines: seq<string>, actions: seq<Action>, fileName: string, offset: nat)
    requires HasOpenSnippet(st)
    requires |actions| == |lines| && forall k | 0 <= k < |lines| :: actions[k] == PlainLine(lines[k])
    ensures Fold(st, actions, fileName, offset, EditCode) == WithLastCode(st, Last(st.snippets).code + Appended(lines))
    decreases |actions|
  {
    if actions == [] {
      assert Last(st.snippets).code + "" == Last(st.snippets).code;
      assert st.snippets[|st.snippets| - 1 := Last(st.snippets)] == st.snippets;
    } else {
      var n := |actions| - 1;
      var code := Last(st.snippets).code;
      PlainLinesAccumulate(st, lines[..n], actions[..n], fileName, offset);
      PlainLineAppends(st, code + Appended(lines[..n]), lines[n], fileName, offset + |actions|);
      assert code + Appended(lines[..n]) + (lines[n] + "\n") == code + Appended(lines);
    }
  }

  /** A plain line appended to the open snippet's code, after an earlier edit
      of that code. */
  lemma PlainLineAppends(st: State, code: string, line: string, fileName: string, lineNumber: nat)
    requires HasOpenSnippet(st)
    ensures Step(WithLastCode(st, code), PlainLine(line), fileName, lineNumber, EditCode) == WithLastCode(st, code + (line + "\n"))
  {
    var mid := WithLastCode(st, code);
    assert Last(mid.snippets) == Last(st.snippets).(code := code);
    assert mid.snippets[|mid.snippets| - 1 := Last(st.snippets).(code := code + (line + "\n"))]
      == st.snippets[|st.snippets| - 1 := Last(st.snippets).(code := code + (line + "\n"))];
  }

  /** With no open snippet, code, assertions and plain lines change nothing. */
  lemma {:induction false} ClosedStateIgnoresCode(st: State, actions: seq<Action>, fileName: string, offset: nat, edit: (string, Action) -> string)
    requires !HasOpenSnippet(st)
    requires forall k | 0 <= k < |actions| :: actions[k].PlainLine? || actions[k].ReturnAssertion? || actions[k].LogAssertion?
    ensures Fold(st, actions, fileName, offset, edit) == st
    decreases |actions|
  {
    if actions != [] {
      ClosedStateIgnoresCode(st, actions[..|actions| - 1], fileName, offset, edit);
    }
  }
}

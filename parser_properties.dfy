/** What the snippet parser promises, proved about the value-level model in
    `SnippetParser`: the classifiers agree with the regular expressions they
    stand for, the classification order, how the return assertion rewrites
    code, where snippets start, how the skip flag is consumed, how code
    accumulates, and when a document is rejected. */
module ParserProperties {
  import opened Wrappers
  import opened Text
  import opened SnippetParser

  // ===== The start-fence predicate is the regular expression

  /** A fence at `i` in `p`, followed by non-word characters to the end. */
  ghost predicate FenceAt(p: string, i: int) {
    0 <= i && i + 3 <= |p| && p[i..i + 3] == Fence
    && forall m | i + 3 <= m < |p| :: !IsWordChar(p[m])
  }

  /** A fence-then-non-word ending has a fence the match can start at. */
  lemma {:induction false} FenceThenNonWordSound(p: string) returns (i: int)
    requires FenceThenNonWord(p)
    ensures FenceAt(p, i)
    decreases |p|
  {
    if p[|p| - 3..] == Fence {
      i := |p| - 3;
    } else {
      var q := p[..|p| - 1];
      i := FenceThenNonWordSound(q);
      assert p[i..i + 3] == q[i..i + 3];
    }
  }

  /** A fence followed by non-word characters to the end is recognised. */
  lemma {:induction false} FenceThenNonWordComplete(p: string, i: int)
    requires FenceAt(p, i)
    ensures FenceThenNonWord(p)
    decreases |p|
  {
    if p[|p| - 3..] != Fence {
      assert i + 3 < |p|;
      var q := p[..|p| - 1];
      assert q[i..i + 3] == p[i..i + 3];
      FenceThenNonWordComplete(q, i);
    }
  }

  lemma FenceThenNonWordMeans(p: string)
    ensures FenceThenNonWord(p) <==> exists i :: FenceAt(p, i)
  {
    if FenceThenNonWord(p) {
      var i := FenceThenNonWordSound(p);
    }
    if exists i :: FenceAt(p, i) {
      var i :| FenceAt(p, i);
      FenceThenNonWordComplete(p, i);
    }
  }

  /** A tag starting at `k` reaches the end of `s`, and a fence at `i` is
      followed by non-word characters up to `k`. */
  ghost predicate TagMatchAt(s: string, i: int, k: int) {
    0 <= k <= |s| && IsTag(s[k..]) && FenceAt(s[..k], i)
  }

  lemma TagAfterFenceMeans(s: string, tag: string, k: int)
    requires tag == "javascript" || tag == "js" || tag == "es6"
    requires k == |s| - |tag|
    ensures TagAfterFence(s, tag) <==> exists i :: TagMatchAt(s, i, k)
  {
    if |s| >= |tag| {
      FenceThenNonWordMeans(s[..k]);
      if TagAfterFence(s, tag) {
        var i :| FenceAt(s[..k], i);
        assert TagMatchAt(s, i, k);
      }
      if exists i :: TagMatchAt(s, i, k) {
        var i :| TagMatchAt(s, i, k);
        assert EqualsIgnoreCase(s[k..], tag) by {
          assert IsTag(s[k..]);
        }
      }
    }
  }

  /** The tag a match ends with, and where it starts. */
  lemma TagOfMatch(s: string, k: int) returns (tag: string)
    requires 0 <= k <= |s| && IsTag(s[k..])
    ensures tag == "javascript" || tag == "js" || tag == "es6"
    ensures k == |s| - |tag|
  {
    if EqualsIgnoreCase(s[k..], "javascript") {
      tag := "javascript";
    } else if EqualsIgnoreCase(s[k..], "js") {
      tag := "js";
    } else {
      tag := "es6";
    }
  }

  lemma FenceTagAtEndMeans(s: string)
    ensures FenceTagAtEnd(s) <==> exists i, k :: TagMatchAt(s, i, k)
  {
    if FenceTagAtEnd(s) {
      var tag := if TagAfterFence(s, "javascript") then "javascript" else if TagAfterFence(s, "js") then "js" else "es6";
      TagAfterFenceMeans(s, tag, |s| - |tag|);
      var i :| TagMatchAt(s, i, |s| - |tag|);
    }
    if exists i, k :: TagMatchAt(s, i, k) {
      var i, k :| TagMatchAt(s, i, k);
      var tag := TagOfMatch(s, k);
      TagAfterFenceMeans(s, tag, k);
    }
  }

  lemma MatchAtMeans(t: string, i: int, k: int)
    ensures StartFenceMatchAt(t, i, k) <==>
      (TagMatchAt(t, i, k) || (|t| > 0 && IsWhitespace(t[|t| - 1]) && TagMatchAt(t[..|t| - 1], i, k)))
  {
    if 0 <= i && i + 3 <= k <= |t| {
      assert t[..k][i..i + 3] == t[i..i + 3];
      assert forall m | i + 3 <= m < k :: t[..k][m] == t[m];
      if k < |t| {
        var s := t[..|t| - 1];
        assert s[k..] == t[k..|t| - 1];
        assert s[..k] == t[..k];
      }
    }
  }

  /** isStartOfSnippet holds exactly when the regular expression
      /```\W*(JavaScript|js|es6)\s?$/i finds a match in the trimmed line. */
  lemma StartFenceIsRegexMatch(line: string)
    ensures IsStartOfSnippet(line) <==> StartFenceRegex(Trim(line))
  {
    var t := Trim(line);
    FenceTagAtEndMeans(t);
    if IsStartOfSnippet(line) {
      // a trimmed line does not end in whitespace, so only the first disjunct can hold
      var i, k :| TagMatchAt(t, i, k);
      MatchAtMeans(t, i, k);
    }
    if StartFenceRegex(t) {
      var i, k :| StartFenceMatchAt(t, i, k);
      MatchAtMeans(t, i, k);
    }
  }

  // ===== The assertion comments are the regular expressions

  lemma {:induction false} TrimStartOf(w: string, rest: string)
    requires AllWhitespace(w) && rest != [] && !IsWhitespace(rest[0])
    ensures TrimStart(w + rest) == rest
    decreases |w|
  {
    if w == [] {
      assert w + rest == rest;
    } else {
      var line := w + rest;
      assert line[0] == w[0];
      assert IsWhitespace(line[0]);
      assert line[1..] == w[1..] + rest;
      assert AllWhitespace(w[1..]) by {
        assert forall k | 0 <= k < |w| - 1 :: w[1..][k] == w[k + 1];
      }
      TrimStartOf(w[1..], rest);
    }
  }

  lemma LeadingWhitespaceOf(w: string, rest: string)
    requires AllWhitespace(w) && rest != [] && !IsWhitespace(rest[0])
    ensures LeadingWhitespace(w + rest) == |w|
    ensures (w + rest)[|w|..] == rest
  {
    TrimStartOf(w, rest);
    SplitAfter(w, rest);
  }

  lemma SplitAfter(a: string, b: string)
    ensures |a + b| >= |a| && (a + b)[..|a|] == a && (a + b)[|a|..] == b
  {
  }

  lemma SkipOptionalSpaceOf(s: string, rest: string)
    requires OptionalSpace(s) && rest != [] && !IsWhitespace(rest[0])
    ensures SkipOptionalSpace(s + rest) == rest
  {
    if s != [] {
      assert (s + rest)[1..] == rest;
    }
  }

  lemma CaptureToEndOf(x: string, cr: string)
    requires CapturedText(x) && OptionalCarriageReturn(cr)
    ensures CaptureToEnd(x + cr) == Some(x)
  {
    if cr == [] {
      assert x + cr == x;
      assert !IsLineTerminator(x[|x| - 1]);
    } else {
      assert (x + cr)[..|x + cr| - 1] == x;
    }
  }

  lemma JoinBack(a: string, b: string)
    requires |b| >= |a| && b[..|a|] == a
    ensures b == a + b[|a|..]
  {
  }

  /** What `\s?` consumed, put back in front of what it left. */
  lemma SkipOptionalSpaceSplit(s: string) returns (sp: string)
    ensures OptionalSpace(sp) && s == sp + SkipOptionalSpace(s)
  {
    if s != [] && IsWhitespace(s[0]) {
      sp := s[..1];
      assert s == s[..1] + s[1..];
    } else {
      sp := [];
    }
  }

  lemma CaptureToEndSplit(r: string, x: string) returns (cr: string)
    requires CaptureToEnd(r) == Some(x)
    ensures CapturedText(x) && OptionalCarriageReturn(cr) && r == x + cr
  {
    if r != [] && r[|r| - 1] == '\r' {
      cr := "\r";
      assert r == r[..|r| - 1] + [r[|r| - 1]];
    } else {
      cr := "";
    }
  }

  /** A line cut after its leading whitespace into `//`, an optional space
      and a body. */
  lemma CommentCut(line: string, n: nat, r2: string) returns (w: string, sp: string)
    requires n <= |line| && AllWhitespace(line[..n])
    requires |line[n..]| >= 2 && line[n..][..2] == "//" && r2 == SkipOptionalSpace(line[n..][2..])
    ensures AllWhitespace(w) && OptionalSpace(sp) && line == w + ("//" + (sp + r2))
  {
    w := line[..n];
    var r := line[n..];
    assert line == w + r;
    var rest := r[2..];
    assert r == "//" + rest by {
      JoinBack("//", r);
    }
    sp := SkipOptionalSpaceSplit(rest);
    assert "//" + (sp + r2) == r;
  }

  lemma CommentBodySound(line: string, r2: string) returns (w: string, sp: string)
    requires CommentBody(line) == Some(r2)
    ensures AllWhitespace(w) && OptionalSpace(sp) && line == w + ("//" + (sp + r2))
  {
    w, sp := CommentCut(line, LeadingWhitespace(line), r2);
  }

  lemma CommentBodyOf(w: string, sp: string, r2: string)
    requires AllWhitespace(w) && OptionalSpace(sp) && r2 != [] && !IsWhitespace(r2[0])
    ensures CommentBody(w + ("//" + (sp + r2))) == Some(r2)
  {
    var r := "//" + (sp + r2);
    LeadingWhitespaceOf(w, r);
    SplitAfter("//", sp + r2);
    SkipOptionalSpaceOf(sp, r2);
  }

  lemma ReturnAssertionSound(line: string, x: string) returns (w: string, sp: string, cr: string)
    requires MatchReturnAssertion(line) == Some(x)
    ensures ReturnAssertionShape(line, w, sp, x, cr)
  {
    var r2 := CommentBody(line).value;
    w, sp := CommentBodySound(line, r2);
    JoinBack("=>", r2);
    cr := CaptureToEndSplit(r2[2..], x);
    assert r2 == "=>" + (x + cr);
  }

  lemma ReturnAssertionComplete(line: string, w: string, s: string, x: string, cr: string)
    requires ReturnAssertionShape(line, w, s, x, cr)
    ensures MatchReturnAssertion(line) == Some(x)
  {
    var r2 := "=>" + (x + cr);
    CommentBodyOf(w, s, r2);
    SplitAfter("=>", x + cr);
    CaptureToEndOf(x, cr);
  }

  /** group 1 of the return-assertion pattern is `x` exactly when the line has
      the pattern's shape with `x` in the place of `(.+)`. */
  lemma ReturnAssertionIsRegexMatch(line: string, x: string)
    ensures MatchReturnAssertion(line) == Some(x) <==> exists w, s, cr :: ReturnAssertionShape(line, w, s, x, cr)
  {
    if MatchReturnAssertion(line) == Some(x) {
      var w, s, cr := ReturnAssertionSound(line, x);
    }
    if exists w, s, cr :: ReturnAssertionShape(line, w, s, x, cr) {
      var w, s, cr :| ReturnAssertionShape(line, w, s, x, cr);
      ReturnAssertionComplete(line, w, s, x, cr);
    }
  }

  /** The part of a log assertion after `//\s?`. */
  lemma LogTailSound(r2: string, x: string) returns (sp2: string, cr: string)
    requires |r2| >= 3 && r2[..3] == "log"
    requires var r3 := SkipOptionalSpace(r2[3..]); |r3| >= 2 && r3[..2] == "=>" && CaptureToEnd(r3[2..]) == Some(x)
    ensures OptionalSpace(sp2) && CapturedText(x) && OptionalCarriageReturn(cr)
    ensures r2 == "log" + (sp2 + ("=>" + (x + cr)))
  {
    JoinBack("log", r2);
    sp2 := SkipOptionalSpaceSplit(r2[3..]);
    var r3 := SkipOptionalSpace(r2[3..]);
    JoinBack("=>", r3);
    cr := CaptureToEndSplit(r3[2..], x);
    assert r3 == "=>" + (x + cr);
  }

  lemma LogAssertionSound(line: string, x: string) returns (w: string, sp1: string, sp2: string, cr: string)
    requires MatchLogAssertion(line) == Some(x)
    ensures LogAssertionShape(line, w, sp1, sp2, x, cr)
  {
    var r2 := CommentBody(line).value;
    w, sp1 := CommentBodySound(line, r2);
    sp2, cr := LogTailSound(r2, x);
  }

  lemma LogAssertionComplete(line: string, w: string, s1: string, s2: string, x: string, cr: string)
    requires LogAssertionShape(line, w, s1, s2, x, cr)
    ensures MatchLogAssertion(line) == Some(x)
  {
    var tail := "=>" + (x + cr);
    var r2 := "log" + (s2 + tail);
    CommentBodyOf(w, s1, r2);
    SplitAfter("log", s2 + tail);
    SkipOptionalSpaceOf(s2, tail);
    SplitAfter("=>", x + cr);
    CaptureToEndOf(x, cr);
  }

  /** group 1 of the log-assertion pattern is `x` exactly when the line has
      the pattern's shape with `x` in the place of `(.+)`. */
  lemma LogAssertionIsRegexMatch(line: string, x: string)
    ensures MatchLogAssertion(line) == Some(x) <==> exists w, s1, s2, cr :: LogAssertionShape(line, w, s1, s2, x, cr)
  {
    if MatchLogAssertion(line) == Some(x) {
      var w, s1, s2, cr := LogAssertionSound(line, x);
    }
    if exists w, s1, s2, cr :: LogAssertionShape(line, w, s1, s2, x, cr) {
      var w, s1, s2, cr :| LogAssertionShape(line, w, s1, s2, x, cr);
      LogAssertionComplete(line, w, s1, s2, x, cr);
    }
  }

  // ===== Classification order

  ghost predicate IsReturnAssertionLine(line: string, x: string) {
    exists w, s, cr :: ReturnAssertionShape(line, w, s, x, cr)
  }

  ghost predicate IsLogAssertionLine(line: string, x: string) {
    exists w, s1, s2, cr :: LogAssertionShape(line, w, s1, s2, x, cr)
  }

  /** A start fence ends with the last letter of one of its tags. */
  lemma StartFenceLastChar(s: string)
    requires FenceTagAtEnd(s)
    ensures |s| > 0 && LowerAscii(s[|s| - 1]) in {'t', 's', '6'}
  {
    var tag := if TagAfterFence(s, "javascript") then "javascript" else if TagAfterFence(s, "js") then "js" else "es6";
    var u := s[|s| - |tag|..];
    assert LowerAscii(u[|tag| - 1]) == LowerAscii(tag[|tag| - 1]);
  }

  /** The three marker lines never open a snippet. */
  lemma MarkersAreNotStartFences(line: string)
    requires Trim(line) == Fence || Trim(line) == SkipMarker || Trim(line) == ShareMarker
    ensures !IsStartOfSnippet(line)
  {
    var t := Trim(line);
    if FenceTagAtEnd(t) {
      StartFenceLastChar(t);
    }
  }

  /** A line with the `^\s*\/\/` opening trims to a string starting with `/`,
      so it is none of the marker lines. */
  lemma CommentLineIsNoMarker(line: string)
    requires CommentBody(line).Some?
    ensures Trim(line) != [] && Trim(line)[0] == '/'
    ensures Trim(line) != Fence && Trim(line) != SkipMarker && Trim(line) != ShareMarker
  {
    var r := line[LeadingWhitespace(line)..];
    assert TrimStart(line) == r;
    assert r[0] == '/';
    SlashFirstIsNoMarker(r);
  }

  /** Trimming the end of a string that starts with `/` leaves none of the
      marker lines. */
  lemma SlashFirstIsNoMarker(r: string)
    requires r != [] && r[0] == '/'
    ensures TrimEnd(r) != [] && TrimEnd(r)[0] == '/'
    ensures TrimEnd(r) != Fence && TrimEnd(r) != SkipMarker && TrimEnd(r) != ShareMarker
  {
    TrimEndKeepsFirst(r);
    var t := TrimEnd(r);
    assert t[0] != Fence[0] && t[0] != SkipMarker[0] && t[0] != ShareMarker[0];
  }

  /** No line carries both a return assertion and a log assertion. */
  lemma ReturnAndLogExclusive(line: string)
    ensures MatchReturnAssertion(line).None? || MatchLogAssertion(line).None?
  {
    if CommentBody(line).Some? {
      var r2 := CommentBody(line).value;
      assert |r2| >= 2 && r2[..2] == "=>" ==> r2[0] == '=';
      assert |r2| >= 3 && r2[..3] == "log" ==> r2[0] == 'l';
    }
  }

  /** parseLine's order only matters for start fences: apart from a start
      fence, every line is a marker, a return assertion, a log assertion or
      plain code, each exactly when its own pattern matches. */
  lemma ClassificationOrder(line: string, x: string)
    ensures ParseLine(line) == OpenSnippet <==> StartFenceRegex(Trim(line))
    ensures ParseLine(line) == CloseSnippet <==> Trim(line) == Fence
    ensures ParseLine(line) == SetSkip <==> Trim(line) == SkipMarker
    ensures ParseLine(line) == ShareCode <==> Trim(line) == ShareMarker
    ensures ParseLine(line) == ReturnAssertion(x) <==> !StartFenceRegex(Trim(line)) && IsReturnAssertionLine(line, x)
    ensures ParseLine(line) == LogAssertion(x) <==> !StartFenceRegex(Trim(line)) && IsLogAssertionLine(line, x)
    ensures ParseLine(line).PlainLine? <==>
      !StartFenceRegex(Trim(line)) && Trim(line) != Fence && Trim(line) != SkipMarker && Trim(line) != ShareMarker
      && MatchReturnAssertion(line).None? && MatchLogAssertion(line).None?
    ensures ParseLine(line).PlainLine? ==> ParseLine(line).line == line
  {
    StartFenceIsRegexMatch(line);
    ReturnAssertionIsRegexMatch(line, x);
    LogAssertionIsRegexMatch(line, x);
    ReturnAndLogExclusive(line);
    var t := Trim(line);
    if t == Fence || t == SkipMarker || t == ShareMarker {
      MarkersAreNotStartFences(line);
    }
    if CommentBody(line).Some? {
      CommentLineIsNoMarker(line);
    }
  }

  const PriorityExample: string := "// => ```js"

  /** A start fence wins over every other pattern on the same line: the
      line opens a snippet, whatever assertion it also matches. */
  lemma StartFenceWinsOverAssertion(line: string)
    requires IsStartOfSnippet(line)
    ensures ParseLine(line) == OpenSnippet
    ensures MatchReturnAssertion(line).Some? ==> !ParseLine(line).ReturnAssertion?
    ensures MatchLogAssertion(line).Some? ==> !ParseLine(line).LogAssertion?
  {
  }

  /** Both patterns can match one line, so the order matters: the line
      `// => ```js` is a return assertion by its pattern, yet opens a
      snippet. */
  lemma PatternsOverlap()
    ensures IsStartOfSnippet(PriorityExample)
    ensures MatchReturnAssertion(PriorityExample) == Some(" ```js")
    ensures ParseLine(PriorityExample) == OpenSnippet
  {
    PriorityExampleOpens();
    PriorityExampleMatchesReturn();
    StartFenceWinsOverAssertion(PriorityExample);
  }

  lemma PriorityExampleMatchesReturn()
    ensures MatchReturnAssertion(PriorityExample) == Some(" ```js")
  {
    assert ReturnAssertionShape(PriorityExample, "", " ", " ```js", "");
    ReturnAssertionComplete(PriorityExample, "", " ", " ```js", "");
  }

  lemma PriorityExampleOpens()
    ensures IsStartOfSnippet(PriorityExample)
  {
    var line := PriorityExample;
    TrimOfTrimmed(line);
    assert line[9..] == "js";
    assert line[..9][6..] == Fence;
  }
}

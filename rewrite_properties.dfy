/** How the return-value assertion rewrites a snippet's code. The pattern
    `/[^\n]+\r?\n$/m` is applied without the global flag, so it replaces the
    leftmost non-empty line whose newline is followed by the end of the code
    or by another line terminator. On code made of whole lines with no blank
    line this is the last line; once a rewrite has inserted its own blank
    line, it is the rewritten line instead. */
module RewriteProperties {
  import opened Wrappers
  import opened Text
  import opened SnippetParser

  /** `code` is made of whole lines, and no newline in it is followed by a
      line terminator, so no match of the pattern can end inside it. */
  ghost predicate WholeLinesWithoutMatch(code: string) {
    (code == [] || code[|code| - 1] == '\n')
    && forall m | 0 <= m < |code| - 1 :: !TerminatorAfterNewline(code, m)
  }

  /** A newline at `m` directly followed by a line terminator: the spot
      where a match of the pattern could end. */
  ghost predicate TerminatorAfterNewline(code: string, m: int) {
    0 <= m < |code| - 1 && code[m] == '\n' && IsLineTerminator(code[m + 1])
  }

  /** For a given start the pattern can end in one place only: just past the
      first newline. */
  lemma MatchEndIsLineEnd(code: string, p: nat, q: int)
    requires p <= |code| && LastLinePatternAt(code, p, q)
    ensures q == LineEnd(code, p) + 1
  {
    LineEndIsFirstNewline(code, p);
  }

  /** A match with no match starting before it is the one `replace` finds. */
  lemma LeftmostMatch(code: string, p: nat, q: nat)
    requires LastLinePatternAt(code, p, q)
    requires forall p', q' | 0 <= p' < p :: !LastLinePatternAt(code, p', q')
    ensures FindLastLine(code, 0) == Some((p, q))
  {
    var r := FindLastLine(code, 0);
    FindLastLineIsLeftmost(code, 0);
    assert r.Some?;
    MatchEndIsLineEnd(code, p, q);
    MatchEndIsLineEnd(code, r.value.0, r.value.1);
  }

  lemma ReplaceAt(code: string, f: string -> string, p: nat, q: nat)
    requires FindLastLine(code, 0) == Some((p, q))
    ensures p <= q <= |code|
    ensures ReplaceLastLine(code, f) == code[..p] + f(code[p..q]) + code[q..]
  {
  }

  /** A first line followed by the end of the code or by a line terminator is
      the one the pattern picks. */
  lemma WrapFirstLine(a: string, t: string, f: string -> string)
    requires a != [] && '\n' !in a
    requires t == [] || IsLineTerminator(t[0])
    ensures ReplaceLastLine(a + ("\n" + t), f) == f(a + "\n") + t
  {
    var code := a + ("\n" + t);
    var q := |a| + 1;
    assert forall m | 0 <= m < |a| :: code[m] == a[m];
    assert code[|a|] == '\n';
    assert q == |code| || code[q] == t[0];
    assert LastLinePatternAt(code, 0, q);
    LeftmostMatch(code, 0, q);
    ReplaceAt(code, f, 0, q);
    assert code[..q] == a + "\n";
    assert code[q..] == t;
  }

  /** Matching only looks forward, so a match in `rest` is a match in
      `pre + rest`, shifted by `|pre|`, and back. */
  lemma ShiftedMatch(pre: string, rest: string, p: int, q: int)
    requires 0 <= p
    ensures LastLinePatternAt(pre + rest, p + |pre|, q + |pre|) <==> LastLinePatternAt(rest, p, q)
  {
    var code := pre + rest;
    assert forall m | 0 <= m < |rest| :: code[|pre| + m] == rest[m];
    if LastLinePatternAt(rest, p, q) {
      forall m | p + |pre| <= m < q + |pre| - 1
        ensures code[m] != '\n'
      {
        assert code[m] == rest[m - |pre|];
      }
    }
  }

  /** No match starts inside a prefix of whole lines without a blank line,
      provided what follows it does not start with a line terminator. */
  lemma NoMatchInWholeLines(pre: string, rest: string, p: int, q: int)
    requires WholeLinesWithoutMatch(pre)
    requires rest != [] && !IsLineTerminator(rest[0])
    requires 0 <= p < |pre|
    ensures !LastLinePatternAt(pre + rest, p, q)
  {
    var code := pre + rest;
    assert code[|pre| - 1] == '\n';
    assert code[|pre|] == rest[0];
    assert forall m | 0 <= m < |pre| :: code[m] == pre[m];
    assert 0 <= q - 1 < |pre| - 1 ==> !TerminatorAfterNewline(pre, q - 1);
  }

  /** Without a match in `rest` there is none in `pre + rest`. */
  lemma NoMatchAfterWholeLines(pre: string, rest: string)
    requires WholeLinesWithoutMatch(pre)
    requires rest != [] && !IsLineTerminator(rest[0])
    requires FindLastLine(rest, 0).None?
    ensures FindLastLine(pre + rest, 0).None?
  {
    FindLastLineIsLeftmost(rest, 0);
    FindLastLineIsLeftmost(pre + rest, 0);
    forall p', q' | 0 <= p'
      ensures !LastLinePatternAt(pre + rest, p', q')
    {
      if p' < |pre| {
        NoMatchInWholeLines(pre, rest, p', q');
      } else {
        ShiftedMatch(pre, rest, p' - |pre|, q' - |pre|);
      }
    }
  }

  /** The leftmost match in `pre + rest` is the leftmost match in `rest`,
      shifted. */
  lemma MatchAfterWholeLines(pre: string, rest: string, p: nat, q: nat)
    requires WholeLinesWithoutMatch(pre)
    requires rest != [] && !IsLineTerminator(rest[0])
    requires FindLastLine(rest, 0) == Some((p, q))
    ensures FindLastLine(pre + rest, 0) == Some((p + |pre|, q + |pre|))
  {
    FindLastLineIsLeftmost(rest, 0);
    ShiftedMatch(pre, rest, p, q);
    forall p', q' | 0 <= p' < p + |pre|
      ensures !LastLinePatternAt(pre + rest, p', q')
    {
      if p' < |pre| {
        NoMatchInWholeLines(pre, rest, p', q');
      } else {
        ShiftedMatch(pre, rest, p' - |pre|, q' - |pre|);
      }
    }
    LeftmostMatch(pre + rest, p + |pre|, q + |pre|);
  }

  /** A match ending inside a prefix of whole lines is impossible, so the
      replacement only ever touches what follows them. */
  lemma ReplaceAfterWholeLines(pre: string, rest: string, f: string -> string)
    requires WholeLinesWithoutMatch(pre)
    requires rest != [] && !IsLineTerminator(rest[0])
    ensures ReplaceLastLine(pre + rest, f) == pre + ReplaceLastLine(rest, f)
  {
    var r := FindLastLine(rest, 0);
    if r.Some? {
      MatchAfterWholeLines(pre, rest, r.value.0, r.value.1);
      ReplaceShifted(pre, rest, f, r.value.0, r.value.1);
    } else {
      NoMatchAfterWholeLines(pre, rest);
    }
  }

  lemma ReplaceShifted(pre: string, rest: string, f: string -> string, p: nat, q: nat)
    requires FindLastLine(pre + rest, 0) == Some((p + |pre|, q + |pre|))
    requires FindLastLine(rest, 0) == Some((p, q))
    ensures ReplaceLastLine(pre + rest, f) == pre + ReplaceLastLine(rest, f)
  {
    ReplaceAt(pre + rest, f, p + |pre|, q + |pre|);
    ReplaceAt(rest, f, p, q);
    SlicesAfterPrefix(pre, rest, p, q);
    Regroup3(pre, rest[..p], f(rest[p..q]), rest[q..]);
  }

  /** Slicing `pre + rest` past `pre` is slicing `rest`. */
  lemma SlicesAfterPrefix(pre: string, rest: string, p: nat, q: nat)
    requires p <= q <= |rest|
    ensures (pre + rest)[..p + |pre|] == pre + rest[..p]
    ensures (pre + rest)[p + |pre|..q + |pre|] == rest[p..q]
    ensures (pre + rest)[q + |pre|..] == rest[q..]
  {
  }

  lemma Regroup3(p0: string, a: string, b: string, c: string)
    ensures (p0 + a) + b + c == p0 + (a + b + c)
  {
  }

  /** On whole lines without a blank line, a return assertion wraps the last
      line: `1+1` followed by `// => 2` becomes a binding of the value of
      `1+1` and a deep-equality check against `2`. */
  lemma RewriteWrapsLastLine(pre: string, line: string, x: string)
    requires WholeLinesWithoutMatch(pre)
    requires line != [] && '\n' !in line && !IsLineTerminator(line[0])
    ensures RewriteLastLine(pre + line + "\n", x) == pre + ReturnAssertionCode(line + "\n", x)
  {
    var f := ReturnAssertionReplacer(x);
    var rest := line + ("\n" + []);
    assert pre + line + "\n" == pre + rest;
    assert rest[0] == line[0];
    ReplaceAfterWholeLines(pre, rest, f);
    WrapFirstLine(line, [], f);
    assert f(line + "\n") + [] == ReturnAssertionCode(line + "\n", x);
  }

  /** The rewrite leaves a blank line after the wrapped line, so a second
      return assertion in the same snippet, whatever code came in between,
      wraps the already rewritten line again instead of the newest one. */
  lemma SecondReturnAssertionWrapsFirst(pre: string, line: string, x: string, between: string, y: string)
    requires WholeLinesWithoutMatch(pre)
    requires '\n' !in line
    ensures RewriteLastLine(pre + ReturnAssertionCode(line + "\n", x) + between, y)
      == pre + ReturnAssertionCode("var __returnValue=" + line + "\n", y)
         + "\n" + "__deepStrictEqual(__returnValue," + x + ")\n" + between
  {
    var v, d, e := "var __returnValue=", "__deepStrictEqual(__returnValue,", ")\n";
    var f := ReturnAssertionReplacer(y);
    var a := v + line;
    var t := "\n" + d + x + e + between;
    Regroup(pre, v, line, "\n", d, x, e, between);
    assert '\n' !in a by {
      assert forall m | 0 <= m < |a| :: a[m] == if m < |v| then v[m] else line[m - |v|];
    }
    assert (a + ("\n" + t))[0] == 'v';
    ReplaceAfterWholeLines(pre, a + ("\n" + t), f);
    WrapFirstLine(a, t, f);
    Regroup2(pre, f(a + "\n"), "\n", d, x, e, between);
  }

  lemma Regroup(p0: string, v: string, l: string, n: string, d: string, x: string, e: string, b: string)
    ensures p0 + (v + (l + n) + n + d + x + e) + b == p0 + ((v + l) + (n + (n + d + x + e + b)))
  {
  }

  lemma Regroup2(p0: string, w: string, n: string, d: string, x: string, e: string, b: string)
    ensures p0 + (w + (n + d + x + e + b)) == p0 + w + n + d + x + e + b
  {
  }

  /** From `p` on, code made of newlines only holds no match. */
  lemma {:induction false} NoLastLineInBlankCode(code: string, p: nat)
    requires p <= |code| && forall i | p <= i < |code| :: code[i] == '\n'
    ensures FindLastLine(code, p).None?
    decreases |code| - p
  {
    if p < |code| {
      NoLastLineInBlankCode(code, p + 1);
    }
  }

  /** An assertion with no non-empty line before it, in a snippet that is
      empty or holds only blank lines, changes nothing. */
  lemma RewriteOfBlankCode(code: string, x: string)
    requires forall i | 0 <= i < |code| :: code[i] == '\n'
    ensures RewriteLastLine(code, x) == code
  {
    NoLastLineInBlankCode(code, 0);
  }
}

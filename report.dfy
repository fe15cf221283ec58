/** What `printResults` reports about a run: the pass, fail and skip counts,
    whether the run succeeded, and for each failure the Markdown location
    of the error. Colours are not modelled; numbers are printed as JavaScript
    prints a non-negative integer. */
module Report {
  import opened Wrappers
  import opened SnippetParser
  import opened Doctest

  // ===== Decimal numerals

  predicate IsDigit(c: char) {
    '0' <= c <= '9'
  }

  predicate IsDigits(s: string) {
    forall i | 0 <= i < |s| :: IsDigit(s[i])
  }

  /** What `(\d+)` captures. */
  type Digits = s: string | |s| > 0 && IsDigits(s) witness "0"

  function DigitChar(d: nat): (c: char)
    requires d < 10
    ensures IsDigit(c) && (c == '0' <==> d == 0)
  {
    (('0' as int) + d) as char
  }

  /** `parseInt(s, 10)` on a string of digits. */
  function DecimalValue(s: string): nat
    requires IsDigits(s)
    decreases |s|
  {
    if s == [] then 0 else DecimalValue(s[..|s| - 1]) * 10 + ((s[|s| - 1] as int) - ('0' as int))
  }

  /** A count or line number turned into text: its decimal digits, with no
      leading zero. */
  function NatToDecimal(n: nat): (r: string)
    ensures |r| > 0 && IsDigits(r)
    ensures r[0] == '0' <==> n == 0
    decreases n
  {
    if n < 10 then [DigitChar(n)] else NatToDecimal(n / 10) + [DigitChar(n % 10)]
  }

  /** Printing a number and parsing it back gives the number. */
  lemma {:induction false} DecimalRoundTrip(n: nat)
    ensures DecimalValue(NatToDecimal(n)) == n
    decreases n
  {
    if n >= 10 {
      var r := NatToDecimal(n);
      DecimalRoundTrip(n / 10);
      assert r[..|r| - 1] == NatToDecimal(n / 10);
    }
  }

  // ===== Counting

  /** `results.filter(result => result.status === status).length`. */
  function CountStatus(results: seq<TestResult>, status: Status): (r: nat)
    ensures r <= |results|
    decreases |results|
  {
    if results == [] then 0
    else CountStatus(results[..|results| - 1], status) + (if results[|results| - 1].status == status then 1 else 0)
  }

  datatype Summary = Summary(passing: nat, failing: nat, skipping: nat)

  /** The three counts `printResults` takes. */
  function Summarize(results: seq<TestResult>): Summary {
    Summary(CountStatus(results, Pass), CountStatus(results, Fail), CountStatus(results, Skip))
  }

  /** `successfulRun()`. */
  predicate Successful(s: Summary) {
    s.failing == 0
  }

  /** Every result is counted exactly once. */
  lemma {:induction false} CountsCoverResults(results: seq<TestResult>)
    ensures Summarize(results).passing + Summarize(results).failing + Summarize(results).skipping == |results|
    decreases |results|
  {
    if results != [] {
      CountsCoverResults(results[..|results| - 1]);
    }
  }

  /** A status is counted zero times exactly when no result has it. */
  lemma {:induction false} CountZeroIffAbsent(results: seq<TestResult>, status: Status)
    ensures CountStatus(results, status) == 0 <==> forall i | 0 <= i < |results| :: results[i].status != status
    decreases |results|
  {
    if results != [] {
      var n := |results| - 1;
      CountZeroIffAbsent(results[..n], status);
      assert forall i | 0 <= i < n :: results[..n][i] == results[i];
    }
  }

  /** The counts of results joined from two runs are the sums of their counts. */
  lemma {:induction false} CountAppend(a: seq<TestResult>, b: seq<TestResult>, status: Status)
    ensures CountStatus(a + b, status) == CountStatus(a, status) + CountStatus(b, status)
    decreases |b|
  {
    if b == [] {
      assert a + b == a;
    } else {
      var n := |b| - 1;
      assert (a + b)[..|a + b| - 1] == a + b[..n];
      CountAppend(a, b[..n], status);
    }
  }

  /** A run succeeds exactly when no result failed. */
  lemma SuccessIffNoFailure(results: seq<TestResult>)
    ensures Successful(Summarize(results)) <==> forall i | 0 <= i < |results| :: results[i].status != Fail
  {
    CountZeroIffAbsent(results, Fail);
  }

  /** Skipped results only add to the skip count: they change neither the
      other counts nor whether the run succeeds. */
  lemma SkipsDoNotDecide(results: seq<TestResult>, skipped: seq<TestResult>)
    requires forall i | 0 <= i < |skipped| :: skipped[i].status == Skip
    ensures Summarize(results + skipped)
      == Summary(Summarize(results).passing, Summarize(results).failing, Summarize(results).skipping + |skipped|)
    ensures Successful(Summarize(results + skipped)) == Successful(Summarize(results))
  {
    CountAppend(results, skipped, Pass);
    CountAppend(results, skipped, Fail);
    CountAppend(results, skipped, Skip);
    CountZeroIffAbsent(skipped, Pass);
    CountZeroIffAbsent(skipped, Fail);
    CountsCoverResults(skipped);
  }

  // ===== The summary lines

  /** The lines `printResults` ends with: the pass count, the skip count
      when there are skips, then the success line or the fail count. */
  function SummaryLines(s: Summary): seq<string> {
    ["Passed: " + NatToDecimal(s.passing)]
      + (if s.skipping > 0 then ["Skipped: " + NatToDecimal(s.skipping)] else [])
      + [if Successful(s) then "\nSuccess!" else "Failed: " + NatToDecimal(s.failing)]
  }

  /** The number a line shows after `heading`, if it is nothing but the heading
      and digits. */
  function ReadCount(heading: string, line: string): Option<nat> {
    if |heading| < |line| && line[..|heading|] == heading && IsDigits(line[|heading|..]) then Some(DecimalValue(line[|heading|..]))
    else None
  }

  lemma CountReadsBack(heading: string, n: nat)
    ensures ReadCount(heading, heading + NatToDecimal(n)) == Some(n)
  {
    var line := heading + NatToDecimal(n);
    assert line[..|heading|] == heading && line[|heading|..] == NatToDecimal(n);
    DecimalRoundTrip(n);
  }

  /** The summary lines give the counts back, say "Success!" exactly when no
      result failed, and show a skip line only when something was skipped. */
  lemma SummaryReadsBack(results: seq<TestResult>)
    ensures var s := Summarize(results);
      var lines := SummaryLines(s);
      && |lines| == (if s.skipping > 0 then 3 else 2)
      && ReadCount("Passed: ", lines[0]) == Some(s.passing)
      && (s.skipping > 0 ==> ReadCount("Skipped: ", lines[1]) == Some(s.skipping))
      && (lines[|lines| - 1] == "\nSuccess!" <==> forall i | 0 <= i < |results| :: results[i].status != Fail)
      && (s.failing > 0 ==> ReadCount("Failed: ", lines[|lines| - 1]) == Some(s.failing))
  {
    var s := Summarize(results);
    CountReadsBack("Passed: ", s.passing);
    CountReadsBack("Skipped: ", s.skipping);
    CountReadsBack("Failed: ", s.failing);
    SuccessIffNoFailure(results);
    if s.failing > 0 {
      assert ("Failed: " + NatToDecimal(s.failing))[0] != "\nSuccess!"[0];
    }
  }

  // ===== markDownErrorLocation

  /** How many digits `s` ends with. */
  function TrailingDigits(s: string): (k: nat)
    ensures k <= |s| && IsDigits(s[|s| - k..])
    ensures k < |s| ==> !IsDigit(s[|s| - k - 1])
    decreases |s|
  {
    if s == [] || !IsDigit(s[|s| - 1]) then 0
    else
      var k := TrailingDigits(s[..|s| - 1]);
      assert s[|s| - (k + 1)..] == s[..|s| - 1][|s| - 1 - k..] + [s[|s| - 1]];
      k + 1
  }

  /** Reads `text:number` from the right: what precedes the last colon, and
      the number after it. */
  function SplitLastField(s: string): Option<(string, nat)> {
    var k := TrailingDigits(s);
    if 0 < k < |s| && s[|s| - k - 1] == ':' then Some((s[..|s| - k - 1], DecimalValue(s[|s| - k..])))
    else None
  }

  lemma {:induction false} TrailingDigitsAfter(p: string, d: string)
    requires |p| > 0 && !IsDigit(p[|p| - 1]) && IsDigits(d)
    ensures TrailingDigits(p + d) == |d|
    decreases |d|
  {
    if d == [] {
      assert p + d == p;
    } else {
      var n := |d| - 1;
      assert (p + d)[..|p + d| - 1] == p + d[..n];
      TrailingDigitsAfter(p, d[..n]);
    }
  }

  /** Appending `:n` is undone by reading the last field. */
  lemma FieldReadsBack(prefix: string, n: nat)
    ensures SplitLastField(prefix + ":" + NatToDecimal(n)) == Some((prefix, n))
  {
    var d := NatToDecimal(n);
    var s := prefix + ":" + d;
    TrailingDigitsAfter(prefix + ":", d);
    assert s == (prefix + ":") + d;
    assert s[..|s| - |d| - 1] == prefix;
    assert s[|s| - |d|..] == d;
    DecimalRoundTrip(n);
  }

  /** `markDownErrorLocation(result)`: `locate` gives the two groups of
      `/eval.*<.*>:(\d+):(\d+)/` when the stack matches. The in-sandbox line
      is added to the snippet's line in the Markdown file. */
  function MarkDownErrorLocation(result: TestResult, locate: string -> Option<(Digits, Digits)>): string {
    var snippet := result.codeSnippet;
    match locate(result.stack)
    case Some((mdLine, column)) =>
      snippet.fileName + ":" + NatToDecimal(snippet.lineNumber + DecimalValue(mdLine)) + ":" + NatToDecimal(DecimalValue(column))
    case None =>
      snippet.fileName + ":" + NatToDecimal(snippet.lineNumber)
  }

  /** The location names the snippet's file and, read from the right, the
      snippet's line plus the in-sandbox line and the column when the stack
      matches, and the snippet's line alone when it does not. */
  lemma LocationReadsBack(result: TestResult, locate: string -> Option<(Digits, Digits)>)
    ensures locate(result.stack).None? ==>
      SplitLastField(MarkDownErrorLocation(result, locate))
        == Some((result.codeSnippet.fileName, result.codeSnippet.lineNumber))
    ensures locate(result.stack).Some? ==>
      var field := SplitLastField(MarkDownErrorLocation(result, locate));
      && field.Some?
      && field.value.1 == DecimalValue(locate(result.stack).value.1)
      && SplitLastField(field.value.0)
        == Some((result.codeSnippet.fileName, result.codeSnippet.lineNumber + DecimalValue(locate(result.stack).value.0)))
  {
    var snippet := result.codeSnippet;
    var location := MarkDownErrorLocation(result, locate);
    var found := locate(result.stack);
    if found.Some? {
      var line := snippet.lineNumber + DecimalValue(found.value.0);
      var prefix := snippet.fileName + ":" + NatToDecimal(line);
      var column := DecimalValue(found.value.1);
      assert location == prefix + ":" + NatToDecimal(column);
      FieldReadsBack(prefix, column);
      FieldReadsBack(snippet.fileName, line);
    } else {
      assert location == snippet.fileName + ":" + NatToDecimal(snippet.lineNumber);
      FieldReadsBack(snippet.fileName, snippet.lineNumber);
    }
  }

  // ===== The failure headers

  /** The `Failed - <location>` line `printFailure` prints for each failed
      result, in order. */
  function FailureHeaders(results: seq<TestResult>, locate: string -> Option<(Digits, Digits)>): (r: seq<string>)
    ensures |r| == CountStatus(results, Fail)
    decreases |results|
  {
    if results == [] then []
    else
      var n := |results| - 1;
      FailureHeaders(results[..n], locate)
        + (if results[n].status == Fail then ["Failed - " + MarkDownErrorLocation(results[n], locate)] else [])
  }

  /** Each header names the location of a failed result. */
  lemma {:induction false} HeadersNameFailures(results: seq<TestResult>, locate: string -> Option<(Digits, Digits)>)
    ensures forall h | h in FailureHeaders(results, locate) ::
      exists i | 0 <= i < |results| :: results[i].status == Fail && h == "Failed - " + MarkDownErrorLocation(results[i], locate)
    decreases |results|
  {
    if results != [] {
      var n := |results| - 1;
      HeadersNameFailures(results[..n], locate);
      forall h | h in FailureHeaders(results, locate)
        ensures exists i | 0 <= i < |results| :: results[i].status == Fail && h == "Failed - " + MarkDownErrorLocation(results[i], locate)
      {
        if h in FailureHeaders(results[..n], locate) {
          var i :| 0 <= i < n && results[..n][i].status == Fail && h == "Failed - " + MarkDownErrorLocation(results[..n][i], locate);
          assert results[..n][i] == results[i];
        } else {
          assert results[n].status == Fail && h == "Failed - " + MarkDownErrorLocation(results[n], locate);
        }
      }
    }
  }
}

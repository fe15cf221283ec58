/** Properties of a whole run: parsing every document before testing any,
    the results covering every snippet of every file in order, and the
    flattening of the per-file results. */
module RunProperties {
  import opened Wrappers
  import opened Text
  import opened SnippetParser
  import FoldProperties
  import opened Doctest
  import DoctestProperties

  // ===== Parsing every document first

  /** The list parses exactly when every document does. */
  lemma {:induction false} ParsesIffEachParses(parse: Document -> Result<ParsedFile, ParseError>, docs: seq<Document>)
    ensures ParseAll(parse, docs).Ok? <==> forall k | 0 <= k < |docs| :: parse(docs[k]).Ok?
    decreases |docs|
  {
    if docs != [] {
      var n := |docs| - 1;
      var prefix := docs[..n];
      ParsesIffEachParses(parse, prefix);
      if ParseAll(parse, prefix).Err? {
        var k :| 0 <= k < n && parse(prefix[k]).Err?;
        assert prefix[k] == docs[k];
      } else {
        assert forall k | 0 <= k < n :: prefix[k] == docs[k];
      }
    }
  }

  /** When the list parses, the files are the documents' parses, in order. */
  lemma {:induction false} ParsedInOrder(parse: Document -> Result<ParsedFile, ParseError>, docs: seq<Document>)
    requires ParseAll(parse, docs).Ok?
    ensures |ParseAll(parse, docs).value| == |docs|
    ensures forall k | 0 <= k < |docs| :: parse(docs[k]) == Ok(ParseAll(parse, docs).value[k])
    decreases |docs|
  {
    if docs != [] {
      var n := |docs| - 1;
      var prefix := docs[..n];
      ParsedInOrder(parse, prefix);
      var files := ParseAll(parse, prefix).value;
      forall k | 0 <= k < n
        ensures parse(docs[k]) == Ok((files + [parse(docs[n]).value])[k])
      {
        assert prefix[k] == docs[k];
      }
    }
  }

  /** A failing list fails with the error of its first failing document. */
  lemma {:induction false} FirstParseErrorWins(parse: Document -> Result<ParsedFile, ParseError>, docs: seq<Document>)
    requires ParseAll(parse, docs).Err?
    ensures exists k | 0 <= k < |docs| ::
      && parse(docs[k]) == Err(ParseAll(parse, docs).error)
      && forall j | 0 <= j < k :: parse(docs[j]).Ok?
    decreases |docs|
  {
    var n := |docs| - 1;
    var prefix := docs[..n];
    if ParseAll(parse, prefix).Err? {
      FirstParseErrorWins(parse, prefix);
      var k :| 0 <= k < n
        && parse(prefix[k]) == Err(ParseAll(parse, prefix).error)
        && forall j | 0 <= j < k :: parse(prefix[j]).Ok?;
      assert forall j | 0 <= j <= k :: prefix[j] == docs[j];
    } else {
      ParsesIffEachParses(parse, prefix);
      assert forall j | 0 <= j < n :: prefix[j] == docs[j];
    }
  }

  /** A run stops before testing anything exactly when some document has a
      start fence that is never closed, and then fails with the
      incomplete-snippet error. */
  lemma ParseErrorAbortsRun(tools: Tools, config: Config, docs: seq<Document>, history: seq<Event>)
    ensures RunSpec(tools, config, docs, history).Err? <==>
      exists k | 0 <= k < |docs| :: FoldProperties.UnclosedFence(Split(docs[k].contents, '\n'))
    ensures RunSpec(tools, config, docs, history).Err? ==>
      RunSpec(tools, config, docs, history).error == ParseError(IncompleteMessage)
  {
    forall k | 0 <= k < |docs|
      ensures Parse(docs[k]).Err? <==> FoldProperties.UnclosedFence(Split(docs[k].contents, '\n'))
      ensures Parse(docs[k]).Err? ==> Parse(docs[k]).error == ParseError(IncompleteMessage)
    {
      FoldProperties.IncompleteIffUnclosedFence(docs[k].contents, docs[k].fileName);
    }
    ParsesIffEachParses(Parse, docs);
    if ParseAll(Parse, docs).Err? {
      FirstParseErrorWins(Parse, docs);
    }
  }

  // ===== Every snippet of every file, in order

  /** The snippets of `files`, file after file. */
  function AllSnippets(files: seq<ParsedFile>): seq<Snippet>
    decreases |files|
  {
    if files == [] then [] else AllSnippets(files[..|files| - 1]) + files[|files| - 1].codeSnippets
  }

  /** The run's results are one per snippet, file after file and snippet
      after snippet, skipped exactly where the snippet is. */
  lemma {:induction false} RunCoversAllSnippets(tools: Tools, config: Config, files: seq<ParsedFile>, history: seq<Event>)
    ensures |TestFiles(tools, config, files, history).results| == |AllSnippets(files)|
    ensures forall i | 0 <= i < |AllSnippets(files)| ::
      && TestFiles(tools, config, files, history).results[i].codeSnippet == AllSnippets(files)[i]
      && (TestFiles(tools, config, files, history).results[i].status == Skip <==> AllSnippets(files)[i].skip)
    decreases |files|
  {
    if files != [] {
      var n := |files| - 1;
      var done := TestFiles(tools, config, files[..n], history);
      RunCoversAllSnippets(tools, config, files[..n], history);
      var run := FileSpec(tools, config, files[n], history + done.events);
      DoctestProperties.OneResultPerSnippet(tools, config, files[n], history + done.events);
      var results := TestFiles(tools, config, files, history).results;
      assert results == done.results + run.results;
      var all := AllSnippets(files);
      assert all == AllSnippets(files[..n]) + files[n].codeSnippets;
      forall i | |done.results| <= i < |all|
        ensures results[i].codeSnippet == all[i] && (results[i].status == Skip <==> all[i].skip)
      {
        assert results[i] == run.results[i - |done.results|];
        assert all[i] == files[n].codeSnippets[i - |done.results|];
      }
    }
  }

  /** A run that parses tests every snippet of every document once, in
      document order. */
  lemma RunTestsEverySnippet(tools: Tools, config: Config, docs: seq<Document>, history: seq<Event>)
    requires RunSpec(tools, config, docs, history).Ok?
    ensures var results := RunSpec(tools, config, docs, history).value.results;
      var snippets := AllSnippets(ParseAll(Parse, docs).value);
      && |results| == |snippets|
      && forall i | 0 <= i < |snippets| :: results[i].codeSnippet == snippets[i]
  {
    RunCoversAllSnippets(tools, config, ParseAll(Parse, docs).value, history);
  }

  // ===== flattenArray

  /** How many elements the pieces contribute. */
  function TotalSize<T>(pieces: seq<Piece<T>>): nat
    decreases |pieces|
  {
    if pieces == [] then 0 else TotalSize(pieces[..|pieces| - 1]) + Size(pieces[|pieces| - 1])
  }

  /** Flattening keeps every element of every piece. */
  lemma {:induction false} FlattenLength<T>(pieces: seq<Piece<T>>)
    ensures |Flatten(pieces)| == TotalSize(pieces)
    decreases |pieces|
  {
    if pieces != [] {
      FlattenLength(pieces[..|pieces| - 1]);
    }
  }

  /** Flattening distributes over concatenation. */
  lemma {:induction false} FlattenAppend<T>(a: seq<Piece<T>>, b: seq<Piece<T>>)
    ensures Flatten(a + b) == Flatten(a) + Flatten(b)
    decreases |b|
  {
    if b == [] {
      assert a + b == a;
    } else {
      var n := |b| - 1;
      assert (a + b)[..|a + b| - 1] == a + b[..n];
      assert (a + b)[|a + b| - 1] == b[n];
      FlattenAppend(a, b[..n]);
      match b[n]
      case One(x) =>
        assert (Flatten(a) + Flatten(b[..n])) + [x] == Flatten(a) + (Flatten(b[..n]) + [x]);
      case Many(xs) =>
        assert (Flatten(a) + Flatten(b[..n])) + xs == Flatten(a) + (Flatten(b[..n]) + xs);
    }
  }

  /** An array element is spliced in, a plain value appended. */
  lemma FlattenSingle<T>(p: Piece<T>)
    ensures Flatten([p]) == (match p case One(x) => [x] case Many(xs) => xs)
  {
    assert [p][..0] == [];
  }
}

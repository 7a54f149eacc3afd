/**
 * The fan-out result and the formatter of `get_material`: the list that
 * `asyncio.gather(..., return_exceptions=True)` returns, one entry per URL in
 * URL order, is turned into `Title:`/`Text:`/`-----` lines joined by
 * newlines. Error records and raised exceptions leave no trace.
 */
module Digest {
  import opened Extract

  /** One entry of the `gather` result: the worker's record, or an exception it raised. */
  datatype TaskResult =
    | Completed(extract: ArticleExtract)
    | Threw(message: string)

  /** `isinstance(article, dict) and "error" not in article`. */
  predicate IsSuccess(t: TaskResult) {
    t.Completed? && t.extract.Success?
  }

  const Separator: string := "-----"

  /** The three lines one successful extract contributes. */
  function Block(title: string, text: string): seq<string> {
    ["Title: " + title, "Text: " + text, Separator]
  }

  /** `formatted_results` after the loop has seen all of `articles`. */
  function Lines(articles: seq<TaskResult>): seq<string> {
    if articles == [] then []
    else
      var last := articles[|articles| - 1];
      var block := if IsSuccess(last) then Block(last.extract.title, last.extract.text) else [];
      Lines(articles[..|articles| - 1]) + block
  }

  /** `sep.join(lines)`. */
  function Join(lines: seq<string>, sep: string): string {
    if lines == [] then ""
    else if |lines| == 1 then lines[0]
    else Join(lines[..|lines| - 1], sep) + sep + lines[|lines| - 1]
  }

  /** The digest `get_material` returns for a `gather` result. */
  function Format(articles: seq<TaskResult>): string {
    Join(Lines(articles), "\n")
  }

  /** The successful extracts, in order: what the digest is made of. */
  function Successes(articles: seq<TaskResult>): (s: seq<ArticleExtract>)
    ensures forall k :: 0 <= k < |s| ==> s[k].Success?
    ensures |s| <= |articles|
  {
    if articles == [] then []
    else
      var last := articles[|articles| - 1];
      Successes(articles[..|articles| - 1]) + (if IsSuccess(last) then [last.extract] else [])
  }

  /** There are no successful extracts exactly when no entry is a success. */
  lemma {:induction false} NoSuccesses(articles: seq<TaskResult>)
    ensures Successes(articles) == [] <==> forall i :: 0 <= i < |articles| ==> !IsSuccess(articles[i])
  {
    if articles != [] {
      var init, last := articles[..|articles| - 1], articles[|articles| - 1];
      NoSuccesses(init);
      assert forall i :: 0 <= i < |init| ==> init[i] == articles[i];
    }
  }

  /** The formatting loop over the `gather` result. */
  method FormatResults(articles: seq<TaskResult>) returns (digest: string)
    ensures digest == Format(articles)
  {
    var formattedResults: seq<string> := [];
    for i := 0 to |articles|
      invariant formattedResults == Lines(articles[..i])
    {
      assert articles[..i + 1][..i] == articles[..i];
      var article := articles[i];
      if article.Completed? && article.extract.Success? {
        formattedResults := formattedResults + ["Title: " + article.extract.title];
        formattedResults := formattedResults + ["Text: " + article.extract.text];
        formattedResults := formattedResults + [Separator];
      }
    }
    assert articles[..|articles|] == articles;
    digest := Join(formattedResults, "\n");
  }

  /**
   * Exactly three lines per successful extract, in order: the `k`-th
   * success gives lines `3k`, `3k+1`, `3k+2`.
   */
  lemma {:induction false} LinesLayout(articles: seq<TaskResult>)
    ensures var lines, s := Lines(articles), Successes(articles);
      && |lines| == 3 * |s|
      && forall k :: 0 <= k < |s| ==>
           && lines[3 * k] == "Title: " + s[k].title
           && lines[3 * k + 1] == "Text: " + s[k].text
           && lines[3 * k + 2] == Separator
  {
    if articles != [] {
      var init := articles[..|articles| - 1];
      LinesLayout(init);
    }
  }

  /** `Lines` of a concatenation is the concatenation of the `Lines`. */
  lemma {:induction false} LinesAppend(a: seq<TaskResult>, b: seq<TaskResult>)
    ensures Lines(a + b) == Lines(a) + Lines(b)
  {
    if b == [] {
      assert a + b == a;
    } else {
      var init := b[..|b| - 1];
      LinesAppend(a, init);
      assert (a + b)[..|a + b| - 1] == a + init;
    }
  }

  /**
   * Failure isolation: an entry that is an error record or an exception can
   * be removed without changing the digest.
   */
  lemma FailureLeavesNoTrace(articles: seq<TaskResult>, b: nat)
    requires b < |articles| && !IsSuccess(articles[b])
    ensures Format(articles) == Format(articles[..b] + articles[b + 1..])
  {
    assert articles == articles[..b] + [articles[b]] + articles[b + 1..];
    LinesAppend(articles[..b] + [articles[b]], articles[b + 1..]);
    LinesAppend(articles[..b], [articles[b]]);
    assert [articles[b]][..0] == [];
    assert Lines([articles[b]]) == [];
    LinesAppend(articles[..b], articles[b + 1..]);
    assert Lines(articles) == Lines(articles[..b] + articles[b + 1..]);
  }

  /** A join of non-empty lines is empty only when there are no lines. */
  lemma {:induction false} JoinEmpty(lines: seq<string>, sep: string)
    requires forall k :: 0 <= k < |lines| ==> lines[k] != ""
    ensures Join(lines, sep) == "" <==> lines == []
  {
    if |lines| > 1 {
      JoinEmpty(lines[..|lines| - 1], sep);
    }
  }

  /**
   * The digest is empty exactly when no extract succeeded: all failed,
   * all raised, or there were none.
   */
  lemma FormatEmptyIffNoSuccess(articles: seq<TaskResult>)
    ensures Format(articles) == "" <==> Successes(articles) == []
  {
    LinesLayout(articles);
    var lines := Lines(articles);
    forall i | 0 <= i < |lines|
      ensures lines[i] != ""
    {
      var k := i / 3;
      assert i == 3 * k || i == 3 * k + 1 || i == 3 * k + 2;
    }
    JoinEmpty(lines, "\n");
  }
}

/** Assembling the prompt of `generate_final_report` from the queries and
    their search results. */
module ReportPrompt {
  import opened Text

  /** Python's `zip(queries, results)`: pairs by position, stopping at the
      end of the shorter list. */
  function Zip(queries: seq<string>, results: seq<string>): (pairs: seq<(string, string)>)
    ensures |pairs| == if |queries| < |results| then |queries| else |results|
    ensures forall i :: 0 <= i < |pairs| ==> pairs[i] == (queries[i], results[i])
  {
    if |queries| == 0 || |results| == 0 then []
    else [(queries[0], results[0])] + Zip(queries[1..], results[1..])
  }

  /** `f"Query: {q}\nResult: {r}"` */
  function Block(query: string, result: string): string
  {
    "Query: " + query + "\nResult: " + result
  }

  /** One formatted block per pair, in order. */
  function Blocks(pairs: seq<(string, string)>): (blocks: seq<string>)
    ensures |blocks| == |pairs|
    ensures forall i :: 0 <= i < |blocks| ==> blocks[i] == Block(pairs[i].0, pairs[i].1)
  {
    if |pairs| == 0 then [] else [Block(pairs[0].0, pairs[0].1)] + Blocks(pairs[1..])
  }

  /** The text the report prompt embeds: one block per positional pair of
      query and search result, the blocks separated by a blank line. */
  function CombineResults(queries: seq<string>, results: seq<string>): (all: string)
    ensures all == "" <==> |queries| == 0 || |results| == 0
    ensures |queries| > 0 && |results| > 0 ==> Block(queries[0], results[0]) <= all
  {
    var blocks := Blocks(Zip(queries, results));
    assert |blocks| > 0 ==> blocks[0] == Block(queries[0], results[0]);
    Join(blocks, "\n\n")
  }

  /** The combined text is `min(|queries|, |results|)` blocks separated by
      blank lines, block `i` pairing `queries[i]` with `results[i]`. */
  lemma CombineResultsByPosition(queries: seq<string>, results: seq<string>)
    ensures var m := if |queries| < |results| then |queries| else |results|;
      CombineResults(queries, results)
        == Join(seq(m, i requires 0 <= i < m => Block(queries[i], results[i])), "\n\n")
  {
    var m := if |queries| < |results| then |queries| else |results|;
    var expected := seq(m, i requires 0 <= i < m => Block(queries[i], results[i]));
    assert Blocks(Zip(queries, results)) == expected;
  }

  /** Entries past the end of the shorter list play no part. */
  lemma CombineResultsIgnoresSurplus(queries: seq<string>, results: seq<string>)
    ensures var m := if |queries| < |results| then |queries| else |results|;
      CombineResults(queries, results) == CombineResults(queries[..m], results[..m])
  {
    var m := if |queries| < |results| then |queries| else |results|;
    assert Zip(queries, results) == Zip(queries[..m], results[..m]);
  }

  /** Adding one more query with its result appends a blank line and that
      pair's block. */
  lemma {:induction false} CombineResultsSnoc(queries: seq<string>, results: seq<string>, q: string, r: string)
    requires |queries| == |results| >= 1
    ensures CombineResults(queries + [q], results + [r])
      == CombineResults(queries, results) + "\n\n" + Block(q, r)
  {
    var before := Blocks(Zip(queries, results));
    var after := Blocks(Zip(queries + [q], results + [r]));
    assert after == before + [Block(q, r)];
    JoinSnoc(before, Block(q, r), "\n\n");
  }

  const PROMPT_INTRO: string := "Based on the following search results about "
  const PROMPT_TASK: string := ", create a comprehensive report:\n\n"
  const PROMPT_OUTRO: string := "\n\nProvide a well-structured report with clear sections and concise information.Use markdown formatting for headers and lists."

  /** Where the second and fourth of five concatenated pieces sit. */
  lemma PiecesInPlace(a: string, b: string, c: string, d: string, e: string)
    ensures var s := a + b + c + d + e;
      && |s| == |a| + |b| + |c| + |d| + |e|
      && s[|a|..|a| + |b|] == b
      && s[|a| + |b| + |c|..|a| + |b| + |c| + |d|] == d
  {
    var s := a + b + c + d + e;
    assert s == (a + b) + (c + d + e);
    assert s[|a|..|a| + |b|] == (a + b)[|a|..];
    assert s == (a + b + c) + d + e;
    assert s[|a| + |b| + |c|..|a| + |b| + |c| + |d|] == (a + b + c + d)[|a + b + c|..];
  }

  /** The f-string prompt sent to the completion endpoint. The target and
      the combined results sit at fixed places in it, between the fixed
      introduction, request and closing instruction. */
  function Prompt(target: string, allResults: string): (p: string)
    ensures |p| == |PROMPT_INTRO| + |target| + |PROMPT_TASK| + |allResults| + |PROMPT_OUTRO|
    ensures p[|PROMPT_INTRO|..|PROMPT_INTRO| + |target|] == target
    ensures var start := |PROMPT_INTRO| + |target| + |PROMPT_TASK|;
      p[start..start + |allResults|] == allResults
  {
    PiecesInPlace(PROMPT_INTRO, target, PROMPT_TASK, allResults, PROMPT_OUTRO);
    PROMPT_INTRO + target + PROMPT_TASK + allResults + PROMPT_OUTRO
  }

  /** Different combined results give different prompts. */
  lemma PromptInjective(target: string, a: string, b: string)
    requires Prompt(target, a) == Prompt(target, b)
    ensures a == b
  {
    var start := |PROMPT_INTRO| + |target| + |PROMPT_TASK|;
    assert a == Prompt(target, a)[start..start + |a|];
    assert b == Prompt(target, b)[start..start + |b|];
  }
}

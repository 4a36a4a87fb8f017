/** Turning the language model's raw completion into the list of search
    queries (`generate_search_queries`). The HTTP call and the navigation of
    its JSON answer are outside the model: how the call ended (a status with
    the completion text, or an exception) is an input. */
module QueryGeneration {
  import opened Text
  import opened Wrappers
  import opened Upstream

  /** The `num_queries` default the request handler relies on. */
  const DEFAULT_NUM_QUERIES: int := 3

  /** Message of the exception raised on a non-200 answer. */
  const QUERY_GENERATION_FAILED: string := "Failed to generate search queries"

  /** `not line.strip()` */
  predicate IsBlank(line: string)
  {
    Strip(line) == []
  }

  /** The list comprehension `[q for q in lines if q.strip()]`. */
  function KeepNonBlank(lines: seq<string>): (kept: seq<string>)
    ensures |kept| <= |lines|
    ensures forall i :: 0 <= i < |kept| ==> !IsBlank(kept[i])
  {
    if |lines| == 0 then []
    else (if IsBlank(lines[0]) then [] else [lines[0]]) + KeepNonBlank(lines[1..])
  }

  /** A line survives the filter exactly when it is one of the lines and is
      not blank. */
  lemma {:induction false} KeepNonBlankMembers(lines: seq<string>, x: string)
    ensures x in KeepNonBlank(lines) <==> x in lines && !IsBlank(x)
  {
    if |lines| > 0 {
      KeepNonBlankMembers(lines[1..], x);
      KeepNonBlankCons(lines[0], lines[1..]);
      assert lines == [lines[0]] + lines[1..];
    }
  }

  lemma KeepNonBlankCons(x: string, xs: seq<string>)
    ensures KeepNonBlank([x] + xs) == (if IsBlank(x) then [] else [x]) + KeepNonBlank(xs)
  {
    assert ([x] + xs)[0] == x && ([x] + xs)[1..] == xs;
  }

  /** The filter keeps the surviving lines in their original order: filtering
      a concatenation is concatenating the filtered halves. */
  lemma {:induction false} KeepNonBlankAppend(a: seq<string>, b: seq<string>)
    ensures KeepNonBlank(a + b) == KeepNonBlank(a) + KeepNonBlank(b)
  {
    if |a| == 0 {
      assert a + b == b;
    } else {
      var h: seq<string> := if IsBlank(a[0]) then [] else [a[0]];
      assert a + b == [a[0]] + (a[1..] + b);
      assert a == [a[0]] + a[1..];
      KeepNonBlankCons(a[0], a[1..] + b);
      KeepNonBlankCons(a[0], a[1..]);
      KeepNonBlankAppend(a[1..], b);
      AppendAssoc(h, KeepNonBlank(a[1..]), KeepNonBlank(b));
    }
  }

  /** Concatenation of lists of lines is associative; stated apart so that
      the proof above does not have to rediscover it. */
  lemma AppendAssoc(x: seq<string>, y: seq<string>, z: seq<string>)
    ensures x + (y + z) == (x + y) + z
  {
  }

  /** Lines none of which is blank pass the filter unchanged. */
  lemma {:induction false} KeepNonBlankNoBlank(lines: seq<string>)
    requires forall i :: 0 <= i < |lines| ==> !IsBlank(lines[i])
    ensures KeepNonBlank(lines) == lines
  {
    if |lines| > 0 {
      KeepNonBlankNoBlank(lines[1..]);
      assert !IsBlank(lines[0]);
      KeepNonBlankCons(lines[0], lines[1..]);
      assert [lines[0]] + lines[1..] == lines;
    }
  }

  /** Python's slice `xs[:n]`; a negative `n` counts from the end. */
  function SliceTo<T>(xs: seq<T>, n: int): (r: seq<T>)
    ensures |r| <= |xs| && r == xs[..|r|]
    ensures n >= 0 ==> |r| == if n < |xs| then n else |xs|
    ensures n < 0 ==> |r| == if |xs| + n > 0 then |xs| + n else 0
  {
    if n >= 0 then (if n <= |xs| then xs[..n] else xs)
    else if |xs| + n >= 0 then xs[..|xs| + n]
    else []
  }

  /** `text.strip().split('\n')` */
  function Lines(text: string): seq<string>
  {
    Split(Strip(text), '\n')
  }

  /** `[q for q in text.strip().split('\n') if q.strip()]` */
  function NonBlankLines(text: string): seq<string>
  {
    KeepNonBlank(Lines(text))
  }

  /** The post-processing in `generate_search_queries` (app.py, lines
      41-42): the queries kept from a completion are non-blank, and never
      more than a non-negative `numQueries`. */
  function PostProcess(text: string, numQueries: int): (queries: seq<string>)
    ensures numQueries >= 0 ==> |queries| <= numQueries
    ensures forall i :: 0 <= i < |queries| ==> !IsBlank(queries[i])
  {
    SliceTo(NonBlankLines(text), numQueries)
  }

  /** `generate_search_queries` once its call is answered: a 200 response
      yields the post-processed queries, any other status raises the fixed
      message, and an exception of the call itself passes through. */
  function GenerateSearchQueries(answer: HttpAnswer, numQueries: int): (r: Result<seq<string>>)
    ensures r.Ok? <==> IsOk(answer)
    ensures r.Ok? ==> r.value == PostProcess(answer.text, numQueries)
    ensures r.Ok? && numQueries >= 0 ==> |r.value| <= numQueries
    ensures answer.Answered? && answer.status != 200 ==> r == Raised(QUERY_GENERATION_FAILED)
    ensures answer.CallRaised? ==> r == Raised(answer.message)
  {
    match answer
    case CallRaised(e) => Raised(e)
    case Answered(status, text) =>
      if status == 200 then Ok(PostProcess(text, numQueries))
      else Raised(QUERY_GENERATION_FAILED)
  }

  /** With a non-negative `numQueries` the queries are the first
      `min(numQueries, k)` non-blank lines, `k` being how many there are; so
      there are never more than `numQueries`, and fewer only when the
      completion had fewer non-blank lines. */
  lemma QueriesAreLeadingNonBlankLines(text: string, numQueries: int)
    requires numQueries >= 0
    ensures var q := PostProcess(text, numQueries);
      var all := NonBlankLines(text);
      |q| <= numQueries
      && |q| == (if numQueries < |all| then numQueries else |all|)
      && q == all[..|q|]
      && (|q| < numQueries ==> q == all)
  {
  }

  /** A negative `numQueries` drops that many lines from the end, as Python's
      slice does. */
  lemma QueriesNegativeCount(text: string, numQueries: int)
    requires numQueries < 0
    ensures var q := PostProcess(text, numQueries);
      var all := NonBlankLines(text);
      q == all[..|q|] && |q| == (if |all| + numQueries > 0 then |all| + numQueries else 0)
  {
  }

  /** Every returned query is one line of the stripped completion, holds no
      line break, and has at least one non-whitespace character. */
  lemma QueriesAreNonBlankLines(text: string, numQueries: int)
    ensures forall i :: 0 <= i < |PostProcess(text, numQueries)| ==>
      var q := PostProcess(text, numQueries)[i];
      q in Lines(text) && '\n' !in q && exists j :: 0 <= j < |q| && !IsSpace(q[j])
  {
    var qs := PostProcess(text, numQueries);
    var all := NonBlankLines(text);
    forall i | 0 <= i < |qs|
      ensures qs[i] in Lines(text) && '\n' !in qs[i]
      ensures exists j :: 0 <= j < |qs[i]| && !IsSpace(qs[i][j])
    {
      assert qs[i] == all[i];
      KeepNonBlankMembers(Lines(text), qs[i]);
      StripEmptyIffAllSpace(qs[i]);
    }
  }

  /** The lines the queries come from: joined back with line breaks they are
      exactly the stripped completion. */
  lemma LinesRebuildStrippedText(text: string)
    ensures Join(Lines(text), "\n") == Strip(text)
  {
    JoinSplit(Strip(text), '\n');
  }
}

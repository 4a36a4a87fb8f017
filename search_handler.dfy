/** The `/search` request handler: input validation, the three stages in
    order, and the translation of a raised exception into the response. How
    each upstream call ends is an input, one per call in the order the calls
    are made; the markdown renderer is an opaque function. */
module SearchHandler {
  import opened Text
  import opened Wrappers
  import opened Upstream
  import opened QueryGeneration
  import opened ReportPrompt
  import opened ReportRetry

  const NO_TARGET: string := "No search target provided"
  const FINAL_REPORT_MARKER: string := "Failed to generate final report"
  const GENERIC_ERROR: string := "An unexpected error occurred"

  datatype Body = ErrorBody(error: string) | ReportBody(report: string)

  /** A JSON response with its HTTP status. */
  datatype Response = Response(status: int, body: Body)

  /** `not target` for the value of `data.get('target')`: absent or empty. */
  predicate MissingTarget(target: Option<string>)
  {
    target.None? || target.value == ""
  }

  /** The message shown for a raised exception (app.py, line 114): its own
      text when it mentions the final report, the generic text otherwise, so
      no other exception text reaches the caller. */
  function ErrorMessage(e: string): (m: string)
    ensures Contains(e, FINAL_REPORT_MARKER) ==> m == e
    ensures !Contains(e, FINAL_REPORT_MARKER) ==> m == GENERIC_ERROR
    ensures Contains(m, FINAL_REPORT_MARKER) <==> Contains(e, FINAL_REPORT_MARKER)
  {
    if Contains(e, FINAL_REPORT_MARKER) then e else GENERIC_ERROR
  }

  function ServerError(e: string): Response
  {
    Response(500, ErrorBody(ErrorMessage(e)))
  }

  /** `perform_web_search`'s exception message. */
  function SearchFailedMessage(query: string): string
  {
    "Search failed for query: " + query
  }

  /** `perform_web_search(query)` once its call is answered: the content of a
      200 response, the fixed message for any other status, and the text of
      an exception raised by the call itself. */
  function PerformWebSearch(query: string, answer: HttpAnswer): (r: Result<string>)
    ensures r.Ok? <==> IsOk(answer)
    ensures r.Ok? ==> r.value == answer.text
    ensures answer.Answered? && answer.status != 200 ==> r == Raised(SearchFailedMessage(query))
    ensures answer.CallRaised? ==> r == Raised(answer.message)
  {
    match answer
    case CallRaised(e) => Raised(e)
    case Answered(status, text) =>
      if status == 200 then Result.Ok(text) else Raised(SearchFailedMessage(query))
  }

  /** The call for `queries[i]` is the first that fails. */
  predicate FirstFailure(queries: seq<string>, answers: seq<HttpAnswer>, i: int)
  {
    0 <= i < |queries| <= |answers| && !IsOk(answers[i])
    && forall j :: 0 <= j < i ==> IsOk(answers[j])
  }

  /** `[perform_web_search(query) for query in queries]`: one call per list
      element, `answers[i]` answering the call for `queries[i]`, so a query
      that appears twice is searched twice. The first failing call aborts the
      list with its exception. */
  function SearchAll(queries: seq<string>, answers: seq<HttpAnswer>): (r: Result<seq<string>>)
    requires |queries| <= |answers|
    ensures r.Ok? <==> forall i :: 0 <= i < |queries| ==> IsOk(answers[i])
    ensures r.Ok? ==>
      |r.value| == |queries| && forall i :: 0 <= i < |queries| ==> r.value[i] == answers[i].text
    ensures r.Raised? ==>
      exists i :: FirstFailure(queries, answers, i)
                  && r.message == PerformWebSearch(queries[i], answers[i]).message
  {
    if |queries| == 0 then Result.Ok([])
    else match PerformWebSearch(queries[0], answers[0])
      case Raised(e) =>
        assert FirstFailure(queries, answers, 0);
        Raised(e)
      case Ok(result) =>
        match SearchAll(queries[1..], answers[1..])
        case Raised(e) =>
          var i :| FirstFailure(queries[1..], answers[1..], i)
                   && e == PerformWebSearch(queries[1..][i], answers[1..][i]).message;
          assert FirstFailure(queries, answers, i + 1) by {
            forall j | 0 <= j < i + 1 ensures IsOk(answers[j]) {
              if j > 0 { assert answers[j] == answers[1..][j - 1]; }
            }
          }
          Raised(e)
        case Ok(rest) => Result.Ok([result] + rest)
  }

  /** The response for the outcome of `generate_final_report`: the rendered
      report, or status 500 with the message `ErrorMessage` picks for the
      exception. */
  function Finish(result: ReportResult, render: string -> string): (resp: Response)
    ensures resp.status == 200 <==> result.Returned?
    ensures result.Returned? ==> resp.body == ReportBody(render(result.text))
    ensures !result.Returned? ==> resp == Response(500, ErrorBody(ErrorMessage(result.message)))
  {
    match result
    case Returned(markdown) => Response(200, ReportBody(render(markdown)))
    case Failed(e) => ServerError(e)
    case Propagated(e) => ServerError(e)
  }

  /** The three stages of `search()` for a given target (app.py, lines 105-115):
      `queryAnswer` answers the query-generation call, `searchAnswers` the
      search calls in order, `reportResponses` the report calls. */
  function Pipeline(target: string, queryAnswer: HttpAnswer, searchAnswers: seq<HttpAnswer>,
                    reportResponses: seq<CallOutcome>, render: string -> string): (resp: Response)
    requires DEFAULT_NUM_QUERIES <= |searchAnswers|
    requires DEFAULT_MAX_RETRIES <= |reportResponses|
    ensures resp.status == 200 || resp.status == 500
    ensures resp.status == 200 <==> resp.body.ReportBody?
    ensures resp.status == 500 ==>
      resp.body.error == GENERIC_ERROR || Contains(resp.body.error, FINAL_REPORT_MARKER)
  {
    match GenerateSearchQueries(queryAnswer, DEFAULT_NUM_QUERIES)
    case Raised(e) => ServerError(e)
    case Ok(queries) =>
      match SearchAll(queries, searchAnswers)
      case Raised(e) => ServerError(e)
      case Ok(results) =>
        var prompt := Prompt(target, CombineResults(queries, results));
        Finish(ReportTrace(prompt, DEFAULT_MAX_RETRIES, reportResponses).result, render)
  }

  /** `search()`, with `render` standing for `markdown.markdown`: status 400
      exactly for a missing target, otherwise the pipeline's 200 or 500. */
  function Search(target: Option<string>, queryAnswer: HttpAnswer, searchAnswers: seq<HttpAnswer>,
                  reportResponses: seq<CallOutcome>, render: string -> string): (resp: Response)
    requires DEFAULT_NUM_QUERIES <= |searchAnswers|
    requires DEFAULT_MAX_RETRIES <= |reportResponses|
    ensures resp.status == 400 <==> MissingTarget(target)
    ensures resp.status == 400 || resp.status == 200 || resp.status == 500
    ensures resp.status == 200 <==> resp.body.ReportBody?
  {
    if MissingTarget(target) then Response(400, ErrorBody(NO_TARGET))
    else Pipeline(target.value, queryAnswer, searchAnswers, reportResponses, render)
  }

  /** A missing target is answered with status 400 and the fixed message,
      before any upstream call. */
  lemma MissingTargetRejected(target: Option<string>, queryAnswer: HttpAnswer, searchAnswers: seq<HttpAnswer>,
                              reportResponses: seq<CallOutcome>, render: string -> string)
    requires DEFAULT_NUM_QUERIES <= |searchAnswers|
    requires DEFAULT_MAX_RETRIES <= |reportResponses|
    requires MissingTarget(target)
    ensures Search(target, queryAnswer, searchAnswers, reportResponses, render)
      == Response(400, ErrorBody("No search target provided"))
  {
  }

  /** The query-generation failure does not mention the final report. */
  lemma QueryFailureLacksMarker()
    ensures !Contains("Failed to generate search queries", "Failed to generate final report")
  {
    var s := "Failed to generate search queries";
    var m := "Failed to generate final report";
    assert s[..|m|] != m by { assert s[..|m|][19] != m[19]; }
    assert s[1..][..|m|] != m by { assert s[1..][..|m|][0] != m[0]; }
    assert s[2..][..|m|] != m by { assert s[2..][..|m|][0] != m[0]; }
    assert !Contains(s[3..], m);
  }

  /** A non-200 answer to the query-generation call is answered with the
      generic message: "Failed to generate search queries" does not pass the
      substring test. */
  lemma QueryGenerationFailureIsGeneric(target: Option<string>, status: int, text: string,
                                        searchAnswers: seq<HttpAnswer>, reportResponses: seq<CallOutcome>,
                                        render: string -> string)
    requires DEFAULT_NUM_QUERIES <= |searchAnswers|
    requires DEFAULT_MAX_RETRIES <= |reportResponses|
    requires !MissingTarget(target) && status != 200
    ensures Search(target, Answered(status, text), searchAnswers, reportResponses, render)
      == Response(500, ErrorBody("An unexpected error occurred"))
  {
    QueryFailureLacksMarker();
  }

  /** An exception raised by the query-generation call itself (a connection
      error, a timeout, a missing JSON key) reaches the caller only when its
      text passes the substring test. */
  lemma QueryCallExceptionMapped(target: Option<string>, e: string,
                                 searchAnswers: seq<HttpAnswer>, reportResponses: seq<CallOutcome>,
                                 render: string -> string)
    requires DEFAULT_NUM_QUERIES <= |searchAnswers|
    requires DEFAULT_MAX_RETRIES <= |reportResponses|
    requires !MissingTarget(target)
    ensures var resp := Search(target, CallRaised(e), searchAnswers, reportResponses, render);
      resp.status == 500
      && resp.body.ErrorBody?
      && resp.body.error == (if Contains(e, FINAL_REPORT_MARKER) then e else GENERIC_ERROR)
  {
  }

  /** The texts of the report loop's own exceptions pass the substring test
      and are shown as they are. */
  lemma ReportFailuresShown(maxRetries: nat, detail: string)
    ensures ErrorMessage(ExhaustedMessage(maxRetries, detail)) == ExhaustedMessage(maxRetries, detail)
    ensures ErrorMessage(UNEXPECTED_FAILURE) == UNEXPECTED_FAILURE
  {
    var e := ExhaustedMessage(maxRetries, detail);
    assert FINAL_REPORT_MARKER == REPORT_FAILED;
    ContainsPrefix(FINAL_REPORT_MARKER, e[|FINAL_REPORT_MARKER|..]);
    assert e == FINAL_REPORT_MARKER + e[|FINAL_REPORT_MARKER|..];
    ContainsPrefix(FINAL_REPORT_MARKER, " due to unexpected error");
  }

  /** The first `n` search calls all answered with status 200. */
  predicate SearchesAnswered(answers: seq<HttpAnswer>, n: int)
  {
    0 <= n <= |answers| && forall i :: 0 <= i < n ==> IsOk(answers[i])
  }

  /** The contents of the first `n` search answers, in call order. */
  function Answers(answers: seq<HttpAnswer>, n: int): seq<string>
    requires SearchesAnswered(answers, n)
  {
    seq(n, i requires 0 <= i < n => answers[i].text)
  }

  /** When every search call is answered, the search stage succeeds with the
      answer of each call, in query order. */
  lemma AllSearchesAnswered(queries: seq<string>, answers: seq<HttpAnswer>)
    requires SearchesAnswered(answers, |queries|)
    ensures SearchAll(queries, answers) == Result.Ok(Answers(answers, |queries|))
  {
    var results := SearchAll(queries, answers).value;
    assert |results| == |Answers(answers, |queries|)|;
    assert forall i :: 0 <= i < |results| ==> results[i] == Answers(answers, |queries|)[i];
    assert SearchAll(queries, answers) == Result.Ok(results);
    assert results == Answers(answers, |queries|);
  }

  /** At most one call is the first to fail. */
  lemma FirstFailureUnique(queries: seq<string>, answers: seq<HttpAnswer>, i: int, j: int)
    requires FirstFailure(queries, answers, i) && FirstFailure(queries, answers, j)
    ensures i == j
  {
  }

  /** A failing web-search call aborts the whole request: once the queries
      are generated, the first search call that fails decides the response,
      status 500 with the message `ErrorMessage` picks for that call's
      exception; no report is attempted on the other results. */
  lemma SearchFailureAborts(target: Option<string>, queryText: string, searchAnswers: seq<HttpAnswer>,
                            reportResponses: seq<CallOutcome>, render: string -> string, i: int)
    requires DEFAULT_NUM_QUERIES <= |searchAnswers|
    requires DEFAULT_MAX_RETRIES <= |reportResponses|
    requires !MissingTarget(target)
    requires FirstFailure(PostProcess(queryText, DEFAULT_NUM_QUERIES), searchAnswers, i)
    ensures var queries := PostProcess(queryText, DEFAULT_NUM_QUERIES);
      Search(target, Answered(200, queryText), searchAnswers, reportResponses, render)
        == ServerError(PerformWebSearch(queries[i], searchAnswers[i]).message)
  {
    var queries := PostProcess(queryText, DEFAULT_NUM_QUERIES);
    assert GenerateSearchQueries(Answered(200, queryText), DEFAULT_NUM_QUERIES) == Result.Ok(queries);
    var r := SearchAll(queries, searchAnswers);
    assert !IsOk(searchAnswers[i]);
    assert r.Raised?;
    var j :| FirstFailure(queries, searchAnswers, j)
             && r.message == PerformWebSearch(queries[j], searchAnswers[j]).message;
    FirstFailureUnique(queries, searchAnswers, i, j);
  }

  /** When the queries are generated and every search call is answered, the
      response is decided by the report loop alone, run on the prompt that
      pairs each generated query with the answer to its own call. */
  lemma PipelineReachesReport(target: string, queryText: string, searchAnswers: seq<HttpAnswer>,
                              reportResponses: seq<CallOutcome>, render: string -> string)
    returns (prompt: string)
    requires DEFAULT_NUM_QUERIES <= |searchAnswers|
    requires DEFAULT_MAX_RETRIES <= |reportResponses|
    requires SearchesAnswered(searchAnswers, |PostProcess(queryText, DEFAULT_NUM_QUERIES)|)
    ensures var queries := PostProcess(queryText, DEFAULT_NUM_QUERIES);
      prompt == Prompt(target, CombineResults(queries, Answers(searchAnswers, |queries|)))
    ensures Pipeline(target, Answered(200, queryText), searchAnswers, reportResponses, render)
      == Finish(ReportTrace(prompt, DEFAULT_MAX_RETRIES, reportResponses).result, render)
  {
    var queries := PostProcess(queryText, DEFAULT_NUM_QUERIES);
    assert GenerateSearchQueries(Answered(200, queryText), DEFAULT_NUM_QUERIES) == Result.Ok(queries);
    AllSearchesAnswered(queries, searchAnswers);
    prompt := Prompt(target, CombineResults(queries, Answers(searchAnswers, |queries|)));
  }

  /** Once the target is given, the queries generated and every search
      answered, three transport failures of the report call give status 500
      with the report loop's own message, naming 3 attempts and the last
      failure. */
  lemma ExhaustedReportSurfaced(target: Option<string>, queryText: string, searchAnswers: seq<HttpAnswer>,
                                reportResponses: seq<CallOutcome>, render: string -> string)
    requires DEFAULT_NUM_QUERIES <= |searchAnswers|
    requires DEFAULT_MAX_RETRIES <= |reportResponses|
    requires !MissingTarget(target)
    requires SearchesAnswered(searchAnswers, |PostProcess(queryText, DEFAULT_NUM_QUERIES)|)
    requires forall i :: 0 <= i < 3 ==> reportResponses[i].TransportFail?
    ensures Search(target, Answered(200, queryText), searchAnswers, reportResponses, render)
      == Response(500, ErrorBody("Failed to generate final report after 3 attempts: " + reportResponses[2].msg))
  {
    var prompt := PipelineReachesReport(target.value, queryText, searchAnswers, reportResponses, render);
    var msg := ExhaustedMessage(3, reportResponses[2].msg);
    AllTransportFailuresExhaust(prompt, 3, reportResponses);
    ReportFailuresShown(3, reportResponses[2].msg);
    assert Finish(Failed(msg), render) == Response(500, ErrorBody(msg));
    ThreeAttemptsMessage(reportResponses[2].msg);
  }

  lemma ThreeAttemptsMessage(detail: string)
    ensures ExhaustedMessage(3, detail) == "Failed to generate final report after 3 attempts: " + detail
  {
    assert NatToString(3) == "3";
  }

  /** Once the target is given, the queries generated and every search
      answered, a successful report call within the budget, after only
      transport failures, gives status 200 with the rendered report. */
  lemma ReportSuccessRendered(target: Option<string>, queryText: string, searchAnswers: seq<HttpAnswer>,
                              reportResponses: seq<CallOutcome>, render: string -> string, k: nat)
    requires DEFAULT_NUM_QUERIES <= |searchAnswers|
    requires DEFAULT_MAX_RETRIES <= |reportResponses|
    requires !MissingTarget(target)
    requires SearchesAnswered(searchAnswers, |PostProcess(queryText, DEFAULT_NUM_QUERIES)|)
    requires k < 3 && reportResponses[k].Success?
    requires forall i :: 0 <= i < k ==> reportResponses[i].TransportFail?
    ensures Search(target, Answered(200, queryText), searchAnswers, reportResponses, render)
      == Response(200, ReportBody(render(reportResponses[k].text)))
  {
    var prompt := PipelineReachesReport(target.value, queryText, searchAnswers, reportResponses, render);
    FirstSuccessReturned(prompt, 3, reportResponses, k);
  }

  /** The prompt pairs every query with the answer to its own call: since
      there is one result per query, `zip` drops nothing. */
  lemma EveryQueryReachesPrompt(queries: seq<string>, answers: seq<HttpAnswer>)
    requires |queries| <= |answers|
    requires SearchAll(queries, answers).Ok?
    ensures var pairs := Zip(queries, SearchAll(queries, answers).value);
      |pairs| == |queries|
      && forall i :: 0 <= i < |queries| ==> pairs[i] == (queries[i], answers[i].text)
  {
  }

  /** A query that appears twice is searched twice: the second call can fail
      even though the first call for the same text succeeded. */
  lemma RepeatedQuerySearchedAgain(q: string, first: string, answers: seq<HttpAnswer>)
    requires 2 <= |answers| && answers[0] == Answered(200, first) && !IsOk(answers[1])
    ensures SearchAll([q, q], answers).Raised?
  {
    assert !IsOk(answers[1]);
  }

  /** The substring test is on text only: a search answered with a non-200
      status is shown verbatim exactly when the query itself contains the
      phrase. */
  lemma SearchFailureShownIffQueryHasMarker(query: string)
    ensures ErrorMessage(SearchFailedMessage(query)) != GENERIC_ERROR
        <==> Contains(query, FINAL_REPORT_MARKER)
  {
    var p := "Search failed for query: ";
    assert forall k :: 0 <= k < |p| ==> p[k] != FINAL_REPORT_MARKER[0];
    ContainsBehindPrefix(p, query, FINAL_REPORT_MARKER);
    assert SearchFailedMessage(query)[0] != GENERIC_ERROR[0];
  }
}

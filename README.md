# High_Q research backend: a verified model of its request logic

High_Q is a small Flask backend. A user posts a research topic to `/search`.
The backend asks a language model for a few search queries, runs each query
through a search-augmented chat API, and asks the language model to write a
markdown report from the pairs of query and result. It retries that last call
with exponential backoff and renders the report as HTML.

Every network call is an input to this model. The project models the
deterministic logic of `app.py` around those calls:

- `Text`: the Python string operations the code relies on. These are
  `str.strip()` (with `str.isspace()` written out by code point),
  `str.split('\n')`, `sep.join(...)`, the `in` substring test and `str(n)`.
- `Upstream`: how one upstream call ends. Either a response arrives, with its
  status and the text the code reads out of it, or the call raises an
  exception with some text. Examples of such exceptions are a connection
  error, a timeout or a missing JSON key.
- `QueryGeneration`: `generate_search_queries` once its call is answered. The
  completion is stripped and split into lines, blank lines are dropped, and
  the slice `[:num_queries]` is taken. A non-200 status raises a fixed
  message. An exception of the call passes through.
- `ReportPrompt`: the `zip`/`join` that pairs each query with its result, and
  the prompt that embeds the pairs.
- `ReportRetry`: the retry loop of `generate_final_report`, written as a
  method with a `while` loop. Each HTTP call is answered by the next element of
  a sequence of outcomes. The method records the calls made, the
  `time.sleep` delays and the `app.logger.error` entries. Its `ensures` ties
  all of this to a closed-form function `ReportTrace`, and lemmas state what
  that function implies.
- `SearchHandler`: the `/search` handler. It covers the 400 answer for a
  missing target, the three stages in order, and the substring test that
  picks the user-facing error message. The web searches are answered one
  answer per call, in call order. A query that appears twice is therefore
  searched twice, and the two calls can end differently.

Behaviour of the code that is easy to misread:

- Results are paired with queries by `zip`. That is not a precondition of
  equal lengths: surplus entries are dropped.
- `num_queries` may be any integer. A negative one drops lines from the end,
  as Python's slice does.
- The handler decides the error message by a substring test on the text of
  any exception, not on a kind of error. Take a web search answered with a
  non-200 status whose query contains "Failed to generate final report":
  its message is shown verbatim.
- Every `RequestException` is retried. This includes the `HTTPError` that
  `raise_for_status` raises for every 4xx and 5xx status. A final 1xx or
  3xx response raises no `HTTPError`; its body is then read as for a 200. From `requests` 2.27 on it also includes a
  body that is not JSON, because the JSON decode error of those releases is
  a `RequestException`. With earlier releases that error is a plain
  `ValueError`, which is not retried. The model takes the kind of each
  outcome as an input, so it covers both.

## Model

| member | source | states |
|---|---|---|
| `Text.Strip` | app.py:41 | `strip()` never lengthens the text, and its result neither starts nor ends with whitespace; `StripShape` says what is removed |
| `Text.StripShape` | app.py:41 | `strip()` removes a run of whitespace at each end only; the result neither starts nor ends with whitespace |
| `Text.StripEmptyIffAllSpace` | app.py:42 | a line is dropped by `if query.strip()` exactly when all its characters are whitespace |
| `Text.Split` | app.py:41 | `split('\n')` gives one more piece than there are line breaks, and no piece holds a line break |
| `Text.Join` | app.py:72 | `sep.join` of no parts is empty, and otherwise starts with the first part |
| `Text.JoinSplit` | app.py:41 | joining the pieces of a split with the separator gives back the text |
| `Text.SplitJoin` | app.py:41 | splitting a join of separator-free pieces gives back those pieces |
| `Text.JoinSnoc` | app.py:72 | joining one more part adds exactly one separator and that part |
| `Text.Contains` | app.py:114 | `sub in s` needs `sub` no longer than `s`, and the empty string is in every string |
| `Text.ContainsIffOccurrence` | app.py:114 | the `in` test holds exactly when the marker occurs at some offset |
| `Text.ContainsBehindPrefix` | app.py:63 | a prefix that cannot start the marker adds no occurrence of it |
| `Text.NatToString` | app.py:89 | `str(n)` is a non-empty run of decimal digits without a leading zero |
| `Text.ParseNatToString` | app.py:87-89 | reading back the decimal text of `n` gives `n` |
| `QueryGeneration.KeepNonBlank` | app.py:42 | the list comprehension returns no more lines than it was given, and none of them is blank |
| `QueryGeneration.KeepNonBlankMembers` | app.py:42 | a line survives the filter exactly when it is one of the lines and is not blank |
| `QueryGeneration.KeepNonBlankAppend` | app.py:42 | the filter keeps order: filtering a concatenation concatenates the filtered halves |
| `QueryGeneration.KeepNonBlankNoBlank` | app.py:42 | lines none of which is blank pass the filter unchanged |
| `QueryGeneration.SliceTo` | app.py:42 | `xs[:n]` is a prefix of `xs` of length `min(n, len(xs))`, or `len(xs) + n` floored at 0 for negative `n` |
| `QueryGeneration.PostProcess` | app.py:41-42 | no query is blank, and there are never more than a non-negative `num_queries` of them |
| `QueryGeneration.GenerateSearchQueries` | app.py:39-44 | queries are returned exactly for a 200 response, and they are then the post-processed completion (`PostProcess`), never more than a non-negative `num_queries`; any other status raises "Failed to generate search queries"; an exception of the call itself passes through with its text |
| `QueryGeneration.QueriesAreLeadingNonBlankLines` | app.py:41-42 | with `num_queries >= 0` the queries are the first `min(num_queries, k)` non-blank lines of the stripped completion, in order, so at most `num_queries` |
| `QueryGeneration.QueriesNegativeCount` | app.py:42 | a negative `num_queries` keeps all but the last `-num_queries` non-blank lines |
| `QueryGeneration.QueriesAreNonBlankLines` | app.py:41-42 | every query is a line of the stripped completion, holds no line break and has a non-whitespace character |
| `QueryGeneration.LinesRebuildStrippedText` | app.py:41 | the split lines joined with line breaks are exactly the stripped completion |
| `ReportPrompt.Zip` | app.py:72 | `zip` yields `min(len(queries), len(results))` pairs, pair `i` being `(queries[i], results[i])` |
| `ReportPrompt.Blocks` | app.py:72 | one `"Query: q\nResult: r"` block per pair, in order |
| `ReportPrompt.CombineResults` | app.py:72 | the combined text is empty exactly when there is no pair, and otherwise starts with the first pair's block |
| `ReportPrompt.CombineResultsByPosition` | app.py:72 | the combined text is the `min(len(queries), len(results))` blocks, block `i` pairing `queries[i]` with `results[i]`, joined by blank lines |
| `ReportPrompt.CombineResultsIgnoresSurplus` | app.py:72 | entries past the end of the shorter list play no part |
| `ReportPrompt.CombineResultsSnoc` | app.py:72 | one more query with its result appends `"\n\n"` and that pair's block |
| `ReportPrompt.Prompt` | app.py:73 | the prompt has the length of its five pieces, with the target and the combined results at fixed offsets after the fixed introduction and request |
| `ReportPrompt.PromptInjective` | app.py:73 | for one target, different combined results give different prompts |
| `ReportRetry.FirstStop` | app.py:81-86 | the first attempt within the budget whose outcome is not a transport failure; every earlier one is |
| `ReportRetry.ReportTrace` | app.py:81-92 | a run makes at most `max_retries` calls, sleeps once fewer than it calls, and logs every call except a final success or a final non-transport failure |
| `ReportRetry.ExhaustedMessage` | app.py:89 | the error starts with "Failed to generate final report" and ends with the last failure's text |
| `ReportRetry.LogLine` | app.py:87 | the log text starts with "API request failed (attempt " and ends with the failure's text |
| `ReportRetry.GenerateFinalReport` | app.py:81-92 | the loop's result, calls, sleeps and log entries are exactly those of the closed-form trace `ReportTrace` |
| `ReportRetry.FirstSuccessReturned` | app.py:81-90 | a success at index `k` within the budget, after only transport failures, is returned after exactly `k+1` calls, `k` log entries and the sleeps `2^0 .. 2^(k-1)` |
| `ReportRetry.OtherFailurePropagates` | app.py:81-86 | an exception other than `RequestException` leaves the loop at once: no log entry or sleep for it and no further call |
| `ReportRetry.AllTransportFailuresExhaust` | app.py:81-90 | `max_retries >= 1` transport failures give `max_retries` calls and log entries, `max_retries-1` sleeps, and the error "Failed to generate final report after {max_retries} attempts: {last msg}" |
| `ReportRetry.NoBudgetNoCall` | app.py:81-92 | with `max_retries <= 0` no call, sleep or log happens and the fallback error is raised |
| `ReportRetry.TraceShape` | app.py:81-92 | for every sequence of outcomes: at most `max_retries` calls, one sleep `2^i` between consecutive calls and none after the last, one log entry per transport failure, and a text is returned exactly when a success comes within the budget after only transport failures |
| `ReportRetry.BackoffTotal` | app.py:90 | the sleeps before the `n`-th retry add up to `2^n - 1` |
| `ReportRetry.LogLineDeterminesAttempt` | app.py:87 | log lines of different attempts differ |
| `SearchHandler.ErrorMessage` | app.py:114 | an exception text containing "Failed to generate final report" is shown as it is; any other text is replaced by "An unexpected error occurred" |
| `SearchHandler.PerformWebSearch` | app.py:59-63 | a 200 response yields its content; any other status raises "Search failed for query: {query}"; an exception of the call itself passes through with its text |
| `SearchHandler.SearchAll` | app.py:108 | one call per list element, in order: the stage succeeds exactly when every call gets a 200 response, giving one result per query; otherwise the first failing call's message is raised |
| `SearchHandler.Finish` | app.py:109-115 | status 200 with the rendered report exactly when the report loop returned a text; otherwise status 500 with the message line 114 picks for the raised text |
| `SearchHandler.Pipeline` | app.py:105-115 | a given target gets status 200 with a report or status 500 with either the generic message or one that names the final report |
| `SearchHandler.Search` | app.py:99-115 | status 400 exactly for a missing or empty target; otherwise 200 with a report body or 500 with an error body |
| `SearchHandler.MissingTargetRejected` | app.py:100-103 | a missing or empty target gets status 400 with "No search target provided" |
| `SearchHandler.QueryFailureLacksMarker` | app.py:44 | "Failed to generate search queries" does not contain "Failed to generate final report" |
| `SearchHandler.QueryGenerationFailureIsGeneric` | app.py:114-115 | a non-200 answer to the query-generation call gets status 500 and "An unexpected error occurred" |
| `SearchHandler.QueryCallExceptionMapped` | app.py:112-115 | an exception raised by the query-generation call itself gets status 500, and its text is shown only when it contains "Failed to generate final report" |
| `SearchHandler.ReportFailuresShown` | app.py:89-92 | both errors raised by the report loop pass the substring test and are shown verbatim |
| `SearchHandler.SearchFailureAborts` | app.py:105-115 | once the queries are generated, the first failing search call aborts the request: status 500 with the message line 114 picks for that call's exception, and no report is attempted |
| `SearchHandler.PipelineReachesReport` | app.py:105-109 | once queries are generated and every search call answered, the response is decided by the report loop alone, run on the prompt that pairs each generated query with the answer to its own call |
| `SearchHandler.AllSearchesAnswered` | app.py:108 | when every search call gets a 200 response, the search stage succeeds with the content of each, in query order |
| `SearchHandler.ExhaustedReportSurfaced` | app.py:105-115 | three transport failures of the report call give status 500 with "Failed to generate final report after 3 attempts: {last msg}" |
| `SearchHandler.ReportSuccessRendered` | app.py:105-111 | a report call that succeeds within the 3 attempts, after only transport failures, gives status 200 with the rendered report |
| `SearchHandler.EveryQueryReachesPrompt` | app.py:108 | with one result per query, `zip` drops nothing: every query is paired with the answer to its own call |
| `SearchHandler.RepeatedQuerySearchedAgain` | app.py:108 | a query listed twice is searched twice, and the second call can fail after the first succeeded |
| `SearchHandler.SearchFailureShownIffQueryHasMarker` | app.py:114 | a web search answered with a non-200 status is shown verbatim exactly when its query contains "Failed to generate final report" |

## Left out

- HTTP calls (`requests.post`), endpoints, headers, payloads, API keys and `load_dotenv`. Each call's outcome is an input. The query-generation call and each search call get a response with a status and text, or an exception text. The report calls get a sequence of outcomes.
- The JSON navigation of responses (`['output']['choices'][0]['text']` and the chat-completion equivalent). The extracted text is an input, and a navigation failure is an exception text like any other.
- The query-generation prompt text and its model parameters. Only the post-processing of the completion is modelled.
- `ReportRetry.GenerateFinalReport`: requires at least `max_retries` outcomes, because the environment must answer every call the loop may make.
- `SearchHandler.Search`: requires an answer for each of up to 3 search calls and for each of the 3 report attempts, for the same reason.
- `markdown.markdown`: the renderer is an opaque function parameter.
- The real duration of `time.sleep`: only the requested delays are recorded.
- The log line of the handler (`An error occurred: ...`): the handler's own logging is not recorded. The report loop's log entries are.
- Flask routing, `render_template`, CORS, `jsonify`, the ngrok URL print and `app.run`: web framework plumbing.
- A request body that is not a JSON object, or a `target` that is not a string. The target is modelled as an optional string; absent and `""` are the falsy cases.

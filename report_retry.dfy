/** The bounded retry loop of `generate_final_report`. Each HTTP call is
    answered by the next element of a given sequence of outcomes; the calls,
    the `time.sleep` delays and the `app.logger.error` entries are recorded in
    order. */
module ReportRetry {
  import opened Text

  /** How one attempt (`requests.post`, `raise_for_status`, reading the
      completion text out of the JSON) ends. */
  datatype CallOutcome =
    | Success(text: string)         // the completion text is returned
    | TransportFail(msg: string)    // a `RequestException`: caught, logged, retried
    | OtherFail(msg: string)        // any other exception: not caught

  /** How `generate_final_report` ends. */
  datatype ReportResult =
    | Returned(text: string)        // `return` of the completion text
    | Failed(message: string)       // one of the loop's own `raise Exception(...)`
    | Propagated(message: string)   // an `OtherFail` passing through

  /** One `app.logger.error` call: attempt number (from 1), attempt budget,
      failure description. */
  datatype LogEntry = LogEntry(attempt: nat, total: int, detail: string)

  /** Everything observable about one run of the loop. `sent` holds the
      prompt of every call made. */
  datatype Trace = Trace(result: ReportResult, sent: seq<string>, sleeps: seq<nat>, log: seq<LogEntry>)

  /** The `max_retries` default the request handler relies on. */
  const DEFAULT_MAX_RETRIES: int := 3

  /** The words both of the loop's own exceptions start with. */
  const REPORT_FAILED: string := "Failed to generate final report"

  const UNEXPECTED_FAILURE: string := REPORT_FAILED + " due to unexpected error"

  /** `f"Failed to generate final report after {max_retries} attempts: {str(e)}"` */
  function ExhaustedMessage(maxRetries: nat, detail: string): (m: string)
    ensures REPORT_FAILED <= m
    ensures |detail| <= |m| && m[|m| - |detail|..] == detail
  {
    REPORT_FAILED + (" after " + (NatToString(maxRetries) + (" attempts: " + detail)))
  }

  /** `f"API request failed (attempt {attempt + 1}/{max_retries}): {str(e)}"` */
  function LogLine(e: LogEntry): (line: string)
    ensures "API request failed (attempt " <= line
    ensures |e.detail| <= |line| && line[|line| - |e.detail|..] == e.detail
  {
    "API request failed (attempt " + (NatToString(e.attempt) + ("/" + (IntToString(e.total) + ("): " + e.detail))))
  }

  /** `2 ** n` */
  function Pow2(n: nat): (p: nat)
    ensures p >= 1
  {
    if n == 0 then 1 else 2 * Pow2(n - 1)
  }

  /** The first index below `limit`, at or after `from`, whose outcome is not
      a transport failure; `limit` if there is none. */
  function FirstStop(responses: seq<CallOutcome>, from: nat, limit: nat): (k: nat)
    requires from <= limit <= |responses|
    ensures from <= k <= limit
    ensures forall i :: from <= i < k ==> responses[i].TransportFail?
    ensures k < limit ==> !responses[k].TransportFail?
    decreases limit - from
  {
    if from == limit || !responses[from].TransportFail? then from
    else FirstStop(responses, from + 1, limit)
  }

  /** The delays slept before the first `n` retries: `2^0, ..., 2^(n-1)`. */
  function Backoffs(n: nat): (d: seq<nat>)
    ensures |d| == n
  {
    seq(n, i requires 0 <= i => Pow2(i))
  }

  /** The log entries of the first `n` attempts, all of them transport
      failures. */
  function FailureLog(responses: seq<CallOutcome>, n: nat, maxRetries: int): (log: seq<LogEntry>)
    requires n <= |responses|
    requires forall i :: 0 <= i < n ==> responses[i].TransportFail?
    ensures |log| == n
  {
    seq(n, i requires 0 <= i < n => LogEntry(i + 1, maxRetries, responses[i].msg))
  }

  /** `n` copies of the prompt: one per call made. */
  function Repeat(prompt: string, n: nat): (s: seq<string>)
    ensures |s| == n
  {
    seq(n, _ => prompt)
  }

  /** What the loop does, in closed form: it stops at the first outcome that
      is not a transport failure, or after `maxRetries` transport failures,
      having slept once between consecutive calls. */
  function ReportTrace(prompt: string, maxRetries: int, responses: seq<CallOutcome>): (t: Trace)
    requires maxRetries <= |responses|
    ensures |t.sent| <= (if maxRetries < 0 then 0 else maxRetries)
    ensures |t.sleeps| == (if |t.sent| == 0 then 0 else |t.sent| - 1)
    ensures |t.log| == (if t.result.Failed? then |t.sent| else |t.sent| - 1)
  {
    if maxRetries <= 0 then Trace(Failed(UNEXPECTED_FAILURE), [], [], [])
    else
      var k := FirstStop(responses, 0, maxRetries);
      if k < maxRetries then
        var result := if responses[k].Success? then Returned(responses[k].text) else Propagated(responses[k].msg);
        Trace(result, Repeat(prompt, k + 1), Backoffs(k), FailureLog(responses, k, maxRetries))
      else
        Trace(Failed(ExhaustedMessage(maxRetries, responses[maxRetries - 1].msg)),
              Repeat(prompt, maxRetries), Backoffs(maxRetries - 1),
              FailureLog(responses, maxRetries, maxRetries))
  }

  /** The loop of `generate_final_report` (app.py, lines 81-92): `responses[i]` is
      how the call of attempt `i` ends. */
  method GenerateFinalReport(prompt: string, maxRetries: int, responses: seq<CallOutcome>)
    returns (result: ReportResult, sent: seq<string>, sleeps: seq<nat>, log: seq<LogEntry>)
    requires maxRetries <= |responses|
    ensures Trace(result, sent, sleeps, log) == ReportTrace(prompt, maxRetries, responses)
  {
    sent, sleeps, log := [], [], [];
    var attempt := 0;
    while attempt < maxRetries
      invariant 0 <= attempt && (attempt == 0 || attempt < maxRetries)
      invariant forall i :: 0 <= i < attempt ==> responses[i].TransportFail?
      invariant sent == Repeat(prompt, attempt)
      invariant sleeps == Backoffs(attempt)
      invariant log == FailureLog(responses, attempt, maxRetries)
    {
      sent := sent + [prompt];
      match responses[attempt] {
        case Success(text) =>
          result := Returned(text);
          return;
        case OtherFail(msg) =>
          result := Propagated(msg);
          return;
        case TransportFail(msg) =>
          log := log + [LogEntry(attempt + 1, maxRetries, msg)];
          if attempt == maxRetries - 1 {
            result := Failed(ExhaustedMessage(maxRetries, msg));
            return;
          }
          sleeps := sleeps + [Pow2(attempt)];
      }
      attempt := attempt + 1;
    }
    result := Failed(UNEXPECTED_FAILURE);
  }

  /** `FirstStop` is determined by where the run of transport failures ends. */
  lemma FirstStopAt(responses: seq<CallOutcome>, limit: nat, k: nat)
    requires k <= limit <= |responses|
    requires forall i :: 0 <= i < k ==> responses[i].TransportFail?
    requires k < limit ==> !responses[k].TransportFail?
    ensures FirstStop(responses, 0, limit) == k
  {
  }

  /** The first successful answer before the budget runs out, with only
      transport failures before it, ends the loop: `k + 1` calls, the payload
      sent unchanged each time, one log entry per failure, the delays
      `2^0 ... 2^(k-1)`, and the completion text returned. */
  lemma FirstSuccessReturned(prompt: string, maxRetries: int, responses: seq<CallOutcome>, k: nat)
    requires k < maxRetries <= |responses|
    requires forall i :: 0 <= i < k ==> responses[i].TransportFail?
    requires responses[k].Success?
    ensures var t := ReportTrace(prompt, maxRetries, responses);
      && t.result == Returned(responses[k].text)
      && |t.sent| == k + 1 && (forall i :: 0 <= i < |t.sent| ==> t.sent[i] == prompt)
      && |t.sleeps| == k && (forall i :: 0 <= i < k ==> t.sleeps[i] == Pow2(i))
      && |t.log| == k
      && (forall i :: 0 <= i < k ==> t.log[i] == LogEntry(i + 1, maxRetries, responses[i].msg))
  {
    FirstStopAt(responses, maxRetries, k);
  }

  /** An exception other than a `RequestException` leaves the loop at once:
      no log entry and no sleep for it, no further call. */
  lemma OtherFailurePropagates(prompt: string, maxRetries: int, responses: seq<CallOutcome>, k: nat)
    requires k < maxRetries <= |responses|
    requires forall i :: 0 <= i < k ==> responses[i].TransportFail?
    requires responses[k].OtherFail?
    ensures var t := ReportTrace(prompt, maxRetries, responses);
      && t.result == Propagated(responses[k].msg)
      && |t.sent| == k + 1
      && |t.sleeps| == k && (forall i :: 0 <= i < k ==> t.sleeps[i] == Pow2(i))
      && |t.log| == k
  {
    FirstStopAt(responses, maxRetries, k);
  }

  /** When every call of the budget fails in transport: `maxRetries` calls and
      log entries, one sleep fewer (none after the last failure), and the
      error names the budget and the last failure. */
  lemma AllTransportFailuresExhaust(prompt: string, maxRetries: int, responses: seq<CallOutcome>)
    requires 1 <= maxRetries <= |responses|
    requires forall i :: 0 <= i < maxRetries ==> responses[i].TransportFail?
    ensures var t := ReportTrace(prompt, maxRetries, responses);
      && t.result == Failed("Failed to generate final report after " + NatToString(maxRetries)
                            + " attempts: " + responses[maxRetries - 1].msg)
      && |t.sent| == maxRetries
      && |t.log| == maxRetries
      && (forall i :: 0 <= i < maxRetries ==> t.log[i] == LogEntry(i + 1, maxRetries, responses[i].msg))
      && |t.sleeps| == maxRetries - 1
      && (forall i :: 0 <= i < maxRetries - 1 ==> t.sleeps[i] == Pow2(i))
  {
    FirstStopAt(responses, maxRetries, maxRetries);
  }

  /** With no budget the loop body never runs: no call, no sleep, no log, and
      the fallback error. */
  lemma NoBudgetNoCall(prompt: string, maxRetries: int, responses: seq<CallOutcome>)
    requires maxRetries <= 0
    ensures ReportTrace(prompt, maxRetries, responses)
      == Trace(Failed("Failed to generate final report due to unexpected error"), [], [], [])
  {
  }

  /** For every sequence of answers: at most `maxRetries` calls, each sending
      the same payload; exactly one sleep between consecutive calls and none
      after the last; the `i`-th sleep lasts `2^i`; a log entry for every call
      except a final success or final non-transport failure; and a text is
      returned exactly when some answer within the budget succeeds with only
      transport failures before it. */
  lemma TraceShape(prompt: string, maxRetries: int, responses: seq<CallOutcome>)
    requires maxRetries <= |responses|
    ensures var t := ReportTrace(prompt, maxRetries, responses);
      && (|t.sent| == 0 <==> maxRetries <= 0)
      && |t.sent| <= (if maxRetries < 0 then 0 else maxRetries)
      && (forall i :: 0 <= i < |t.sent| ==> t.sent[i] == prompt)
      && |t.sleeps| == (if |t.sent| == 0 then 0 else |t.sent| - 1)
      && (forall i :: 0 <= i < |t.sleeps| ==> t.sleeps[i] == Pow2(i))
      && |t.log| == (if t.result.Failed? then |t.sent| else |t.sent| - 1)
      && (forall i :: 0 <= i < |t.log| ==>
            responses[i].TransportFail? && t.log[i] == LogEntry(i + 1, maxRetries, responses[i].msg))
      && (t.result.Returned? <==>
            exists k :: 0 <= k < maxRetries && responses[k].Success?
                        && forall i :: 0 <= i < k ==> responses[i].TransportFail?)
  {
    var t := ReportTrace(prompt, maxRetries, responses);
    if maxRetries > 0 {
      var k := FirstStop(responses, 0, maxRetries);
      if exists j :: 0 <= j < maxRetries && responses[j].Success?
                     && forall i :: 0 <= i < j ==> responses[i].TransportFail? {
        var j :| 0 <= j < maxRetries && responses[j].Success?
                 && forall i :: 0 <= i < j ==> responses[i].TransportFail?;
        FirstStopAt(responses, maxRetries, j);
      }
      if k < maxRetries && responses[k].Success? {
        assert 0 <= k < maxRetries && responses[k].Success?
               && forall i :: 0 <= i < k ==> responses[i].TransportFail?;
      }
    }
  }

  function Sum(xs: seq<nat>): nat
  {
    if |xs| == 0 then 0 else Sum(xs[..|xs| - 1]) + xs[|xs| - 1]
  }

  /** The backoff before the `n`-th retry adds up, over all retries so far, to
      `2^n - 1` time units. */
  lemma {:induction false} BackoffTotal(n: nat)
    ensures Sum(Backoffs(n)) == Pow2(n) - 1
  {
    if n > 0 {
      BackoffTotal(n - 1);
      assert Backoffs(n)[..n - 1] == Backoffs(n - 1);
    }
  }

  /** The attempt number can be read back from a log line: lines of
      different attempts differ. */
  lemma LogLineDeterminesAttempt(e1: LogEntry, e2: LogEntry)
    requires LogLine(e1) == LogLine(e2)
    ensures e1.attempt == e2.attempt
  {
    var prefix := "API request failed (attempt ";
    var a1, a2 := NatToString(e1.attempt), NatToString(e2.attempt);
    var r1 := "/" + (IntToString(e1.total) + ("): " + e1.detail));
    var r2 := "/" + (IntToString(e2.total) + ("): " + e2.detail));
    assert a1 + r1 == a2 + r2 by {
      assert (prefix + (a1 + r1))[|prefix|..] == a1 + r1;
      assert (prefix + (a2 + r2))[|prefix|..] == a2 + r2;
    }
    DigitsThenSlash(a1, r1, a2, r2);
    ParseNatToString(e1.attempt);
    ParseNatToString(e2.attempt);
  }

  /** Two runs of digits each followed by `/` split a common text at the same
      place. */
  lemma DigitsThenSlash(a1: string, r1: string, a2: string, r2: string)
    requires forall i :: 0 <= i < |a1| ==> IsDigit(a1[i])
    requires forall i :: 0 <= i < |a2| ==> IsDigit(a2[i])
    requires |r1| > 0 && r1[0] == '/' && |r2| > 0 && r2[0] == '/'
    requires a1 + r1 == a2 + r2
    ensures a1 == a2
  {
    assert (a1 + r1)[|a1|] == '/' && (a2 + r2)[|a2|] == '/';
    assert forall i :: 0 <= i < |a1| ==> (a1 + r1)[i] == a1[i];
    assert forall i :: 0 <= i < |a2| ==> (a2 + r2)[i] == a2[i];
    assert |a1| == |a2|;
    assert a1 == (a1 + r1)[..|a1|];
    assert a2 == (a2 + r2)[..|a2|];
  }
}

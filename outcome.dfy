/** How `run_droid_task_logic` (server.py) turns what happened to one agent
    run into the agent's final status, its result text and the log lines it
    appends: the normalisation of the duck-typed result object, the
    `TASK_COMPLETE:` marker, the failure and crash hints, and the handlers
    for a timeout, a cancellation and an exception. */
module Outcome {
  import opened Text
  import opened Storage

  /** The object `agent.run()` returns, as the server sees it: each attribute
      it may have (already passed through `str`, except `success`, which is
      its truth value), and the `str` of the whole object. */
  datatype AgentResult = AgentResult(
    structuredOutput: Option<string>,
    output: Option<string>,
    result: Option<string>,
    reason: Option<string>,
    success: Option<bool>,
    repr: string)

  /** The text of the first present attribute among `probes`, else
      `fallback`. */
  function FirstPresent(probes: seq<Option<string>>, fallback: string): (r: string)
    ensures (forall i :: 0 <= i < |probes| ==> probes[i].None?) ==> r == fallback
  {
    if probes == [] then fallback
    else if probes[0].Some? then probes[0].value
    else FirstPresent(probes[1..], fallback)
  }

  /** `FirstPresent` takes the first present attribute and ignores every
      later one. */
  lemma {:induction false} FirstPresentAt(probes: seq<Option<string>>, fallback: string, i: nat)
    requires i < |probes| && probes[i].Some?
    requires forall j :: 0 <= j < i ==> probes[j].None?
    ensures FirstPresent(probes, fallback) == probes[i].value
  {
    if i > 0 {
      FirstPresentAt(probes[1..], fallback, i - 1);
    }
  }

  /** The content of a result (step 1 of the normalisation): the structured
      output when structured mode was requested and the result has one, else
      `output`, else `result`, else `reason`, else the whole object's text. */
  function Content(r: AgentResult, useStructured: bool): (c: string)
    ensures c == FirstPresent(Probes(r, useStructured), r.repr)
  {
    var ps, k := Probes(r, useStructured), if useStructured then 1 else 0;
    if useStructured && r.structuredOutput.Some? then
      FirstPresentAt(ps, r.repr, 0);
      r.structuredOutput.value
    else if r.output.Some? then
      FirstPresentAt(ps, r.repr, k);
      r.output.value
    else if r.result.Some? then
      FirstPresentAt(ps, r.repr, k + 1);
      r.result.value
    else if r.reason.Some? then
      FirstPresentAt(ps, r.repr, k + 2);
      r.reason.value
    else
      r.repr
  }

  /** The order in which `Content` probes a result's attributes. */
  function Probes(r: AgentResult, useStructured: bool): (ps: seq<Option<string>>)
    ensures |ps| == if useStructured then 4 else 3
  {
    (if useStructured then [r.structuredOutput] else []) + [r.output, r.result, r.reason]
  }

  /** Without structured mode the structured output is never looked at. */
  lemma StructuredIgnored(r: AgentResult)
    ensures Content(r, false) == Content(r.(structuredOutput := None), false)
  {
  }

  /** Step 2: a result without a `success` attribute counts as a success. */
  function IsSuccess(r: AgentResult): (ok: bool)
    ensures r.success.None? ==> ok
    ensures r.success.Some? ==> ok == r.success.value
  {
    r.success.None? || r.success.value
  }

  const Marker := "TASK_COMPLETE"
  const MarkerWithColon := "TASK_COMPLETE:"

  /** The result kept on success: when the text mentions `TASK_COMPLETE`,
      every `TASK_COMPLETE:` is deleted and the rest stripped; otherwise the
      text as it is. */
  function SuccessText(text: string): (r: string)
    ensures !Contains(text, Marker) ==> r == text
    ensures |r| <= |text|
    ensures Contains(text, MarkerWithColon) ==> |r| < |text|
    ensures Contains(text, Marker) ==> Strip(r) == r
    ensures Contains(text, Marker) && !Contains(text, MarkerWithColon) ==> r == Strip(text)
  {
    if Contains(text, Marker) then
      var removed := RemoveAll(text, MarkerWithColon);
      StripFacts(removed);
      StripTwice(removed);
      Strip(removed)
    else
      if Contains(text, MarkerWithColon) then
        MarkerWithColonHasMarker(text);
        text
      else text
  }

  lemma MarkerWithColonHasMarker(text: string)
    requires Contains(text, MarkerWithColon)
    ensures Contains(text, Marker)
  {
    assert MarkerWithColon == Marker + ":";
    ContainsPrefix(text, Marker, ":");
  }

  /** The agent's usual completion line `TASK_COMPLETE: <answer>` leaves
      just the answer with the whitespace around it trimmed, provided the
      answer carries no marker of its own. */
  lemma MarkerStripped(rest: string)
    requires !Contains(rest, MarkerWithColon)
    ensures SuccessText(MarkerWithColon + rest) == Strip(rest)
  {
    RemoveLeadingMarker(rest);
    LeadingMarkerSeen(rest);
  }

  /** Wherever the first `TASK_COMPLETE:` stands, the text before it is kept
      as it is, the marker goes, and the markers after it are removed in
      turn before the whole is stripped. The requirement says that no
      marker starts inside `before`. */
  lemma MarkerInside(before: string, after: string)
    requires !Contains(before + MarkerWithColon[..|MarkerWithColon| - 1], MarkerWithColon)
    ensures SuccessText(before + MarkerWithColon + after) == Strip(before + RemoveAll(after, MarkerWithColon))
  {
    RemoveAllSkip(before, MarkerWithColon, after);
    ContainsMiddle(before, MarkerWithColon, after);
    MarkerWithColonHasMarker(before + MarkerWithColon + after);
  }

  /** Deleting the markers of a text that starts with one and has no other
      leaves what follows the first. */
  lemma RemoveLeadingMarker(rest: string)
    requires !Contains(rest, MarkerWithColon)
    ensures RemoveAll(MarkerWithColon + rest, MarkerWithColon) == rest
  {
    var text := MarkerWithColon + rest;
    assert text[..|MarkerWithColon|] == MarkerWithColon;
    assert text[|MarkerWithColon|..] == rest;
  }

  lemma LeadingMarkerSeen(rest: string)
    ensures Contains(MarkerWithColon + rest, Marker)
  {
    ContainsMiddle([], MarkerWithColon, rest);
    assert [] + MarkerWithColon + rest == MarkerWithColon + rest;
    MarkerWithColonHasMarker(MarkerWithColon + rest);
  }

  const UnknownFailure := "Unknown failure"

  /** The result kept on failure: the text, or `Unknown failure` when the
      text is empty. */
  function FailureText(text: string): (r: string)
    ensures r != []
    ensures text != [] ==> r == text
    ensures text == [] ==> r == UnknownFailure
  {
    if text == [] then UnknownFailure else text
  }

  const HintFormat := "💡 Hint: The AI response format was unexpected. Try rephrasing your command."
  const HintTimeout := "💡 Hint: Task took too long. Try breaking it into smaller steps."
  const HintRateLimit := "💡 Hint: Hit API rate limit. Wait a moment and try again."
  const CrashHintFormat := "💡 This is a formatting issue. The AI output didn't match expected structure."
  const CrashHintRateLimit := "💡 Hit API rate limit. Please wait 60 seconds before retrying."

  /** The one hint logged after a reported failure, by priority: an invalid
      manager response, then a timeout (any case), then a rate limit (any
      case, or HTTP 429). */
  function FailureHint(result: string): (h: Option<string>)
    ensures Contains(result, "Manager response invalid") ==> h == Some(HintFormat)
    ensures !Contains(result, "Manager response invalid") && Contains(Lower(result), "timeout") ==> h == Some(HintTimeout)
    ensures (!Contains(result, "Manager response invalid") && !Contains(Lower(result), "timeout")
      && (Contains(Lower(result), "rate limit") || Contains(result, "429"))) ==> h == Some(HintRateLimit)
    ensures h == Some(HintRateLimit) ==> Contains(Lower(result), "rate limit") || Contains(result, "429")
    ensures h.None? <==> (!Contains(result, "Manager response invalid") && !Contains(Lower(result), "timeout")
      && !Contains(Lower(result), "rate limit") && !Contains(result, "429"))
  {
    if Contains(result, "Manager response invalid") then Some(HintFormat)
    else if Contains(Lower(result), "timeout") then Some(HintTimeout)
    else if Contains(Lower(result), "rate limit") || Contains(result, "429") then Some(HintRateLimit)
    else None
  }

  /** The one hint logged after a crash, by priority: an invalid manager
      response, then a rate limit (HTTP 429, or `rate_limit` in any case). */
  function CrashHint(error: string): (h: Option<string>)
    ensures Contains(error, "Manager response invalid") ==> h == Some(CrashHintFormat)
    ensures h.Some? && !Contains(error, "Manager response invalid") ==> h == Some(CrashHintRateLimit)
    ensures h.None? <==> (!Contains(error, "Manager response invalid") && !Contains(error, "429")
      && !Contains(Lower(error), "rate_limit"))
  {
    if Contains(error, "Manager response invalid") then Some(CrashHintFormat)
    else if Contains(error, "429") || Contains(Lower(error), "rate_limit") then Some(CrashHintRateLimit)
    else None
  }

  /** A timeout reported in the result text is recognised in any case. */
  lemma TimeoutHint(before: string, after: string)
    requires !Contains(before + "TIMEOUT" + after, "Manager response invalid")
    ensures FailureHint(before + "TIMEOUT" + after) == Some(HintTimeout)
  {
    var text := before + "TIMEOUT" + after;
    LowerAppend(before + "TIMEOUT", after);
    LowerAppend(before, "TIMEOUT");
    LowerAt("TIMEOUT");
    assert Lower("TIMEOUT") == "timeout";
    ContainsMiddle(Lower(before), "timeout", Lower(after));
  }

  /** A crash that mentions HTTP 429 anywhere gets the rate-limit hint,
      unless it is an invalid manager response. */
  lemma RateLimitCrash(before: string, after: string)
    requires !Contains(before + "429" + after, "Manager response invalid")
    ensures CrashHint(before + "429" + after) == Some(CrashHintRateLimit)
  {
    ContainsMiddle(before, "429", after);
  }

  /** The agent's status, as the API names it. */
  datatype Status = Idle | Running | Succeeded | Failed | Stopped | Errored
  {
    function Name(): (n: string)
      ensures Terminal() <==> n in {"success", "failed", "stopped", "error"}
      ensures this == Succeeded <==> n == "success"
      ensures this == Failed <==> n == "failed"
      ensures this == Stopped <==> n == "stopped"
      ensures this == Errored <==> n == "error"
    {
      match this
      case Idle => "idle"
      case Running => "running"
      case Succeeded => "success"
      case Failed => "failed"
      case Stopped => "stopped"
      case Errored => "error"
    }

    /** Every run ends in one of these four states. */
    predicate Terminal()
    {
      this in {Succeeded, Failed, Stopped, Errored}
    }
  }

  /** Different states have different names. */
  lemma NameInjective(a: Status, b: Status)
    ensures a.Name() == b.Name() ==> a == b
  {
  }

  /** How a run went, from the server's point of view.
      - `SetupFailed(error)`: `create_agent` raised before its guarded
        constructor call (writing `config.yaml` in `setup_gemini_env`, or
        the fallback `DroidrunConfig()` in its `except` clause); `error` is
        the exception's text, unwrapped.
      - `AgentNotBuilt(detail)`: the `DroidAgent` constructor raised and
        `create_agent` wrapped it; `detail` is the library's error text.
      - `Returned(r)`: `agent.run()` returned `r` within five minutes.
      - `TimedOut`: a `TimeoutError` reached the handler: either
        `asyncio.wait_for` gave up after 300 seconds, or `agent.run()`
        itself raised `TimeoutError`, which is the same class as
        `asyncio.TimeoutError` from Python 3.11 on.
      - `Cancelled`: the task was cancelled by `/stop` while it waited.
      - `Crashed(error)`: `agent.run()` raised any other exception; `error`
        is its text. */
  datatype RunOutcome =
    | SetupFailed(error: string)
    | AgentNotBuilt(detail: string)
    | Returned(r: AgentResult)
    | TimedOut
    | Cancelled
    | Crashed(error: string)
  {
    /** `create_agent` raised, so no agent ran. */
    predicate NotBuilt()
    {
      SetupFailed? || AgentNotBuilt?
    }
  }

  const TimeoutResult := "Task exceeded 5 minute timeout"
  const TimeoutLog := "⏱️ Task timed out after 5 minutes"
  const StoppedLog := "🛑 Task manually stopped by user"

  function ExecutingLog(task: string): string { "▶️ Executing: " + task }
  function CompletedLog(result: string): string { "✅ Task completed: " + result }
  function SuccessLog(result: string): string { "✅ Success: " + result }
  function FailedLog(result: string): string { "❌ Failed: " + result }
  function ErrorLog(error: string): string { "💥 Error: " + error }

  /** The text of the `RuntimeError` that `create_agent` raises. */
  function AgentNotBuiltError(detail: string): string { "Failed to initialize agent: " + detail }

  function HintLines(h: Option<string>): (lines: seq<string>)
    ensures |lines| <= 1
  {
    if h.Some? then [h.value] else []
  }

  /** The end of a run: its status, its result, and its log lines. */
  datatype Ending = Ending(status: Status, result: Option<string>, logs: seq<string>)

  /** The handler for an exception from `create_agent` or `agent.run()`:
      status `error`, the exception's text as result, its error line after
      the lines `lead` already holds, and its hint if it has one. */
  function CrashEnding(lead: seq<string>, error: string): (e: Ending)
    ensures e.status == Errored && e.result == Some(error)
    ensures |e.logs| == |lead| + 1 + |HintLines(CrashHint(error))|
    ensures e.logs[..|lead|] == lead
    ensures e.logs[|lead|] == ErrorLog(error)
    ensures CrashHint(error).Some? ==> e.logs[|lead| + 1] == CrashHint(error).value
  {
    Ending(Errored, Some(error), lead + [ErrorLog(error)] + HintLines(CrashHint(error)))
  }

  /** The handler for a result that `agent.run()` returned: success or
      failure as the result says, the stored text, one line that reports it
      after `lead`, and on failure its hint if it has one. */
  function ReturnedEnding(lead: seq<string>, r: AgentResult, useStructured: bool): (e: Ending)
    ensures e.status == if IsSuccess(r) then Succeeded else Failed
    ensures IsSuccess(r) ==> e.result == Some(SuccessText(Content(r, useStructured)))
    ensures !IsSuccess(r) ==> e.result == Some(FailureText(Content(r, useStructured)))
    ensures e.result.Some? && |lead| < |e.logs| && e.logs[..|lead|] == lead
    ensures IsSuccess(r) ==> (|e.logs| == |lead| + 1 && e.logs[|lead|] ==
      if Contains(Content(r, useStructured), Marker) then CompletedLog(e.result.value) else SuccessLog(e.result.value))
    ensures !IsSuccess(r) ==> |e.logs| == |lead| + 1 + |HintLines(FailureHint(e.result.value))|
    ensures !IsSuccess(r) ==> e.logs[|lead|] == FailedLog(e.result.value)
    ensures !IsSuccess(r) && FailureHint(e.result.value).Some? ==> e.logs[|lead| + 1] == FailureHint(e.result.value).value
  {
    var text := Content(r, useStructured);
    if IsSuccess(r) then
      if Contains(text, Marker) then
        Ending(Succeeded, Some(SuccessText(text)), lead + [CompletedLog(SuccessText(text))])
      else
        Ending(Succeeded, Some(text), lead + [SuccessLog(text)])
    else
      var failure := FailureText(text);
      Ending(Failed, Some(failure), lead + [FailedLog(failure)] + HintLines(FailureHint(failure)))
  }

  /** `run_droid_task_logic` from building the agent to the end of its
      `except` handlers, on the freshly cleared log: what the status, the
      result and the log are when the run ends. */
  function Conclude(task: string, outcome: RunOutcome, useStructured: bool): (e: Ending)
    ensures e.status.Terminal()
    ensures 1 <= |e.logs| <= 3
    ensures !outcome.NotBuilt() ==> e.logs[0] == ExecutingLog(task)
    ensures e.status == Succeeded <==> outcome.Returned? && IsSuccess(outcome.r)
    ensures e.status == Failed <==> outcome.TimedOut? || (outcome.Returned? && !IsSuccess(outcome.r))
    ensures e.status == Stopped <==> outcome.Cancelled?
    ensures e.status == Errored <==> outcome.NotBuilt() || outcome.Crashed?
    ensures e.result.None? <==> outcome.Cancelled?
    ensures e.status == Failed ==> e.result.Some? && e.result.value != []
    ensures outcome.Returned? ==> e == ReturnedEnding([ExecutingLog(task)], outcome.r, useStructured)
    ensures outcome.TimedOut? ==> e.result == Some(TimeoutResult) && e.logs == [ExecutingLog(task), TimeoutLog]
    ensures outcome.Cancelled? ==> e.logs == [ExecutingLog(task), StoppedLog]
    ensures outcome.Crashed? ==> e == CrashEnding([ExecutingLog(task)], outcome.error)
    ensures outcome.AgentNotBuilt? ==> e == CrashEnding([], AgentNotBuiltError(outcome.detail))
    ensures outcome.SetupFailed? ==> e == CrashEnding([], outcome.error)
  {
    var lead := [ExecutingLog(task)];
    match outcome
    case SetupFailed(error) => CrashEnding([], error)
    case AgentNotBuilt(detail) => CrashEnding([], AgentNotBuiltError(detail))
    case Returned(r) => ReturnedEnding(lead, r, useStructured)
    case TimedOut => Ending(Failed, Some(TimeoutResult), lead + [TimeoutLog])
    case Cancelled => Ending(Stopped, None, lead + [StoppedLog])
    case Crashed(error) => CrashEnding(lead, error)
  }

  /** A crash keeps the exception's text as the result and logs it after
      the executing line. When `create_agent` raised, the log starts with
      the error line instead, and only the constructor's failure carries
      the `Failed to initialize agent: ` prefix. */
  lemma CrashReported(task: string, outcome: RunOutcome, useStructured: bool)
    requires outcome.Crashed? || outcome.NotBuilt()
    ensures var e := Conclude(task, outcome, useStructured);
      var error := if outcome.AgentNotBuilt? then AgentNotBuiltError(outcome.detail) else outcome.error;
      && e.result == Some(error)
      && ErrorLog(error) in e.logs
      && (CrashHint(error).Some? ==> CrashHint(error).value in e.logs)
      && (e.logs[0] == ExecutingLog(task) <==> outcome.Crashed?)
      && (outcome.NotBuilt() ==> e.logs[0] == ErrorLog(error))
  {
    var e := Conclude(task, outcome, useStructured);
    if outcome.NotBuilt() {
      var error := if outcome.AgentNotBuilt? then AgentNotBuiltError(outcome.detail) else outcome.error;
      assert e.logs[0] == ErrorLog(error);
      assert ErrorLog(error)[0] != ExecutingLog(task)[0];
    }
  }
}

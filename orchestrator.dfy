/** The server's single `AgentState` (server.py) and the endpoints that drive
    it: `/execute` starts a background run, the run itself
    (`run_droid_task_logic`) resets the state, captures the keyboard,
    clears the session memory, records the command in the history, runs the
    agent and always restores the keyboard at the end; `/stop`,
    `/fix_keyboard`, `/status` and `/health` act on or read the same state.
    The run is taken as one step whose outcome is an input. */
module Orchestrator {
  import opened Text
  import opened Storage
  import opened History
  import opened DeviceBridge
  import opened AgentBrain
  import opened Outcome

  /** The keyboard `/fix_keyboard` falls back to: Google's Gboard. */
  const DefaultKeyboard := "com.google.android.inputmethod.latin/com.android.inputmethod.latin.LatinIME"
  /** The shortest command `/execute` accepts, once stripped. */
  const MinCommandLength: nat := 3
  /** How many of the latest log lines `/status` returns. */
  const StatusWindow: nat := 100

  const BusyDetail := "Agent is busy. Stop current task first."
  const ShortDetail := "Command too short or empty"

  /** The background task `/execute` creates: the request it runs, and
      whether `/stop` has asked for its cancellation. */
  datatype Task = Task(command: string, appCard: Option<string>, useStructured: bool, reasoning: bool, cancelRequested: bool)

  /** The answer of `/execute`: started, HTTP 409, or HTTP 400. */
  datatype ExecuteReply = Started(command: string) | Conflict(detail: string) | BadRequest(detail: string)

  /** The checks of `/execute`, in their order: a running agent with a task
      handle makes any request a conflict, whatever the command; otherwise a
      command shorter than three characters once stripped is refused (the
      empty command among them). */
  function Gate(status: Status, hasTask: bool, command: string): (r: ExecuteReply)
    ensures r.Conflict? <==> status == Running && hasTask
    ensures r.Conflict? ==> r.detail == BusyDetail
    ensures !r.Conflict? ==> (r.BadRequest? <==> |Strip(command)| < MinCommandLength)
    ensures r.BadRequest? ==> r.detail == ShortDetail
    ensures r.Started? ==> r.command == command
  {
    if status == Running && hasTask then Conflict(BusyDetail)
    else if command == [] || |Strip(command)| < MinCommandLength then BadRequest(ShortDetail)
    else Started(command)
  }

  /** A command of whitespace only is refused when the agent is not busy. */
  lemma BlankCommandRefused(status: Status, hasTask: bool, command: string)
    requires !(status == Running && hasTask)
    requires forall i :: 0 <= i < |command| ==> IsSpace(command[i])
    ensures Gate(status, hasTask, command) == BadRequest(ShortDetail)
  {
    StripEmpty(command);
  }

  /** A run always ends in a state that `/execute` does not treat as busy,
      whether or not a task handle is still around. */
  lemma NotBusyAfterRun(task: string, outcome: RunOutcome, useStructured: bool, hasTask: bool, command: string)
    ensures !Gate(Conclude(task, outcome, useStructured).status, hasTask, command).Conflict?
  {
  }

  /** The keyboard `/fix_keyboard` switches to: the one captured at the
      start of the last run when there is one, else the default. */
  function KeyboardTarget(original: Option<string>): (t: string)
    ensures t != []
    ensures original.Some? && original.value != [] ==> t == original.value
    ensures original.None? || original.value == [] ==> t == DefaultKeyboard
  {
    if original.Some? && original.value != [] then original.value else DefaultKeyboard
  }

  /** The last `n` entries of `logs` (Python's `logs[-n:]`), all of them when
      there are no more than `n`. */
  function LastLogs(logs: seq<string>, n: nat): (r: seq<string>)
    ensures |r| == if |logs| <= n then |logs| else n
    ensures r == logs[|logs| - |r|..]
  {
    if |logs| <= n then logs else logs[|logs| - n..]
  }

  /** A finished run's log is short enough for `/status` to show all of
      it. */
  lemma RunLogShownInFull(task: string, outcome: RunOutcome, useStructured: bool)
    ensures var logs := Conclude(task, outcome, useStructured).logs; LastLogs(logs, StatusWindow) == logs
  {
  }

  /** What a run leaves in memory when the old file `f` was deleted: the
      notes the agent wrote, each with the value it saved last. */
  lemma MemoryAfterRun(f: Stored<Notes>, saves: seq<Save>, i: nat)
    requires i < |saves| && saves[i].write.Written? && IntactAfter(saves, i)
    requires forall j :: i < j < |saves| && saves[j].write.Written? ==> saves[j].key != saves[i].key
    ensures var g := AfterSaves(AfterClear(f, true), saves);
      g.Valid? && saves[i].key in g.value && g.value[saves[i].key] == saves[i].value
  {
    LastSaveWins(Absent, saves, i);
  }

  /** The body of `GET /status`. */
  datatype StatusReply = StatusReply(status: string, logs: seq<string>, result: Option<string>, stepCount: nat)

  /** The body of `GET /health`. */
  datatype HealthReply = HealthReply(status: string, agentStatus: string)

  /** The global `state`. */
  class AgentState {
    var status: Status
    var logs: seq<string>
    var result: Option<string>
    var stepCount: nat
    var originalKeyboard: Option<string>
    var activeTask: Option<Task>

    constructor ()
      ensures status == Idle && logs == [] && result.None? && stepCount == 0
      ensures originalKeyboard.None? && activeTask.None?
    {
      status := Idle;
      logs := [];
      result := None;
      stepCount := 0;
      originalKeyboard := None;
      activeTask := None;
    }

    /** `POST /execute`: refuse, or create the background task for the
        request; nothing else changes until that task runs. */
    method Execute(command: string, appCard: Option<string>, useStructured: bool, reasoning: bool) returns (reply: ExecuteReply)
      modifies this
      ensures reply == Gate(old(status), old(activeTask).Some?, command)
      ensures activeTask == if reply.Started? then Some(Task(command, appCard, useStructured, reasoning, false)) else old(activeTask)
      ensures status == old(status) && logs == old(logs) && result == old(result)
      ensures stepCount == old(stepCount) && originalKeyboard == old(originalKeyboard)
    {
      if status == Running && activeTask.Some? {
        return Conflict(BusyDetail);
      }
      if command == [] || |Strip(command)| < MinCommandLength {
        return BadRequest(ShortDetail);
      }
      activeTask := Some(Task(command, appCard, useStructured, reasoning, false));
      reply := Started(command);
    }

    /** `run_droid_task_logic(task, ...)`, from the reset to the `finally`
        block. `probe` is what the keyboard probe printed, `removed` whether
        deleting the memory file succeeds, `historyWrite` how writing the
        history ends, `saves` the calls the agent makes to its
        `save_note` tool while it runs, and `outcome` how the agent run
        went. An agent that cannot be built saves nothing. */
    method Run(task: string, useStructured: bool, probe: Proc, removed: bool, historyWrite: Write,
               saves: seq<Save>, outcome: RunOutcome, memory: MemoryFile, history: HistoryFile, device: Device)
      modifies this, memory, history, device
      ensures Ending(status, result, logs) == Conclude(task, outcome, useStructured)
      ensures status.Terminal()
      ensures stepCount == 0
      ensures originalKeyboard == KeyboardFromProbe(probe)
      ensures memory.stored == AfterSaves(AfterClear(old(memory.stored), removed), if outcome.NotBuilt() then [] else saves)
      ensures history.stored == AfterUpdate(old(history.stored), task, historyWrite)
      ensures device.imeSets == old(device.imeSets) + if originalKeyboard.Some? then [originalKeyboard.value] else []
      ensures activeTask.None?
    {
      status := Running;
      logs := [];
      result := None;
      stepCount := 0;
      originalKeyboard := KeyboardFromProbe(probe);
      memory.Clear(removed);
      history.Update(task, historyWrite);
      if !outcome.NotBuilt() {
        memory.SaveAll(saves);
      }
      Handle(task, outcome, useStructured);
      if originalKeyboard.Some? {
        KeyboardClean(probe);
        device.SetKeyboard(originalKeyboard.value);
      }
      activeTask := None;
    }

    /** From building the agent to the end of the `except` handlers, on the
        cleared log and result. */
    method Handle(task: string, outcome: RunOutcome, useStructured: bool)
      requires logs == [] && result.None?
      modifies this
      ensures Ending(status, result, logs) == Conclude(task, outcome, useStructured)
      ensures stepCount == old(stepCount) && originalKeyboard == old(originalKeyboard) && activeTask == old(activeTask)
    {
      match outcome {
        case SetupFailed(error) =>
          Crash(error);
        case AgentNotBuilt(detail) =>
          Crash(AgentNotBuiltError(detail));
        case Returned(r) =>
          logs := logs + [ExecutingLog(task)];
          Finish(r, useStructured);
        case TimedOut =>
          logs := logs + [ExecutingLog(task)];
          status := Failed;
          result := Some(TimeoutResult);
          logs := logs + [TimeoutLog];
        case Cancelled =>
          logs := logs + [ExecutingLog(task)];
          status := Stopped;
          logs := logs + [StoppedLog];
        case Crashed(error) =>
          logs := logs + [ExecutingLog(task)];
          Crash(error);
      }
    }

    /** Steps 1 to 3 of processing a returned result: pick the content,
        decide success, and record the result with its log line and hint. */
    method Finish(r: AgentResult, useStructured: bool)
      modifies this
      ensures Ending(status, result, logs) == ReturnedEnding(old(logs), r, useStructured)
      ensures stepCount == old(stepCount) && originalKeyboard == old(originalKeyboard) && activeTask == old(activeTask)
    {
      var finalOutput := Content(r, useStructured);
      if IsSuccess(r) {
        status := Succeeded;
        if Contains(finalOutput, Marker) {
          result := Some(SuccessText(finalOutput));
          logs := logs + [CompletedLog(result.value)];
        } else {
          result := Some(finalOutput);
          logs := logs + [SuccessLog(result.value)];
        }
      } else {
        status := Failed;
        result := Some(FailureText(finalOutput));
        logs := logs + [FailedLog(result.value)];
        var hint := FailureHint(result.value);
        if hint.Some? {
          logs := logs + [hint.value];
        }
      }
    }

    /** The handler for an exception: status `error`, its text as the
        result, the error line and its hint. */
    method Crash(error: string)
      modifies this
      ensures Ending(status, result, logs) == CrashEnding(old(logs), error)
      ensures stepCount == old(stepCount) && originalKeyboard == old(originalKeyboard) && activeTask == old(activeTask)
    {
      status := Errored;
      result := Some(error);
      logs := logs + [ErrorLog(error)];
      var hint := CrashHint(error);
      if hint.Some? {
        logs := logs + [hint.value];
      }
    }

    /** `POST /stop`: cancel the task, if there is one, and put the captured
        keyboard back at once. */
    method Stop(device: Device) returns (message: string)
      modifies this, device
      ensures old(activeTask).Some? ==> message == "Task stopped" && activeTask == Some(old(activeTask).value.(cancelRequested := true))
      ensures old(activeTask).None? ==> message == "No active task" && activeTask.None?
      ensures device.imeSets == old(device.imeSets) +
        if old(activeTask).Some? && originalKeyboard.Some? && originalKeyboard.value != [] then [originalKeyboard.value] else []
      ensures status == old(status) && logs == old(logs) && result == old(result)
      ensures stepCount == old(stepCount) && originalKeyboard == old(originalKeyboard)
    {
      if activeTask.None? {
        return "No active task";
      }
      activeTask := Some(activeTask.value.(cancelRequested := true));
      if originalKeyboard.Some? && originalKeyboard.value != [] {
        device.SetKeyboard(originalKeyboard.value);
      }
      message := "Task stopped";
    }

    /** `POST /fix_keyboard`: switch to the captured keyboard, or to the
        default one. */
    method FixKeyboard(device: Device) returns (message: string)
      modifies device
      ensures device.imeSets == old(device.imeSets) + [KeyboardTarget(originalKeyboard)]
      ensures message == "Keyboard reset to: " + KeyboardTarget(originalKeyboard)
    {
      var target := KeyboardTarget(originalKeyboard);
      device.SetKeyboard(target);
      message := "Keyboard reset to: " + target;
    }

    /** `GET /status`: the status, the latest log lines, the result and the
        step count. */
    function StatusView(): (v: StatusReply)
      reads this
      ensures v.status == status.Name() && v.result == result && v.stepCount == stepCount
      ensures |v.logs| <= StatusWindow && |v.logs| <= |logs| && v.logs == logs[|logs| - |v.logs|..]
      ensures |logs| <= StatusWindow ==> v.logs == logs
    {
      StatusReply(status.Name(), LastLogs(logs, StatusWindow), result, stepCount)
    }

    /** `GET /health`: the server is up, and reports the agent's status by
        its API name, which after any run is one of the four endings. */
    function Health(): (h: HealthReply)
      reads this
      ensures h.status == "ok" && h.agentStatus == status.Name()
      ensures status.Terminal() ==> h.agentStatus in {"success", "failed", "stopped", "error"}
    {
      HealthReply("ok", status.Name())
    }
  }
}

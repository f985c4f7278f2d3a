# DroidRun control server — a Dafny model of its sequential rules

The server (`server.py`) is a FastAPI front end to a phone-automation agent.
It also holds a small amount of state and logic of its own, which this project models and proves properties of:

- the recent-command history file, a move-to-front list of at most ten commands;
- the rule that turns a macro name or a guide title into a file name;
- how a finished agent run becomes a status, a result text and log lines: the normalisation of the duck-typed result, the `TASK_COMPLETE:` marker, the failure and crash hints, and the timeout, cancellation and exception handlers;
- the lifecycle of the global `AgentState`: the `/execute` gate, the per-run reset, the keyboard that is always restored, `/stop`, `/fix_keyboard`, `/status` and `/health`;
- how `adb` output is read: the keyboard probe, `ime set` and `adb connect`;
- the agent's session notes (`save_note`, `read_notes`, `agent_brain.py`), the server's `clear_memory`, and the `variables` that `create_agent` builds.

Files and I/O are inputs to the model.
A JSON file is a `Stored` value: `Absent`, `Malformed`, `Foreign` (parses to another shape) or `Valid`.
A write of a JSON file is a `Write` outcome passed in: `Written`, `OpenFailed` (the file is untouched) or `WriteFailed` (`open(..., 'w')` already truncated the file, so it is left unreadable).
A failing remove or subprocess is a boolean or an error text passed in.
The agent's run is a `RunOutcome` value.

Modules:

| module | file | contents |
|---|---|---|
| `Text` | `text.dfy` | The Python `str` operations used: `isspace`, `isalnum`, `lower`, `strip`, `in`, `replace`. ASCII only. |
| `Storage` | `storage.dfy` | `Option`, `Stored`. |
| `History` | `history.dfy` | `update_history` and `GET /history`. |
| `Naming`, `SlugExamples` | `slug.dfy` | The file-name rule of `create_macro` / `create_guide`, with worked examples. |
| `DeviceBridge` | `bridge.dfy` | Keyboard probe, `set_keyboard`, `connect_wireless_adb`, `/connect_wireless`. |
| `AgentBrain` | `notes.dfy` | Notes file, `clear_memory`, `variables` of `create_agent`. |
| `Outcome` | `outcome.dfy` | Result normalisation, hints, and the ending of a run. |
| `Orchestrator` | `orchestrator.dfy` | `AgentState` and its endpoints. |

Points where the code's behaviour is easy to misread:

- `get_current_keyboard` (server.py:86-96) rejects a probe whose output contains `null` anywhere, not only one that equals `null`.
- A crash (server.py:221-231) gets its own hint rules: no timeout check, `rate_limit` with an underscore, and different texts. These are not the hints for a reported failure (server.py:204-210).
- `read_notes` (agent_brain.py:27-37) on an unreadable file answers `✗ Error reading: …`, not an "empty" message.
- The per-run reset happens inside the background task (server.py:141-150), not in `/execute`. The keyboard is captured before the memory is cleared and the history updated.
- The agent writes notes through its `save_note` tool while it runs (agent_brain.py:116, server.py:164). The memory is cleared only at the start of a run.

## Model

| member | source | states |
|---|---|---|
| `History.RemoveFirst` | server.py:125-126 | `list.remove`: the list is unchanged when the command is absent. Otherwise it is one shorter and gains no new entry. |
| `History.RemoveFirstMultiset` | server.py:125-126 | As multisets, exactly one copy of the command is taken away. |
| `History.RemoveFirstAt` | server.py:125-126 | Only the first occurrence is deleted. Entries before it and after it keep their order. |
| `History.Recent` | server.py:124-133 | The new history is 1 to 10 entries long and starts with the command. |
| `History.RemoveFirstDistinct` | server.py:124-126 | On a duplicate-free history, removal leaves no copy of the command and no duplicates. |
| `History.RecentDistinct` | server.py:124-129 | A duplicate-free history stays duplicate-free, and the command appears exactly once, at the front. |
| `History.RecentKeepsOrder` | server.py:124-133 | The retained entries keep their old relative order. Only the tail beyond the tenth entry is dropped. |
| `History.RecentRepeat` | server.py:124-133 | Running the same command twice in a row changes nothing the second time. |
| `History.ReplayDistinct` | server.py:115-138 | After any sequence of distinct commands, the history holds the ten most recent, most recent first. Eleven distinct commands leave the last ten. |
| `History.UpdateHistory` | server.py:124-133 | The step-by-step membership test, `remove`, `insert(0, c)` and cut to ten compute `Recent`. |
| `History.AfterUpdate` | server.py:117-138 | A missing or unreadable file ends up holding exactly `[c]`. A readable one gets `Recent`. A wrong-shaped file, or a write whose `open` fails, leaves the file as it was. A write that fails after `open` leaves it `Malformed`. |
| `History.HistoryFile.Update` | server.py:115-138 | The file after `update_history` is `AfterUpdate` of the file before. |
| `History.Listed` | server.py:287-293 | `/history` gives the stored list, or `[]` for a missing or unreadable file. |
| `History.TruncatedHistory` | server.py:135-138 | A write that fails after truncating leaves `/history` listing nothing, and the next successful update starts over from `[c]`. |
| `History.ListedAfterUpdate` | server.py:115-138 | After a successful update, `/history` lists the command first and at most ten entries. |
| `Naming.Kept` | server.py:310 | The filter never lengthens the name, and keeps all of it exactly when every character is alphanumeric or a space. |
| `Naming.KeptChars` | server.py:310 | The filter keeps only alphanumerics and spaces. |
| `Naming.Slug` | server.py:310 | The same rule names macros and guides (server.py:333). A stem is never longer than the name. |
| `Naming.SlugShape` | server.py:310 | A slug has only lower-case letters, digits and `_`, and never starts or ends with `_`. |
| `Naming.SlugKeepsAlnums` | server.py:310 | The slug's alphanumerics are exactly the name's, in order, lower-cased. |
| `Naming.SlugEmpty` | server.py:310 | The slug is empty exactly when the name has no letter or digit. |
| `SlugExamples.SlugExample` | server.py:310 | `"My Macro! #1"` becomes `"my_macro_1"`. |
| `SlugExamples.SlugTwice` | server.py:310 | The rule is not idempotent: `"a b"` gives `"a_b"`, which gives `"ab"`. |
| `Naming.SaveAs` | server.py:311-316 | A successful write stores the item under `<stem>.json`, keeps every other file and replies with that file name. A failed write is an HTTP 500 with the error text. If `open` failed, no file changes. If the write failed after `open`, the target file is `Malformed` and every other file is kept. |
| `Naming.CreateMacro` | server.py:308-316 | A macro is saved as `<slug of its name>.json`. Any failed write is an HTTP 500 with the error text. |
| `Naming.CreateGuide` | server.py:331-339 | A guide is saved as `<slug of its title>.json`, by the same rule. Any failed write is an HTTP 500 with the error text. |
| `DeviceBridge.KeyboardFromProbe` | server.py:86-96 | A keyboard is captured exactly when the stripped output is non-empty and the output contains no `null`. It is then the stripped output. A failed probe captures none. |
| `DeviceBridge.KeyboardClean` | server.py:92-93 | A captured id is non-empty, already stripped, and free of `null`. |
| `DeviceBridge.KeyboardNull` | server.py:93 | Output with `null` anywhere in it, however padded, gives no keyboard. |
| `DeviceBridge.ConnectWireless` | server.py:63-83 | Success exactly when the output contains `connected to`. Then the message is `Connected to ip:port`. Otherwise it is `Failed: <stripped output>`, or the exception text. |
| `DeviceBridge.ReportedConnection` | server.py:74-77 | Any output with `connected to` in it (a new or an existing link) counts as success. |
| `DeviceBridge.WirelessEndpoint` | server.py:342-359 | `/connect_wireless` answers success with the target exactly when `adb` reported a connection. Otherwise it is an HTTP 400 whose detail is `Failed: <stripped output>`, or the exception text. |
| `DeviceBridge.Device.SetKeyboard` | server.py:98-103 | `ime set` is issued for a non-empty id only. |
| `AgentBrain.AfterSave` | agent_brain.py:11-22 | After a successful save, the file is a valid mapping with `key ↦ value`. A wrong-shaped file, or a write whose `open` fails, is left as it was. A write that fails after `open` leaves the file `Malformed`. |
| `AgentBrain.SaveKeepsOthers` | agent_brain.py:13-22 | Saving into a readable file keeps every other note and adds no key but `key`. |
| `AgentBrain.SaveStartsOver` | agent_brain.py:13-20 | Saving into a missing or malformed file yields exactly `{key: value}`. |
| `AgentBrain.SaveReply` | agent_brain.py:23-25 | `✓ Saved to memory: key = value` on success, `✗ Error saving: <error>` otherwise. |
| `AgentBrain.SaveReplyHonest` | agent_brain.py:11-25 | A reply starting with `✓` means the note is stored. Any other reply means the file is unchanged or, when the write failed after `open`, `Malformed`. |
| `AgentBrain.ReadNotes` | agent_brain.py:27-37 | The four answers of `read_notes`: absent, unreadable, empty or falsy, and contents. |
| `AgentBrain.ReadNotesDistinct` | agent_brain.py:29-35 | A missing, an empty and a non-empty memory give three different answers. The last begins `Memory Contents:`. |
| `AgentBrain.ReadNotesAbsent` | agent_brain.py:29-30 | `Memory is empty. No data saved yet.` is answered exactly when the file is missing. |
| `AgentBrain.ReadAfterSave` | agent_brain.py:11-35 | A saved note makes the next `read_notes` list the memory contents. |
| `AgentBrain.SavesKeepShape` | agent_brain.py:11-22 | The file never becomes wrong-shaped. A written save with no later write failing after `open` makes it a valid mapping. If every `open` failed it is unchanged. If the last save failed after `open` it is `Malformed`. |
| `AgentBrain.TruncatedSaveLosesNotes` | agent_brain.py:13-25 | A save that fails after truncating loses every earlier note: `read_notes` reports a read error, and the next successful save holds only its own key. |
| `AgentBrain.LastSaveWins` | agent_brain.py:11-22 | After a sequence of saves, a key holds the value of the last written save of it, provided no later write failed after `open`. |
| `AgentBrain.UntouchedNote` | agent_brain.py:13-22 | A note that no written save names keeps its value, and no such key appears, provided no write failed after `open`. |
| `AgentBrain.MemoryFile.SaveAll` | agent_brain.py:11-25 | The agent's `save_note` calls, in order, leave `AfterSaves` of the file. |
| `AgentBrain.AfterClear` | server.py:105-112 | `clear_memory` deletes the file unless the removal fails. |
| `AgentBrain.ReadAfterClear` | server.py:105-112 | After a successful clear, `read_notes` reports that nothing was saved yet. |
| `AgentBrain.MemoryFile.Clear` | server.py:105-112 | The file after `clear_memory` is `AfterClear` of the file before. |
| `AgentBrain.MemoryFile.SaveNote` | agent_brain.py:11-25 | The load, the item assignment and the write-back give `AfterSave`, and the reply is `SaveReply`. |
| `AgentBrain.MemoryFile.Read` | agent_brain.py:27-37 | `read_notes` on the current file: the "nothing saved yet" answer exactly when it is missing. |
| `AgentBrain.AgentVariables` | agent_brain.py:107-110 | `app_card_instructions` is present exactly when the argument is given and non-empty, and then maps to it. There are no other keys. |
| `Outcome.FirstPresent` | server.py:170-180 | With no attribute present, the fallback text is used. |
| `Outcome.FirstPresentAt` | server.py:170-180 | The first present attribute wins, and later ones are ignored. |
| `Outcome.Content` | server.py:170-180 | The content is the first present of `structured_output` (only in structured mode), `output`, `result`, `reason`, else the object's text. |
| `Outcome.StructuredIgnored` | server.py:171 | Outside structured mode, `structured_output` has no effect on the content. |
| `Outcome.IsSuccess` | server.py:182-185 | Success defaults to true when the result has no `success` attribute. |
| `Text.RemoveAll` | server.py:193 | `replace(p, "")` changes nothing exactly when `p` is absent, and otherwise shortens the text. |
| `Text.RemoveAllSkip` | server.py:193 | Text before the first occurrence is kept as it is, that occurrence is removed, and the scan goes on after it. |
| `Outcome.SuccessText` | server.py:191-197 | Text without the marker is kept as is. With the marker, the result is stripped, never longer, and shorter when `TASK_COMPLETE:` occurs. With the bare marker and no `TASK_COMPLETE:`, it is the stripped text. |
| `Outcome.MarkerStripped` | server.py:192-194 | `TASK_COMPLETE:<rest>` with no further marker leaves exactly `rest` with its surrounding whitespace trimmed. |
| `Outcome.MarkerInside` | server.py:192-194 | Before the first `TASK_COMPLETE:` the text is kept; that marker and later ones are removed, then the whole is stripped. |
| `Outcome.FailureText` | server.py:201 | The failure result is never empty. An empty text becomes `Unknown failure`. |
| `Outcome.FailureHint` | server.py:204-210 | At most one hint, by priority: invalid manager response, then timeout (any case), then rate limit (any case) or 429, each chosen exactly when the earlier ones do not match. None exactly when no pattern matches. |
| `Outcome.TimeoutHint` | server.py:207-208 | `TIMEOUT` in any case anywhere in the text gives the timeout hint. |
| `Outcome.CrashHint` | server.py:227-231 | The crash hint, by priority: invalid manager response, then 429 or `rate_limit` (any case). None exactly when neither matches. |
| `Outcome.RateLimitCrash` | server.py:230-231 | A crash mentioning 429 anywhere gets the rate-limit hint. |
| `Outcome.Status.Name` | server.py:142-222 | The API names: exactly the four ending states are named `success`, `failed`, `stopped`, `error`, and each of those names belongs to its state alone: a success shows `success`, a failure or timeout `failed`, a stop `stopped`, a crash `error`. |
| `Outcome.NameInjective` | server.py:142-222 | Different states have different names. |
| `Outcome.CrashEnding` | server.py:221-231 | Status `error`, the exception text as result, its error line after the earlier lines, then its hint if any. |
| `Outcome.ReturnedEnding` | server.py:182-210 | Success or failure as the result says. The stored text (`SuccessText` or `FailureText` of the content), one line reporting it, and on failure its hint if any. |
| `Outcome.Conclude` | server.py:156-232 | Every run ends `success`, `failed`, `stopped` or `error`, each exactly for its outcome. A timeout gives `failed`, the fixed message and the timeout line. Only a cancelled run has no result. The log holds the executing line (unless `create_agent` raised), then the outcome's ending: `ReturnedEnding` or `CrashEnding`, at most three lines. A constructor failure is reported with the `Failed to initialize agent: ` prefix; a failure earlier in `create_agent` (agent_brain.py:93-101) with its own text. |
| `Outcome.CrashReported` | server.py:221-231 | A crash, or a `create_agent` that raised (agent_brain.py:93-101 unwrapped, agent_brain.py:124 wrapped), keeps the error text as the result and logs it with its hint. The log starts with the executing line exactly for a crash of `agent.run()`, and otherwise with the error line. |
| `Orchestrator.Gate` | server.py:259-263 | 409 exactly when the agent is running with a task handle, whatever the command. Otherwise 400 exactly when the stripped command is shorter than 3. |
| `Orchestrator.BlankCommandRefused` | server.py:262-263 | A whitespace-only command is refused with 400. |
| `Orchestrator.NotBusyAfterRun` | server.py:233-238 | After any run, `/execute` no longer answers 409. |
| `Orchestrator.KeyboardTarget` | server.py:281-282 | `/fix_keyboard` targets the captured keyboard if there is one, else the Gboard default. The target is never empty. |
| `Orchestrator.LastLogs` | server.py:252 | `logs[-100:]`: the last `min(100, len)` lines, as a suffix. |
| `Orchestrator.RunLogShownInFull` | server.py:252 | A finished run's log is shown whole by `/status`. |
| `Orchestrator.AgentState.constructor` | server.py:52-58 | The state starts idle, with no logs, result, keyboard or task. |
| `Orchestrator.AgentState.Execute` | server.py:257-268 | The reply is `Gate`. A task handle is set only when the task starts. Nothing else changes. |
| `Orchestrator.AgentState.Run` | server.py:141-239 | Status, result and logs end as `Conclude` says, in an ending state, with the step count reset. The captured keyboard is restored (one `ime set`) exactly when one was captured. The memory is cleared and then holds the agent's saves; the history is updated and the task handle cleared. |
| `Orchestrator.MemoryAfterRun` | server.py:149-164 | After a run whose memory clear succeeded, whatever the file held before, each key the agent wrote holds the value it saved last, provided no later note write failed after `open`. |
| `Orchestrator.AgentState.Handle` | server.py:156-232 | Building the agent, running it and the `except` handlers yield `Conclude`'s ending. |
| `Orchestrator.AgentState.Finish` | server.py:166-210 | Steps 1 to 3 of processing a returned result. |
| `Orchestrator.AgentState.Crash` | server.py:221-231 | The generic exception handler: `error`, the exception text, the error line and its hint. |
| `Orchestrator.AgentState.Stop` | server.py:270-277 | With a task: cancellation is requested and the captured keyboard is restored at once. Without one: `No active task` and no effect. |
| `Orchestrator.AgentState.FixKeyboard` | server.py:279-284 | Exactly one `ime set` of `KeyboardTarget`, and the reply names it. |
| `Orchestrator.AgentState.StatusView` | server.py:248-255 | `/status` shows at most the last 100 log lines, as a suffix of the log, and all of them when there are no more. |
| `Orchestrator.AgentState.Health` | server.py:244-246 | `/health` is `ok` with the agent's status name. After a run (`Run` ensures an ending state) that name is `success`, `failed`, `stopped` or `error`. |

## Left out

- `utils.py`: environment-variable and `config.yaml` setup, with no logic beyond I/O. An exception it raises inside `create_agent` is the `SetupFailed` outcome.
- FastAPI routing, pydantic models and logging. Endpoints are methods that return reply values.
- `announce_action` (spoken announcements around `/connect_wireless`) is not part of this model: it has no effect on the modelled state.
- asyncio itself:
  - `Run` is one atomic step, and its outcome (returned, timed out, cancelled, crashed, agent not built) is an input.
  - A `/stop` or `/execute` that interleaves with a running task is not modelled.
  - A task cancelled before its first step is not modelled. Such a task never resets the state or clears its handle.
- The `subprocess` calls to `adb`. Each is reduced to its standard output or its exception text. The 5 and 10 second timeouts are part of that exception.
- `list_macros` and `list_guides` (directory listing), and JSON serialisation. The `json.dumps` text that `read_notes` shows is an input.
- `create_agent`'s configuration of the agent library (`config.agent.*`, `CUSTOM_TOOLS`) and the `DroidAgent` constructor. A constructor failure is the `AgentNotBuilt` outcome.
- Python's Unicode semantics of `isalnum`, `lower` and `isspace`. The model uses ASCII, where non-ASCII characters are never alphanumeric or whitespace and are left unchanged by `lower`.
- `History.AfterUpdate`: a JSON list whose entries are not all strings is not modelled. Python would update it like any list.
- `AgentBrain.AfterSave`: a notes object whose values are not all strings is not modelled. Python would update it like any object.
- A write whose `close` fails after all of its content reached the disk is modelled as `WriteFailed`, which leaves the file `Malformed`. In Python the file may then still be readable.
- `Outcome.Conclude`: a missing API key makes `setup_gemini_env` call `sys.exit(1)` (utils.py:21-27). The `SystemExit` passes every `except Exception`, so no ending status, result or error line is recorded; only the `finally` block runs. The model has no outcome for this case.
- `Orchestrator.AgentState.Run`: an exception raised while a returned result is being processed (for example by `str` of the result) is not modelled.
- `Orchestrator.AgentState.Stop`: the cancel request is recorded on the task but has no modelled effect on `Run`. A stopped run is the `Cancelled` outcome passed to `Run`.
- `step_count` is reset at the start of each run and never incremented; the model keeps it as such.

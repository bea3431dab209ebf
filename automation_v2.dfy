/**
 * The Automation v2 runtime of a device (automation_v2_handlers.py): output
 * trimming, reading a step's command or wait_for target, validating and
 * resolving a wait_for target, and the single-task state machine driven by
 * `start`, `get_state`, `cancel` and the step-running loop `_run_task`.
 */
module AutomationV2 {
  import opened Wrappers
  import opened Text

  // ------------------------------------------------------------------ _trim_text

  const MaxStdioChars: int := 8000

  /** The marker `_trim_text` puts at the end of cut text. */
  function TruncationSuffix(maxChars: int): string
  {
    "\n...[truncated to " + IntToString(maxChars) + " chars]"
  }

  /** Python's `s[:k]`: a negative `k` counts from the end; the cut is clamped to the text. */
  function SliceTo(s: string, k: int): (r: string)
    ensures |r| <= |s| && r == s[..|r|]
    ensures k >= 0 ==> |r| == if k <= |s| then k else |s|
    ensures k < 0 ==> |r| == if |s| + k >= 0 then |s| + k else 0
  {
    if k >= 0 then (if k <= |s| then s[..k] else s)
    else if |s| + k >= 0 then s[..|s| + k] else ""
  }

  /**
   * `_trim_text` on text: text of at most `maxChars` characters is kept;
   * longer text is cut and marked, keeping a prefix of the text before the
   * marker, and the result is exactly `maxChars` long when the marker fits.
   */
  function TrimText(text: string, maxChars: int): (r: string)
    ensures |text| <= maxChars ==> r == text
    ensures |text| > maxChars ==>
      EndsWith(r, TruncationSuffix(maxChars)) && StartsWith(text, r[..|r| - |TruncationSuffix(maxChars)|])
    ensures |text| > maxChars && |TruncationSuffix(maxChars)| <= maxChars ==> |r| == maxChars
  {
    if |text| <= maxChars then text
    else
      var suffix := TruncationSuffix(maxChars);
      var kept := SliceTo(text, maxChars - |suffix|);
      assert (kept + suffix)[..|kept|] == kept;
      kept + suffix
  }

  /** `_trim_text(value)`: `None` reads as the empty text, anything else as its `str()`. */
  function TrimValue(v: Value, maxChars: int): string
  {
    TrimText(if v.Null? then "" else PyStr(v), maxChars)
  }

  /** Trimming what is already trimmed changes nothing once the marker fits. */
  lemma {:induction false} TrimTextIdempotent(text: string, maxChars: int)
    requires |TruncationSuffix(maxChars)| <= maxChars
    ensures TrimText(TrimText(text, maxChars), maxChars) == TrimText(text, maxChars)
  {
  }

  lemma {:induction false} DefaultSuffixLength()
    ensures |TruncationSuffix(MaxStdioChars)| == 29
  {
    assert NatToString(8) == "8";
    assert NatToString(80) == NatToString(8) + ['0'];
    assert NatToString(800) == NatToString(80) + ['0'];
    assert NatToString(8000) == NatToString(800) + ['0'];
  }

  /** With the handlers' limit of 8000 characters, long output becomes exactly 8000 characters ending in the marker. */
  lemma {:induction false} TrimDefault(text: string)
    ensures var r := TrimText(text, MaxStdioChars);
      |r| <= MaxStdioChars && (|text| > MaxStdioChars ==> |r| == MaxStdioChars && EndsWith(r, TruncationSuffix(MaxStdioChars)))
  {
    DefaultSuffixLength();
  }

  // ------------------------------------------------------------------ _extract_step_command, _extract_step_wait_for

  /** An instruction: a JSON object, as its key/value pairs in order, or any other JSON value. */
  datatype Step = StepObject(entries: seq<(string, Value)>) | StepNotAnObject

  /**
   * `{str(k).lower(): v for k, v in step.items()}.get(key)`: the value of the
   * last pair whose lower-cased key is `key`, or `None`.
   */
  function NormalizedGet(entries: seq<(string, Value)>, key: string): Value
    decreases |entries|
  {
    if |entries| == 0 then Null
    else if Lower(entries[|entries| - 1].0) == key then entries[|entries| - 1].1
    else NormalizedGet(entries[..|entries| - 1], key)
  }

  /** The dictionary the comprehension builds, one pair at a time: a later pair overwrites an earlier one. */
  function NormalizedMap(entries: seq<(string, Value)>): map<string, Value>
    decreases |entries|
  {
    if |entries| == 0 then map[]
    else NormalizedMap(entries[..|entries| - 1])[Lower(entries[|entries| - 1].0) := entries[|entries| - 1].1]
  }

  /** Looking a key up in the lower-cased dictionary is what `NormalizedGet` computes. */
  lemma {:induction false} NormalizedGetIsLookup(entries: seq<(string, Value)>, key: string)
    ensures NormalizedGet(entries, key) == Get(NormalizedMap(entries), key)
    decreases |entries|
  {
    if |entries| > 0 {
      NormalizedGetIsLookup(entries[..|entries| - 1], key);
    }
  }

  function LowerKeys(entries: seq<(string, Value)>): (r: seq<(string, Value)>)
    ensures |r| == |entries|
    ensures forall i :: 0 <= i < |r| ==> r[i] == (Lower(entries[i].0), entries[i].1)
  {
    seq(|entries|, i requires 0 <= i < |entries| => (Lower(entries[i].0), entries[i].1))
  }

  lemma {:induction false} LowerTwice(s: string)
    ensures Lower(Lower(s)) == Lower(s)
  {
    forall i | 0 <= i < |s| ensures Lower(Lower(s))[i] == Lower(s)[i] {
    }
  }

  /** Keys are matched without regard to case: lower-casing them first changes no lookup. */
  lemma {:induction false} NormalizedGetLowerKeys(entries: seq<(string, Value)>, key: string)
    ensures NormalizedGet(LowerKeys(entries), key) == NormalizedGet(entries, key)
    decreases |entries|
  {
    if |entries| > 0 {
      var n := |entries| - 1;
      assert LowerKeys(entries)[..n] == LowerKeys(entries[..n]);
      LowerTwice(entries[n].0);
      NormalizedGetLowerKeys(entries[..n], key);
    }
  }

  /** `command_text or None` */
  function NonBlank(text: string): Option<string>
  {
    if text == "" then None else Some(text)
  }

  /** `_extract_step_command` */
  function StepCommand(step: Step): Option<string>
  {
    match step
    case StepNotAnObject => None
    case StepObject(entries) =>
      var command := Or(Or(NormalizedGet(entries, "command"), NormalizedGet(entries, "cmd")), NormalizedGet(entries, "run"));
      if command.Null? then None else NonBlank(StrippedStr(command))
  }

  /** `_extract_step_wait_for` */
  function StepWaitFor(step: Step): Option<string>
  {
    match step
    case StepNotAnObject => None
    case StepObject(entries) =>
      var value := NormalizedGet(entries, "wait_for");
      if value.Null? then None else NonBlank(StrippedStr(value))
  }

  /** A step command or wait_for target is `str(value).strip()` of the chosen value, and never blank. */
  lemma {:induction false} StepTextsStripped(step: Step)
    ensures StepCommand(step).Some? ==> StepCommand(step).value != "" && Strip(StepCommand(step).value) == StepCommand(step).value
    ensures StepWaitFor(step).Some? ==> StepWaitFor(step).value != "" && Strip(StepWaitFor(step).value) == StepWaitFor(step).value
    ensures step.StepNotAnObject? ==> StepCommand(step).None? && StepWaitFor(step).None?
  {
    if step.StepObject? {
      var entries := step.entries;
      var command := Or(Or(NormalizedGet(entries, "command"), NormalizedGet(entries, "cmd")), NormalizedGet(entries, "run"));
      StrippedStrIsStrip(command);
      StripTwice(PyStr(command));
      var value := NormalizedGet(entries, "wait_for");
      StrippedStrIsStrip(value);
      StripTwice(PyStr(value));
    }
  }

  /**
   * The command is read from the first truthy of `command`, `cmd`, `run`; when
   * none is truthy, `or` falls through to `run`, and only a missing or null
   * `run` gives no command.
   */
  lemma {:induction false} StepCommandFirstTruthy(entries: seq<(string, Value)>)
    ensures var c := NormalizedGet(entries, "command");
      var d := NormalizedGet(entries, "cmd");
      var u := NormalizedGet(entries, "run");
      var r := StepCommand(StepObject(entries));
      (Truthy(c) ==> r == NonBlank(StrippedStr(c))) &&
      (!Truthy(c) && Truthy(d) ==> r == NonBlank(StrippedStr(d))) &&
      (!Truthy(c) && !Truthy(d) ==> r == if u.Null? then None else NonBlank(StrippedStr(u)))
  {
  }

  /** The case of a key does not matter: a step reads the same after lower-casing its keys. */
  lemma {:induction false} StepTextsIgnoreKeyCase(entries: seq<(string, Value)>)
    ensures StepCommand(StepObject(LowerKeys(entries))) == StepCommand(StepObject(entries))
    ensures StepWaitFor(StepObject(LowerKeys(entries))) == StepWaitFor(StepObject(entries))
  {
    NormalizedGetLowerKeys(entries, "command");
    NormalizedGetLowerKeys(entries, "cmd");
    NormalizedGetLowerKeys(entries, "run");
    NormalizedGetLowerKeys(entries, "wait_for");
  }

  /** As written, a falsy `run` that is not null is still a command: `{"run": 0}` runs "0". */
  lemma {:induction false} FalsyRunIsCommand()
    ensures StepCommand(StepObject([("run", Num(0))])) == Some("0")
  {
    var entries := [("run", Num(0))];
    assert Lower("run") == "run";
    assert Lower("run") != "command" && Lower("run") != "cmd";
    assert NormalizedGet(entries[..0], "command") == Null;
    assert NormalizedGet(entries, "run") == Num(0);
    assert IntToString(0) == "0";
  }

  // ------------------------------------------------------------------ _resolve_wait_for_url

  const EmptyTargetMessage: string := "wait_for target cannot be empty"
  const SchemeMessage: string := "wait_for target must start with http:// or https://"
  const ExposedPortRangeMessage: string := "wait_for exposed port must be between 1 and 65535"

  function UnresolvedPortMessage(port: int): string
  {
    "Unable to resolve [exposed:" + IntToString(port) + "] from exposed services data"
  }

  predicate HasHttpScheme(value: string)
  {
    StartsWith(Lower(value), "http://") || StartsWith(Lower(value), "https://")
  }

  /** The number of ASCII digits at the start of `s`. */
  function DigitRun(s: string): (n: nat)
    ensures n <= |s| && (forall i :: 0 <= i < n ==> IsDigit(s[i])) && (n < |s| ==> !IsDigit(s[n]))
    decreases |s|
  {
    if |s| > 0 && IsDigit(s[0]) then 1 + DigitRun(s[1..]) else 0
  }

  /**
   * The digits of a match of `\[exposed:(\d{1,5})\]`, case-insensitive, at
   * the start of `s`. A longer run of digits cannot match: however few digits
   * the group takes, a digit follows them instead of "]".
   */
  function PlaceholderAt(s: string): (r: Option<string>)
    ensures r.Some? ==>
      1 <= |r.value| <= 5 && 10 + |r.value| <= |s| && AllDigits(r.value) &&
      s[0] == '[' && s[9 + |r.value|] == ']' && r.value == s[9..9 + |r.value|]
  {
    if |s| < 9 || Lower(s[..9]) != "[exposed:" then None
    else
      var n := DigitRun(s[9..]);
      if 1 <= n <= 5 && 9 + n < |s| && s[9 + n] == ']' then
        assert LowerChar(s[0]) == Lower(s[..9])[0];
        Some(s[9..9 + n])
      else None
  }

  predicate HasPlaceholder(s: string)
  {
    exists i :: 0 <= i < |s| && PlaceholderAt(s[i..]).Some?
  }

  /**
   * `WAIT_FOR_PLACEHOLDER_RE.sub(_replace, value)`: each placeholder, left to
   * right, becomes the hostname of its port; the first port out of range or
   * without a hostname raises.
   */
  function Substitute(s: string, hosts: map<int, string>): Result<string, string>
    decreases |s|
  {
    if |s| == 0 then Ok("")
    else
      match PlaceholderAt(s)
      case None =>
        (match Substitute(s[1..], hosts)
         case Ok(rest) => Ok([s[0]] + rest)
         case Err(e) => Err(e))
      case Some(digits) =>
        var port := DigitsValue(digits);
        if port < 1 || port > 65535 then Err(ExposedPortRangeMessage)
        else if port !in hosts || hosts[port] == "" then Err(UnresolvedPortMessage(port))
        else
          match Substitute(s[10 + |digits|..], hosts)
          case Ok(rest) => Ok(hosts[port] + rest)
          case Err(e) => Err(e)
  }

  /** `_resolve_wait_for_url`, with the hostnames of the exposed services by port. */
  function ResolveWaitForUrl(target: Value, hosts: map<int, string>): Result<string, string>
  {
    var value := StrippedStr(Or(target, Str("")));
    if value == "" then Err(EmptyTargetMessage)
    else if !HasHttpScheme(value) then Err(SchemeMessage)
    else if !HasPlaceholder(value) then Ok(value)
    else Substitute(value, hosts)
  }

  /** Text without placeholders substitutes to itself, so the early return agrees with the substitution. */
  lemma {:induction false} SubstituteNoPlaceholder(s: string, hosts: map<int, string>)
    requires !HasPlaceholder(s)
    ensures Substitute(s, hosts) == Ok(s)
    decreases |s|
  {
    if |s| > 0 {
      assert s[0..] == s;
      assert PlaceholderAt(s).None?;
      forall i | 0 <= i < |s[1..]| ensures PlaceholderAt(s[1..][i..]).None? {
        assert s[1..][i..] == s[i + 1..];
      }
      SubstituteNoPlaceholder(s[1..], hosts);
      assert [s[0]] + s[1..] == s;
    }
  }

  /** Substitution leaves alone a prefix with no "[" in it. */
  lemma {:induction false} SubstituteKeepsPrefix(s: string, hosts: map<int, string>, k: nat)
    requires k <= |s| && forall i :: 0 <= i < k ==> s[i] != '['
    requires Substitute(s, hosts).Ok?
    ensures k <= |Substitute(s, hosts).value| && Substitute(s, hosts).value[..k] == s[..k]
    decreases k
  {
    if k > 0 {
      assert PlaceholderAt(s).None?;
      var rest := Substitute(s[1..], hosts).value;
      assert Substitute(s, hosts).value == [s[0]] + rest;
      SubstituteKeepsPrefix(s[1..], hosts, k - 1);
      assert s[..k] == [s[0]] + s[1..][..k - 1];
    }
  }

  /** The text a wait_for target is validated on: `str(target or "").strip()`. */
  function TargetText(target: Value): string
  {
    StrippedStr(Or(target, Str("")))
  }

  /**
   * A blank target fails with the empty-target error and a target without an
   * http(s) scheme with the scheme error; a resolved URL keeps the scheme,
   * and a target without placeholders resolves to itself.
   */
  lemma {:induction false} ResolveWaitForUrlCases(target: Value, hosts: map<int, string>)
    ensures var r := ResolveWaitForUrl(target, hosts);
      var value := TargetText(target);
      (r == Err(EmptyTargetMessage) <==> value == "") &&
      (r == Err(SchemeMessage) <==> value != "" && !HasHttpScheme(value)) &&
      (r.Ok? ==> HasHttpScheme(r.value)) &&
      (value != "" && HasHttpScheme(value) && !HasPlaceholder(value) ==> r == Ok(value))
  {
    var value := TargetText(target);
    assert EmptyTargetMessage[16] != SchemeMessage[16];
    if value != "" && HasHttpScheme(value) && HasPlaceholder(value) {
      if Substitute(value, hosts).Ok? {
        ResolveSubstituted(value, hosts);
      } else {
        SubstitutionErrorsDistinct(value, hosts);
      }
    }
  }

  /** A substitution never fails with one of the two validation errors. */
  lemma {:induction false} SubstitutionErrorsDistinct(s: string, hosts: map<int, string>)
    requires Substitute(s, hosts).Err?
    ensures Substitute(s, hosts).error != EmptyTargetMessage && Substitute(s, hosts).error != SchemeMessage
  {
    SubstituteErrors(s, hosts);
    var e := Substitute(s, hosts).error;
    if e == ExposedPortRangeMessage {
      assert e[9] != EmptyTargetMessage[9] && e[9] != SchemeMessage[9];
    } else {
      var port :| 1 <= port <= 65535 && e == UnresolvedPortMessage(port);
      assert e[0] == 'U';
    }
  }

  /** The errors of a substitution are the port-range error and the unresolved-port errors. */
  lemma {:induction false} SubstituteErrors(s: string, hosts: map<int, string>)
    requires Substitute(s, hosts).Err?
    ensures var e := Substitute(s, hosts).error;
      e == ExposedPortRangeMessage || exists port :: 1 <= port <= 65535 && e == UnresolvedPortMessage(port)
    decreases |s|
  {
    match PlaceholderAt(s)
    case None => SubstituteErrors(s[1..], hosts);
    case Some(digits) =>
      var port := DigitsValue(digits);
      if 1 <= port <= 65535 && port in hosts && hosts[port] != "" {
        SubstituteErrors(s[10 + |digits|..], hosts);
      }
  }

  lemma {:induction false} SchemeNoBracket(value: string, k: nat)
    requires HasHttpScheme(value) && (k == 7 || k == 8) && StartsWith(Lower(value), if k == 7 then "http://" else "https://")
    ensures forall i :: 0 <= i < k ==> value[i] != '['
  {
    forall i | 0 <= i < k ensures value[i] != '[' {
      assert Lower(value)[i] == LowerChar(value[i]);
      assert Lower(value)[..k][i] == Lower(value)[i];
    }
  }

  /** Substituting placeholders keeps the http(s) scheme of the target. */
  lemma {:induction false} ResolveSubstituted(value: string, hosts: map<int, string>)
    requires HasHttpScheme(value) && Substitute(value, hosts).Ok?
    ensures HasHttpScheme(Substitute(value, hosts).value)
  {
    var k: nat := if StartsWith(Lower(value), "http://") then 7 else 8;
    SchemeNoBracket(value, k);
    SubstituteKeepsPrefix(value, hosts, k);
    var r := Substitute(value, hosts).value;
    assert Lower(r)[..k] == Lower(value)[..k] by {
      forall i | 0 <= i < k ensures Lower(r)[..k][i] == Lower(value)[..k][i] {
        assert r[..k][i] == value[..k][i];
      }
    }
  }

  // ------------------------------------------------------------------ task state

  /** The `status` of a task; a persisted task may carry any other text. */
  datatype TaskStatus = Pending | Running | Success | Failed | Cancelled | OtherStatus(text: string)

  /** The `current_step_status` of a task. */
  datatype StepStatus = StepPending | StepRunning | StepSuccess | StepFailed

  /** wait_for details of a step result: its target and the URL it resolved to. */
  datatype WaitForInfo = WaitForInfo(target: string, resolvedUrl: Option<string>)

  /**
   * An entry of `steps`: the `{"status": "pending"}` filler, or the result of a
   * finished step; `timedOut` stands for the "step timed out after …" error.
   */
  datatype StepRecord =
    | PendingSlot
    | StepResult(index: nat, command: string, succeeded: bool, returncode: Option<int>,
                 stdout: string, stderr: string, timedOut: bool, waitFor: Option<WaitForInfo>)

  /** `last_error`: the step's timeout error, or a message. */
  datatype ErrorText = TimedOutError | ErrorMessage(text: string)

  /** A task record, without its timestamps and default timeout. */
  datatype TaskState = TaskState(
    taskId: string,
    status: TaskStatus,
    instructions: seq<Step>,
    currentStepIndex: nat,
    currentStepStatus: StepStatus,
    steps: seq<StepRecord>,
    lastError: Option<ErrorText>,
    cancelRequested: bool,
    stateSeq: int)

  /** The runtime's `_state`: the active task id and the tasks by id. */
  datatype Snapshot = Snapshot(activeTaskId: Option<string>, tasks: map<string, TaskState>)

  predicate Live(status: TaskStatus)
  {
    status == Running || status == Pending
  }

  predicate Terminal(status: TaskStatus)
  {
    status == Success || status == Failed || status == Cancelled
  }

  /** The active id, when set, names a task, and every task is stored under its own id. */
  predicate Consistent(s: Snapshot)
  {
    (s.activeTaskId.Some? ==> s.activeTaskId.value in s.tasks) &&
    (forall k :: k in s.tasks ==> s.tasks[k].taskId == k)
  }

  // ------------------------------------------------------------------ start

  const InstructionsMessage: string := "instructions must be a list"
  const TaskIdMessage: string := "task_id is required"
  const AnotherTaskMessage: string := "Another automation task is active on device: "

  datatype StartError = ValueError(message: string) | RuntimeError(message: string)

  datatype StartResult = StartResult(reply: Result<TaskState, StartError>, after: Snapshot)

  /** The record `start` creates for a new task. */
  function NewTask(key: string, instructions: seq<Step>): TaskState
  {
    TaskState(key, Pending, instructions, 0, StepPending, [], None, false, 1)
  }

  /** The other task that blocks a start: the active id, when it is set, differs, and names a running or pending task. */
  function BlockingTask(s: Snapshot, key: string): Option<string>
  {
    match s.activeTaskId
    case Some(a) =>
      if a != "" && a != key && a in s.tasks && Live(s.tasks[a].status) then Some(a) else None
    case None => None
  }

  /** What `start` replies and leaves; `None` instructions stand for a value that is not a list. */
  function StartSpec(s: Snapshot, taskId: string, instructions: Option<seq<Step>>): StartResult
  {
    var key := Strip(taskId);
    if instructions.None? then StartResult(Err(ValueError(InstructionsMessage)), s)
    else if key == "" then StartResult(Err(ValueError(TaskIdMessage)), s)
    else if BlockingTask(s, key).Some? then
      StartResult(Err(RuntimeError(AnotherTaskMessage + BlockingTask(s, key).value)), s)
    else if key in s.tasks && !s.tasks[key].status.OtherStatus? then
      var existing := s.tasks[key].(stateSeq := s.tasks[key].stateSeq + 1);
      StartResult(Ok(existing), Snapshot(if Live(existing.status) then Some(key) else None, s.tasks[key := existing]))
    else
      var created := NewTask(key, instructions.value);
      StartResult(Ok(created), Snapshot(Some(key), s.tasks[key := created]))
  }

  /**
   * `start` fails exactly on a non-list, a blank id, or another running or
   * pending active task, in that order of checks, and a failed start changes
   * nothing.
   */
  lemma {:induction false} StartErrors(s: Snapshot, taskId: string, instructions: Option<seq<Step>>)
    ensures var r := StartSpec(s, taskId, instructions);
      var key := Strip(taskId);
      (r.reply.Err? <==> instructions.None? || key == "" || BlockingTask(s, key).Some?) &&
      (r.reply.Err? ==> r.after == s) &&
      (r.reply == Err(ValueError(InstructionsMessage)) <==> instructions.None?) &&
      (r.reply == Err(ValueError(TaskIdMessage)) <==> instructions.Some? && key == "") &&
      (r.reply.Err? && r.reply.error.RuntimeError? <==> instructions.Some? && key != "" && BlockingTask(s, key).Some?)
  {
    assert InstructionsMessage[0] != TaskIdMessage[0];
  }

  /** A new id is stored as a fresh pending task at step 0 with sequence number 1 and becomes the active task. */
  lemma {:induction false} StartCreates(s: Snapshot, taskId: string, instructions: seq<Step>)
    requires Strip(taskId) != "" && BlockingTask(s, Strip(taskId)).None?
    requires Strip(taskId) !in s.tasks || s.tasks[Strip(taskId)].status.OtherStatus?
    ensures var r := StartSpec(s, taskId, Some(instructions));
      var key := Strip(taskId);
      r.reply.Ok? && r.reply.value.taskId == key && r.reply.value.status == Pending &&
      r.reply.value.instructions == instructions && r.reply.value.currentStepIndex == 0 &&
      r.reply.value.currentStepStatus == StepPending && r.reply.value.steps == [] &&
      r.reply.value.stateSeq == 1 && !r.reply.value.cancelRequested &&
      r.after.activeTaskId == Some(key) && r.after.tasks == s.tasks[key := r.reply.value]
  {
  }

  /**
   * Starting a known task again returns its record with the sequence number
   * one higher and otherwise unchanged (the new instructions are ignored); it
   * is active only while it is running or pending.
   */
  lemma {:induction false} StartRestarts(s: Snapshot, taskId: string, instructions: seq<Step>)
    requires Strip(taskId) != "" && BlockingTask(s, Strip(taskId)).None?
    requires Strip(taskId) in s.tasks && !s.tasks[Strip(taskId)].status.OtherStatus?
    ensures var r := StartSpec(s, taskId, Some(instructions));
      var key := Strip(taskId);
      var old_ := s.tasks[key];
      r.reply == Ok(old_.(stateSeq := old_.stateSeq + 1)) &&
      r.after.tasks == s.tasks[key := r.reply.value] &&
      (r.after.activeTaskId == Some(key) <==> Live(old_.status)) &&
      (!Live(old_.status) ==> r.after.activeTaskId == None)
  {
  }

  /** `start` keeps the runtime consistent, and the task it replies with is then what `get_state` returns. */
  lemma {:induction false} StartConsistent(s: Snapshot, taskId: string, instructions: Option<seq<Step>>)
    requires Consistent(s)
    ensures var r := StartSpec(s, taskId, instructions);
      Consistent(r.after) && (r.reply.Ok? ==> StateOf(r.after, taskId) == Found(r.reply.value))
  {
    var key := Strip(taskId);
    if instructions.Some? && key != "" && BlockingTask(s, key).None? {
      if key in s.tasks && !s.tasks[key].status.OtherStatus? {
        StartRestarts(s, taskId, instructions.value);
        var r := StartSpec(s, taskId, instructions);
        ConsistentUpdate(s, key, r.reply.value, r.after.activeTaskId);
      } else {
        StartCreates(s, taskId, instructions.value);
        var r := StartSpec(s, taskId, instructions);
        ConsistentUpdate(s, key, r.reply.value, r.after.activeTaskId);
      }
    } else {
      StartErrors(s, taskId, instructions);
    }
  }

  /** Storing a task under its own id, and activating it or a stored task, keeps the runtime consistent. */
  lemma {:induction false} ConsistentUpdate(s: Snapshot, key: string, st: TaskState, active: Option<string>)
    requires Consistent(s) && st.taskId == key
    requires active.Some? ==> active.value in s.tasks || active.value == key
    ensures Consistent(Snapshot(active, s.tasks[key := st]))
  {
  }

  // ------------------------------------------------------------------ get_state, cancel

  /**
   * A reply about one task: its record, or the "unknown" reply of `get_state`
   * (index 0, step pending, no steps, last_error "task not found") or of
   * `cancel` (message "task not found").
   */
  datatype Reply = Found(state: TaskState) | StateNotFound(taskId: string) | CancelNotFound(taskId: string)

  /** `get_state` */
  function StateOf(s: Snapshot, taskId: string): Reply
  {
    var key := Strip(taskId);
    if key in s.tasks then Found(s.tasks[key]) else StateNotFound(key)
  }

  /** What `cancel` does to a task record. */
  function CancelTask(st: TaskState): TaskState
  {
    var requested := st.(cancelRequested := true);
    var stopped := if Live(st.status) then requested.(status := Cancelled, currentStepStatus := StepFailed) else requested;
    stopped.(stateSeq := st.stateSeq + 1)
  }

  datatype CancelResult = CancelResult(reply: Reply, after: Snapshot)

  /** What `cancel` replies and leaves. */
  function CancelSpec(s: Snapshot, taskId: string): CancelResult
  {
    var key := Strip(taskId);
    if key !in s.tasks then CancelResult(CancelNotFound(key), s)
    else
      var after := Snapshot(s.activeTaskId, s.tasks[key := CancelTask(s.tasks[key])]);
      CancelResult(StateOf(after, key), after)
  }

  /**
   * Cancelling an unknown id replies "unknown" and changes nothing; cancelling
   * a known one marks it, stops it when running or pending, keeps any other
   * status, bumps its sequence number by one and replies with the new record.
   */
  lemma {:induction false} CancelCases(s: Snapshot, taskId: string)
    ensures var r := CancelSpec(s, taskId);
      var key := Strip(taskId);
      (key !in s.tasks ==> r.reply == CancelNotFound(key) && r.after == s) &&
      (key in s.tasks ==>
        var st := s.tasks[key];
        var c := r.after.tasks[key];
        r.reply == Found(c) && r.after.tasks == s.tasks[key := c] && r.after.activeTaskId == s.activeTaskId &&
        c.cancelRequested && c.stateSeq == st.stateSeq + 1 &&
        (Live(st.status) ==> c.status == Cancelled && c.currentStepStatus == StepFailed) &&
        (!Live(st.status) ==> c.status == st.status && c.currentStepStatus == st.currentStepStatus) &&
        c.(cancelRequested := st.cancelRequested, status := st.status, currentStepStatus := st.currentStepStatus,
           stateSeq := st.stateSeq) == st)
  {
    var key := Strip(taskId);
    if key in s.tasks {
      StripTwice(taskId);
    }
  }

  /** A cancel of a known task replies with the cancelled record it stores. */
  lemma {:induction false} CancelKnown(s: Snapshot, taskId: string)
    requires Strip(taskId) in s.tasks
    ensures var key := Strip(taskId);
      var c := CancelTask(s.tasks[key]);
      CancelSpec(s, taskId) == CancelResult(Found(c), Snapshot(s.activeTaskId, s.tasks[key := c]))
  {
    StripTwice(taskId);
  }

  /** `cancel` keeps the runtime consistent. */
  lemma {:induction false} CancelConsistent(s: Snapshot, taskId: string)
    requires Consistent(s)
    ensures Consistent(CancelSpec(s, taskId).after)
  {
  }

  // ------------------------------------------------------------------ _run_task

  /**
   * How a step ran, as the runner sees it afterwards: the return code, whether
   * it timed out, its raw output and, for wait_for, the URL it resolved; and
   * whether a `cancel` of the task arrived while it ran.
   */
  datatype StepOutcome = StepOutcome(returncode: Option<int>, timedOut: bool, stdout: string, stderr: string,
                                     resolvedUrl: Option<string>, cancelledMeanwhile: bool)

  /** One pass of the loop of `_run_task`: the run either ends or goes on to the next pass. */
  datatype Tick = Finished(s: Snapshot) | Advanced(s: Snapshot)

  /** The `steps` list padded with fillers until it has an entry at `index`. */
  function Padded(steps: seq<StepRecord>, index: nat): (r: seq<StepRecord>)
    ensures |r| == if |steps| > index then |steps| else index + 1
    ensures r[..|steps|] == steps && forall i :: |steps| <= i < |r| ==> r[i] == PendingSlot
  {
    if |steps| > index then steps else steps + seq(index + 1 - |steps|, _ => PendingSlot)
  }

  /** The record of a finished step: wait_for runs when there is a target, a command otherwise. */
  function StepResultOf(index: nat, command: Option<string>, waitFor: Option<string>, o: StepOutcome): StepRecord
    requires command.Some? || waitFor.Some?
  {
    var succeeded := !o.timedOut && o.returncode == Some(0);
    var stdout := TrimText(o.stdout, MaxStdioChars);
    var stderr := TrimText(o.stderr, MaxStdioChars);
    if waitFor.Some? then
      StepResult(index, "wait_for " + waitFor.value, succeeded, o.returncode, stdout, stderr, o.timedOut,
                 Some(WaitForInfo(waitFor.value, o.resolvedUrl)))
    else StepResult(index, command.value, succeeded, o.returncode, stdout, stderr, o.timedOut, None)
  }

  /** `last_error` of a failed step: its error, else its stderr, else a fixed message. */
  function FailureError(r: StepRecord): ErrorText
    requires r.StepResult?
  {
    if r.timedOut then TimedOutError
    else if r.stderr != "" then ErrorMessage(r.stderr)
    else ErrorMessage(if r.waitFor.Some? then "wait_for failed" else "command failed")
  }

  /** The record of a task after the runner's bookkeeping for a finished step. */
  function AfterStepTask(st: TaskState, result: StepRecord): (c: TaskState)
    requires result.StepResult?
  {
    var recorded := st.(steps := Padded(st.steps, result.index)[result.index := result]);
    if recorded.cancelRequested then
      recorded.(status := Cancelled, currentStepStatus := StepFailed, stateSeq := st.stateSeq + 1)
    else if !result.succeeded then
      recorded.(status := Failed, currentStepStatus := StepFailed, lastError := Some(FailureError(result)),
                stateSeq := st.stateSeq + 1)
    else recorded.(currentStepIndex := result.index + 1, currentStepStatus := StepPending, stateSeq := st.stateSeq + 1)
  }

  /** A pass of the loop of `_run_task` for task `id`. */
  function TickOf(s: Snapshot, id: string, outcome: nat -> StepOutcome): Tick
  {
    if id !in s.tasks then Finished(s)
    else
      var st := s.tasks[id];
      if st.cancelRequested then
        Finished(Snapshot(None, s.tasks[id := st.(status := Cancelled, currentStepStatus := StepFailed, stateSeq := st.stateSeq + 1)]))
      else if Terminal(st.status) then Finished(Snapshot(None, s.tasks))
      else if st.currentStepIndex >= |st.instructions| then
        Finished(Snapshot(None, s.tasks[id := st.(status := Success, currentStepStatus := StepSuccess, stateSeq := st.stateSeq + 1)]))
      else
        var index := st.currentStepIndex;
        var command := StepCommand(st.instructions[index]);
        var waitFor := StepWaitFor(st.instructions[index]);
        if command.None? && waitFor.None? then
          Advanced(Snapshot(s.activeTaskId, s.tasks[id := st.(currentStepIndex := index + 1, currentStepStatus := StepSuccess)]))
        else
          var running := st.(status := Running, currentStepStatus := StepRunning, stateSeq := st.stateSeq + 1);
          var o := outcome(index);
          var during := if o.cancelledMeanwhile then CancelTask(running) else running;
          var result := StepResultOf(index, command, waitFor, o);
          var c := AfterStepTask(during, result);
          if !during.cancelRequested && result.succeeded then Advanced(Snapshot(s.activeTaskId, s.tasks[id := c]))
          else Finished(Snapshot(None, s.tasks[id := c]))
  }

  /** The steps left to the task `id`: the measure every further pass lowers. */
  function Remaining(s: Snapshot, id: string): nat
  {
    if id in s.tasks && s.tasks[id].currentStepIndex < |s.tasks[id].instructions|
    then |s.tasks[id].instructions| - s.tasks[id].currentStepIndex else 0
  }

  /**
   * A pass that goes on has moved the task one step forward, with the same
   * instructions, and touched no other task; one that ends has cleared the
   * active id, or found no task.
   */
  lemma {:induction false} TickShape(s: Snapshot, id: string, outcome: nat -> StepOutcome)
    ensures var t := TickOf(s, id, outcome);
      t.s.tasks.Keys == s.tasks.Keys &&
      (forall k :: k in s.tasks && k != id ==> t.s.tasks[k] == s.tasks[k]) &&
      (id in s.tasks ==> t.s.tasks[id].instructions == s.tasks[id].instructions && t.s.tasks[id].taskId == s.tasks[id].taskId) &&
      (t.Advanced? ==>
         id in s.tasks && t.s.activeTaskId == s.activeTaskId &&
         t.s.tasks[id].currentStepIndex == s.tasks[id].currentStepIndex + 1 &&
         Remaining(t.s, id) < Remaining(s, id)) &&
      (t.Finished? && id in s.tasks ==> t.s.activeTaskId == None)
  {
    if id in s.tasks {
      var st := s.tasks[id];
      if !st.cancelRequested && !Terminal(st.status) && st.currentStepIndex < |st.instructions| {
        var index := st.currentStepIndex;
        var command := StepCommand(st.instructions[index]);
        var waitFor := StepWaitFor(st.instructions[index]);
        if command.Some? || waitFor.Some? {
          AfterStepAdvances(s, id, outcome);
        }
      }
    }
  }

  /** After a step, the task moves on only when it succeeded, was not cancelled, and is still running. */
  lemma {:induction false} AfterStepAdvances(s: Snapshot, id: string, outcome: nat -> StepOutcome)
    requires id in s.tasks && !s.tasks[id].cancelRequested && !Terminal(s.tasks[id].status)
    requires s.tasks[id].currentStepIndex < |s.tasks[id].instructions|
    requires var st := s.tasks[id];
      StepCommand(st.instructions[st.currentStepIndex]).Some? || StepWaitFor(st.instructions[st.currentStepIndex]).Some?
    ensures var st := s.tasks[id];
      var index := st.currentStepIndex;
      var o := outcome(index);
      var running := st.(status := Running, currentStepStatus := StepRunning, stateSeq := st.stateSeq + 1);
      var during := if o.cancelledMeanwhile then CancelTask(running) else running;
      var c := AfterStepTask(during, StepResultOf(index, StepCommand(st.instructions[index]), StepWaitFor(st.instructions[index]), o));
      var goesOn := !during.cancelRequested && !o.timedOut && o.returncode == Some(0);
      c.instructions == st.instructions && c.taskId == st.taskId &&
      (goesOn <==> !o.cancelledMeanwhile && !o.timedOut && o.returncode == Some(0)) &&
      (goesOn ==> c.currentStepIndex == index + 1 && c.status == Running && c.currentStepStatus == StepPending) &&
      (!goesOn ==> Terminal(c.status))
  {
  }

  /** `_run_task` for task `id`: passes of the loop until one ends the run. */
  function RunSpec(s: Snapshot, id: string, outcome: nat -> StepOutcome): Snapshot
    decreases Remaining(s, id)
  {
    TickShape(s, id, outcome);
    match TickOf(s, id, outcome)
    case Finished(s2) => s2
    case Advanced(s2) => RunSpec(s2, id, outcome)
  }

  /**
   * A run ends with the task in a terminal status and no active task; it
   * keeps the task's instructions and touches no other task.
   */
  lemma {:induction false} RunEndsTerminal(s: Snapshot, id: string, outcome: nat -> StepOutcome)
    requires id in s.tasks
    ensures var r := RunSpec(s, id, outcome);
      r.activeTaskId == None && r.tasks.Keys == s.tasks.Keys && Terminal(r.tasks[id].status) &&
      r.tasks[id].instructions == s.tasks[id].instructions && r.tasks[id].taskId == s.tasks[id].taskId &&
      forall k :: k in s.tasks && k != id ==> r.tasks[k] == s.tasks[k]
    decreases Remaining(s, id)
  {
    TickShape(s, id, outcome);
    TickEndsTerminal(s, id, outcome);
    match TickOf(s, id, outcome)
    case Finished(s2) =>
    case Advanced(s2) => RunEndsTerminal(s2, id, outcome);
  }

  /** A pass that ends the run leaves the task in a terminal status. */
  lemma {:induction false} TickEndsTerminal(s: Snapshot, id: string, outcome: nat -> StepOutcome)
    requires id in s.tasks
    ensures TickOf(s, id, outcome).Finished? ==> Terminal(TickOf(s, id, outcome).s.tasks[id].status)
  {
    var st := s.tasks[id];
    if !st.cancelRequested && !Terminal(st.status) && st.currentStepIndex < |st.instructions| {
      var index := st.currentStepIndex;
      if StepCommand(st.instructions[index]).Some? || StepWaitFor(st.instructions[index]).Some? {
        AfterStepAdvances(s, id, outcome);
      }
    }
  }

  /** A run keeps the runtime consistent. */
  lemma {:induction false} RunConsistent(s: Snapshot, id: string, outcome: nat -> StepOutcome)
    requires Consistent(s)
    ensures Consistent(RunSpec(s, id, outcome))
  {
    if id in s.tasks {
      RunEndsTerminal(s, id, outcome);
    } else {
      TickShape(s, id, outcome);
    }
  }

  /** Once a cancel is requested, the next run stops the task as cancelled at once, bumping its sequence number. */
  lemma {:induction false} RunAfterCancel(s: Snapshot, taskId: string, outcome: nat -> StepOutcome)
    requires Strip(taskId) in s.tasks
    ensures var key := Strip(taskId);
      var c := CancelSpec(s, taskId).after;
      var r := RunSpec(c, key, outcome);
      r.activeTaskId == None && r.tasks[key].status == Cancelled && r.tasks[key].currentStepStatus == StepFailed &&
      r.tasks[key].stateSeq == s.tasks[key].stateSeq + 2
  {
    var key := Strip(taskId);
    var c := CancelSpec(s, taskId).after;
    assert c.tasks[key].cancelRequested;
    TickShape(c, key, outcome);
  }

  /**
   * A step with neither command nor wait_for moves the index on by one and
   * marks the step status success, without touching the sequence number.
   */
  lemma {:induction false} TickSkipsEmptyStep(s: Snapshot, id: string, outcome: nat -> StepOutcome)
    requires id in s.tasks && !s.tasks[id].cancelRequested && !Terminal(s.tasks[id].status)
    requires var st := s.tasks[id];
      st.currentStepIndex < |st.instructions| &&
      StepCommand(st.instructions[st.currentStepIndex]).None? && StepWaitFor(st.instructions[st.currentStepIndex]).None?
    ensures var st := s.tasks[id];
      TickOf(s, id, outcome) ==
        Advanced(Snapshot(s.activeTaskId, s.tasks[id := st.(currentStepIndex := st.currentStepIndex + 1, currentStepStatus := StepSuccess)]))
  {
  }

  /** Past the last instruction the task succeeds, the active id is cleared and the sequence number rises by one. */
  lemma {:induction false} TickCompletes(s: Snapshot, id: string, outcome: nat -> StepOutcome)
    requires id in s.tasks && !s.tasks[id].cancelRequested && !Terminal(s.tasks[id].status)
    requires s.tasks[id].currentStepIndex >= |s.tasks[id].instructions|
    ensures var st := s.tasks[id];
      var t := TickOf(s, id, outcome);
      t.Finished? && t.s.activeTaskId == None && t.s.tasks[id].status == Success &&
      t.s.tasks[id].currentStepStatus == StepSuccess && t.s.tasks[id].stateSeq == st.stateSeq + 1 &&
      t.s.tasks[id].steps == st.steps && t.s.tasks[id].currentStepIndex == st.currentStepIndex
  {
  }

  /**
   * After a command or wait_for step with no cancel meanwhile, `steps` holds
   * the step's result at its index, earlier entries kept; a failure or
   * timeout fails the task with its error and clears the active id, a
   * success moves on with step status pending; the sequence number rises by
   * one for the running mark and by one for the result.
   */
  lemma {:induction false} TickRecordsStep(s: Snapshot, id: string, outcome: nat -> StepOutcome)
    requires id in s.tasks && !s.tasks[id].cancelRequested && !Terminal(s.tasks[id].status)
    requires var st := s.tasks[id];
      st.currentStepIndex < |st.instructions| &&
      (StepCommand(st.instructions[st.currentStepIndex]).Some? || StepWaitFor(st.instructions[st.currentStepIndex]).Some?)
    requires !outcome(s.tasks[id].currentStepIndex).cancelledMeanwhile
    ensures var st := s.tasks[id];
      var index := st.currentStepIndex;
      var o := outcome(index);
      var result := StepResultOf(index, StepCommand(st.instructions[index]), StepWaitFor(st.instructions[index]), o);
      var t := TickOf(s, id, outcome);
      var c := t.s.tasks[id];
      index < |c.steps| && c.steps[index] == result &&
      (forall i :: 0 <= i < |st.steps| && i != index ==> c.steps[i] == st.steps[i]) &&
      c.stateSeq == st.stateSeq + 2 &&
      (!result.succeeded ==>
         t.Finished? && c.status == Failed && c.currentStepStatus == StepFailed &&
         c.lastError == Some(FailureError(result)) && c.currentStepIndex == index && t.s.activeTaskId == None) &&
      (result.succeeded ==>
         t.Advanced? && c.status == Running && c.currentStepStatus == StepPending &&
         c.currentStepIndex == index + 1 && t.s.activeTaskId == s.activeTaskId)
  {
    var st := s.tasks[id];
    var index := st.currentStepIndex;
    var o := outcome(index);
    var result := StepResultOf(index, StepCommand(st.instructions[index]), StepWaitFor(st.instructions[index]), o);
    var running := st.(status := Running, currentStepStatus := StepRunning, stateSeq := st.stateSeq + 1);
    var padded := Padded(running.steps, index);
    forall i | 0 <= i < |st.steps| && i != index ensures padded[index := result][i] == st.steps[i] {
      assert padded[..|st.steps|][i] == st.steps[i];
    }
  }

  /** A cancel that arrives while a step runs stops the task as cancelled once the step's result is recorded. */
  lemma {:induction false} TickCancelledMeanwhile(s: Snapshot, id: string, outcome: nat -> StepOutcome)
    requires id in s.tasks && !s.tasks[id].cancelRequested && !Terminal(s.tasks[id].status)
    requires var st := s.tasks[id];
      st.currentStepIndex < |st.instructions| &&
      (StepCommand(st.instructions[st.currentStepIndex]).Some? || StepWaitFor(st.instructions[st.currentStepIndex]).Some?)
    requires outcome(s.tasks[id].currentStepIndex).cancelledMeanwhile
    ensures var st := s.tasks[id];
      var t := TickOf(s, id, outcome);
      var c := t.s.tasks[id];
      t.Finished? && t.s.activeTaskId == None && c.status == Cancelled && c.currentStepStatus == StepFailed &&
      c.cancelRequested && c.stateSeq == st.stateSeq + 3 && c.steps[st.currentStepIndex].StepResult?
  {
  }

  /** When every step's command succeeds and nobody cancels, the run ends in success. */
  lemma {:induction false} RunAllSucceed(s: Snapshot, id: string, outcome: nat -> StepOutcome)
    requires id in s.tasks && !s.tasks[id].cancelRequested && !Terminal(s.tasks[id].status)
    requires forall i :: !outcome(i).cancelledMeanwhile && !outcome(i).timedOut && outcome(i).returncode == Some(0)
    ensures id in RunSpec(s, id, outcome).tasks
    ensures var r := RunSpec(s, id, outcome).tasks[id];
      r.status == Success && r.currentStepIndex >= |r.instructions|
    decreases Remaining(s, id)
  {
    var st := s.tasks[id];
    TickShape(s, id, outcome);
    if st.currentStepIndex < |st.instructions| {
      var index := st.currentStepIndex;
      if StepCommand(st.instructions[index]).Some? || StepWaitFor(st.instructions[index]).Some? {
        AfterStepAdvances(s, id, outcome);
      }
      var s2 := TickOf(s, id, outcome).s;
      assert !s2.tasks[id].cancelRequested && !Terminal(s2.tasks[id].status);
      RunAllSucceed(s2, id, outcome);
    }
  }

  // ------------------------------------------------------------------ the runtime

  /** `_AutomationRuntimeV2`: one active task at a time, with the records of all tasks. */
  class AutomationRuntime {
    var activeTaskId: Option<string>
    var tasks: map<string, TaskState>

    /** A runtime with no persisted state. */
    constructor ()
      ensures activeTaskId == None && tasks == map[]
    {
      activeTaskId := None;
      tasks := map[];
    }

    function Snap(): Snapshot
      reads this
    {
      Snapshot(activeTaskId, tasks)
    }

    /** `start` */
    method Start(taskId: string, instructions: Option<seq<Step>>) returns (r: Result<TaskState, StartError>)
      modifies this
      ensures r == StartSpec(old(Snap()), taskId, instructions).reply
      ensures Snap() == StartSpec(old(Snap()), taskId, instructions).after
    {
      StartErrors(Snap(), taskId, instructions);
      if instructions.None? {
        return Err(ValueError(InstructionsMessage));
      }
      var key := Strip(taskId);
      if key == "" {
        return Err(ValueError(TaskIdMessage));
      }
      if activeTaskId.Some? && activeTaskId.value != "" && activeTaskId.value != key {
        var active := activeTaskId.value;
        if active in tasks && Live(tasks[active].status) {
          return Err(RuntimeError(AnotherTaskMessage + active));
        }
      }
      if key in tasks && !tasks[key].status.OtherStatus? {
        StartRestarts(Snap(), taskId, instructions.value);
        var existing := tasks[key];
        activeTaskId := if Live(existing.status) then Some(key) else None;
        existing := existing.(stateSeq := existing.stateSeq + 1);
        tasks := tasks[key := existing];
        return Ok(existing);
      }
      StartCreates(Snap(), taskId, instructions.value);
      var created := NewTask(key, instructions.value);
      tasks := tasks[key := created];
      activeTaskId := Some(key);
      return Ok(created);
    }

    /** `get_state` */
    function GetState(taskId: string): (r: Reply)
      reads this
      ensures r.Found? <==> Strip(taskId) in tasks
      ensures r.Found? ==> r.state == tasks[Strip(taskId)]
      ensures !r.Found? ==> r == StateNotFound(Strip(taskId))
    {
      StateOf(Snap(), taskId)
    }

    /** `cancel`: the state changes; stopping the step's process is not modelled. */
    method Cancel(taskId: string) returns (r: Reply)
      modifies this
      ensures r == CancelSpec(old(Snap()), taskId).reply
      ensures Snap() == CancelSpec(old(Snap()), taskId).after
    {
      var key := Strip(taskId);
      if key !in tasks {
        return CancelNotFound(key);
      }
      var state := tasks[key];
      state := state.(cancelRequested := true);
      if Live(state.status) {
        state := state.(status := Cancelled, currentStepStatus := StepFailed);
      }
      state := state.(stateSeq := tasks[key].stateSeq + 1);
      assert state == CancelTask(tasks[key]);
      CancelKnown(Snap(), taskId);
      tasks := tasks[key := state];
      r := Found(state);
    }

    /** `steps.setdefault(...)` padded with fillers while it has no entry at `index`. */
    static method PadSteps(steps: seq<StepRecord>, index: nat) returns (r: seq<StepRecord>)
      ensures r == Padded(steps, index)
    {
      r := steps;
      while |r| <= index
        invariant |steps| <= |r| <= (if |steps| > index then |steps| else index + 1)
        invariant r == steps + seq(|r| - |steps|, _ => PendingSlot)
        decreases index + 1 - |r|
      {
        r := r + [PendingSlot];
      }
    }

    /** `_run_task`: the loop of passes over the task's steps. */
    method RunTask(id: string, outcome: nat -> StepOutcome)
      modifies this
      ensures Snap() == RunSpec(old(Snap()), id, outcome)
    {
      var active := activeTaskId;
      var ts := tasks;
      while true
        invariant RunSpec(Snapshot(active, ts), id, outcome) == RunSpec(old(Snap()), id, outcome)
        decreases Remaining(Snapshot(active, ts), id)
      {
        ghost var before := Snapshot(active, ts);
        var done;
        active, ts, done := Pass(active, ts, id, outcome);
        if done {
          RunFinishes(before, id, outcome);
          break;
        }
        RunGoesOn(before, id, outcome);
      }
      activeTaskId := active;
      tasks := ts;
    }

    /** One pass of the loop of `_run_task`: `done` when the run returns. */
    static method Pass(active: Option<string>, ts: map<string, TaskState>, id: string, outcome: nat -> StepOutcome)
      returns (active2: Option<string>, ts2: map<string, TaskState>, done: bool)
      ensures TickOf(Snapshot(active, ts), id, outcome) ==
        if done then Finished(Snapshot(active2, ts2)) else Advanced(Snapshot(active2, ts2))
    {
      active2, ts2 := active, ts;
      if id !in ts {
        return active2, ts2, true;
      }
      var state := ts[id];
      if state.cancelRequested {
        state := state.(status := Cancelled, currentStepStatus := StepFailed, stateSeq := state.stateSeq + 1);
        return None, ts[id := state], true;
      }
      if Terminal(state.status) {
        return None, ts, true;
      }
      var index := state.currentStepIndex;
      if index >= |state.instructions| {
        state := state.(status := Success, currentStepStatus := StepSuccess, stateSeq := state.stateSeq + 1);
        return None, ts[id := state], true;
      }
      var step := state.instructions[index];
      var command := StepCommand(step);
      var waitFor := StepWaitFor(step);
      if command.None? && waitFor.None? {
        state := state.(currentStepIndex := index + 1, currentStepStatus := StepSuccess);
        return active, ts[id := state], false;
      }
      state := state.(status := Running, currentStepStatus := StepRunning, stateSeq := state.stateSeq + 1);
      var o := outcome(index);
      if o.cancelledMeanwhile {
        state := CancelTask(state);
      }
      var result := StepResultOf(index, command, waitFor, o);
      var goesOn;
      state, goesOn := FinishStep(state, result);
      if goesOn {
        return active, ts[id := state], false;
      }
      return None, ts[id := state], true;
    }

    /** The bookkeeping after a step: record its result, then stop as cancelled, fail, or move on. */
    static method FinishStep(state: TaskState, result: StepRecord) returns (c: TaskState, goesOn: bool)
      requires result.StepResult?
      ensures c == AfterStepTask(state, result)
      ensures goesOn == (!state.cancelRequested && result.succeeded)
    {
      var steps := PadSteps(state.steps, result.index);
      c := state.(steps := steps[result.index := result]);
      if c.cancelRequested {
        c := c.(status := Cancelled, currentStepStatus := StepFailed, stateSeq := state.stateSeq + 1);
        return c, false;
      }
      if !result.succeeded {
        c := c.(status := Failed, currentStepStatus := StepFailed, lastError := Some(FailureError(result)),
                stateSeq := state.stateSeq + 1);
        return c, false;
      }
      c := c.(currentStepIndex := result.index + 1, currentStepStatus := StepPending, stateSeq := state.stateSeq + 1);
      return c, true;
    }
  }

  /** A pass that ends the run leaves what the whole run leaves. */
  lemma {:induction false} RunFinishes(s: Snapshot, id: string, outcome: nat -> StepOutcome)
    requires TickOf(s, id, outcome).Finished?
    ensures RunSpec(s, id, outcome) == TickOf(s, id, outcome).s
  {
  }

  /** A pass that goes on leaves a state from which the rest of the run is the whole run. */
  lemma {:induction false} RunGoesOn(s: Snapshot, id: string, outcome: nat -> StepOutcome)
    requires TickOf(s, id, outcome).Advanced?
    ensures RunSpec(TickOf(s, id, outcome).s, id, outcome) == RunSpec(s, id, outcome)
    ensures Remaining(TickOf(s, id, outcome).s, id) < Remaining(s, id)
  {
    TickShape(s, id, outcome);
  }
}

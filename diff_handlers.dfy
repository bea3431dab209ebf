/**
 * Applying and previewing unified diffs: the per-patch result lists, the
 * overall status and the reply routing (portacode/connection/handlers/diff_handlers.py).
 * Parsing a diff, applying a patch and rendering a preview are done by code
 * outside this file and enter as function parameters.
 */
module DiffHandlers {
  import opened Wrappers
  import opened Text

  // ------------------------------------------------------------------ paths

  /** `os.path.isabs` */
  predicate IsAbs(p: string)
  {
    StartsWith(p, "/")
  }

  /** `os.path.join(base, rel)` for a relative `rel`. */
  function JoinPath(base: string, rel: string): (r: string)
    ensures StartsWith(r, base) && EndsWith(r, rel)
  {
    if base == "" || EndsWith(base, "/") then base + rel else base + "/" + rel
  }

  /**
   * `_resolve_preview_path`; `abspath` is `os.path.abspath`, which also reads
   * the working directory.
   */
  function ResolvePreviewPath(base: string, rel: Option<string>, abspath: string -> string): (r: string)
    ensures rel.None? || rel.value == "" ==> r == base
    ensures rel.Some? && IsAbs(rel.value) ==> r == rel.value
    ensures rel.Some? && rel.value != "" && !IsAbs(rel.value) ==> r == abspath(JoinPath(base, rel.value))
    // the hint is absolute whenever `abspath` gives absolute paths and there is a relative path or an absolute base
    ensures (forall p :: IsAbs(abspath(p))) && ((rel.Some? && rel.value != "") || IsAbs(base)) ==> IsAbs(r)
  {
    if rel.None? || rel.value == "" then base
    else if IsAbs(rel.value) then rel.value
    else abspath(JoinPath(base, rel.value))
  }

  // ------------------------------------------------------------------ status

  /** The counts and status both `execute` methods derive from their per-patch entries. */
  datatype Summary = Summary(successCount: nat, failureCount: nat, status: string, success: bool)

  function Summarize(successCount: nat, total: nat): (s: Summary)
    requires successCount <= total
    ensures s.successCount == successCount && s.successCount + s.failureCount == total
  {
    var failureCount := total - successCount;
    var status :=
      if successCount > 0 && failureCount > 0 then "partial_failure"
      else if failureCount > 0 && successCount == 0 then "failed"
      else "success";
    Summary(successCount, failureCount, status, failureCount == 0)
  }

  /**
   * "success" exactly when nothing failed (so also for no entries),
   * "partial_failure" when some succeeded and some failed, and "failed" when
   * all of at least one failed; `success` holds exactly when nothing failed.
   */
  lemma {:induction false} SummarizeCases(successCount: nat, total: nat)
    requires successCount <= total
    ensures var s := Summarize(successCount, total);
      (s.status == "success" <==> successCount == total) &&
      (s.status == "partial_failure" <==> 0 < successCount < total) &&
      (s.status == "failed" <==> successCount == 0 < total) &&
      (s.success <==> successCount == total)
  {
  }

  // ------------------------------------------------------------------ apply

  /** The fields of a parsed file patch the handlers read. */
  datatype FilePatch = FilePatch(targetPath: Option<string>, newPath: Option<string>, oldPath: Option<string>)

  /** What applying one patch does: it writes a file, or raises `DiffApplyError`, or raises anything else. */
  datatype ApplyOutcome =
    | Wrote(targetPath: string, action: string, bytesWritten: nat)
    | ApplyFailed(error: string, lineNumber: Option<int>)
    | ApplyCrashed(error: string)

  /** One entry of `results`; `ApplyError.line` is present only for a `DiffApplyError`. */
  datatype ApplyEntry =
    | Applied(path: string, action: string, bytesWritten: nat)
    | ApplyError(patchPath: Option<string>, error: string, line: Option<Option<int>>)

  predicate IsApplied(e: ApplyEntry) { e.Applied? }

  /** The entry the loop of `FileApplyDiffHandler.execute` records for one patch. */
  function ApplyEntryFor(patch: FilePatch, outcome: ApplyOutcome): (e: ApplyEntry)
    ensures IsApplied(e) <==> outcome.Wrote?
  {
    match outcome
    case Wrote(path, action, n) => Applied(path, action, n)
    case ApplyFailed(err, line) => ApplyError(patch.targetPath, err, Some(line))
    case ApplyCrashed(err) => ApplyError(patch.targetPath, err, None)
  }

  /** `sum(1 for result in results if result["status"] == "applied")` */
  function AppliedCount(results: seq<ApplyEntry>): (n: nat)
    ensures n <= |results|
    decreases |results|
  {
    if |results| == 0 then 0
    else AppliedCount(results[..|results| - 1]) + (if IsApplied(results[|results| - 1]) then 1 else 0)
  }

  /** The paths that were written, in patch order. */
  function AppliedPaths(results: seq<ApplyEntry>): (ps: seq<string>)
    ensures |ps| == AppliedCount(results)
    decreases |results|
  {
    if |results| == 0 then []
    else AppliedPaths(results[..|results| - 1]) + (if IsApplied(results[|results| - 1]) then [results[|results| - 1].path] else [])
  }

  /** No result was applied exactly when the count is zero, and all were exactly when it is the length. */
  lemma {:induction false} AppliedCountBounds(results: seq<ApplyEntry>)
    ensures AppliedCount(results) == 0 <==> forall k :: 0 <= k < |results| ==> !IsApplied(results[k])
    ensures AppliedCount(results) == |results| <==> forall k :: 0 <= k < |results| ==> IsApplied(results[k])
    decreases |results|
  {
    if |results| > 0 {
      var p := results[..|results| - 1];
      AppliedCountBounds(p);
      assert forall k :: 0 <= k < |p| ==> p[k] == results[k];
    }
  }

  /** The per-patch loop: one entry per patch, in patch order, and the written paths beside them. */
  method ApplyPatches(patches: seq<FilePatch>, apply: FilePatch -> ApplyOutcome)
    returns (results: seq<ApplyEntry>, appliedPaths: seq<string>)
    ensures |results| == |patches|
    ensures forall k :: 0 <= k < |patches| ==> results[k] == ApplyEntryFor(patches[k], apply(patches[k]))
    ensures appliedPaths == AppliedPaths(results)
  {
    results := [];
    appliedPaths := [];
    for i := 0 to |patches|
      invariant |results| == i
      invariant forall k :: 0 <= k < i ==> results[k] == ApplyEntryFor(patches[k], apply(patches[k]))
      invariant appliedPaths == AppliedPaths(results)
    {
      var outcome := apply(patches[i]);
      var entry: ApplyEntry;
      match outcome {
        case Wrote(path, action, n) =>
          appliedPaths := appliedPaths + [path];
          entry := Applied(path, action, n);
        case ApplyFailed(err, line) =>
          entry := ApplyError(patches[i].targetPath, err, Some(line));
        case ApplyCrashed(err) =>
          entry := ApplyError(patches[i].targetPath, err, None);
      }
      assert (results + [entry])[..i] == results;
      results := results + [entry];
    }
  }

  /** The reply of `FileApplyDiffHandler.execute`; `filesChanged` is the number of applied entries. */
  datatype ApplyResponse = ApplyResponse(projectId: Value, basePath: string, results: seq<ApplyEntry>,
                                         filesChanged: nat, status: string, success: bool)

  /**
   * `requested_base_path or project_root or os.getcwd()`; `projectRoot` is the
   * folder of the requesting session's project, looked up outside this file.
   */
  function BasePath(message: map<string, Value>, projectRoot: Value, cwd: string): string
  {
    PyStr(Or(Get(message, "base_path"), Or(projectRoot, Str(cwd))))
  }

  /**
   * The check of the `diff` field: missing, empty and blank text are refused,
   * and a truthy value that is not text fails on `.strip()` with Python's
   * `AttributeError` text.
   */
  function DiffText(message: map<string, Value>): (r: Result<string, string>)
    ensures r.Ok? <==> Get(message, "diff").Str? && Strip(Get(message, "diff").s) != ""
    ensures r.Ok? ==> Get(message, "diff") == Str(r.value)
    ensures (!Truthy(Get(message, "diff")) || (Get(message, "diff").Str? && Strip(Get(message, "diff").s) == "")) ==>
      r == Err("diff parameter is required")
    ensures Get(message, "diff").Num? && Truthy(Get(message, "diff")) ==> r == Err("'int' object has no attribute 'strip'")
    ensures Get(message, "diff") == Flag(true) ==> r == Err("'bool' object has no attribute 'strip'")
  {
    var diff := Get(message, "diff");
    if !Truthy(diff) then
      TrimIdentity("", Whitespace);
      Err("diff parameter is required")
    else match diff
      case Str(s) => if Strip(s) == "" then Err("diff parameter is required") else Ok(s)
      case Num(_) => Err("'int' object has no attribute 'strip'")
      case Flag(_) => Err("'bool' object has no attribute 'strip'")
      case _ => Err("object has no attribute 'strip'")
  }

  /**
   * `len(message.get('diff') or '')` in the trace line `handle` writes before
   * its `try`: `None` where `len` raises, so that `handle` ends with the
   * exception and sends no reply at all.
   */
  function DiffChars(message: map<string, Value>): (n: Option<nat>)
    ensures Get(message, "diff").Str? ==> n == Some(|Get(message, "diff").s|)
    ensures !Truthy(Get(message, "diff")) ==> n == Some(0)
    ensures (Get(message, "diff").Num? || Get(message, "diff").Flag?) && Truthy(Get(message, "diff")) ==> n.None?
    // only a message whose diff `execute` would refuse anyway loses its reply this way
    ensures n.None? ==> DiffText(message).Err? && DiffText(message).error != "diff parameter is required"
  {
    var diff := Get(message, "diff");
    if !Truthy(diff) then Some(0)
    else if diff.Str? then Some(|diff.s|)
    else None
  }

  /**
   * `FileApplyDiffHandler.execute`: `parse` is `parse_unified_diff` (`Err` for
   * `DiffParseError`) and `apply` applies one patch under the base path.
   */
  method ExecuteApply(message: map<string, Value>, projectRoot: Value, cwd: string,
                      parse: string -> Result<seq<FilePatch>, string>, apply: (FilePatch, string) -> ApplyOutcome)
    returns (r: Result<ApplyResponse, string>)
    ensures DiffText(message).Err? ==> r == Err(DiffText(message).error)
    ensures DiffText(message).Ok? && parse(DiffText(message).value).Err? ==>
      r == Err("Invalid diff content: " + parse(DiffText(message).value).error)
    ensures r.Ok? ==>
      var patches := parse(DiffText(message).value).value;
      var base := BasePath(message, projectRoot, cwd);
      var s := Summarize(AppliedCount(r.value.results), |r.value.results|);
      DiffText(message).Ok? && parse(DiffText(message).value).Ok? &&
      |r.value.results| == |patches| &&
      (forall k :: 0 <= k < |patches| ==> r.value.results[k] == ApplyEntryFor(patches[k], apply(patches[k], base))) &&
      r.value == ApplyResponse(Get(message, "project_id"), base, r.value.results, s.successCount, s.status, s.success)
    ensures DiffText(message).Ok? && parse(DiffText(message).value).Ok? ==> r.Ok?
  {
    var diff := DiffText(message);
    if diff.Err? {
      return Err(diff.error);
    }
    var base := BasePath(message, projectRoot, cwd);
    var parsed := parse(diff.value);
    if parsed.Err? {
      return Err("Invalid diff content: " + parsed.error);
    }
    var patches := parsed.value;
    var results, appliedPaths := ApplyPatches(patches, p => apply(p, base));
    var s := Summarize(AppliedCount(results), |results|);
    r := Ok(ApplyResponse(Get(message, "project_id"), base, results, s.successCount, s.status, s.success));
  }

  // ------------------------------------------------------------------ preview

  /**
   * What computing and rendering one preview gives: the action and both HTML
   * renderings; an error recorded for the patch (a `DiffApplyError` from
   * `preview_file_patch`, or any exception while rendering); or an exception
   * of another kind from `preview_file_patch`, which nothing in the loop
   * catches and which therefore ends `execute`.
   */
  datatype PreviewOutcome =
    | Rendered(action: string, minimalHtml: string, fullHtml: string)
    | PreviewFailed(error: string)
    | PreviewRaised(error: string)

  /** One entry of `previews`. */
  datatype PreviewEntry =
    | Ready(path: string, relativePath: Option<string>, html: string, minimalHtml: string, fullHtml: string,
            hasFull: bool, action: string)
    | PreviewError(path: string, relativePath: Option<string>, error: string)

  predicate IsReady(e: PreviewEntry) { e.Ready? }

  /** `target_path or new_path or old_path` */
  function TargetHint(patch: FilePatch): (h: Option<string>)
    ensures h.Some? ==> h.value != ""
  {
    if patch.targetPath.Some? && patch.targetPath.value != "" then patch.targetPath
    else if patch.newPath.Some? && patch.newPath.value != "" then patch.newPath
    else if patch.oldPath.Some? && patch.oldPath.value != "" then patch.oldPath
    else None
  }

  /** The entry the loop of `FilePreviewDiffHandler.execute` records for one patch. */
  function PreviewEntryFor(base: string, patch: FilePatch, outcome: PreviewOutcome, abspath: string -> string): (e: PreviewEntry)
    requires !outcome.PreviewRaised?
    ensures e.path == ResolvePreviewPath(base, TargetHint(patch), abspath) && e.relativePath == TargetHint(patch)
    ensures IsReady(e) <==> outcome.Rendered?
    ensures IsReady(e) ==> e.html == e.minimalHtml && (e.hasFull <==> e.fullHtml != e.minimalHtml)
  {
    var hint := TargetHint(patch);
    var display := ResolvePreviewPath(base, hint, abspath);
    match outcome
    case Rendered(action, minimal, full) => Ready(display, hint, minimal, minimal, full, full != minimal, action)
    case PreviewFailed(err) => PreviewError(display, hint, err)
  }

  /** Some patch's preview raises an exception the loop does not catch. */
  predicate SomeRaised(patches: seq<FilePatch>, preview: FilePatch -> PreviewOutcome)
  {
    exists k :: 0 <= k < |patches| && preview(patches[k]).PreviewRaised?
  }

  /** `sum(1 for result in previews if result["status"] == "ready")` */
  function ReadyCount(previews: seq<PreviewEntry>): (n: nat)
    ensures n <= |previews|
    decreases |previews|
  {
    if |previews| == 0 then 0
    else ReadyCount(previews[..|previews| - 1]) + (if IsReady(previews[|previews| - 1]) then 1 else 0)
  }

  lemma {:induction false} ReadyCountBounds(previews: seq<PreviewEntry>)
    ensures ReadyCount(previews) == 0 <==> forall k :: 0 <= k < |previews| ==> !IsReady(previews[k])
    ensures ReadyCount(previews) == |previews| <==> forall k :: 0 <= k < |previews| ==> IsReady(previews[k])
    decreases |previews|
  {
    if |previews| > 0 {
      var p := previews[..|previews| - 1];
      ReadyCountBounds(p);
      assert forall k :: 0 <= k < |p| ==> p[k] == previews[k];
    }
  }

  /**
   * The per-patch loop of the preview: one entry per patch, in patch order,
   * unless a patch's preview raises an uncaught exception, whose text is then
   * the error of the first such patch.
   */
  method PreviewPatches(base: string, patches: seq<FilePatch>, preview: FilePatch -> PreviewOutcome, abspath: string -> string)
    returns (r: Result<seq<PreviewEntry>, string>)
    ensures r.Err? <==> SomeRaised(patches, preview)
    ensures r.Err? ==> exists k :: (0 <= k < |patches| && preview(patches[k]) == PreviewRaised(r.error) &&
      !SomeRaised(patches[..k], preview))
    ensures r.Ok? ==> (|r.value| == |patches| &&
      forall k :: 0 <= k < |patches| ==> r.value[k] == PreviewEntryFor(base, patches[k], preview(patches[k]), abspath))
  {
    var previews := [];
    for i := 0 to |patches|
      invariant |previews| == i
      invariant !SomeRaised(patches[..i], preview)
      invariant forall k :: 0 <= k < i ==> previews[k] == PreviewEntryFor(base, patches[k], preview(patches[k]), abspath)
    {
      var hint := TargetHint(patches[i]);
      var display := ResolvePreviewPath(base, hint, abspath);
      var outcome := preview(patches[i]);
      if outcome.PreviewRaised? {
        return Err(outcome.error);
      }
      if outcome.PreviewFailed? {
        previews := previews + [PreviewError(display, hint, outcome.error)];
      } else {
        var minimal := outcome.minimalHtml;
        var full := outcome.fullHtml;
        previews := previews + [Ready(display, hint, minimal, minimal, full, full != minimal, outcome.action)];
      }
      assert patches[..i + 1] == patches[..i] + [patches[i]];
    }
    assert patches[..|patches|] == patches;
    r := Ok(previews);
  }

  /** The reply of `FilePreviewDiffHandler.execute`. */
  datatype PreviewResponse = PreviewResponse(projectId: Value, basePath: string, previews: seq<PreviewEntry>,
                                             status: string, success: bool)

  /**
   * `FilePreviewDiffHandler.execute`: the same checks as the apply handler,
   * then one preview per patch and the same aggregation over "ready" entries.
   */
  method ExecutePreview(message: map<string, Value>, projectRoot: Value, cwd: string,
                        parse: string -> Result<seq<FilePatch>, string>, preview: (FilePatch, string) -> PreviewOutcome,
                        abspath: string -> string)
    returns (r: Result<PreviewResponse, string>)
    ensures DiffText(message).Err? ==> r == Err(DiffText(message).error)
    ensures DiffText(message).Ok? && parse(DiffText(message).value).Err? ==>
      r == Err("Invalid diff content: " + parse(DiffText(message).value).error)
    ensures r.Ok? ==>
      var patches := parse(DiffText(message).value).value;
      var base := BasePath(message, projectRoot, cwd);
      var s := Summarize(ReadyCount(r.value.previews), |r.value.previews|);
      DiffText(message).Ok? && parse(DiffText(message).value).Ok? &&
      |r.value.previews| == |patches| &&
      (forall k :: 0 <= k < |patches| ==> !preview(patches[k], base).PreviewRaised?) &&
      (forall k :: 0 <= k < |patches| ==>
        r.value.previews[k] == PreviewEntryFor(base, patches[k], preview(patches[k], base), abspath)) &&
      r.value == PreviewResponse(Get(message, "project_id"), base, r.value.previews, s.status, s.success)
    ensures DiffText(message).Ok? && parse(DiffText(message).value).Ok? ==>
      var patches := parse(DiffText(message).value).value;
      var base := BasePath(message, projectRoot, cwd);
      (r.Ok? <==> !SomeRaised(patches, p => preview(p, base))) &&
      (r.Err? ==> exists k :: 0 <= k < |patches| && preview(patches[k], base) == PreviewRaised(r.error))
  {
    var diff := DiffText(message);
    if diff.Err? {
      return Err(diff.error);
    }
    var base := BasePath(message, projectRoot, cwd);
    var parsed := parse(diff.value);
    if parsed.Err? {
      return Err("Invalid diff content: " + parsed.error);
    }
    var patched := PreviewPatches(base, parsed.value, p => preview(p, base), abspath);
    if patched.Err? {
      return Err(patched.error);
    }
    var previews := patched.value;
    var s := Summarize(ReadyCount(previews), |previews|);
    r := Ok(PreviewResponse(Get(message, "project_id"), base, previews, s.status, s.success));
  }

  // ------------------------------------------------------------------ handle

  /** Where `handle` sends a reply: straight to the requesting session, or through the reply channel. */
  datatype Delivery =
    | ToSession(payload: map<string, Value>, clientSession: Value)
    | ToChannel(payload: map<string, Value>, replyChannel: Option<string>, projectId: Value)

  /**
   * The routing in `handle` once `execute` returned `response`: `request_id`
   * is copied from the message unless the response has one, and a truthy
   * `source_client_session` sends the reply to that session alone
   * (`client_sessions = [source]`).
   */
  function Deliver(message: map<string, Value>, response: map<string, Value>, replyChannel: Option<string>): (d: Delivery)
    ensures "request_id" in d.payload <==> "request_id" in response || "request_id" in message
    ensures "request_id" in response ==> Get(d.payload, "request_id") == response["request_id"]
    ensures "request_id" !in response && "request_id" in message ==> Get(d.payload, "request_id") == message["request_id"]
    ensures forall k :: k in response ==> k in d.payload
    ensures forall k :: k in d.payload && k != "request_id" ==> k in response && d.payload[k] == response[k]
    ensures d.ToSession? <==> Truthy(Get(message, "source_client_session"))
    ensures d.ToSession? ==> d.clientSession == Get(message, "source_client_session")
    ensures d.ToChannel? ==> d.replyChannel == replyChannel && d.projectId == Get(response, "project_id")
  {
    var payload := if "request_id" in message && "request_id" !in response then response["request_id" := message["request_id"]] else response;
    var source := Get(message, "source_client_session");
    if Truthy(source) then ToSession(payload, source) else ToChannel(payload, replyChannel, Get(response, "project_id"))
  }

  /** The error reply of `FileApplyDiffHandler.handle` when `execute` raised `error`. */
  function ApplyErrorPayload(message: map<string, Value>, error: string, cwd: string): (p: map<string, Value>)
    ensures Get(p, "status") == Str("error") && Get(p, "success") == Flag(false) && Get(p, "files_changed") == Num(0)
    ensures Get(p, "error") == Str(error) && Get(p, "project_id") == Get(message, "project_id")
    ensures "request_id" in p <==> "request_id" in message
    ensures "request_id" in message ==> p["request_id"] == message["request_id"]
  {
    var p := map["event" := Str("file_apply_diff_response"), "project_id" := Get(message, "project_id"),
                 "base_path" := Or(Get(message, "base_path"), Str(cwd)), "results" := Other("[]", false),
                 "files_changed" := Num(0), "status" := Str("error"), "success" := Flag(false), "error" := Str(error)];
    if "request_id" in message then p["request_id" := message["request_id"]] else p
  }

  /** Where an error reply goes: the same routing as a normal reply, without the `request_id` check. */
  function DeliverError(message: map<string, Value>, payload: map<string, Value>, replyChannel: Option<string>): (d: Delivery)
    ensures d.payload == payload
    ensures d.ToSession? <==> Truthy(Get(message, "source_client_session"))
    ensures d.ToChannel? ==> d.projectId == Get(message, "project_id")
  {
    var source := Get(message, "source_client_session");
    if Truthy(source) then ToSession(payload, source) else ToChannel(payload, replyChannel, Get(message, "project_id"))
  }
}

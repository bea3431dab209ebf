# Portacode core, modelled in Dafny

This project models the deterministic, agent-side logic of Portacode and proves properties of that model. Portacode is a remote development agent. It applies diffs, serves files and search results, provisions Proxmox containers, forwards Cloudflare tunnel traffic and runs automation tasks. Its test framework schedules tests by dependency.

Each module follows one source file:

- `HierarchicalRunner` (hierarchical_runner.dfy) is the test scheduler.
  It covers the dependency graph, Kahn's topological sort with cycle detection, dependency closure, the login and IDE requirements, and skip propagation in `run_tests`.
  The runner itself is a class whose `results` and `testStates` fields its methods update.
- `AutomationV2` (automation_v2.dfy) is the automation v2 runtime.
  It holds the step text helpers and `_resolve_wait_for_url`.
  The runtime is a class over a tasks map and the active task id. Its `Start`, `Cancel` and `RunTask` methods are proved against the snapshot functions `StartSpec`, `CancelSpec` and `RunSpec`.
- `CloudflareForwarding` (cloudflare_forwarding.dfy) covers the forwarding rules.
  It has hostname and destination validation, subdomain labels and container rule specifications, port normalisation for exposed services, dnsmasq lease lookup, and the shell and `/etc/environment` quoting and merging.
  It also has the container rule merge of `set_container_forwarding_rules`.
- `FileHandlers` (file_handlers.dfy) covers file reading with line pagination, directory listing windows, name checks, the search filters and the fallback search caps.
  It also covers the content cache, which is a class over a map.
- `ProxmoxInfra` (proxmox_infra.dfy) covers API token parsing, storage choice, rootfs formatting, and the bootstrap step list.
  It also has the bounded retry loop of `_run_setup_steps`, error summaries, the RAM/CPU admission check, the infrastructure snapshot and the container payload.
- `PlayStoreAssets` (play_store_assets.dfy) covers the feature-graphic selection of the Play Store asset generator.
  It has slugify, pick parsing, default picks, candidate numbering, shot widths, unescaping and component loading.
- `DiffHandlers` (diff_handlers.dfy) covers the diff apply and preview handlers: per-patch results, status aggregation, preview paths and reply delivery.
- `SystemHandlers`, `CloudflareTunnel`, `GetDomain` and `Updater` hold the small parsers and builders.
  They cover `pveversion` and `dpkg -s` output, the tunnel name, the ARGO tunnel token block and the pip upgrade command.
- `Text`, `Collections` and `Wrappers` are the shared modules.
  `Text` has Python-like text operations (strip, lower, split, splitlines, `int()` on text) and a `Value` type for JSON-like message fields with Python truthiness.
  `Collections` has sequence helpers such as dedup, take and filter. `Wrappers` has `Option` and `Result`.

Exceptions that the source raises and catches become `Err` values carrying the source's message; the few places where the model has to choose a text of its own are named under "## Left out".
I/O, subprocesses, the network, clocks and randomness are left out.
Where a function depends on one of them, its result is a parameter of the model: a step outcome, a decode function, a generated password or the effective user id.

## Model

| member | source | states |
|---|---|---|
| AutomationV2.TrimText | portacode/connection/handlers/automation_v2_handlers.py:42-47 | text of at most max_chars is returned unchanged; longer text becomes a prefix of the original followed by the "[truncated to N chars]" suffix, exactly max_chars long whenever the suffix fits |
| AutomationV2.TrimTextIdempotent | portacode/connection/handlers/automation_v2_handlers.py:42-47 | trimming an already trimmed text changes nothing |
| AutomationV2.DefaultSuffixLength | portacode/connection/handlers/automation_v2_handlers.py:31 | the suffix for the default limit of 8000 characters is 29 characters long |
| AutomationV2.TrimDefault | portacode/connection/handlers/automation_v2_handlers.py:31-47 | with the default limit the stored output never exceeds 8000 characters and an over-long output ends in the suffix |
| AutomationV2.NormalizedGetIsLookup | portacode/connection/handlers/automation_v2_handlers.py:53 | reading a key from the list of step entries gives the same value as reading it from the dict built with lower-cased keys, the last duplicate winning |
| AutomationV2.NormalizedGetLowerKeys | portacode/connection/handlers/automation_v2_handlers.py:53 | lower-casing the keys before the lookup does not change what the lookup finds |
| AutomationV2.StepTextsStripped | portacode/connection/handlers/automation_v2_handlers.py:50-69 | an extracted command or wait_for target is non-empty and already stripped; a step that is not an object has neither |
| AutomationV2.StepCommandFirstTruthy | portacode/connection/handlers/automation_v2_handlers.py:54-58 | the command is the first truthy value among "command", "cmd" and "run" (a falsy "run" other than null still counts), stripped, and None when blank |
| AutomationV2.FalsyRunIsCommand | portacode/connection/handlers/automation_v2_handlers.py:54-58 | a step {"run": 0} has the command "0", because `or` falls through to the last operand |
| AutomationV2.StepTextsIgnoreKeyCase | portacode/connection/handlers/automation_v2_handlers.py:53-64 | the command and the wait_for target do not depend on the case of the step's keys |
| AutomationV2.DigitRun | portacode/connection/handlers/automation_v2_handlers.py:36 | the length of the longest run of ASCII digits at the start of the text |
| AutomationV2.PlaceholderAt | portacode/connection/handlers/automation_v2_handlers.py:36 | a recognised "[exposed:N]" placeholder has one to five digits between the brackets, and the returned digits are exactly those |
| AutomationV2.SubstituteNoPlaceholder | portacode/connection/handlers/automation_v2_handlers.py:660-668 | a target without a placeholder is returned unchanged by the substitution |
| AutomationV2.SubstituteKeepsPrefix | portacode/connection/handlers/automation_v2_handlers.py:660-668 | the substitution keeps every character before the first "[" |
| AutomationV2.ResolveWaitForUrlCases | portacode/connection/handlers/automation_v2_handlers.py:634-669 | the empty-target error happens exactly for a blank target, the scheme error exactly for a non-blank target without http:// or https://, every resolved URL has that scheme, and a target without placeholders resolves to itself |
| AutomationV2.SubstituteErrors | portacode/connection/handlers/automation_v2_handlers.py:660-667 | a failed substitution reports either the port-range error or the unresolved-port error for a port in 1..65535 |
| AutomationV2.SchemeNoBracket | portacode/connection/handlers/automation_v2_handlers.py:638 | an http:// or https:// prefix holds no "[", so the substitution cannot touch the scheme |
| AutomationV2.ResolveSubstituted | portacode/connection/handlers/automation_v2_handlers.py:638-669 | substitution preserves the http(s) scheme of the target |
| AutomationV2.StartErrors | portacode/connection/handlers/automation_v2_handlers.py:162-177 | start fails exactly when the instructions are not a list (ValueError), the stripped task id is empty (ValueError) or another task is running or pending (RuntimeError), in that order, and a failed start changes nothing |
| AutomationV2.StartCreates | portacode/connection/handlers/automation_v2_handlers.py:190-212 | a new task is stored pending, at step 0, without step records, with state_seq 1 and no cancel request, and becomes the active task |
| AutomationV2.StartRestarts | portacode/connection/handlers/automation_v2_handlers.py:179-188 | starting a known task returns it with state_seq one higher, and it becomes active exactly when it is running or pending |
| AutomationV2.StartConsistent | portacode/connection/handlers/automation_v2_handlers.py:156-212 | start keeps the store consistent (the active id is a stored task, every task is stored under its own id) and a successful reply is what get_state then returns |
| AutomationV2.CancelCases | portacode/connection/handlers/automation_v2_handlers.py:229-258 | an unknown id is answered "task not found" and changes nothing; a known task gets cancel_requested and state_seq + 1, is marked cancelled with a failed step when it was pending or running, keeps a terminal status otherwise, and nothing else in it changes |
| AutomationV2.CancelKnown | portacode/connection/handlers/automation_v2_handlers.py:239-258 | cancelling a known task replaces only that task and keeps the active task id |
| AutomationV2.CancelConsistent | portacode/connection/handlers/automation_v2_handlers.py:229-258 | cancel keeps the store consistent |
| AutomationV2.Padded | portacode/connection/handlers/automation_v2_handlers.py:566-567 | the step list is padded with pending slots up to the current index, keeping the records already there |
| AutomationV2.TickShape | portacode/connection/handlers/automation_v2_handlers.py:285-608 | one pass of the runner loop changes only the running task, never its instructions or id; a pass that continues moves to the next step, and a pass that ends the task clears the active task id |
| AutomationV2.TickEndsTerminal | portacode/connection/handlers/automation_v2_handlers.py:291-323 | every pass that ends the runner leaves the task in a terminal status |
| AutomationV2.TickSkipsEmptyStep | portacode/connection/handlers/automation_v2_handlers.py:324-331 | a step with neither a command nor a wait_for target is marked successful and skipped, with no other change |
| AutomationV2.TickCompletes | portacode/connection/handlers/automation_v2_handlers.py:314-323 | past the last step the task succeeds, state_seq rises by one, its step records stay, and no task is active any more |
| AutomationV2.AfterStepAdvances | portacode/connection/handlers/automation_v2_handlers.py:333-339 | after a step runs, the task goes on to the next step exactly when it was not cancelled, did not time out and returned code 0; otherwise it ends in a terminal status |
| AutomationV2.TickRecordsStep | portacode/connection/handlers/automation_v2_handlers.py:333-339 | the step's result is stored at its index and no other record changes, state_seq rises by two, and a failed step fails the task with its error while a successful one advances it |
| AutomationV2.TickCancelledMeanwhile | portacode/connection/handlers/automation_v2_handlers.py:580-589 | a task cancelled while its step ran ends cancelled with a failed step, its result recorded, state_seq three higher |
| AutomationV2.RunEndsTerminal | portacode/connection/handlers/automation_v2_handlers.py:285-608 | the runner always stops, leaving the task terminal, no task active, and every other task as it was |
| AutomationV2.RunConsistent | portacode/connection/handlers/automation_v2_handlers.py:285-608 | the runner keeps the store consistent |
| AutomationV2.RunAfterCancel | portacode/connection/handlers/automation_v2_handlers.py:291-299 | a run started after cancel ends the task cancelled with a failed step, its state_seq two above the value before the cancel |
| AutomationV2.RunAllSucceed | portacode/connection/handlers/automation_v2_handlers.py:314-323 | when every step returns code 0 the task ends successful past its last step |
| AutomationV2.RunFinishes | portacode/connection/handlers/automation_v2_handlers.py:285-304 | a pass that ends the task is the runner's final state |
| AutomationV2.RunGoesOn | portacode/connection/handlers/automation_v2_handlers.py:286-331 | a pass that continues leaves fewer steps to run and the rest of the run starts from its state |
| AutomationV2.AutomationRuntime.constructor | portacode/connection/handlers/automation_v2_handlers.py:106-113 | a new runtime has no tasks and no active task |
| AutomationV2.AutomationRuntime.Start | portacode/connection/handlers/automation_v2_handlers.py:156-212 | the reply and the new state are those of the start specification applied to the old state |
| AutomationV2.AutomationRuntime.Cancel | portacode/connection/handlers/automation_v2_handlers.py:229-258 | the reply and the new state are those of the cancel specification applied to the old state |
| AutomationV2.AutomationRuntime.RunTask | portacode/connection/handlers/automation_v2_handlers.py:285-608 | the loop's final state is the run specification applied to the old state |
| AutomationV2.AutomationRuntime.Pass | portacode/connection/handlers/automation_v2_handlers.py:287-339 | one iteration of the loop computes one pass of the specification and says whether the loop ends |
| AutomationV2.AutomationRuntime.FinishStep | portacode/connection/handlers/automation_v2_handlers.py:561-608 | the task after a recorded step, and whether the loop goes on: only when no cancel was requested and the step succeeded |
| AutomationV2.AutomationRuntime.PadSteps | portacode/connection/handlers/automation_v2_handlers.py:566-567 | the padding loop computes the padded step list |
| AutomationV2.AutomationRuntime.GetState | portacode/connection/handlers/automation_v2_handlers.py:214-227 | a known task id, stripped, gives that task's record; any other gives the not-found reply for the stripped id |
| CloudflareForwarding.ValidateHostname | portacode/connection/handlers/cloudflare_forwarding.py:65-72 | an accepted hostname is never empty |
| CloudflareForwarding.ValidateHostnameSpec | portacode/connection/handlers/cloudflare_forwarding.py:65-72 | a hostname is accepted exactly when, stripped and lower-cased, it is non-empty and equals the domain or ends in "." + domain; the accepted value is that normalised form; "hostname is required" is reported exactly for a blank hostname |
| CloudflareForwarding.ReprQuote | portacode/connection/handlers/cloudflare_forwarding.py:72 | `repr()` uses double quotes exactly when the text holds a single quote and no double quote, and single quotes otherwise |
| CloudflareForwarding.ReprChar | portacode/connection/handlers/cloudflare_forwarding.py:72 | a character is written as itself exactly when it is not the chosen quote, not a backslash and printable; otherwise it is escaped |
| CloudflareForwarding.QuotedRepr | portacode/connection/handlers/cloudflare_forwarding.py:72 | the text is enclosed in the chosen quote |
| CloudflareForwarding.ReprBodyPlain | portacode/connection/handlers/cloudflare_forwarding.py:72 | text without the quote, backslashes or unprintable characters is written unchanged between the quotes |
| CloudflareForwarding.QuotedReprPlain | portacode/connection/handlers/cloudflare_forwarding.py:72 | text without backslashes or unprintable characters is written unchanged: in single quotes when it has no single quote, and in double quotes when it has a single quote and no double quote (so "a'b.x" is written "a'b.x" in double quotes) |
| CloudflareForwarding.ValidateHostnameAgain | portacode/connection/handlers/cloudflare_forwarding.py:65-72 | validating an accepted hostname again accepts it unchanged |
| CloudflareForwarding.NormalizeIdempotent | portacode/connection/handlers/cloudflare_forwarding.py:66 | stripping and lower-casing an already normalised hostname changes nothing |
| CloudflareForwarding.MatchDeviceSound | portacode/connection/handlers/cloudflare_forwarding.py:38-41 | every match of the device destination pattern is well formed (http or https in any case, a digit-only device id, optional digit-only port, a path starting with "/") and spells out the matched text |
| CloudflareForwarding.MatchDeviceComplete | portacode/connection/handlers/cloudflare_forwarding.py:38-41 | every well-formed device destination is matched with exactly its own parts |
| CloudflareForwarding.ParseDestinationBlank | portacode/connection/handlers/cloudflare_forwarding.py:76-78 | "destination is required" is reported exactly for a blank destination |
| CloudflareForwarding.ParseDestinationDevice | portacode/connection/handlers/cloudflare_forwarding.py:79-91 | a device destination carries the lower-cased scheme, the device id, the given port or 80 for http and 443 for https, and the path |
| CloudflareForwarding.ParseDeviceText | portacode/connection/handlers/cloudflare_forwarding.py:79-91 | a well-formed device destination parses to its own parts |
| CloudflareForwarding.ParseDestinationUrl | portacode/connection/handlers/cloudflare_forwarding.py:92-99 | any other destination is accepted exactly when `urlparse` reads it without error with scheme http or https and a network location; it is kept whole with the parsed path. A `urlparse` error ("Invalid IPv6 URL") propagates, and every other refusal gets the "valid URL" message |
| CloudflareForwarding.UrlParse | portacode/connection/handlers/cloudflare_forwarding.py:92 | the only error `urlparse` raises here is "Invalid IPv6 URL" |
| CloudflareForwarding.ParamsStart | portacode/connection/handlers/cloudflare_forwarding.py:92 | the `;params` cut lies within the path, at a ";" or at its end |
| CloudflareForwarding.ParamsStartCut | portacode/connection/handlers/cloudflare_forwarding.py:92 | the cut is the first ";" after the path's last "/": every earlier ";" has a "/" after it, no "/" follows the cut, and a path without ";" is kept whole |
| CloudflareForwarding.StripLastSegmentParams | portacode/connection/handlers/cloudflare_forwarding.py:92 | "/seg;params" loses ";params" |
| CloudflareForwarding.CleanUrlIgnoresUnsafe | portacode/connection/handlers/cloudflare_forwarding.py:92 | deleting a tab, CR or LF after the first character leaves the text `urlsplit` splits unchanged |
| CloudflareForwarding.UrlParseIgnoresUnsafe | portacode/connection/handlers/cloudflare_forwarding.py:92 | a tab, CR or LF after the first character does not change the parse; so "ht\ttp://h" parses as "http://h" |
| CloudflareForwarding.UrlParseHttp | portacode/connection/handlers/cloudflare_forwarding.py:92-93 | "http(s)://" + network location + path + query or fragment parses to that scheme, network location and path without its `;params`; it is an error exactly when the network location holds only one of "[" and "]" |
| CloudflareForwarding.UrlParseCutsParams | portacode/connection/handlers/cloudflare_forwarding.py:92-93 | "http://host/seg;params" parses to the path "/seg" |
| CloudflareForwarding.UrlParseBracketExample | portacode/connection/handlers/cloudflare_forwarding.py:92 | "http://[x" is refused with "Invalid IPv6 URL" |
| CloudflareForwarding.SplitHttpScheme | portacode/connection/handlers/cloudflare_forwarding.py:92 | "http:" and "https:" are read as the scheme, and the rest is split after it |
| CloudflareForwarding.SplitNetloc | portacode/connection/handlers/cloudflare_forwarding.py:92 | after "//", the network location runs to the first "/", "?" or "#" and the path to the first "?" or "#" |
| CloudflareForwarding.ContainerDestinationParses | portacode/connection/handlers/cloudflare_forwarding.py:685-690 | the destination "http://[id]:port" built for a container parses back to that device and port with an empty path |
| CloudflareForwarding.NormalizeRules | portacode/connection/handlers/cloudflare_forwarding.py:102-122 | the loop computes the normalised rules of its specification function |
| CloudflareForwarding.NormalizedRulesSpec | portacode/connection/handlers/cloudflare_forwarding.py:102-122 | normalisation succeeds exactly when every rule normalises, giving one rule per entry in order; otherwise it fails with the error of the first rule that does not |
| CloudflareForwarding.NormalizeRuleHostname | portacode/connection/handlers/cloudflare_forwarding.py:109-121 | a normalised rule's hostname is non-empty, under the domain and accepted unchanged by the hostname check |
| CloudflareForwarding.NormalizeRuleValidates | portacode/connection/handlers/cloudflare_forwarding.py:107-117 | a normalised rule came from an object whose hostname, host or domain field passes the hostname check with that hostname |
| CloudflareForwarding.LabelTrailingNewline | portacode/connection/handlers/cloudflare_forwarding.py:372-380 | shows the finding below: as written, the subdomain "12\n." gives the label "12\n"; the corrected check refuses it |
| CloudflareForwarding.NormalizeSubdomainLabelCases | portacode/connection/handlers/cloudflare_forwarding.py:372-380 | the candidate is the stripped, lower-cased subdomain without trailing dots, or the default label for a blank one; it is accepted exactly when it holds no "." and has the form device_id or index_device_id, and the single-label error is reported exactly when it holds a "." |
| CloudflareForwarding.NormalizeSubdomainLabelErrors | portacode/connection/handlers/cloudflare_forwarding.py:376-379 | a refused label reports either the single-label error or the format error |
| CloudflareForwarding.NormalizeSubdomainLabelAgain | portacode/connection/handlers/cloudflare_forwarding.py:372-380 | an accepted label is accepted unchanged again, at any index |
| CloudflareForwarding.BlankSubdomainLabel | portacode/connection/handlers/cloudflare_forwarding.py:374-375 | a blank subdomain takes the label device_id at index 0 and index_device_id after, and that label names the device |
| CloudflareForwarding.NormalizeContainerRuleSpecs | portacode/connection/handlers/cloudflare_forwarding.py:383-406 | the loop computes the container rule specifications of its specification function |
| CloudflareForwarding.NormalizeSpecShape | portacode/connection/handlers/cloudflare_forwarding.py:394-405 | an accepted rule has a port in 1..65535 and a single-label subdomain of the form device_id or index_device_id |
| CloudflareForwarding.NormalizeSpecErrors | portacode/connection/handlers/cloudflare_forwarding.py:395-404 | a refused rule reports one of the five messages of the source: not an object, not single-label, bad format, bad port, port out of range |
| CloudflareForwarding.ContainerRuleSpecsDeviceId | portacode/connection/handlers/cloudflare_forwarding.py:387-389 | the device-id error is reported exactly when the stripped device id is not a non-empty string of digits |
| CloudflareForwarding.ContainerRuleSpecsOk | portacode/connection/handlers/cloudflare_forwarding.py:383-406 | on success the device id is numeric, the rules were a list, and there is one specification per rule, each the normalisation of that rule at its index |
| CloudflareForwarding.ParsePort | portacode/connection/handlers/cloudflare_forwarding.py:786-791 | an accepted port is in 1..65535 |
| CloudflareForwarding.UniquePorts | portacode/connection/handlers/cloudflare_forwarding.py:783-797 | the loop fails exactly when the port parsing fails, with its error, and otherwise keeps the parsed ports in first-seen order without repeats |
| CloudflareForwarding.ParsedPortsInRange | portacode/connection/handlers/cloudflare_forwarding.py:786-791 | every parsed port is in 1..65535 |
| CloudflareForwarding.ExposeRules | portacode/connection/handlers/cloudflare_forwarding.py:799-805 | one desired rule per port |
| CloudflareForwarding.PortsOfExposeRules | portacode/connection/handlers/cloudflare_forwarding.py:799-805 | the desired rules carry exactly the ports, in order |
| CloudflareForwarding.NormalizeExposePorts | portacode/connection/handlers/cloudflare_forwarding.py:772-805 | the handler's loops compute the desired rules of its specification function |
| CloudflareForwarding.ExposePortsRulesPorts | portacode/connection/handlers/cloudflare_forwarding.py:773-797 | on success the child id is numeric, the ports field was a list or null, and the rules carry the distinct valid ports in first-seen order, at most three |
| CloudflareForwarding.ExposePortsRulesShape | portacode/connection/handlers/cloudflare_forwarding.py:799-805 | rule k has a valid port and the subdomain child_id for k = 0 and k_child_id after |
| CloudflareForwarding.ExposeRulesNormalize | portacode/connection/handlers/cloudflare_forwarding.py:799-807 | the desired rules pass the container rule normalisation unchanged |
| CloudflareForwarding.ParseNetEntry | portacode/connection/handlers/cloudflare_forwarding.py:125-131 | the loop builds the map of the stripped key=value fields split at their first "=" |
| CloudflareForwarding.AssignedKeys | portacode/connection/handlers/cloudflare_forwarding.py:127-130 | a key is in the parsed map exactly when some field assigns it |
| CloudflareForwarding.AssignedLast | portacode/connection/handlers/cloudflare_forwarding.py:127-130 | a key's value is that of the last field assigning it |
| CloudflareForwarding.FirstLease | portacode/connection/handlers/cloudflare_forwarding.py:157-164 | the index of the first lease with the property, or none when no lease has it |
| CloudflareForwarding.LookupLeaseIp | portacode/connection/handlers/cloudflare_forwarding.py:152-165 | the loops compute the lease lookup of its specification function |
| CloudflareForwarding.LeaseIpSpec | portacode/connection/handlers/cloudflare_forwarding.py:152-165 | the IP of the first lease with the lower-cased MAC; failing that, of the first lease with the lower-cased hostname; none exactly when neither matches |
| CloudflareForwarding.ShellQuoteRoundTrip | portacode/connection/handlers/cloudflare_forwarding.py:434-435 | a POSIX shell reads the single-quoted value back as exactly the original value |
| CloudflareForwarding.EtcEnvironmentRoundTrip | portacode/connection/handlers/cloudflare_forwarding.py:476-478 | a double-quoted reader reads the escaped value back as exactly the original value |
| CloudflareForwarding.KeepUnmanagedLines | portacode/connection/handlers/cloudflare_forwarding.py:484-495 | the loop keeps exactly the lines of its specification function |
| CloudflareForwarding.KeptLinesSpec | portacode/connection/handlers/cloudflare_forwarding.py:484-495 | a line is kept exactly when it is blank, a comment, or does not assign a managed key; keeping distributes over concatenation and keeps everything when nothing is managed |
| CloudflareForwarding.AppendEnvLines | portacode/connection/handlers/cloudflare_forwarding.py:497-498 | the loop appends one KEY="value" line per key in the order given |
| CloudflareForwarding.MergeSystemEnvironment | portacode/connection/handlers/cloudflare_forwarding.py:481-501 | the method computes the merged environment of its specification function |
| CloudflareForwarding.MergedEnvironmentEnding | portacode/connection/handlers/cloudflare_forwarding.py:500 | the merged text ends in exactly one newline with no trailing whitespace before it |
| CloudflareForwarding.EnvLinesAssignOnce | portacode/connection/handlers/cloudflare_forwarding.py:497-498 | among the managed lines, each key is assigned by exactly its own line |
| CloudflareForwarding.MergedLinesAssignOnce | portacode/connection/handlers/cloudflare_forwarding.py:481-501 | after the merge each managed key is assigned by at most one line |
| CloudflareForwarding.MergedLinesWriteKey | portacode/connection/handlers/cloudflare_forwarding.py:481-501 | the merge holds the kept lines plus one line per managed key, and each managed key's line carries its value |
| CloudflareForwarding.MergedLinesSorted | portacode/connection/handlers/cloudflare_forwarding.py:497 | the managed lines come after the kept lines in strictly increasing key order |
| CloudflareForwarding.NewRules | portacode/connection/handlers/cloudflare_forwarding.py:683-692 | one new rule per specification, in order |
| CloudflareForwarding.BuildContainerRules | portacode/connection/handlers/cloudflare_forwarding.py:681-701 | the loop computes the new rules and the exposed ports of its specification function |
| CloudflareForwarding.NewRuleParses | portacode/connection/handlers/cloudflare_forwarding.py:684-691 | the stored parsed destination of a new rule is what parsing its destination gives |
| CloudflareForwarding.NewRuleTargets | portacode/connection/handlers/cloudflare_forwarding.py:684-691 | every new rule is recognised as targeting its container |
| CloudflareForwarding.MergeContainerRulesTargets | portacode/connection/handlers/cloudflare_forwarding.py:676-701 | the merged rules are the preserved ones, none of which targets the container, followed by the new ones, all of which do; a stored rule is preserved exactly when it does not target the container |
| CloudflareForwarding.MergeContainerRulesAgain | portacode/connection/handlers/cloudflare_forwarding.py:676-701 | applying the same container rules a second time changes nothing |
| CloudflareForwarding.NewRulesParse | portacode/connection/handlers/cloudflare_forwarding.py:683-699 | each new rule's destination parses to its stored value, and exposed port k carries rule k's port, hostname and https URL |
| CloudflareForwarding.SetContainerForwardingRules | portacode/connection/handlers/cloudflare_forwarding.py:664-701 | the method computes the forwarding update of its specification function |
| CloudflareForwarding.ContainerForwardingUpdateOk | portacode/connection/handlers/cloudflare_forwarding.py:664-731 | on success the result carries the numeric device id and the normalised domain, the stored rules normalised, the rules are the preserved ones followed by one parsed rule per container rule, and there is one exposed port per new rule |
| CloudflareForwarding.ContainerForwardingUpdateValue | portacode/connection/handlers/cloudflare_forwarding.py:664-731 | on success the rules are exactly the preserved stored rules followed by the new rules built from the normalised specifications, and the exposed ports are those of the specifications |
| FileHandlers.CoercePositiveInt | portacode/connection/handlers/file_handlers.py:108-125 | a value that converts to a positive int gives that int; anything else gives None when None is allowed and `default or 0` otherwise |
| FileHandlers.ReadLimit | portacode/connection/handlers/file_handlers.py:44-52 | the line budget is absent exactly when neither max_lines nor a usable end_line is given; it is at most 2000, at most max_lines, at most end_line − start_line + 1 when end_line ≥ start_line, and equal to one of those bounds |
| FileHandlers.ReadStart | portacode/connection/handlers/file_handlers.py:37-42 | the first line is the given positive start_line, or 1 |
| FileHandlers.ReadBudget | portacode/connection/handlers/file_handlers.py:38-52 | a present budget lies in 1..2000 |
| FileHandlers.ScanLines | portacode/connection/handlers/file_handlers.py:61-76 | the loop collects the window of at most the budget lines from start_line, counts every line, and records truncation exactly when lines past the budget remain |
| FileHandlers.ReplyWindow | portacode/connection/handlers/file_handlers.py:84-105 | the returned lines are consecutive from start_line and at most the budget; the content is their concatenation; start and end line are None exactly when nothing is returned, otherwise end = start + count − 1; has_more_before iff something is returned and start > 1; has_more_after iff something is returned and lines remain after it |
| FileHandlers.ReadFile | portacode/connection/handlers/file_handlers.py:30-106 | a missing path is refused with "path parameter is required" and only then; otherwise the reply is the window of the file's lines for the computed start and budget |
| FileHandlers.ParseBoundedInt | portacode/connection/handlers/file_handlers.py:176-187 | None exactly when None is allowed and the value is not an int; otherwise the int clamped to the minimum and the optional maximum, an in-range int unchanged |
| FileHandlers.ListedEntries | portacode/connection/handlers/file_handlers.py:193-212 | every listed entry is a directory name, not hidden unless show_hidden, with the stat information of that name |
| FileHandlers.CollectEntries | portacode/connection/handlers/file_handlers.py:193-212 | the loop collects the listed entries of its specification function |
| FileHandlers.SliceItems | portacode/connection/handlers/file_handlers.py:216-225 | the slice is `items[offset:offset+limit]`: empty past the end, consecutive from the offset, of length min(limit, remaining) or all remaining items without a limit |
| FileHandlers.HasMore | portacode/connection/handlers/file_handlers.py:228 | has_more holds exactly when the total exceeds offset + returned count |
| FileHandlers.ListDirectory | portacode/connection/handlers/file_handlers.py:169-245 | the offset is `_parse_positive_int` of the "offset" field with minimum 0, so ≥ 0, and the limit is that of the "limit" field, absent or within 1..1000; the items are the slice of the listed entries, the count is their number and has_more holds iff total > offset + count |
| FileHandlers.CheckName | portacode/connection/handlers/file_handlers.py:349-354 | a name is accepted exactly when it is a non-empty string without "/" or "\\" other than "." and ".."; a missing name gives "<field> parameter is required" and an invalid one the handler's invalid-name message; a non-zero number or `True` fails the `in` test with "argument of type 'int'/'bool' is not iterable" |
| FileHandlers.FileCreateArgs | portacode/connection/handlers/file_handlers.py:341-354 | accepted arguments have a parent path and a valid file name; a missing parent path is reported first |
| FileHandlers.FolderCreateArgs | portacode/connection/handlers/file_handlers.py:395-407 | accepted arguments have a parent path and a valid folder name; a missing parent path is reported first |
| FileHandlers.RenameArgs | portacode/connection/handlers/file_handlers.py:447-459 | accepted arguments have an old path and a valid new name; a missing old path is reported first |
| FileHandlers.ValidNameIsOneComponent | portacode/connection/handlers/file_handlers.py:353-354 | joining a valid name to a parent path adds exactly one path component, never "." or ".." |
| FileHandlers.ClampInt | portacode/connection/handlers/file_handlers.py:1017-1029 | the result lies in [min, max]; an in-range int is kept and a non-int takes the default when it is in range |
| FileHandlers.Limits | portacode/connection/handlers/file_handlers.py:773-791 | max_results in 1..500, per-file matches in 1..50, file size in 1 KiB..10 MiB and line length in 32..1024 |
| FileHandlers.KeptPatterns | portacode/connection/handlers/file_handlers.py:997-1001 | never more patterns than entries |
| FileHandlers.KeptPatternsStripped | portacode/connection/handlers/file_handlers.py:998-1000 | every kept pattern is non-empty and stripped |
| FileHandlers.KeptPatternsIdempotent | portacode/connection/handlers/file_handlers.py:992-1001 | normalising normalised patterns changes nothing |
| FileHandlers.NormalizePatterns | portacode/connection/handlers/file_handlers.py:992-1001 | a falsy value gives no patterns, a string is treated as a one-element list, a list keeps its stripped non-blank strings in order, and any other truthy value is an error (Python raises TypeError) |
| FileHandlers.AnyMatch | portacode/connection/handlers/file_handlers.py:1010-1013 | true exactly when some pattern matches the path |
| FileHandlers.ShouldInclude | portacode/connection/handlers/file_handlers.py:1003-1015 | a path is included exactly when there are no include patterns or one matches, and no exclude pattern matches |
| FileHandlers.ShouldIncludeMonotone | portacode/connection/handlers/file_handlers.py:1003-1015 | more exclude patterns never include more paths, and with include patterns present more include patterns never include fewer |
| FileHandlers.ScanLine | portacode/connection/handlers/file_handlers.py:905-933 | a line's matches split into kept spans and truncated ones; spans are kept only below both caps, and keeping none means the file or the search stops |
| FileHandlers.ScanFile | portacode/connection/handlers/file_handlers.py:891-959 | scanning a file only appends entries for that file, never beyond max_results, with at most max_per_file spans for the file; truncation is flagged exactly when some match was dropped; kept plus dropped never exceeds the file's matches |
| FileHandlers.ScanDone | portacode/connection/handlers/file_handlers.py:891-959 | the per-file loop invariant gives the file scan's guarantees on exit |
| FileHandlers.FallbackSearch | portacode/connection/handlers/file_handlers.py:888-969 | matches_returned is the number of entries and at most max_results; every entry has 1..max_per_file spans and the spans of all entries of any one file sum to at most max_per_file; total_matches = matches_returned + truncated_count; truncated holds exactly when truncated_count > 0 |
| FileHandlers.ScanKeepsPerFile | portacode/connection/handlers/file_handlers.py:904-951 | appending the entries of a file not visited before, whose spans sum to at most max_per_file, keeps every file within the per-file cap and marks that file as visited |
| FileHandlers.ContentCache.constructor | portacode/connection/handlers/file_handlers.py:1087-1094 | the cache starts empty |
| FileHandlers.ContentCache.CacheContent | portacode/connection/handlers/file_handlers.py:1087-1089 | the content is stored under its hash and nothing else changes |
| FileHandlers.ContentCache.GetCachedContent | portacode/connection/handlers/file_handlers.py:1092-1094 | the cached content for a stored hash, None otherwise |
| FileHandlers.CacheThenGet | portacode/connection/handlers/file_handlers.py:1087-1094 | after caching, the hash reads back its content and every other hash reads what it read before |
| FileHandlers.ContentRequestLosesNotFound | portacode/connection/handlers/file_handlers.py:1071-1084 | shows the finding below: as written, a request for an uncached hash with a request_id fails instead of replying "not found" |
| FileHandlers.ContentRequest | portacode/connection/handlers/file_handlers.py:1039-1084 | refused exactly when content_hash is missing; otherwise a reply for that hash carrying the request_id iff the message has one, found exactly when the hash is cached, with the cached content |
| FileHandlers.ContentRequestAgrees | portacode/connection/handlers/file_handlers.py:1039-1084 | wherever the code as written replies, the corrected handler gives the same reply |
| ProxmoxInfra.ParseTokenShape | portacode/connection/handlers/proxmox_infra.py:116-127 | an identifier lacking "!" or "@" gets the form error; an accepted one gives a stripped user containing "@" and no "!" (the split is at the first "!") and a stripped, non-empty token name |
| ProxmoxInfra.SplitTokenShape | portacode/connection/handlers/proxmox_infra.py:120-127 | the same guarantees for the split of an already stripped identifier |
| ProxmoxInfra.ParseTokenRoundTrip | portacode/connection/handlers/proxmox_infra.py:116-127 | "user!token" with a realm-qualified user parses back to that user and token |
| ProxmoxInfra.PickStorage | portacode/connection/handlers/proxmox_infra.py:172-179 | the loop computes the storage choice of its specification function |
| ProxmoxInfra.PickStorageShape | portacode/connection/handlers/proxmox_infra.py:172-179 | "" when no storage holds rootdir; otherwise a rootdir storage with space when one exists, of maximal avail among those candidates, the first such in input order |
| ProxmoxInfra.StorageType | portacode/connection/handlers/proxmox_infra.py:361-365 | the type of the first storage with the given name, "" when there is none |
| ProxmoxInfra.FormatRootfs | portacode/connection/handlers/proxmox_infra.py:293-296 | "storage:size" for lvm and lvmthin and "storage:sizeG" for every other type |
| ProxmoxInfra.ValidatePositiveInt | portacode/connection/handlers/proxmox_infra.py:368-375 | the value as an int when that is positive, otherwise the default; positive whenever the default is |
| ProxmoxInfra.PositiveDefault | portacode/connection/handlers/proxmox_infra.py:368-375 | a falsy value always falls back to the default |
| ProxmoxInfra.CapitalizeShape | portacode/connection/handlers/proxmox_infra.py:313 | capitalising keeps the letters, upper-cases the first and lower-cases the rest |
| ProxmoxInfra.FriendlyStepLabelShape | portacode/connection/handlers/proxmox_infra.py:309-313 | an empty name gives "Step"; otherwise the name with "_" read as spaces, stripped and capitalised |
| ProxmoxInfra.BootstrapNamesShape | portacode/connection/handlers/proxmox_infra.py:316-358 | the step names are distinct, with set_password exactly when a password is given and add_ssh_key exactly when a key is given |
| ProxmoxInfra.BuildBootstrapSteps | portacode/connection/handlers/proxmox_infra.py:316-358 | apt_update, install_deps, user_exists, add_sudo first; then set_password iff the password is non-empty and add_ssh_key iff the key is non-empty; pip_upgrade, install_portacode, portacode_connect last; names distinct |
| ProxmoxInfra.BootstrapListShape | portacode/connection/handlers/proxmox_infra.py:316-358 | the assembled list has that shape |
| ProxmoxInfra.BootstrapStepNames | portacode/connection/handlers/proxmox_infra.py:316-358 | the names of the assembled list are the bootstrap names for the given password and key |
| ProxmoxInfra.SummarizeErrorPriority | portacode/connection/handlers/proxmox_infra.py:579-589 | each summary is chosen exactly when its condition holds and no earlier one does: disk full, dpkg lock, DNS, fetch failure, then the generic message |
| ProxmoxInfra.AnyFragment | portacode/connection/handlers/proxmox_infra.py:636-639 | true exactly when some retry_on token occurs in the output |
| ProxmoxInfra.RunCommandStep | portacode/connection/handlers/proxmox_infra.py:619-649 | the retry loop computes the attempts of its specification function |
| ProxmoxInfra.AttemptsCount | portacode/connection/handlers/proxmox_infra.py:619-649 | a command step runs at least once and at most retries + 1 times |
| ProxmoxInfra.AttemptsRecords | portacode/connection/handlers/proxmox_infra.py:623-629 | attempt k is recorded with the step's name, attempt number k + 1 and its command result |
| ProxmoxInfra.AttemptsRetried | portacode/connection/handlers/proxmox_infra.py:627-649 | every attempt but the last failed and was retried because attempts remained and a retry_on token occurred; the step succeeds exactly when the last attempt returned 0 |
| ProxmoxInfra.AttemptsEvents | portacode/connection/handlers/proxmox_infra.py:630-643 | one progress report per attempt, all with the step's index, total and name: "retrying" for every attempt except the last, then "completed" or "failed" |
| ProxmoxInfra.RunStep | portacode/connection/handlers/proxmox_infra.py:603-649 | one step runs as the specification says, the connect step or the command loop |
| ProxmoxInfra.StepRunEvents | portacode/connection/handlers/proxmox_infra.py:604-649 | every step reports at least once, all reports carry its index, total and name, and a failing step's last report is "failed" |
| ProxmoxInfra.RunSetupSteps | portacode/connection/handlers/proxmox_infra.py:592-650 | the loop over the steps computes the results, the verdict and the progress reports of the specification, with the default total start_index + len − 1 |
| ProxmoxInfra.RunStepsOk | portacode/connection/handlers/proxmox_infra.py:602-650 | the run succeeds exactly when every step succeeds |
| ProxmoxInfra.RunStepsEvents | portacode/connection/handlers/proxmox_infra.py:602-650 | every report names one of the steps at index start_index + offset, and a failed run ends with a "failed" report |
| ProxmoxInfra.ReportsConcat | portacode/connection/handlers/proxmox_infra.py:602-603 | the reports of one step followed by those of the later steps all name steps from the current offset on |
| ProxmoxInfra.StartContainerCases | portacode/connection/handlers/proxmox_infra.py:399-424 | a running container is left as it is; otherwise the start is refused for RAM exactly when the memory total is non-zero and used + target memory exceeds it, for CPU exactly when RAM passes, the core total is non-zero and used + target cores exceed it, and admitted otherwise |
| ProxmoxInfra.StartContainerMonotone | portacode/connection/handlers/proxmox_infra.py:410-421 | another running container never turns a refusal into an admission |
| ProxmoxInfra.BuildSnapshotShape | portacode/connection/handlers/proxmox_infra.py:681-700 | the snapshot is configured exactly when the config is non-empty; the network block takes applied, message and bridge with their defaults; a configured snapshot copies the config fields and replaces falsy templates by [] |
| ProxmoxInfra.ProvisioningUserInfo | portacode/connection/handlers/proxmox_infra.py:299-306 | the user is never empty, and the given password is kept when truthy and replaced by a generated one otherwise |
| ProxmoxInfra.ProvisioningUserStripped | portacode/connection/handlers/proxmox_infra.py:300-305 | user and SSH key are stripped, and a non-blank given user name is used |
| ProxmoxInfra.BuildContainerPayloadErrors | portacode/connection/handlers/proxmox_infra.py:440-454 | the template error is reported exactly when neither a template nor a configured template exists, the storage error exactly when a template exists but no storage, and the payload is built otherwise |
| ProxmoxInfra.BuildContainerPayloadShape | portacode/connection/handlers/proxmox_infra.py:447-473 | a built payload has a template and storage, positive disk, RAM and CPU counts with the defaults 32, 2048 and 1, the bridge in net0, unprivileged 1, swap 0, a user name and the managed marker |
| PlayStoreAssets.SlugifyShape | tools/generate_play_store_assets.py:203-207 | the slug is non-empty, uses only a–z, 0–9 and "-", has no leading, trailing or doubled "-", keeps exactly the letters and digits of the lower-cased input in order, and is "screenshot" when there are none |
| PlayStoreAssets.SlugifyIdempotent | tools/generate_play_store_assets.py:203-207 | slugifying a slug changes nothing |
| PlayStoreAssets.FeatureShotWidthOrder | tools/generate_play_store_assets.py:544-550 | slot 0 is narrowest and slot 1 widest, tablets are 100 wider than phones, and every width lies in 220..360 |
| PlayStoreAssets.UnescapeEscape | tools/generate_play_store_assets.py:182-184 | unescaping reverses the escaping of both quote characters in a text without backslashes |
| PlayStoreAssets.EscapeNothing | tools/generate_play_store_assets.py:182-184 | escaping no characters leaves the text as it is |
| PlayStoreAssets.ParseFeaturePickString | tools/generate_play_store_assets.py:271-286 | the loop computes the pick parse of its specification function |
| PlayStoreAssets.PicksOfBad | tools/generate_play_store_assets.py:276-281 | any non-digit or out-of-range token makes the parse fail |
| PlayStoreAssets.PicksOfGood | tools/generate_play_store_assets.py:272-286 | with all tokens valid, the result is their values without repeats in first-seen order when there are exactly three, and None otherwise |
| PlayStoreAssets.ParsePicksShape | tools/generate_play_store_assets.py:271-286 | the parse succeeds exactly when every token split at commas and whitespace is a digit string in 1..total and three distinct values remain; the result is three distinct values in 1..total, each from a token |
| PlayStoreAssets.PicksOfShape | tools/generate_play_store_assets.py:275-286 | the same for a list of tokens |
| PlayStoreAssets.ComputeDefaultFeatureIndices | tools/generate_play_store_assets.py:241-253 | the loops compute the default picks of its specification function |
| PlayStoreAssets.FillIsDedup | tools/generate_play_store_assets.py:248-253 | filling appends candidate indices not yet chosen, in order, until three are chosen |
| PlayStoreAssets.DefaultIndicesSpec | tools/generate_play_store_assets.py:241-253 | the defaults are the first three of: the preferred (device, ordinal) matches in preference order, then all candidate indices, without repeats |
| PlayStoreAssets.DefaultIndicesShape | tools/generate_play_store_assets.py:241-253 | at most three defaults, starting with the preferred matches, all of them candidate indices |
| PlayStoreAssets.DefaultIndicesDistinct | tools/generate_play_store_assets.py:241-253 | the defaults are distinct, and there are exactly three when there are at least three candidates |
| PlayStoreAssets.DetermineCases | tools/generate_play_store_assets.py:289-311 | RuntimeError exactly for fewer than three candidates; ValueError with the source's message exactly when a non-empty picks argument does not parse; a parsed argument is returned; with no argument the defaults, or the parsed stripped interactive answer when one is given and parses |
| PlayStoreAssets.DetermineSelectsThree | tools/generate_play_store_assets.py:289-311 | every selection is three distinct candidate numbers |
| PlayStoreAssets.TitleFrom | tools/generate_play_store_assets.py:219 | `str.title()` keeps the length |
| PlayStoreAssets.TitleFromShape | tools/generate_play_store_assets.py:219 | `str.title()` upper-cases letters that start a word and lower-cases the other letters, leaving other characters alone |
| PlayStoreAssets.DeviceLoop | tools/generate_play_store_assets.py:221-237 | the inner loop computes the device's candidates of its specification function |
| PlayStoreAssets.CollectDevice | tools/generate_play_store_assets.py:215-237 | one device's contribution, skipped when it has no items |
| PlayStoreAssets.CollectFeatureCandidates | tools/generate_play_store_assets.py:210-238 | the loops compute the candidates of the specification for the order phone, tablet7, tablet10 |
| PlayStoreAssets.CollectedCount | tools/generate_play_store_assets.py:210-238 | one candidate per showcase item of the listed devices |
| PlayStoreAssets.CollectedEntries | tools/generate_play_store_assets.py:218-236 | candidate k is numbered k + 1 and carries its item, its resolved asset, the device label (falling back to the title-cased device name) and the component (falling back to "pc-screenshot-frame") |
| PlayStoreAssets.CollectedOrder | tools/generate_play_store_assets.py:214-237 | candidates come device by device in the given order, and device ordinals restart at 1 for each device |
| PlayStoreAssets.CollectFeatureCandidatesShape | tools/generate_play_store_assets.py:210-238 | the collected candidates are numbered 1..n with n the item count, carry their entries, and are grouped by device in order with ordinals restarting per device |
| PlayStoreAssets.OrderedComponents | tools/generate_play_store_assets.py:744-760 | the loop lists the shots' components without repeats, in first-seen order |
| PlayStoreAssets.OrderedComponentsShape | tools/generate_play_store_assets.py:744-760 | the listed components are distinct, are exactly the shots' components, and appear in order of first occurrence |
| PlayStoreAssets.LoadComponentSource | tools/generate_play_store_assets.py:825-831 | an unmapped component tag gives the "No module mapping" error; a mapped one reads its module |
| PlayStoreAssets.LoadAll | tools/generate_play_store_assets.py:761 | on success one source per component, each the loaded source of that component |
| PlayStoreAssets.LoadAllErr | tools/generate_play_store_assets.py:761 | loading fails exactly when some component fails, and reports the error of the first one that does |
| PlayStoreAssets.BuildFeatureShotsPayload | tools/generate_play_store_assets.py:742-762 | the method computes the shots and the joined component source of its specification function |
| HierarchicalRunner.ZeroDependencyTests | testing_framework/core/hierarchical_runner.py:43 | the initial queue holds exactly the tests with no dependencies, and keeps names distinct |
| HierarchicalRunner.NameIndex | testing_framework/core/hierarchical_runner.py:37 | every test's name is a key, each key maps to a test of that name, and the last test of a duplicated name wins |
| HierarchicalRunner.GraphRow | testing_framework/core/hierarchical_runner.py:24-26 | visiting one more test appends its name to the dependents of d once per listing of d |
| HierarchicalRunner.BuildDependencyGraph | testing_framework/core/hierarchical_runner.py:20-28 | each dependency maps to the names of the tests that list it, in test order and with repeats; the keys are exactly the listed dependencies |
| HierarchicalRunner.DependentsOcc | testing_framework/core/hierarchical_runner.py:24-26 | with distinct names, a test appears among the dependents of d as often as it lists d, which is what its in-degree counts |
| HierarchicalRunner.StuckIsBlocked | testing_framework/core/hierarchical_runner.py:56-59 | when the queue empties early, the remaining names are non-empty, each waits on a remaining or unknown name, and no dependency order exists |
| HierarchicalRunner.TopologicalSort | testing_framework/core/hierarchical_runner.py:30-61 | success gives a permutation of the tests in which every dependency runs first and which contains every test without dependencies; failure gives a non-empty blocked set of test names, and failure happens exactly when no such order exists |
| HierarchicalRunner.BlockedMeansNoOrder | testing_framework/core/hierarchical_runner.py:57-59 | a non-empty blocked set of names rules out every dependency order |
| HierarchicalRunner.MissingDependencyMeansNoOrder | testing_framework/core/hierarchical_runner.py:39-40 | a dependency that names no test in the list keeps its test's in-degree above zero, so no dependency order exists |
| HierarchicalRunner.ResolveMinimal | testing_framework/core/hierarchical_runner.py:63-86 | the resolved names lie inside every dependency-closed set that contains the requested names |
| HierarchicalRunner.ResolveDependencies | testing_framework/core/hierarchical_runner.py:63-86 | the result has distinct names and comes from the catalog, includes each requested test the catalog knows, contains every known dependency of its members, and is the least such set |
| HierarchicalRunner.RequestedTests | testing_framework/core/hierarchical_runner.py:91 | every requested name the discovery knows contributes its test, and nothing else is included |
| HierarchicalRunner.CheckLoginRequirement | testing_framework/core/hierarchical_runner.py:103-112 | true exactly when login is not required or some completed name mentions "login" or "auth" in any case |
| HierarchicalRunner.CheckIdeRequirement | testing_framework/core/hierarchical_runner.py:114-123 | true exactly when the IDE is not required or some completed name mentions "ide" or "launch" in any case |
| HierarchicalRunner.DependencySkipReason | testing_framework/core/hierarchical_runner.py:154-160 | the reason names the first dependency that failed or has not completed, in listing order, or is absent |
| HierarchicalRunner.DecideSkip | testing_framework/core/hierarchical_runner.py:153-167 | dependencies are checked first, then the login requirement, then the IDE requirement |
| HierarchicalRunner.RunOne | testing_framework/core/hierarchical_runner.py:169-200 | a test with a skip reason gets a failed "Skipped: " result, any other test the outcome it produces |
| HierarchicalRunner.Run | testing_framework/core/hierarchical_runner.py:146-203 | running an order gives one result per test |
| HierarchicalRunner.RunNames | testing_framework/core/hierarchical_runner.py:171-172 | the k-th result belongs to the k-th test of the order |
| HierarchicalRunner.RanAfterDependencies | testing_framework/core/hierarchical_runner.py:153-160 | a test that passed has, for each dependency, an earlier passing test of that name, and every earlier test of that name passed |
| HierarchicalRunner.SkipPropagates | testing_framework/core/hierarchical_runner.py:153-183 | a test whose earlier dependency did not pass is skipped |
| HierarchicalRunner.RunRecordsOutcome | testing_framework/core/hierarchical_runner.py:191-200 | a test with no skip reason records exactly the outcome it produced |
| HierarchicalRunner.StatesOfRun | testing_framework/core/hierarchical_runner.py:178 | with distinct names, the state map holds each result under its test's name and no other keys |
| HierarchicalRunner.HierarchicalTestRunner.constructor | testing_framework/core/hierarchical_runner.py:15-18 | a new runner has no results and no test states |
| HierarchicalRunner.HierarchicalTestRunner.RunTests | testing_framework/core/hierarchical_runner.py:125-206 | an empty list reports that no tests were found; a circular dependency is reported exactly when no dependency order exists, with the blocked names; neither case touches the runner's state; a finished run follows a dependency order, and its results and states are those of running that order |
| HierarchicalRunner.HierarchicalTestRunner.RunTestsByNames | testing_framework/core/hierarchical_runner.py:88-101 | a finished run covers only catalog tests and includes every requested name the catalog knows, with results and states those of its order |
| HierarchicalRunner.HierarchicalTestRunner.RunInOrder | testing_framework/core/hierarchical_runner.py:139-203 | the results are those of running the order, and the state map is built from them |
| DiffHandlers.JoinPath | portacode/connection/handlers/diff_handlers.py:43 | the joined path starts with the base path and ends with the relative path |
| DiffHandlers.ResolvePreviewPath | portacode/connection/handlers/diff_handlers.py:37-43 | the path hint is absolute, as the docstring promises, whenever there is a relative path or the base is absolute (given an `abspath` that yields absolute paths); a missing or empty relative path gives the base path, an absolute one is kept as it is, any other is joined to the base path and made absolute |
| DiffHandlers.DiffText | portacode/connection/handlers/diff_handlers.py:122-124 | the diff is accepted exactly when it is text that is not blank; a missing, falsy or blank diff gives "diff parameter is required", and a truthy number or flag gives Python's "'int' object has no attribute 'strip'" or "'bool' object has no attribute 'strip'" |
| DiffHandlers.DiffChars | portacode/connection/handlers/diff_handlers.py:57-61 | the trace line before the `try` measures text and falsy values, and raises (so `handle` sends no reply) for a truthy number or flag; it raises only for a diff that `execute` would refuse with a type error anyway |
| DiffHandlers.Summarize | portacode/connection/handlers/diff_handlers.py:198-204 | the success and failure counts add up to the number of entries |
| DiffHandlers.SummarizeCases | portacode/connection/handlers/diff_handlers.py:198-213 | the status is "success" exactly when nothing failed (so also for no entries), "partial_failure" when some but not all succeeded, "failed" when entries exist and none succeeded; success means nothing failed |
| DiffHandlers.ApplyEntryFor | portacode/connection/handlers/diff_handlers.py:157-189 | an entry is "applied" exactly when the patch was written; every failure becomes an "error" entry |
| DiffHandlers.AppliedCount | portacode/connection/handlers/diff_handlers.py:198 | the applied count never exceeds the number of entries |
| DiffHandlers.AppliedCountBounds | portacode/connection/handlers/diff_handlers.py:198-204 | the applied count is zero exactly when no entry was applied, and equals the number of entries exactly when all were |
| DiffHandlers.ApplyPatches | portacode/connection/handlers/diff_handlers.py:157-189 | one entry per patch, in patch order, each the entry for that patch's outcome; the applied paths are those of the applied entries |
| DiffHandlers.ExecuteApply | portacode/connection/handlers/diff_handlers.py:121-219 | a refused diff gives the error of the diff check ("diff parameter is required" for a missing or blank one); a parse failure is reported as "Invalid diff content: …"; otherwise the reply carries one entry per parsed patch applied against the chosen base path, the applied count and the summary status |
| DiffHandlers.PreviewEntryFor | portacode/connection/handlers/diff_handlers.py:335-427 | for a patch whose preview did not raise an uncaught exception: the entry's path is the resolved target hint; it is "ready" exactly when rendering succeeded, and then its html is the minimal rendering and has_full says whether the full rendering differs |
| DiffHandlers.ReadyCount | portacode/connection/handlers/diff_handlers.py:429 | the ready count never exceeds the number of previews |
| DiffHandlers.ReadyCountBounds | portacode/connection/handlers/diff_handlers.py:429-435 | the ready count is zero exactly when no preview is ready, and equals the number of previews exactly when all are |
| DiffHandlers.PreviewPatches | portacode/connection/handlers/diff_handlers.py:335-427 | the loop fails exactly when some patch's `preview_file_patch` raises an exception other than `DiffApplyError`, and then with the text of the first such patch; otherwise one preview per patch, in patch order, each the entry for that patch's rendering outcome |
| DiffHandlers.ExecutePreview | portacode/connection/handlers/diff_handlers.py:301-449 | a refused diff gives the error of the diff check, a parse failure is reported as "Invalid diff content: …", an uncaught exception from `preview_file_patch` ends `execute` with its text, otherwise one preview per parsed patch with the summary status |
| DiffHandlers.Deliver | portacode/connection/handlers/diff_handlers.py:63-90 | the reply keeps every field of the response and gains the message's request_id when it has none; it goes to the requesting client session when one is given, otherwise to the reply channel with the response's project_id |
| DiffHandlers.ApplyErrorPayload | portacode/connection/handlers/diff_handlers.py:96-107 | the error reply reports status "error", success false, no files changed, the error text and the message's project_id, and carries the request_id exactly when the message does |
| DiffHandlers.DeliverError | portacode/connection/handlers/diff_handlers.py:109-114 | the error reply is sent unchanged, to the requesting client session when one is given, otherwise to the reply channel with the message's project_id |
| SystemHandlers.PveversionCases | portacode/connection/handlers/system_handlers.py:141-148 | the result is "no version" exactly for empty output, and an IndexError exactly for non-empty output made only of whitespace |
| SystemHandlers.PveversionStripped | portacode/connection/handlers/system_handlers.py:133-138 | output stripped first, as the probe does, never raises |
| SystemHandlers.PveversionOfBanner | portacode/connection/handlers/system_handlers.py:141-147 | for a banner "name/version …" the version is what follows the first "/" of the first word |
| SystemHandlers.PveversionOfWord | portacode/connection/handlers/system_handlers.py:141-147 | a first word without "/" is returned as it is |
| SystemHandlers.VersionFieldAfterPrefix | portacode/connection/handlers/system_handlers.py:152-153 | a "version:" line, in any case, yields the stripped text after its first colon |
| SystemHandlers.DpkgVersionNone | portacode/connection/handlers/system_handlers.py:150-154 | no version is found exactly when no line starts with "version:" in any case |
| SystemHandlers.DpkgVersionFirst | portacode/connection/handlers/system_handlers.py:151-153 | the first "version:" line decides the result |
| GetDomain.TokenParts | portacode/tunneling/get_domain.py:21-31 | the loop collects, in order, the stripped lines of the first token block, as the scan function Collect describes; the lemmas below pin Collect down |
| GetDomain.MarkersDiffer | portacode/tunneling/get_domain.py:10-11 | no line is both the begin and the end marker |
| GetDomain.CollectOutside | portacode/tunneling/get_domain.py:23-31 | lines before any marker contribute nothing |
| GetDomain.CollectInside | portacode/tunneling/get_domain.py:27-31 | inside the block, every line up to the end marker is collected stripped, and nothing after it |
| GetDomain.CollectBlock | portacode/tunneling/get_domain.py:21-31 | for lines with one begin/end block, the parts are exactly the stripped lines between the markers |
| GetDomain.CollectEndFirst | portacode/tunneling/get_domain.py:27-29 | an end marker before any begin marker stops the scan with no parts |
| GetDomain.ExtractTokenJson | portacode/tunneling/get_domain.py:21-40 | no collected part gives "No ARGO TUNNEL TOKEN block found in cert."; otherwise the joined parts are decoded, and a decode failure gives "Failed to decode ARGO TUNNEL TOKEN JSON." |
| GetDomain.TokenCredentials | portacode/tunneling/get_domain.py:72-77 | the credentials are the token's zoneID and apiToken exactly when both are truthy; otherwise the missing-fields error |
| Updater.PipCommandShape | portacode/updater.py:21-26 | the command is python -m pip install --upgrade target followed by the extra arguments, prefixed with "sudo -H -n" exactly when the effective user is not root |
| Updater.SplitPinTarget | portacode/updater.py:21 | a pinned target "package==version" splits back into the package and the version |
| CloudflareTunnel.BuildTunnelName | portacode/connection/handlers/cloudflare_tunnel.py:83-86 | the name is "portacode-proxmox-" followed by the normalised device id |
| CloudflareTunnel.ReplaceRunsKeepsAlnums | portacode/connection/handlers/cloudflare_tunnel.py:84 | the substitution keeps every letter and digit of the device id, in order, and adds none |
| CloudflareTunnel.SuffixShape | portacode/connection/handlers/cloudflare_tunnel.py:84-85 | the normalised id is non-empty, uses only a–z, 0–9 and "-", and does not start or end with "-" |
| CloudflareTunnel.TunnelSuffixIdempotent | portacode/connection/handlers/cloudflare_tunnel.py:84-85 | normalising a normalised id changes nothing |

## Left out

- DiffText, ExecuteApply, ExecutePreview, BasePath: three cases are not as in the source. A truthy `diff` that is neither text, number nor flag (a list, a dict) fails on `.strip()` with Python's text naming its type, such as "'list' object has no attribute 'strip'"; the model's `Value` does not carry that type name, so DiffText gives "object has no attribute 'strip'", and DiffChars takes `len` as raising for it, which is right for a float but not for a list. BasePath turns a non-text `base_path` into text with `str()`, while the source keeps the value as it is and then fails later inside `os.path.join` or the patch functions. The reply of `handle` for a message whose trace line raises (DiffChars is `None`) is not modelled beyond DiffChars itself: the exception leaves `handle` and no reply is sent.
- Text.Strip, Text.Lower, Text.IsDigit and the `Whitespace` set are ASCII only. Python's `str.strip`, `str.lower`, `str.isdigit`, `int()` and `\s` are Unicode-aware. ParseToken, StrippedField, Slugify, ParsePicks, ParseFeaturePickString and CollectFeatureCandidates therefore differ on non-ASCII input. For example, the pick "٣" is a digit to Python (`int` gives 3), but the model finds no pick. No Unicode tables are modelled.
- ParseFeaturePickString: exact for ASCII text only, because of the Unicode point above.
- Text.PyInt: a float `Value` (`Other`) gives no integer, where Python's `int(2.5)` is 2. Floating point is not modelled.
- ValidatePositiveInt, CoercePositiveInt, ClampInt, ParseBoundedInt: a float argument takes the default path, because of Text.PyInt above.
- ValidateHostname, NormalizeRules, HostnameField, DestinationField: a truthy non-string hostname or destination is read with Python's `str()`. The source calls `.strip()` on it and raises AttributeError (cloudflare_forwarding.py:66, 76, 109-112). Only the string case is exact.
- BuildContainerPayload, ProvisioningUserInfo, StrippedField: a truthy non-string `hostname`, `username` or `ssh_key` is read with `str()`. The source raises AttributeError (proxmox_infra.py:300, 305, 448). A `"network": null` config entry also raises there (proxmox_infra.py:447), and the model cannot represent it.
- BuildSnapshot: a stored `"network": null` makes the source raise AttributeError (proxmox_infra.py:682). InfraConfig always holds a network block, so this case is not represented.
- TopologicalSort, HierarchicalTestRunner.RunTests: require distinct test names. The only caller, run_tests_by_names, passes the output of `resolve_dependencies`, which is keyed by name (hierarchical_runner.py:86, 99-101). With duplicate names the source shares one in-degree entry between the copies; that behaviour is not modelled.
- ResolveDependencies: Python's set iteration order is unspecified, so the order of the result is an arbitrary choice. Its contents are exact.
- TickOf, RunSpec, AutomationRuntime.RunTask: the branch for `instructions` that is not a list (automation_v2_handlers.py:305-313) is not modelled. The timeout error text, which formats a float, becomes the `TimedOut` outcome. A cancel that arrives while a step is running becomes the step outcome's `cancelledMeanwhile` flag.
- Automation runtime concurrency is not modelled: the asyncio lock and condition, `wait_for_change`, the subprocess and its stream readers, events, and `_load_state`/`_persist_state`. Each step's result (return code, timeout, probe result) is the `outcome` parameter. `_extract_step_timeout` (floats) is not modelled. The exposed-services hosts map used by `_resolve_wait_for_url` is a parameter instead of a file read.
- StepRun, RunSetupSteps: the connect step's result (public key, error, stdout/stderr) is reduced to success or failure. The `res` argument of the progress callback is dropped. `_bootstrap_portacode` is not modelled.
- RunSetupSteps: `retry_delay_s` and `time.sleep` between attempts (proxmox_infra.py:646) are not modelled; time is left out, and only the attempt count matters.
- PickStorage: the stable sort followed by `[0]` is modelled as a scan for the first maximum, which picks the same entry.
- NormalizePatterns: a dict `patterns` value is iterated by its keys in Python, but the model treats it as a non-list and returns an error. Only str, list and falsy values are exact.
- CheckName: a truthy value that is neither text, a number nor a boolean (`Value.Other`) gets the error "TypeError: <field> is not a string", a text of the model's own. In the source a float fails the `in` test with "argument of type 'float' is not iterable". A list or dict holding "/" or "\\" gets the invalid-name error, and any other list or dict passes the check and fails later at `parent_dir / file_name` or `old_path_obj.parent / new_name` (file_handlers.py:353, 406, 458). The model does not see what such a value holds.
- FallbackSearch: the 10-second search deadline (file_handlers.py:844, 851, 895) is not modelled, because clocks are left out. The directory walk, default excludes, regular-expression matching and line truncation are abstracted into per-line match counts. The ripgrep path `_search_with_rg` is a subprocess and is not modelled.
- ContentRequest: the chunking of large replies (`create_chunked_response`) is not modelled. The reply is one value.
- ExecuteApply, ExecutePreview: `parse_unified_diff`, `apply_file_patch`, `preview_file_patch` and the GitManager HTML rendering are not part of this model. They are function parameters, so patches do not see each other's file effects. `refresh_project_state_for_file_change` and the debug log are dropped.
- NormalizeContainerRuleSpecs, ContainerRuleSpecs, NormalizeSpec, SetContainerForwardingRules, ExposeRulesNormalize: these use the corrected NormalizeSubdomainLabel, which refuses the subdomain "12\n.". The source accepts it with the label "12\n" (see Findings). NormalizeSubdomainLabelAsWritten models the source's own check.
- SetContainerForwardingRules: returns the merged rules and exposed ports. The Cloudflare API update, `_apply_and_persist_forwarding_rules` and `_sync_exposed_services_into_container` are not modelled.
- ParsePveversion: whitespace-only output raises IndexError as written (system_handlers.py:142). The only caller strips the probe output first (system_handlers.py:138, 164-165); PveversionStripped shows this case never arises there. It is therefore not listed as a finding.
- ExtractTokenJson: reading the cert file, and the base64 and JSON decoding, are not modelled. The decoding is the `decode` parameter. `fetch_zone_name` is network I/O and is not modelled.
- BuildPipInstallCommand: `sys.executable` and `os.geteuid()` are parameters. A platform without `geteuid` is `None`, which counts as root.
- ProvisioningUserInfo: `secrets.token_urlsafe(10)` is the `generatedPassword` parameter.
- Lease lookup: the dnsmasq leases file is read by the caller, and its parsed entries are the input (`_load_leases` is file I/O).
- UrlParse, ParseDestinationUrl, UrlParseHttp: `urlparse` follows Python 3.12's `urlsplit` and `_splitparams`. Two of its checks are not modelled. (1) A network location holding both "[" and "]" is admitted; Python also checks the bracketed host as an IPv6 or IPvFuture address and raises ValueError when it is not one (for example "http://[x]/"). (2) `_checknetloc`'s NFKC test on non-ASCII network locations is left out with the Unicode tables. Query and fragment are split off but not returned, because `_parse_destination` reads only scheme, network location and path.
- QuotedRepr, NotSubdomainMessage: `repr()` is exact for characters up to U+00FF. Above that, Python escapes the characters `str.isprintable()` refuses as `\uXXXX` or `\UXXXXXXXX`; the model keeps them as they are, because no Unicode tables are modelled.
- Test discovery, report generation, progress callbacks and the `TestResult` durations are not modelled. Test outcomes are the `outcome` parameter.
- Test records carry `depends_on`, `requires_login` and `requires_ide`, because base_test.py defines no such fields. The runner reads them as attributes.
- Durations, timestamps (`elapsed_s`, `duration_s`, `created_at`) and `_cpu_percent` are left out with the clock.
- The Proxmox API, `pct`, the Cloudflare API, service installation, the websocket connection and the CLI are I/O and are not modelled.

## Findings

| source | as written | input that shows it | evidently intended | confidence | as-written member | corrected member |
|---|---|---|---|---|---|---|
| portacode/connection/handlers/file_handlers.py:1082-1083 | the not-found branch of the content request handler stores the request_id into `base_response`, which is unbound there, so it raises NameError instead of replying | content_hash "abc", not cached, with request_id "r1" | the "Content not found in cache" reply carries the request_id, as the found branch does | not executed | FileHandlers.ContentRequestLosesNotFound | FileHandlers.ContentRequest |
| portacode/connection/handlers/cloudflare_forwarding.py:372-380 | `CONTAINER_SUBDOMAIN_RE` (line 42) ends in `$`, which `re.match` lets match before a final newline, so a label that ends in a newline is accepted | subdomain "12\n." for device "12" gives the label "12\n" | only labels made of `<device_id>` or `<index>_<device_id>` digits are accepted | not executed | CloudflareForwarding.LabelTrailingNewline | CloudflareForwarding.NormalizeSubdomainLabelCases |

/**
 * The arithmetic and checks of the file handlers: line pagination of
 * `file_read`, offset/limit slicing of `directory_list`, file and folder name
 * checks, the option parsing and result caps of `file_search`, and the content
 * cache (portacode/connection/handlers/file_handlers.py). The file system is
 * not modelled: a file enters as its lines, a directory as its entry names and
 * what `os.stat` gives for each.
 */
module FileHandlers {
  import opened Wrappers
  import opened Text
  import opened Collections

  function Min(a: int, b: int): int { if a <= b then a else b }
  function Max(a: int, b: int): int { if a >= b then a else b }

  // ------------------------------------------------------------------ file_read

  /** `default or 0` */
  function DefaultOrZero(default: Option<int>): int
  {
    if default.Some? then default.value else 0
  }

  /** `value` is something `int()` turns into a positive number. */
  predicate IsPositive(value: Value)
  {
    PyInt(value).Some? && PyInt(value).value > 0
  }

  /**
   * `FileReadHandler._coerce_positive_int`: a positive integer is kept;
   * anything else (missing, not a number, zero or negative) becomes `None`
   * when `allowNone`, else `default or 0`.
   */
  function CoercePositiveInt(value: Value, default: Option<int>, allowNone: bool): (r: Option<int>)
    ensures IsPositive(value) ==> r == PyInt(value)
    ensures !IsPositive(value) ==> r == (if allowNone then None else Some(DefaultOrZero(default)))
    ensures r.Some? ==> r.value > 0 || r.value == DefaultOrZero(default)
  {
    var fallback := if allowNone then None else Some(DefaultOrZero(default));
    if value.Null? then fallback
    else match PyInt(value)
      case None => fallback
      case Some(coerced) => if coerced <= 0 then fallback else Some(coerced)
  }

  const MaxReadLines: int := 2000

  /**
   * The number of lines `file_read` returns at most: the requested
   * `max_lines`, shortened to the requested range when `end_line` is not
   * before `start_line`, and never more than 2000.
   */
  function ReadLimit(startLine: int, maxLines: Option<int>, endLine: Option<int>): (r: Option<int>)
    ensures r.None? <==> maxLines.None? && !(endLine.Some? && endLine.value >= startLine)
    ensures r.Some? ==> r.value <= MaxReadLines
    ensures (maxLines.None? || maxLines.value >= 1) && r.Some? ==> r.value >= 1
    ensures r.Some? && maxLines.Some? ==> r.value <= maxLines.value
    ensures r.Some? && endLine.Some? && endLine.value >= startLine ==> r.value <= endLine.value - startLine + 1
    ensures r.Some? ==> r.value == MaxReadLines || (maxLines.Some? && r.value == maxLines.value) ||
                        (endLine.Some? && r.value == endLine.value - startLine + 1)
  {
    var limited :=
      if endLine.Some? && endLine.value >= startLine then
        var rangeLen := endLine.value - startLine + 1;
        if maxLines.None? then Some(rangeLen) else Some(Min(maxLines.value, rangeLen))
      else maxLines;
    if limited.Some? then Some(Min(limited.value, MaxReadLines)) else None
  }

  /** Lines `startLine`, `startLine + 1`, … (1-based), at most `maxLines` of them. */
  function Window(lines: seq<string>, startLine: nat, maxLines: Option<nat>): (w: seq<string>)
    requires startLine >= 1
  {
    var from := Min(startLine - 1, |lines|);
    var to := if maxLines.Some? then Min(|lines|, from + maxLines.value) else |lines|;
    lines[from..to]
  }

  /** What the reading loop of `FileReadHandler.execute` gathers. */
  datatype ReadScan = ReadScan(collected: seq<string>, totalLines: nat, truncatedAfter: bool)

  /** More lines followed the window than it could hold. */
  predicate TruncatedAfter(total: nat, startLine: nat, maxLines: Option<nat>)
  {
    maxLines.Some? && total - (startLine - 1) > maxLines.value
  }

  lemma {:induction false} WindowStep(lines: seq<string>, startLine: nat, maxLines: Option<nat>, i: nat)
    requires startLine >= 1 && i < |lines|
    ensures Window(lines[..i + 1], startLine, maxLines) ==
      if i + 1 < startLine || (maxLines.Some? && |Window(lines[..i], startLine, maxLines)| >= maxLines.value)
      then Window(lines[..i], startLine, maxLines)
      else Window(lines[..i], startLine, maxLines) + [lines[i]]
  {
    var p := lines[..i + 1];
    assert p[..i] == lines[..i];
    assert p[i] == lines[i];
  }

  /** The loop over the file's lines: count them all, keep the window, note whether more followed it. */
  method ScanLines(lines: seq<string>, startLine: nat, maxLines: Option<nat>) returns (scan: ReadScan)
    requires startLine >= 1
    ensures scan.collected == Window(lines, startLine, maxLines)
    ensures scan.totalLines == |lines|
    ensures scan.truncatedAfter <==> TruncatedAfter(|lines|, startLine, maxLines)
  {
    var total := 0;
    var collected: seq<string> := [];
    var truncated := false;
    for i := 0 to |lines|
      invariant total == i
      invariant collected == Window(lines[..i], startLine, maxLines)
      invariant truncated <==> TruncatedAfter(i, startLine, maxLines)
    {
      WindowStep(lines, startLine, maxLines, i);
      var idx := i + 1;
      total := total + 1;
      if idx < startLine {
        continue;
      }
      if maxLines.Some? && |collected| >= maxLines.value {
        truncated := true;
        continue;
      }
      collected := collected + [lines[i]];
    }
    assert lines[..|lines|] == lines;
    scan := ReadScan(collected, total, truncated);
  }

  /** The fields of the `file_read_response` that describe the window. */
  datatype ReadReply = ReadReply(content: string, returned: seq<string>, totalLines: nat, returnedLines: nat,
                                 startLine: Option<int>, requestedStartLine: int, endLine: Option<int>,
                                 hasMoreBefore: bool, hasMoreAfter: bool)

  /** How the reply of `FileReadHandler.execute` is assembled from the scan. */
  function ReplyFor(lines: seq<string>, start: nat, limit: Option<nat>): ReadReply
    requires start >= 1
  {
    var w := Window(lines, start, limit);
    var n := |w|;
    var end := if n > 0 then Some(start + n - 1) else None;
    ReadReply(Concat(w), w, |lines|, n, if n > 0 then Some(start) else None, start, end,
              n > 0 && start > 1, TruncatedAfter(|lines|, start, limit) || (end.Some? && |lines| > end.value))
  }

  /**
   * The window is consistent: at most `limit` consecutive lines from
   * `start`, nothing exactly when `start` is past the end, `end_line` the
   * last returned line, and `has_more_after` exactly when lines follow it.
   */
  lemma {:induction false} ReplyWindow(lines: seq<string>, start: nat, limit: Option<nat>)
    requires start >= 1 && (limit.None? || limit.value >= 1)
    ensures var reply := ReplyFor(lines, start, limit);
      var n := reply.returnedLines;
      n == |reply.returned| && reply.content == Concat(reply.returned) && reply.totalLines == |lines| &&
      (limit.Some? ==> n <= limit.value) &&
      (n == 0 <==> start > |lines|) &&
      (n > 0 ==> start - 1 + n <= |lines|) &&
      (forall k :: 0 <= k < n ==> reply.returned[k] == lines[start - 1 + k]) &&
      (n == 0 <==> reply.startLine.None?) && (n == 0 <==> reply.endLine.None?) &&
      (n > 0 ==> reply.startLine == Some(start) && reply.endLine == Some(start + n - 1)) &&
      (reply.hasMoreBefore <==> n > 0 && start > 1) &&
      (reply.hasMoreAfter <==> n > 0 && |lines| > start - 1 + n)
  {
  }

  /**
   * The requested start line: `start_line` when positive, else 1. The
   * coercion already yields at least 1, so the handler's later raise to 1
   * never changes it.
   */
  function ReadStart(message: map<string, Value>): (start: nat)
    ensures start >= 1
    ensures IsPositive(Get(message, "start_line")) ==> start == PyInt(Get(message, "start_line")).value
    ensures !IsPositive(Get(message, "start_line")) ==> start == 1
  {
    CoercePositiveInt(Get(message, "start_line"), Some(1), false).value
  }

  /** The line budget of a read: `ReadLimit` of the requested `max_lines` and `end_line`. */
  function ReadBudget(message: map<string, Value>, start: nat): (limit: Option<nat>)
    ensures limit.Some? ==> 1 <= limit.value <= MaxReadLines
  {
    var limit := ReadLimit(start, CoercePositiveInt(Get(message, "max_lines"), None, true),
                                  CoercePositiveInt(Get(message, "end_line"), None, true));
    if limit.Some? then Some(limit.value as nat) else None
  }

  /**
   * `FileReadHandler.execute` once the file is open: `lines` are its lines
   * with their line endings. File-system errors are not modelled.
   */
  method ReadFile(message: map<string, Value>, lines: seq<string>) returns (r: Result<ReadReply, string>)
    ensures !Truthy(Get(message, "path")) <==> r == Err("path parameter is required")
    ensures r.Ok? ==> r.value == ReplyFor(lines, ReadStart(message), ReadBudget(message, ReadStart(message)))
  {
    if !Truthy(Get(message, "path")) {
      return Err("path parameter is required");
    }
    var start := ReadStart(message);
    var maxLines := CoercePositiveInt(Get(message, "max_lines"), None, true);
    var endLine := CoercePositiveInt(Get(message, "end_line"), None, true);
    var limit := ReadLimit(start, maxLines, endLine);
    var limitNat: Option<nat> := if limit.Some? then Some(limit.value as nat) else None;
    var scan := ScanLines(lines, start, limitNat);
    var count := |scan.collected|;
    var returnedStart := if count > 0 then Some(start) else None;
    var returnedEnd := if count > 0 then Some(start + count - 1) else None;
    var hasMoreAfter := scan.truncatedAfter || (returnedEnd.Some? && scan.totalLines > returnedEnd.value);
    r := Ok(ReadReply(Concat(scan.collected), scan.collected, scan.totalLines, count, returnedStart, start, returnedEnd,
                      count > 0 && start > 1, hasMoreAfter));
  }

  // ------------------------------------------------------------------ directory_list

  /**
   * `_parse_positive_int` inside `DirectoryListHandler.execute`: an integer
   * raised to `minimum` and lowered to `maximum`; anything missing or not a
   * number becomes `None` when `allowNone`, else `minimum`.
   */
  function ParseBoundedInt(value: Value, allowNone: bool, minimum: int, maximum: Option<int>): (r: Option<int>)
    ensures !allowNone ==> r.Some?
    ensures r.None? <==> allowNone && PyInt(value).None?
    ensures r.Some? && maximum.Some? && minimum <= maximum.value ==> r.value <= maximum.value
    ensures r.Some? && (maximum.None? || minimum <= maximum.value) ==> r.value >= minimum
    ensures PyInt(value).Some? && minimum <= PyInt(value).value && (maximum.None? || PyInt(value).value <= maximum.value) ==>
      r == PyInt(value)
  {
    if value.Null? then (if allowNone then None else Some(minimum))
    else match PyInt(value)
      case None => if allowNone then None else Some(minimum)
      case Some(n) =>
        var raised := if n < minimum then minimum else n;
        Some(if maximum.Some? && raised > maximum.value then maximum.value else raised)
  }

  /** The entries the listing collects, in `os.listdir` order. */
  datatype DirEntry = DirEntry(name: string, info: EntryInfo)

  /** What `os.stat` and the `isdir`/`isfile` checks report for one entry. */
  datatype EntryInfo = EntryInfo(isDir: bool, isFile: bool, size: int, permissions: string)

  /** The entries kept: hidden names only when asked for, and only those `stat` can read. */
  function Listed(names: seq<string>, showHidden: bool, stat: string -> Option<EntryInfo>): (items: seq<DirEntry>)
    ensures |items| <= |names|
    decreases |names|
  {
    if |names| == 0 then []
    else
      var last := names[|names| - 1];
      Listed(names[..|names| - 1], showHidden, stat) +
        (if (!showHidden && StartsWith(last, ".")) || stat(last).None? then [] else [DirEntry(last, stat(last).value)])
  }

  /** A listed name is hidden only when hidden names were asked for, and every listed entry carries its `stat`. */
  lemma {:induction false} ListedEntries(names: seq<string>, showHidden: bool, stat: string -> Option<EntryInfo>)
    ensures forall e :: e in Listed(names, showHidden, stat) ==>
      e.name in names && (showHidden || !StartsWith(e.name, ".")) && stat(e.name) == Some(e.info)
    decreases |names|
  {
    if |names| > 0 {
      ListedEntries(names[..|names| - 1], showHidden, stat);
    }
  }

  /** `items[offset:]` (nothing when `offset` is past the end), then the first `limit` of those. */
  function SliceItems<T>(items: seq<T>, offset: nat, limit: Option<int>): (r: seq<T>)
    ensures |r| <= |items| && (offset < |items| ==> offset + |r| <= |items|)
    ensures offset >= |items| ==> r == []
    ensures offset < |items| ==> forall k :: 0 <= k < |r| ==> r[k] == items[offset + k]
    ensures limit.Some? && limit.value >= 0 ==> |r| == Min(limit.value, Max(|items| - offset, 0))
    ensures limit.None? ==> |r| == Max(|items| - offset, 0)
  {
    var rest := if offset > 0 then (if offset >= |items| then [] else items[offset..]) else items;
    if limit.Some? && limit.value >= 0 && limit.value < |rest| then rest[..limit.value] else rest
  }

  /** `total_count > offset + returned_count if total_count else False` */
  function HasMore(totalCount: nat, offset: nat, returnedCount: nat): (b: bool)
    ensures b <==> totalCount > offset + returnedCount
  {
    if totalCount != 0 then totalCount > offset + returnedCount else false
  }

  datatype DirReply = DirReply(items: seq<DirEntry>, count: nat, totalCount: nat, offset: nat, limit: Option<int>, hasMore: bool)

  /** The listing loop: skip hidden names unless asked for, and entries `stat` cannot read. */
  method CollectEntries(names: seq<string>, showHidden: bool, stat: string -> Option<EntryInfo>) returns (items: seq<DirEntry>)
    ensures items == Listed(names, showHidden, stat)
  {
    items := [];
    for i := 0 to |names|
      invariant items == Listed(names[..i], showHidden, stat)
    {
      assert names[..i + 1][..i] == names[..i];
      var item := names[i];
      if !showHidden && StartsWith(item, ".") {
        continue;
      }
      var info := stat(item);
      if info.None? {
        continue;
      }
      items := items + [DirEntry(item, info.value)];
    }
    assert names[..|names|] == names;
  }

  /**
   * `DirectoryListHandler.execute` on the names `os.listdir` returns: the
   * offset is at least 0, the limit absent or within 1..1000, the items are
   * `items[offset:offset+limit]`, and `has_more` says whether any follow them.
   */
  method ListDirectory(message: map<string, Value>, names: seq<string>, stat: string -> Option<EntryInfo>)
    returns (reply: DirReply)
    ensures reply.offset >= 0 && (reply.limit.Some? ==> 1 <= reply.limit.value <= 1000)
    ensures reply.offset == ParseBoundedInt(Get(message, "offset"), false, 0, None).value
    ensures reply.limit == ParseBoundedInt(Get(message, "limit"), true, 1, Some(1000))
    ensures var all := Listed(names, Truthy(Get(message, "show_hidden")), stat);
      reply.totalCount == |all| && reply.items == SliceItems(all, reply.offset, reply.limit) &&
      reply.count == |reply.items| && (reply.hasMore <==> reply.totalCount > reply.offset + reply.count)
  {
    var showHidden := Truthy(Get(message, "show_hidden"));
    var offset := ParseBoundedInt(Get(message, "offset"), false, 0, None).value;
    var limit := ParseBoundedInt(Get(message, "limit"), true, 1, Some(1000));
    var items := CollectEntries(names, showHidden, stat);
    var total := |items|;
    var sliced := SliceItems(items, offset, limit);
    reply := DirReply(sliced, |sliced|, total, offset, limit, HasMore(total, offset, |sliced|));
  }

  // ------------------------------------------------------------------ names

  /** A name the create and rename handlers accept: no path separator, and not "." or "..". */
  predicate ValidName(name: string)
  {
    '/' !in name && '\\' !in name && name != "." && name != ".."
  }

  /**
   * The name check shared by `file_create`, `folder_create` and
   * `file_rename`: a missing or empty name is refused as missing, an invalid
   * one with `invalid`; a number or `True` fails on the `"/" in name` test,
   * which cannot iterate over it.
   */
  function CheckName(v: Value, field: string, invalid: string): (r: Result<string, string>)
    ensures r.Ok? <==> v.Str? && v.s != "" && ValidName(v.s)
    ensures r.Ok? ==> v == Str(r.value)
    ensures !Truthy(v) ==> r == Err(field + " parameter is required")
    ensures v.Str? && v.s != "" && !ValidName(v.s) ==> r == Err(invalid)
    ensures v.Num? && v.n != 0 ==> r == Err("argument of type 'int' is not iterable")
    ensures v == Flag(true) ==> r == Err("argument of type 'bool' is not iterable")
  {
    if !Truthy(v) then Err(field + " parameter is required")
    else match v
      case Str(name) => if ValidName(name) then Ok(name) else Err(invalid)
      case Num(_) => Err("argument of type 'int' is not iterable")
      case Flag(_) => Err("argument of type 'bool' is not iterable")
      case _ => Err("TypeError: " + field + " is not a string")
  }

  /** The argument checks of `FileCreateHandler.execute`: the parent path, then the file name. */
  function FileCreateArgs(message: map<string, Value>): (r: Result<(Value, string), string>)
    ensures r.Ok? ==> Truthy(r.value.0) && ValidName(r.value.1)
    ensures !Truthy(Get(message, "parent_path")) ==> r == Err("parent_path parameter is required")
  {
    var parent := Get(message, "parent_path");
    if !Truthy(parent) then Err("parent_path parameter is required")
    else match CheckName(Get(message, "file_name"), "file_name", "Invalid file name")
      case Err(e) => Err(e)
      case Ok(name) => Ok((parent, name))
  }

  /** The argument checks of `FolderCreateHandler.execute`. */
  function FolderCreateArgs(message: map<string, Value>): (r: Result<(Value, string), string>)
    ensures r.Ok? ==> Truthy(r.value.0) && ValidName(r.value.1)
    ensures !Truthy(Get(message, "parent_path")) ==> r == Err("parent_path parameter is required")
  {
    var parent := Get(message, "parent_path");
    if !Truthy(parent) then Err("parent_path parameter is required")
    else match CheckName(Get(message, "folder_name"), "folder_name", "Invalid folder name")
      case Err(e) => Err(e)
      case Ok(name) => Ok((parent, name))
  }

  /** The argument checks of `FileRenameHandler.execute`. */
  function RenameArgs(message: map<string, Value>): (r: Result<(Value, string), string>)
    ensures r.Ok? ==> Truthy(r.value.0) && ValidName(r.value.1)
    ensures !Truthy(Get(message, "old_path")) ==> r == Err("old_path parameter is required")
  {
    var oldPath := Get(message, "old_path");
    if !Truthy(oldPath) then Err("old_path parameter is required")
    else match CheckName(Get(message, "new_name"), "new_name", "Invalid new name")
      case Err(e) => Err(e)
      case Ok(name) => Ok((oldPath, name))
  }

  lemma {:induction false} SplitNoSep(s: string, c: char)
    requires c !in s
    ensures Split(s, c) == [s]
  {
  }

  lemma {:induction false} SplitAt(s: string, c: char, i: nat)
    requires i < |s| && s[i] == c && c !in s[..i]
    ensures Split(s, c) == [s[..i]] + Split(s[i + 1..], c)
  {
    IndexOfAt(s, c, i);
  }

  /** The first separator of `s` is at `i`, before the separator at `k`. */
  lemma {:induction false} FirstBefore(s: string, c: char, k: nat) returns (i: nat)
    requires k < |s| && s[k] == c
    ensures IndexOf(s, c) == Some(i) && i <= k
  {
    assert c in s by { assert s[k] == c; }
    i := IndexOf(s, c).value;
  }

  /** Splitting at the first separator `i`, knowing how the rest splits at `k`. */
  lemma {:induction false} SplitAroundLater(s: string, c: char, k: nat, i: nat)
    requires i < k < |s| && IndexOf(s, c) == Some(i)
    requires Split(s[i + 1..], c) == Split(s[i + 1..k], c) + Split(s[k + 1..], c)
    ensures Split(s, c) == Split(s[..k], c) + Split(s[k + 1..], c)
  {
    SplitAt(s, c, i);
    SlicesOfPrefix(s, i, k);
    SplitAt(s[..k], c, i);
    AppendAssoc([s[..i]], Split(s[i + 1..k], c), Split(s[k + 1..], c));
  }

  /** Splitting at any separator `s[k]` splits the text on each side of it. */
  lemma {:induction false} SplitAround(s: string, c: char, k: nat)
    requires k < |s| && s[k] == c
    ensures Split(s, c) == Split(s[..k], c) + Split(s[k + 1..], c)
    decreases k
  {
    var i := FirstBefore(s, c, k);
    if i == k {
      SplitAt(s, c, k);
      SplitNoSep(s[..k], c);
      assert Split(s[..k], c) == [s[..k]];
    } else {
      var t := s[i + 1..];
      SplitAround(t, c, k - i - 1);
      assert t[..k - i - 1] == s[i + 1..k];
      assert t[k - i..] == s[k + 1..];
      SplitAroundLater(s, c, k, i);
    }
  }

  /**
   * A valid name is one path component: the path created under `parent` has
   * the parent's components followed by exactly the name.
   */
  lemma {:induction false} ValidNameIsOneComponent(parent: string, name: string)
    requires ValidName(name)
    ensures Split(parent + "/" + name, '/') == Split(parent, '/') + [name]
    ensures name != "." && name != ".."
  {
    var s := parent + "/" + name;
    SplitAround(s, '/', |parent|);
    assert s[..|parent|] == parent;
    assert s[|parent| + 1..] == name;
    SplitNoSep(name, '/');
  }

  // ------------------------------------------------------------------ file_search options

  /** `FileSearchHandler._clamp_int`: `int(value)`, or `default` when that fails, held within `[lo, hi]`. */
  function ClampInt(value: Value, default: int, lo: int, hi: int): (r: int)
    ensures r >= lo && (lo <= hi ==> r <= hi)
    ensures PyInt(value).Some? && lo <= PyInt(value).value <= hi ==> r == PyInt(value).value
    ensures PyInt(value).None? && lo <= default <= hi ==> r == default
  {
    var coerced := if PyInt(value).Some? then PyInt(value).value else default;
    Max(lo, Min(hi, coerced))
  }

  /** `max_results`, `max_matches_per_file`, `max_file_size` and `max_line_length` of a search. */
  datatype SearchLimits = SearchLimits(maxResults: int, maxPerFile: int, maxFileSize: int, maxLineLength: int)

  function Limits(message: map<string, Value>): (l: SearchLimits)
    ensures 1 <= l.maxResults <= 500 && 1 <= l.maxPerFile <= 50
    ensures 1024 <= l.maxFileSize <= 10 * 1024 * 1024 && 32 <= l.maxLineLength <= 1024
  {
    SearchLimits(ClampInt(Get(message, "max_results"), 40, 1, 500),
                 ClampInt(Get(message, "max_matches_per_file"), 5, 1, 50),
                 ClampInt(Get(message, "max_file_size"), 1024 * 1024, 1024, 10 * 1024 * 1024),
                 ClampInt(Get(message, "max_line_length"), 200, 32, 1024))
  }

  /** A pattern option as it arrives: missing or a single value, or a list. */
  datatype PatternsArg = Single(v: Value) | Many(items: seq<Value>)

  predicate IsKept(v: Value)
  {
    v.Str? && Strip(v.s) != ""
  }

  /** The stripped, non-blank text entries of `items`, in order. */
  function KeptPatterns(items: seq<Value>): (r: seq<string>)
    ensures |r| <= |items|
    decreases |items|
  {
    if |items| == 0 then []
    else
      var last := items[|items| - 1];
      KeptPatterns(items[..|items| - 1]) + (if IsKept(last) then [Strip(last.s)] else [])
  }

  /**
   * `FileSearchHandler._normalize_patterns`: a single text becomes a list of
   * one; iterating any other single value fails, except that a falsy value
   * means no patterns.
   */
  method NormalizePatterns(arg: PatternsArg) returns (r: Result<seq<string>, string>)
    ensures arg.Single? && !Truthy(arg.v) ==> r == Ok([])
    ensures arg.Single? && arg.v.Str? ==> r == Ok(KeptPatterns([arg.v]))
    ensures arg.Many? ==> r == Ok(KeptPatterns(arg.items))
    ensures r.Err? <==> arg.Single? && Truthy(arg.v) && !arg.v.Str?
  {
    var patterns: seq<Value>;
    match arg {
      case Single(v) =>
        if !Truthy(v) {
          return Ok([]);
        }
        if !v.Str? {
          return Err("TypeError: object is not iterable");
        }
        patterns := [v];
      case Many(items) =>
        patterns := items;
    }
    var normalized: seq<string> := [];
    for i := 0 to |patterns|
      invariant normalized == KeptPatterns(patterns[..i])
    {
      assert patterns[..i + 1][..i] == patterns[..i];
      var pattern := patterns[i];
      if pattern.Str? && Strip(pattern.s) != "" {
        normalized := normalized + [Strip(pattern.s)];
      }
    }
    assert patterns[..|patterns|] == patterns;
    r := Ok(normalized);
  }

  /** Every normalised pattern is stripped and non-blank. */
  lemma {:induction false} KeptPatternsStripped(items: seq<Value>)
    ensures forall k :: 0 <= k < |KeptPatterns(items)| ==> KeptPatterns(items)[k] != "" && Strip(KeptPatterns(items)[k]) == KeptPatterns(items)[k]
    decreases |items|
  {
    if |items| > 0 {
      var p := items[..|items| - 1];
      var last := items[|items| - 1];
      KeptPatternsStripped(p);
      if IsKept(last) {
        StripTwice(last.s);
      }
    }
  }

  /** The patterns as the list of texts they came from. */
  function AsValues(r: seq<string>): (vs: seq<Value>)
    ensures |vs| == |r|
    decreases |r|
  {
    if |r| == 0 then [] else AsValues(r[..|r| - 1]) + [Str(r[|r| - 1])]
  }

  lemma {:induction false} KeptStripped(r: seq<string>)
    requires forall k :: 0 <= k < |r| ==> r[k] != "" && Strip(r[k]) == r[k]
    ensures KeptPatterns(AsValues(r)) == r
    decreases |r|
  {
    if |r| > 0 {
      var p := r[..|r| - 1];
      KeptStripped(p);
      AsValuesLast(r);
      KeptStep(AsValues(r), r[|r| - 1]);
      LastSplit(r);
    }
  }

  lemma {:induction false} AsValuesLast(r: seq<string>)
    requires |r| > 0
    ensures AsValues(r)[..|r| - 1] == AsValues(r[..|r| - 1]) && AsValues(r)[|r| - 1] == Str(r[|r| - 1])
  {
  }

  lemma {:induction false} KeptStep(vs: seq<Value>, x: string)
    requires |vs| > 0 && vs[|vs| - 1] == Str(x) && x != "" && Strip(x) == x
    ensures KeptPatterns(vs) == KeptPatterns(vs[..|vs| - 1]) + [x]
  {
  }

  /** Normalising the normalised patterns again changes nothing. */
  lemma {:induction false} KeptPatternsIdempotent(items: seq<Value>)
    ensures KeptPatterns(AsValues(KeptPatterns(items))) == KeptPatterns(items)
  {
    KeptPatternsStripped(items);
    KeptStripped(KeptPatterns(items));
  }

  /** Some pattern of `patterns` matches `path`; `fnmatch` is `fnmatch.fnmatch`. */
  function AnyMatch(path: string, patterns: seq<string>, fnmatch: (string, string) -> bool): (b: bool)
    ensures b <==> exists k :: 0 <= k < |patterns| && fnmatch(path, patterns[k])
    decreases |patterns|
  {
    if |patterns| == 0 then false
    else fnmatch(path, patterns[0]) || AnyMatch(path, patterns[1..], fnmatch)
  }

  /**
   * `FileSearchHandler._should_include`: with include patterns, one of them
   * must match; no exclude pattern may match.
   */
  function ShouldInclude(path: string, includes: seq<string>, excludes: seq<string>, fnmatch: (string, string) -> bool): (b: bool)
    ensures b <==> (|includes| == 0 || exists k :: 0 <= k < |includes| && fnmatch(path, includes[k])) &&
                   !(exists k :: 0 <= k < |excludes| && fnmatch(path, excludes[k]))
  {
    if |includes| > 0 && !AnyMatch(path, includes, fnmatch) then false
    else if |excludes| > 0 && AnyMatch(path, excludes, fnmatch) then false
    else true
  }

  /** More exclude patterns can only drop files, and more include patterns can only add them. */
  lemma {:induction false} ShouldIncludeMonotone(path: string, includes: seq<string>, excludes: seq<string>,
                                                 more: seq<string>, fnmatch: (string, string) -> bool)
    ensures ShouldInclude(path, includes, excludes + more, fnmatch) ==> ShouldInclude(path, includes, excludes, fnmatch)
    ensures |includes| > 0 && ShouldInclude(path, includes, excludes, fnmatch) ==> ShouldInclude(path, includes + more, excludes, fnmatch)
  {
    if ShouldInclude(path, includes, excludes + more, fnmatch) {
      forall k | 0 <= k < |excludes| ensures !fnmatch(path, excludes[k]) {
        assert (excludes + more)[k] == excludes[k];
      }
    }
    if |includes| > 0 && ShouldInclude(path, includes, excludes, fnmatch) {
      var k :| 0 <= k < |includes| && fnmatch(path, includes[k]);
      assert (includes + more)[k] == includes[k];
    }
  }

  // ------------------------------------------------------------------ file_search fallback scan

  /** One entry of `matches`: a matching line and how many of its match spans are returned. */
  datatype MatchEntry = MatchEntry(dir: nat, file: nat, lineNumber: nat, spanCount: nat)

  function SpanSum(entries: seq<MatchEntry>): nat
    decreases |entries|
  {
    if |entries| == 0 then 0 else SpanSum(entries[..|entries| - 1]) + entries[|entries| - 1].spanCount
  }

  function LineSum(counts: seq<nat>): nat
    decreases |counts|
  {
    if |counts| == 0 then 0 else LineSum(counts[..|counts| - 1]) + counts[|counts| - 1]
  }

  /** Every entry returns between one and `maxPerFile` spans. */
  predicate EntriesBounded(entries: seq<MatchEntry>, maxPerFile: int)
  {
    forall k :: 0 <= k < |entries| ==> 1 <= entries[k].spanCount <= maxPerFile
  }

  /** What scanning one file changes in the search. */
  datatype FileScan = FileScan(entries: seq<MatchEntry>, truncatedCount: nat, truncated: bool, stopSearch: bool, stopDirectory: bool)

  /** The invariant of the line loop of one file. */
  predicate ScanInvariant(dir: nat, file: nat, lineMatches: seq<nat>, j: nat, maxResults: int, maxPerFile: int,
                          entries0: seq<MatchEntry>, tc0: nat, truncated0: bool,
                          entries: seq<MatchEntry>, tc: nat, truncated: bool, forFile: nat)
    requires j <= |lineMatches|
  {
    |entries0| <= |entries| <= maxResults && entries[..|entries0|] == entries0 &&
    EntriesBounded(entries, maxPerFile) &&
    forFile == SpanSum(entries[|entries0|..]) && forFile <= maxPerFile &&
    tc >= tc0 && (truncated <==> truncated0 || tc > tc0) &&
    tc - tc0 + forFile <= LineSum(lineMatches[..j]) &&
    forall k :: |entries0| <= k < |entries| ==> entries[k].dir == dir && entries[k].file == file
  }

  lemma {:induction false} SpanSumPush(entries: seq<MatchEntry>, from: nat, e: MatchEntry)
    requires from <= |entries|
    ensures SpanSum((entries + [e])[from..]) == SpanSum(entries[from..]) + e.spanCount
  {
    assert (entries + [e])[from..] == entries[from..] + [e];
    assert (entries[from..] + [e])[..|entries[from..] + [e]| - 1] == entries[from..];
  }

  /** One line of the loop keeps its invariant: the line's entry, if any, is appended and the rest is counted as truncated. */
  lemma {:induction false} ScanStepKeeps(dir: nat, file: nat, lineMatches: seq<nat>, j: nat, maxResults: int, maxPerFile: int,
                                         entries0: seq<MatchEntry>, tc0: nat, truncated0: bool,
                                         entries: seq<MatchEntry>, tc: nat, truncated: bool, forFile: nat,
                                         step: LineStep, e: MatchEntry)
    requires j < |lineMatches|
    requires ScanInvariant(dir, file, lineMatches, j, maxResults, maxPerFile, entries0, tc0, truncated0, entries, tc, truncated, forFile)
    requires step.spans + step.truncatedMore == lineMatches[j] && e.spanCount == step.spans
    requires step.spans > 0 ==> |entries| < maxResults && forFile + step.spans <= maxPerFile
    requires e.dir == dir && e.file == file
    ensures ScanInvariant(dir, file, lineMatches, j + 1, maxResults, maxPerFile, entries0, tc0, truncated0,
                          if step.spans > 0 then entries + [e] else entries, tc + step.truncatedMore,
                          truncated || step.truncatedMore > 0, forFile + step.spans)
  {
    LineSumStep(lineMatches, j);
    if step.spans > 0 {
      SpanSumPush(entries, |entries0|, e);
      assert (entries + [e])[..|entries0|] == entries[..|entries0|];
    }
  }

  lemma {:induction false} LineSumStep(counts: seq<nat>, j: nat)
    requires j < |counts|
    ensures LineSum(counts[..j + 1]) == LineSum(counts[..j]) + counts[j]
  {
    assert counts[..j + 1][..j] == counts[..j];
  }

  /** What one matching line does to the scan. */
  datatype LineStep = LineStep(spans: nat, truncatedMore: nat, stopSearch: bool, stopFile: bool)

  /**
   * The body of the line loop for a line with `m > 0` matches, when the file
   * already returned `forFile` spans and the search `returned` entries:
   * `spans` is what the line's entry gets (none when a cap is reached first),
   * and every other match of the line is counted as truncated.
   */
  method ScanLine(m: nat, maxResults: int, maxPerFile: int, returned: nat, forFile: nat) returns (step: LineStep)
    requires m > 0 && returned <= maxResults && forFile <= maxPerFile
    ensures step.spans + step.truncatedMore == m
    ensures step.spans > 0 ==> returned < maxResults && forFile + step.spans <= maxPerFile
    ensures step.spans == 0 ==> step.stopSearch || step.stopFile
    ensures step.truncatedMore == 0 ==> step.spans == m
  {
    var remainingPerFile := maxPerFile - forFile;
    if remainingPerFile <= 0 {
      return LineStep(0, m, false, true);
    }
    var spans := Min(m, remainingPerFile);
    var truncatedMore := m - spans;
    var remainingGlobal := maxResults - returned;
    if remainingGlobal <= 0 {
      return LineStep(0, truncatedMore + spans, true, false);
    }
    var stopSearch := false;
    if spans > remainingGlobal {
      truncatedMore := truncatedMore + (spans - remainingGlobal);
      spans := remainingGlobal;
      stopSearch := true;
    }
    step := LineStep(spans, truncatedMore, stopSearch, false);
  }

  /**
   * The line loop of the fallback search for one file, given how many
   * matches each line has: each returned entry holds at most what the
   * per-file cap leaves, the entries never exceed `maxResults`, and every
   * match found but not returned is counted in `truncatedCount`.
   */
  method ScanFile(dir: nat, file: nat, lineMatches: seq<nat>, maxResults: int, maxPerFile: int,
                  entries0: seq<MatchEntry>, tc0: nat, truncated0: bool) returns (scan: FileScan)
    requires 1 <= maxResults && 1 <= maxPerFile
    requires |entries0| <= maxResults && EntriesBounded(entries0, maxPerFile)
    ensures |entries0| <= |scan.entries| <= maxResults && scan.entries[..|entries0|] == entries0
    ensures EntriesBounded(scan.entries, maxPerFile)
    ensures SpanSum(scan.entries[|entries0|..]) <= maxPerFile
    ensures forall k :: |entries0| <= k < |scan.entries| ==> scan.entries[k].dir == dir && scan.entries[k].file == file
    ensures scan.truncatedCount >= tc0 && (scan.truncated <==> truncated0 || scan.truncatedCount > tc0)
    ensures scan.truncatedCount - tc0 + SpanSum(scan.entries[|entries0|..]) <= LineSum(lineMatches)
  {
    var entries := entries0;
    var tc: nat := tc0;
    var truncated := truncated0;
    var stopSearch := false;
    var stopFile := false;
    var forFile: nat := 0;
    var j: nat := 0;
    assert entries[|entries0|..] == [];
    while j < |lineMatches|
      invariant j <= |lineMatches|
      invariant ScanInvariant(dir, file, lineMatches, j, maxResults, maxPerFile, entries0, tc0, truncated0, entries, tc, truncated, forFile)
    {
      var m := lineMatches[j];
      if m == 0 {
        ScanStepKeeps(dir, file, lineMatches, j, maxResults, maxPerFile, entries0, tc0, truncated0, entries, tc, truncated, forFile,
                      LineStep(0, 0, false, false), MatchEntry(dir, file, j + 1, 0));
        j := j + 1;
        continue;
      }
      var step := ScanLine(m, maxResults, maxPerFile, |entries|, forFile);
      var e := MatchEntry(dir, file, j + 1, step.spans);
      ScanStepKeeps(dir, file, lineMatches, j, maxResults, maxPerFile, entries0, tc0, truncated0, entries, tc, truncated, forFile, step, e);
      if step.truncatedMore > 0 {
        truncated := true;
        tc := tc + step.truncatedMore;
      }
      if step.spans > 0 {
        entries := entries + [e];
        forFile := forFile + step.spans;
      }
      j := j + 1;
      stopSearch := step.stopSearch;
      stopFile := step.stopFile;
      if stopFile || stopSearch || forFile >= maxPerFile {
        break;
      }
    }
    ScanDone(dir, file, lineMatches, j, maxResults, maxPerFile, entries0, tc0, truncated0, entries, tc, truncated, forFile);
    scan := FileScan(entries, tc, truncated, stopSearch, stopFile);
  }

  /** The invariant at the loop's exit gives the outcome of the file. */
  lemma {:induction false} ScanDone(dir: nat, file: nat, lineMatches: seq<nat>, j: nat, maxResults: int, maxPerFile: int,
                                    entries0: seq<MatchEntry>, tc0: nat, truncated0: bool,
                                    entries: seq<MatchEntry>, tc: nat, truncated: bool, forFile: nat)
    requires j <= |lineMatches|
    requires ScanInvariant(dir, file, lineMatches, j, maxResults, maxPerFile, entries0, tc0, truncated0, entries, tc, truncated, forFile)
    ensures |entries0| <= |entries| <= maxResults && entries[..|entries0|] == entries0
    ensures EntriesBounded(entries, maxPerFile) && SpanSum(entries[|entries0|..]) <= maxPerFile
    ensures tc >= tc0 && (truncated <==> truncated0 || tc > tc0)
    ensures tc - tc0 + SpanSum(entries[|entries0|..]) <= LineSum(lineMatches)
    ensures forall k :: |entries0| <= k < |entries| ==> entries[k].dir == dir && entries[k].file == file
  {
    LineSumPrefix(lineMatches, j);
  }

  lemma {:induction false} LineSumPrefix(counts: seq<nat>, j: nat)
    requires j <= |counts|
    ensures LineSum(counts[..j]) <= LineSum(counts)
    decreases |counts| - j
  {
    if j < |counts| {
      LineSumStep(counts, j);
      LineSumPrefix(counts, j + 1);
    } else {
      assert counts[..j] == counts;
    }
  }

  /** The spans the entries of `entries` return for file `file` of directory `dir`. */
  function FileSpanSum(entries: seq<MatchEntry>, dir: nat, file: nat): nat
    decreases |entries|
  {
    if |entries| == 0 then 0
    else
      var e := entries[|entries| - 1];
      FileSpanSum(entries[..|entries| - 1], dir, file) + (if e.dir == dir && e.file == file then e.spanCount else 0)
  }

  /** No file gets more than `maxPerFile` spans over all its entries. */
  ghost predicate PerFileBounded(entries: seq<MatchEntry>, maxPerFile: int)
  {
    forall dir: nat, file: nat :: FileSpanSum(entries, dir, file) <= maxPerFile
  }

  /** Every entry comes from a file visited before file `file` of directory `dir`. */
  predicate VisitedBefore(entries: seq<MatchEntry>, dir: nat, file: nat)
  {
    forall k :: 0 <= k < |entries| ==> entries[k].dir < dir || (entries[k].dir == dir && entries[k].file < file)
  }

  lemma {:induction false} FileSpanSumAppend(a: seq<MatchEntry>, b: seq<MatchEntry>, dir: nat, file: nat)
    ensures FileSpanSum(a + b, dir, file) == FileSpanSum(a, dir, file) + FileSpanSum(b, dir, file)
    decreases |b|
  {
    if |b| == 0 {
      assert a + b == a;
    } else {
      assert (a + b)[..|a + b| - 1] == a + b[..|b| - 1];
      FileSpanSumAppend(a, b[..|b| - 1], dir, file);
    }
  }

  /** Entries of other files count nothing for a file, and the file's own entries count all their spans. */
  lemma {:induction false} FileSpanSumOf(entries: seq<MatchEntry>, dir: nat, file: nat, d: nat, f: nat)
    requires forall k :: 0 <= k < |entries| ==> entries[k].dir == d && entries[k].file == f
    ensures FileSpanSum(entries, dir, file) == (if dir == d && file == f then SpanSum(entries) else 0)
    decreases |entries|
  {
    if |entries| > 0 {
      FileSpanSumOf(entries[..|entries| - 1], dir, file, d, f);
    }
  }

  lemma {:induction false} FileSpanSumUnvisited(entries: seq<MatchEntry>, d: nat, f: nat)
    requires VisitedBefore(entries, d, f)
    ensures FileSpanSum(entries, d, f) == 0
    decreases |entries|
  {
    if |entries| > 0 {
      FileSpanSumUnvisited(entries[..|entries| - 1], d, f);
    }
  }

  /** Scanning a file not seen before, which returns at most `maxPerFile` spans, keeps every file within the cap. */
  lemma {:induction false} ScanKeepsPerFile(entries0: seq<MatchEntry>, added: seq<MatchEntry>, d: nat, f: nat, maxPerFile: int)
    requires PerFileBounded(entries0, maxPerFile) && VisitedBefore(entries0, d, f)
    requires forall k :: 0 <= k < |added| ==> added[k].dir == d && added[k].file == f
    requires SpanSum(added) <= maxPerFile
    ensures PerFileBounded(entries0 + added, maxPerFile) && VisitedBefore(entries0 + added, d, f + 1)
  {
    forall dir: nat, file: nat
      ensures FileSpanSum(entries0 + added, dir, file) <= maxPerFile
    {
      FileSpanSumAppend(entries0, added, dir, file);
      FileSpanSumOf(added, dir, file, d, f);
      if dir == d && file == f {
        FileSpanSumUnvisited(entries0, d, f);
      }
    }
  }

  /** The `file_search_response` fields the caps govern. */
  datatype SearchReport = SearchReport(entries: seq<MatchEntry>, matchesReturned: nat, totalMatches: nat,
                                       truncated: bool, truncatedCount: nat)

  /**
   * The fallback scan of `FileSearchHandler.execute` when ripgrep is not
   * available, over the files that pass the filters, grouped by directory as
   * `os.walk` yields them, each file given as the match counts of its lines.
   */
  method FallbackSearch(dirs: seq<seq<seq<nat>>>, maxResults: int, maxPerFile: int) returns (report: SearchReport)
    requires 1 <= maxResults && 1 <= maxPerFile
    ensures report.matchesReturned == |report.entries| <= maxResults
    ensures EntriesBounded(report.entries, maxPerFile) && PerFileBounded(report.entries, maxPerFile)
    ensures report.totalMatches == report.matchesReturned + report.truncatedCount
    ensures report.truncated <==> report.truncatedCount > 0
  {
    var entries: seq<MatchEntry> := [];
    var tc: nat := 0;
    var truncated := false;
    var stopSearch := false;
    var d := 0;
    while d < |dirs| && !stopSearch
      invariant d <= |dirs|
      invariant |entries| <= maxResults && EntriesBounded(entries, maxPerFile)
      invariant PerFileBounded(entries, maxPerFile) && VisitedBefore(entries, d, 0)
      invariant truncated <==> tc > 0
    {
      var f := 0;
      while f < |dirs[d]|
        invariant f <= |dirs[d]|
        invariant |entries| <= maxResults && EntriesBounded(entries, maxPerFile)
        invariant PerFileBounded(entries, maxPerFile) && VisitedBefore(entries, d, f)
        invariant truncated <==> tc > 0
      {
        var scan := ScanFile(d, f, dirs[d][f], maxResults, maxPerFile, entries, tc, truncated);
        assert scan.entries == entries + scan.entries[|entries|..];
        ScanKeepsPerFile(entries, scan.entries[|entries|..], d, f, maxPerFile);
        entries, tc, truncated := scan.entries, scan.truncatedCount, scan.truncated;
        if scan.stopDirectory {
          break;
        }
        if scan.stopSearch {
          stopSearch := true;
          break;
        }
        f := f + 1;
      }
      d := d + 1;
    }
    report := SearchReport(entries, |entries|, |entries| + tc, truncated, tc);
  }

  // ------------------------------------------------------------------ content cache

  /** The module-level `_content_cache`, from content hash to content. */
  class ContentCache {
    var entries: map<string, string>

    constructor()
      ensures entries == map[]
    {
      entries := map[];
    }

    /** `cache_content` */
    method CacheContent(hash: string, content: string)
      modifies this
      ensures entries == old(entries)[hash := content]
    {
      entries := entries[hash := content];
    }

    /** `get_cached_content` */
    function GetCachedContent(hash: string): (r: Option<string>)
      reads this
      ensures r.Some? <==> hash in entries
      ensures r.Some? ==> r.value == entries[hash]
    {
      if hash in entries then Some(entries[hash]) else None
    }
  }

  /** After caching, the hash gives the content, and every other hash gives what it gave before. */
  method CacheThenGet(cache: ContentCache, hash: string, content: string, other: string)
    modifies cache
    ensures cache.GetCachedContent(hash) == Some(content)
    ensures other != hash ==> cache.GetCachedContent(other) == old(cache.GetCachedContent(other))
  {
    cache.CacheContent(hash, content);
  }

  /** The reply of `ContentRequestHandler.execute` (before chunking). */
  datatype ContentReply =
    | Found(contentHash: Value, content: string, requestId: Option<Value>)
    | NotFound(contentHash: Value, requestId: Option<Value>)

  /**
   * `ContentRequestHandler.execute` as written: the not-found branch assigns
   * into `base_response`, which only the found branch defines, so a request
   * that carries a `request_id` fails there with `UnboundLocalError`.
   */
  function ContentRequestAsWritten(cache: map<string, string>, message: map<string, Value>): (r: Result<ContentReply, string>)
  {
    var hash := Get(message, "content_hash");
    if !Truthy(hash) then Err("content_hash parameter is required")
    else if hash.Str? && hash.s in cache then
      Ok(Found(hash, cache[hash.s], if "request_id" in message then Some(message["request_id"]) else None))
    else if "request_id" in message then Err("UnboundLocalError: base_response")
    else Ok(NotFound(hash, None))
  }

  /** A request with a `request_id` for an unknown hash fails instead of getting the not-found reply. */
  lemma {:induction false} ContentRequestLosesNotFound()
    ensures ContentRequestAsWritten(map[], map["content_hash" := Str("abc"), "request_id" := Str("r1")]).Err?
  {
    var m := map["content_hash" := Str("abc"), "request_id" := Str("r1")];
    assert Get(m, "content_hash") == Str("abc");
  }

  /** `ContentRequestHandler.execute` with the not-found reply carrying the `request_id` like the found one. */
  function ContentRequest(cache: map<string, string>, message: map<string, Value>): (r: Result<ContentReply, string>)
    ensures r.Err? <==> !Truthy(Get(message, "content_hash"))
    ensures r.Ok? ==> r.value.contentHash == Get(message, "content_hash")
    ensures r.Ok? ==> (r.value.requestId.Some? <==> "request_id" in message)
    ensures r.Ok? && "request_id" in message ==> r.value.requestId == Some(message["request_id"])
    ensures r.Ok? ==> (r.value.Found? <==> Get(message, "content_hash").Str? && Get(message, "content_hash").s in cache)
    ensures r.Ok? && r.value.Found? ==> r.value.content == cache[Get(message, "content_hash").s]
  {
    var hash := Get(message, "content_hash");
    var requestId := if "request_id" in message then Some(message["request_id"]) else None;
    if !Truthy(hash) then Err("content_hash parameter is required")
    else if hash.Str? && hash.s in cache then Ok(Found(hash, cache[hash.s], requestId))
    else Ok(NotFound(hash, requestId))
  }

  /** Where the code as written does reply, the corrected reply is the same. */
  lemma {:induction false} ContentRequestAgrees(cache: map<string, string>, message: map<string, Value>)
    requires ContentRequestAsWritten(cache, message).Ok?
    ensures ContentRequest(cache, message) == ContentRequestAsWritten(cache, message)
  {
  }
}

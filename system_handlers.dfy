/** Reading the Proxmox and package versions out of tool output (portacode/connection/handlers/system_handlers.py). */
module SystemHandlers {
  import opened Wrappers
  import opened Text

  /**
   * `_parse_pveversion`. `Err` is the `IndexError` that `output.split(None, 1)[0]`
   * raises on non-empty output made only of whitespace.
   */
  function ParsePveversion(output: string): Result<Option<string>, string>
  {
    if output == "" then Ok(None)
    else
      var tokens := Tokens(output, Whitespace);
      if |tokens| == 0 then Err("IndexError: list index out of range")
      else
        var first := tokens[0];
        match IndexOf(first, '/')
        case None => Ok(Some(first))
        case Some(i) => Ok(Some(first[i + 1..]))
  }

  lemma {:induction false} TokensEmpty(s: string, seps: set<char>)
    ensures |Tokens(s, seps)| == 0 <==> forall i :: 0 <= i < |s| ==> s[i] in seps
    decreases |s|
  {
    if |s| > 0 && s[0] in seps {
      TokensEmpty(s[1..], seps);
      assert forall i :: 1 <= i < |s| ==> s[i] == s[1..][i - 1];
    }
  }

  /** A run of non-separators followed by a separator or the end is the first token. */
  lemma {:induction false} TokensFirst(t: string, rest: string, seps: set<char>)
    requires |t| > 0 && forall i :: 0 <= i < |t| ==> t[i] !in seps
    requires rest == [] || rest[0] in seps
    ensures |Tokens(t + rest, seps)| > 0 && Tokens(t + rest, seps)[0] == t
  {
    var s := t + rest;
    assert s[0] == t[0];
    var i := FirstIndexIn(s, seps);
    assert forall k :: 0 <= k < |t| ==> s[k] == t[k];
    if |t| < |s| {
      assert s[|t|] == rest[0];
    }
    assert i == |t|;
    assert s[..i] == t;
  }

  /**
   * Only empty output gives `None`; whitespace-only output raises, as written,
   * and every other output yields a version.
   */
  lemma {:induction false} PveversionCases(output: string)
    ensures ParsePveversion(output) == Ok(None) <==> output == ""
    ensures ParsePveversion(output).Err? <==> output != "" && forall i :: 0 <= i < |output| ==> output[i] in Whitespace
  {
    TokensEmpty(output, Whitespace);
  }

  /** The probe strips the command's output first, and stripped output never raises. */
  lemma {:induction false} PveversionStripped(output: string)
    ensures ParsePveversion(Strip(output)).Ok?
  {
    var s := Strip(output);
    if s != "" {
      assert s == TrimRight(TrimLeft(output, Whitespace), Whitespace);
      assert s[0] == TrimLeft(output, Whitespace)[0];
      TokensEmpty(s, Whitespace);
    }
  }

  /**
   * `pveversion` prints `pve-manager/<version>/<build> ...`: the result is
   * everything after the first "/" of the first word.
   */
  lemma {:induction false} PveversionOfBanner(name: string, version: string, rest: string)
    requires '/' !in name
    requires forall i :: 0 <= i < |name| ==> name[i] !in Whitespace
    requires forall i :: 0 <= i < |version| ==> version[i] !in Whitespace
    requires rest == [] || rest[0] in Whitespace
    ensures ParsePveversion(name + "/" + version + rest) == Ok(Some(version))
  {
    var t := name + "/" + version;
    assert forall i :: 0 <= i < |t| ==> t[i] !in Whitespace by {
      forall i | 0 <= i < |t| ensures t[i] !in Whitespace {
        if i < |name| { assert t[i] == name[i]; }
        else if i > |name| { assert t[i] == version[i - |name| - 1]; }
      }
    }
    TokensFirst(t, rest, Whitespace);
    assert t + rest == name + "/" + version + rest;
    assert t[|name|] == '/';
    assert t[..|name|] == name;
    var i := IndexOf(t, '/').value;
    assert i == |name|;
    assert t[i + 1..] == version;
  }

  /** A file with just a bare word yields that word. */
  lemma {:induction false} PveversionOfWord(word: string)
    requires |word| > 0 && '/' !in word
    requires forall i :: 0 <= i < |word| ==> word[i] !in Whitespace
    ensures ParsePveversion(word) == Ok(Some(word))
  {
    TokensFirst(word, "", Whitespace);
    assert word + "" == word;
  }

  // ------------------------------------------------------------------ dpkg

  const VersionPrefix: string := "version:"

  /** `line.lower().startswith("version:")` */
  predicate IsVersionLine(line: string)
  {
    StartsWith(Lower(line), VersionPrefix)
  }

  /** `line.split(":", 1)[1].strip()`; a line without ":" is never asked for. */
  function VersionField(line: string): string
  {
    match IndexOf(line, ':')
    case None => ""
    case Some(i) => Strip(line[i + 1..])
  }

  /** On a version line the first ":" is the one ending the "version:" prefix. */
  lemma {:induction false} VersionFieldAfterPrefix(line: string)
    requires IsVersionLine(line)
    ensures VersionField(line) == Strip(line[|VersionPrefix|..])
  {
    var low := Lower(line);
    assert low[..8] == VersionPrefix;
    forall k | 0 <= k < 7 ensures line[k] != ':' {
      assert low[k] == VersionPrefix[k];
      assert low[k] == LowerChar(line[k]);
    }
    assert low[7] == LowerChar(line[7]) == ':';
    assert line[7] == ':';
    assert ':' !in line[..7];
    var r := IndexOf(line, ':');
    assert r.Some?;
    assert r.value == 7;
  }

  /** `_parse_dpkg_version` over the lines of the output: the field of the first version line. */
  function DpkgVersionIn(lines: seq<string>): Option<string>
    decreases |lines|
  {
    if |lines| == 0 then None
    else if IsVersionLine(lines[0]) then Some(VersionField(lines[0]))
    else DpkgVersionIn(lines[1..])
  }

  /** `_parse_dpkg_version` */
  function ParseDpkgVersion(output: string): Option<string>
  {
    DpkgVersionIn(SplitLines(output))
  }

  /** `None` exactly when no line is a version line. */
  lemma {:induction false} DpkgVersionNone(lines: seq<string>)
    ensures DpkgVersionIn(lines).None? <==> forall k :: 0 <= k < |lines| ==> !IsVersionLine(lines[k])
    decreases |lines|
  {
    if |lines| > 0 && !IsVersionLine(lines[0]) {
      DpkgVersionNone(lines[1..]);
      assert forall k :: 1 <= k < |lines| ==> lines[k] == lines[1..][k - 1];
    }
  }

  /** When line `k` is the first version line, the result is the stripped text after its "version:". */
  lemma {:induction false} DpkgVersionFirst(lines: seq<string>, k: nat)
    requires k < |lines| && IsVersionLine(lines[k])
    requires forall j :: 0 <= j < k ==> !IsVersionLine(lines[j])
    ensures DpkgVersionIn(lines) == Some(Strip(lines[k][|VersionPrefix|..]))
    decreases k
  {
    if k == 0 {
      VersionFieldAfterPrefix(lines[0]);
    } else {
      assert !IsVersionLine(lines[0]);
      assert forall j :: 0 <= j < k - 1 ==> lines[1..][j] == lines[j + 1];
      DpkgVersionFirst(lines[1..], k - 1);
    }
  }
}

/**
 * The Python string and value semantics the handlers rely on, restricted to
 * ASCII: str.strip, str.lower, substring tests, str.split, str.splitlines,
 * int() on text, str() and truthiness of message fields.
 */
module Text {
  import opened Wrappers
  import opened Collections

  /** The ASCII characters that Python's `str.strip()` and `str.split()` treat as whitespace. */
  const Whitespace: set<char> := {' ', '\t', '\n', '\r', '\U{0B}', '\U{0C}', '\U{1C}', '\U{1D}', '\U{1E}', '\U{1F}'}

  /** `s.lstrip(chars)` */
  function TrimLeft(s: string, cs: set<char>): (r: string)
    ensures |r| <= |s| && r == s[|s| - |r|..]
    ensures r == [] || r[0] !in cs
    ensures forall i :: 0 <= i < |s| - |r| ==> s[i] in cs
    decreases |s|
  {
    if |s| > 0 && s[0] in cs then TrimLeft(s[1..], cs) else s
  }

  /** `s.rstrip(chars)` */
  function TrimRight(s: string, cs: set<char>): (r: string)
    ensures |r| <= |s| && r == s[..|r|]
    ensures r == [] || r[|r| - 1] !in cs
    ensures forall i :: |r| <= i < |s| ==> s[i] in cs
    decreases |s|
  {
    if |s| > 0 && s[|s| - 1] in cs then TrimRight(s[..|s| - 1], cs) else s
  }

  /** `s.strip(chars)` */
  function Trim(s: string, cs: set<char>): string
  {
    TrimRight(TrimLeft(s, cs), cs)
  }

  /** `s.strip()` */
  function Strip(s: string): string
  {
    Trim(s, Whitespace)
  }

  /** Text that neither starts nor ends with a character of `cs` is its own strip. */
  lemma {:induction false} TrimIdentity(s: string, cs: set<char>)
    requires s == [] || (s[0] !in cs && s[|s| - 1] !in cs)
    ensures Trim(s, cs) == s
  {
    assert TrimLeft(s, cs) == s;
  }

  /** The strip of `s` is the window of `s` that starts after its leading run of `cs` characters. */
  lemma {:induction false} TrimWindow(s: string, cs: set<char>)
    ensures var d := |s| - |TrimLeft(s, cs)|; var t := Trim(s, cs);
      d + |t| <= |s| && t == s[d..d + |t|] && (t == [] || (t[0] !in cs && t[|t| - 1] !in cs))
  {
    var l := TrimLeft(s, cs);
    var t := TrimRight(l, cs);
    var d := |s| - |l|;
    assert l == s[d..] && t == l[..|t|];
    assert s[d..][..|t|] == s[d..d + |t|];
  }

  /** Stripping twice strips no more than stripping once. */
  lemma {:induction false} StripTwice(s: string)
    ensures Strip(Strip(s)) == Strip(s)
  {
    var t := Strip(s);
    if |t| > 0 {
      var l := TrimLeft(s, Whitespace);
      assert t == TrimRight(l, Whitespace);
      assert t[0] == l[0];
    }
    TrimIdentity(t, Whitespace);
  }

  function LowerChar(c: char): char
  {
    if 'A' <= c <= 'Z' then (c as int + 32) as char else c
  }

  function UpperChar(c: char): char
  {
    if 'a' <= c <= 'z' then (c as int - 32) as char else c
  }

  /** `s.lower()` on ASCII letters. */
  function Lower(s: string): (r: string)
    ensures |r| == |s|
    ensures forall i :: 0 <= i < |s| ==> r[i] == LowerChar(s[i])
  {
    seq(|s|, i requires 0 <= i < |s| => LowerChar(s[i]))
  }

  predicate StartsWith(s: string, prefix: string)
  {
    |prefix| <= |s| && s[..|prefix|] == prefix
  }

  predicate EndsWith(s: string, suffix: string)
  {
    |suffix| <= |s| && s[|s| - |suffix|..] == suffix
  }

  /** `sub in s` */
  predicate Contains(s: string, sub: string)
    decreases |s|
  {
    StartsWith(s, sub) || (|s| > 0 && Contains(s[1..], sub))
  }

  /** The position of the first `c` in `s` (`s.find(c)` when it is not -1). */
  function IndexOf(s: string, c: char): (r: Option<nat>)
    ensures r.Some? ==> r.value < |s| && s[r.value] == c && c !in s[..r.value]
    ensures r.None? <==> c !in s
    decreases |s|
  {
    if |s| == 0 then None
    else if s[0] == c then Some(0)
    else match IndexOf(s[1..], c)
      case None => None
      case Some(i) => Some(i + 1)
  }

  /** The position of the last `c` in `s` (`s.rfind(c)` when it is not -1). */
  function LastIndexOf(s: string, c: char): (r: Option<nat>)
    ensures r.Some? ==> r.value < |s| && s[r.value] == c && c !in s[r.value + 1..]
    ensures r.None? <==> c !in s
    decreases |s|
  {
    if |s| == 0 then None
    else if s[|s| - 1] == c then Some(|s| - 1)
    else
      assert s == s[..|s| - 1] + [s[|s| - 1]];
      LastIndexOf(s[..|s| - 1], c)
  }

  /** The first `c` is at `i` when `s[i]` is `c` and nothing before it is. */
  lemma {:induction false} IndexOfAt(s: string, c: char, i: nat)
    requires i < |s| && s[i] == c && c !in s[..i]
    ensures IndexOf(s, c) == Some(i)
  {
    assert c in s by { assert s[i] == c; }
  }

  /** `s.split(c)` for a one-character separator: never empty, and joining the parts with `c` gives `s` back. */
  function Split(s: string, c: char): (r: seq<string>)
    ensures |r| > 0
    ensures forall k :: 0 <= k < |r| ==> c !in r[k]
    decreases |s|
  {
    match IndexOf(s, c)
    case None => [s]
    case Some(i) => [s[..i]] + Split(s[i + 1..], c)
  }

  /** `sep.join(parts)` */
  function Join(parts: seq<string>, sep: string): string
    decreases |parts|
  {
    if |parts| == 0 then ""
    else if |parts| == 1 then parts[0]
    else parts[0] + sep + Join(parts[1..], sep)
  }

  lemma {:induction false} JoinSplit(s: string, c: char)
    ensures Join(Split(s, c), [c]) == s
    decreases |s|
  {
    match IndexOf(s, c)
    case None =>
    case Some(i) =>
      JoinSplit(s[i + 1..], c);
      assert s == s[..i] + [c] + s[i + 1..];
  }

  /** The characters that end a line for Python's `str.splitlines()` (ASCII range and its three extra ones). */
  const LineBreaks: set<char> := {'\n', '\r', '\U{0B}', '\U{0C}', '\U{1C}', '\U{1D}', '\U{1E}', '\U{85}', '\U{2028}', '\U{2029}'}

  function FirstIndexIn(s: string, cs: set<char>): (i: nat)
    ensures i <= |s|
    ensures i < |s| ==> s[i] in cs
    ensures forall k :: 0 <= k < i ==> s[k] !in cs
    decreases |s|
  {
    if |s| == 0 || s[0] in cs then 0 else 1 + FirstIndexIn(s[1..], cs)
  }

  /** `s.splitlines()`: "\r\n" is one break, and a final break does not start an empty line. */
  function SplitLines(s: string): (r: seq<string>)
    ensures forall k :: 0 <= k < |r| ==> forall j :: 0 <= j < |r[k]| ==> r[k][j] !in LineBreaks
    decreases |s|
  {
    if |s| == 0 then []
    else
      var i := FirstIndexIn(s, LineBreaks);
      if i == |s| then [s]
      else
        var next := if s[i] == '\r' && i + 1 < |s| && s[i + 1] == '\n' then i + 2 else i + 1;
        [s[..i]] + SplitLines(s[next..])
  }

  /** The maximal runs of characters outside `seps`, in order (`re.split` on `[seps]+` with empty pieces dropped). */
  function Tokens(s: string, seps: set<char>): (r: seq<string>)
    ensures forall k :: 0 <= k < |r| ==> |r[k]| > 0 && forall j :: 0 <= j < |r[k]| ==> r[k][j] !in seps
    decreases |s|
  {
    if |s| == 0 then []
    else if s[0] in seps then Tokens(s[1..], seps)
    else
      var i := FirstIndexIn(s, seps);
      [s[..i]] + Tokens(s[i..], seps)
  }

  /** The end of the run of characters outside `keep` that `s` starts with. */
  function RunEnd(s: string, keep: char -> bool): (i: nat)
    requires |s| > 0 && !keep(s[0])
    ensures 0 < i <= |s|
    ensures forall k :: 0 <= k < i ==> !keep(s[k])
    ensures i < |s| ==> keep(s[i])
    decreases |s|
  {
    if |s| == 1 || keep(s[1]) then 1 else 1 + RunEnd(s[1..], keep)
  }

  /** `re.sub(r"[^...]+", "-", s)`: each maximal run of characters outside `keep` becomes one "-". */
  function ReplaceRuns(s: string, keep: char -> bool): (r: string)
    ensures forall i :: 0 <= i < |r| ==> keep(r[i]) || r[i] == '-'
    decreases |s|
  {
    if |s| == 0 then ""
    else if keep(s[0]) then [s[0]] + ReplaceRuns(s[1..], keep)
    else "-" + ReplaceRuns(s[RunEnd(s, keep)..], keep)
  }

  /** The characters of `s` satisfying `p`, in order. */
  function Filter(s: string, p: char -> bool): string
    decreases |s|
  {
    if |s| == 0 then "" else (if p(s[0]) then [s[0]] else "") + Filter(s[1..], p)
  }

  lemma {:induction false} FilterAppend(a: string, b: string, p: char -> bool)
    ensures Filter(a + b, p) == Filter(a, p) + Filter(b, p)
    decreases |a|
  {
    if |a| == 0 {
      assert a + b == b;
    } else {
      FilterAppend(a[1..], b, p);
      var h := if p(a[0]) then [a[0]] else "";
      assert (a + b)[0] == a[0];
      assert (a + b)[1..] == a[1..] + b;
      calc {
        Filter(a + b, p);
        h + Filter(a[1..] + b, p);
        h + (Filter(a[1..], p) + Filter(b, p));
        (h + Filter(a[1..], p)) + Filter(b, p);
      }
    }
  }

  lemma {:induction false} FilterNone(s: string, p: char -> bool)
    requires forall k :: 0 <= k < |s| ==> !p(s[k])
    ensures Filter(s, p) == ""
    decreases |s|
  {
    if |s| > 0 {
      FilterNone(s[1..], p);
    }
  }

  /** Every character `Filter` keeps satisfies `p`. */
  lemma {:induction false} FilterSatisfies(s: string, p: char -> bool)
    ensures forall k :: 0 <= k < |Filter(s, p)| ==> p(Filter(s, p)[k])
    decreases |s|
  {
    if |s| > 0 {
      FilterSatisfies(s[1..], p);
    }
  }

  /** Text whose every character satisfies `p` is kept whole. */
  lemma {:induction false} FilterAll(s: string, p: char -> bool)
    requires forall k :: 0 <= k < |s| ==> p(s[k])
    ensures Filter(s, p) == s
    decreases |s|
  {
    if |s| > 0 {
      FilterAll(s[1..], p);
    }
  }

  lemma {:induction false} TrimLeftKeeps(r: string, cs: set<char>, p: char -> bool)
    requires forall c :: c in cs ==> !p(c)
    ensures Filter(TrimLeft(r, cs), p) == Filter(r, p)
  {
    var l := TrimLeft(r, cs);
    var k := |r| - |l|;
    assert r == r[..k] + l;
    FilterAppend(r[..k], l, p);
    forall i | 0 <= i < k ensures !p(r[..k][i]) {
      assert r[i] in cs;
    }
    FilterNone(r[..k], p);
  }

  lemma {:induction false} TrimRightKeeps(l: string, cs: set<char>, p: char -> bool)
    requires forall c :: c in cs ==> !p(c)
    ensures Filter(TrimRight(l, cs), p) == Filter(l, p)
  {
    var t := TrimRight(l, cs);
    assert l == t + l[|t|..];
    FilterAppend(t, l[|t|..], p);
    forall i | 0 <= i < |l| - |t| ensures !p(l[|t|..][i]) {
      assert l[|t| + i] in cs;
    }
    FilterNone(l[|t|..], p);
  }

  /** Stripping characters outside `p` drops none of `p`. */
  lemma {:induction false} TrimKeeps(r: string, cs: set<char>, p: char -> bool)
    requires forall c :: c in cs ==> !p(c)
    ensures Filter(Trim(r, cs), p) == Filter(r, p)
  {
    TrimLeftKeeps(r, cs, p);
    TrimRightKeeps(TrimLeft(r, cs), cs, p);
  }

  /**
   * The run substitution keeps, in order, every character of a class `p`
   * that it does not replace, and adds none: "-" is not in `p`.
   */
  lemma {:induction false} ReplaceRunsKeeps(s: string, keep: char -> bool, p: char -> bool)
    requires forall c :: p(c) ==> keep(c)
    requires !p('-')
    ensures Filter(ReplaceRuns(s, keep), p) == Filter(s, p)
    decreases |s|
  {
    if |s| > 0 {
      if keep(s[0]) {
        ReplaceRunsKeeps(s[1..], keep, p);
        FilterAppend([s[0]], ReplaceRuns(s[1..], keep), p);
      } else {
        var i := RunEnd(s, keep);
        ReplaceRunsKeeps(s[i..], keep, p);
        FilterAppend("-", ReplaceRuns(s[i..], keep), p);
        assert s == s[..i] + s[i..];
        FilterAppend(s[..i], s[i..], p);
        FilterNone(s[..i], p);
      }
    }
  }

  /** Text made only of characters in `keep` passes through the substitution unchanged. */
  lemma {:induction false} ReplaceRunsIdentity(s: string, keep: char -> bool)
    requires forall i :: 0 <= i < |s| ==> keep(s[i])
    ensures ReplaceRuns(s, keep) == s
    decreases |s|
  {
    if |s| > 0 {
      ReplaceRunsIdentity(s[1..], keep);
    }
  }

  /** `s.replace(c, rep)` for a one-character `c`. */
  function ReplaceChar(s: string, c: char, rep: string): (r: string)
    ensures c !in rep ==> c !in r
    decreases |s|
  {
    if |s| == 0 then ""
    else (if s[0] == c then rep else [s[0]]) + ReplaceChar(s[1..], c, rep)
  }

  predicate IsDigit(c: char)
  {
    '0' <= c <= '9'
  }

  /** `s.isdigit()` on ASCII: non-empty and all digits. */
  predicate AllDigits(s: string)
  {
    |s| > 0 && forall i :: 0 <= i < |s| ==> IsDigit(s[i])
  }

  function DigitsValue(s: string): nat
    requires forall i :: 0 <= i < |s| ==> IsDigit(s[i])
    decreases |s|
  {
    if |s| == 0 then 0
    else
      var last := s[|s| - 1];
      assert IsDigit(last);
      DigitsValue(s[..|s| - 1]) * 10 + (last as int - '0' as int)
  }

  function DigitChar(d: nat): char
    requires d < 10
  {
    ('0' as int + d) as char
  }

  /** `str(n)` for a natural number. */
  function NatToString(n: nat): (r: string)
    ensures AllDigits(r)
    decreases n
  {
    if n < 10 then [DigitChar(n)] else NatToString(n / 10) + [DigitChar(n % 10)]
  }

  /** `str(i)` for an int. */
  function IntToString(i: int): string
  {
    if i < 0 then "-" + NatToString(-i) else NatToString(i)
  }

  lemma {:induction false} NatToStringValue(n: nat)
    ensures DigitsValue(NatToString(n)) == n
    decreases n
  {
    if n >= 10 {
      NatToStringValue(n / 10);
      var s := NatToString(n);
      assert s[..|s| - 1] == NatToString(n / 10);
    }
  }

  /** No two underscores in a row. */
  predicate NoDoubleUnderscore(s: string)
    decreases |s|
  {
    |s| < 2 || (!(s[0] == '_' && s[1] == '_') && NoDoubleUnderscore(s[1..]))
  }

  /** A decimal literal as `int()` accepts it after the sign: digits with single underscores between them. */
  predicate IsDecimalLiteral(s: string)
  {
    |s| > 0 && IsDigit(s[0]) && IsDigit(s[|s| - 1]) &&
    (forall i :: 0 <= i < |s| ==> IsDigit(s[i]) || s[i] == '_') && NoDoubleUnderscore(s)
  }

  lemma {:induction false} DigitsNoDoubleUnderscore(s: string)
    requires forall i :: 0 <= i < |s| ==> IsDigit(s[i])
    ensures NoDoubleUnderscore(s)
    decreases |s|
  {
    if |s| >= 2 {
      assert IsDigit(s[0]);
      DigitsNoDoubleUnderscore(s[1..]);
    }
  }

  function DigitValue(c: char): nat
  {
    if IsDigit(c) then c as int - '0' as int else 0
  }

  /** The value of a decimal literal, underscores skipped. */
  function LiteralValue(s: string): nat
    decreases |s|
  {
    if |s| == 0 then 0
    else if s[|s| - 1] == '_' then LiteralValue(s[..|s| - 1])
    else LiteralValue(s[..|s| - 1]) * 10 + DigitValue(s[|s| - 1])
  }

  /** `int(t)` on text without surrounding whitespace: an optional sign, then a decimal literal. */
  function IntLiteral(t: string): Option<int>
  {
    var signed := |t| > 0 && (t[0] == '-' || t[0] == '+');
    var body := if signed then t[1..] else t;
    if !IsDecimalLiteral(body) then None
    else
      var v: int := LiteralValue(body);
      Some(if signed && t[0] == '-' then -v else v)
  }

  /** `int(text)`: surrounding whitespace, an optional sign, then a decimal literal; `None` where Python raises ValueError. */
  function ParseInt(text: string): Option<int>
  {
    IntLiteral(Strip(text))
  }

  /** `int()` already ignores surrounding whitespace, so stripping first changes nothing. */
  lemma {:induction false} ParseIntStripped(text: string)
    ensures ParseInt(Strip(text)) == ParseInt(text)
  {
    StripTwice(text);
  }

  lemma {:induction false} LiteralDigitsValue(s: string)
    requires forall i :: 0 <= i < |s| ==> IsDigit(s[i])
    ensures LiteralValue(s) == DigitsValue(s)
    decreases |s|
  {
    if |s| > 0 {
      LiteralDigitsValue(s[..|s| - 1]);
    }
  }

  /** Plain digits are a literal of their decimal value. */
  lemma {:induction false} IntLiteralDigits(t: string)
    requires AllDigits(t)
    ensures IntLiteral(t) == Some(DigitsValue(t))
  {
    assert IsDigit(t[0]);
    assert IsDecimalLiteral(t) by {
      DigitsNoDoubleUnderscore(t);
    }
    LiteralDigitsValue(t);
  }

  /** Plain digit strings parse to their decimal value. */
  lemma {:induction false} ParseIntDigits(text: string)
    requires AllDigits(Strip(text))
    ensures ParseInt(text) == Some(DigitsValue(Strip(text)))
  {
    IntLiteralDigits(Strip(text));
  }

  /**
   * A JSON field as the handlers receive it. `Other` stands for any other
   * object (a list, a dict, a float), carried as its `str()` text and its truthiness.
   */
  datatype Value = Null | Num(n: int) | Flag(b: bool) | Str(s: string) | Other(text: string, truthy: bool)

  /** Python truthiness. */
  predicate Truthy(v: Value)
  {
    match v
    case Null => false
    case Num(n) => n != 0
    case Flag(b) => b
    case Str(s) => s != ""
    case Other(_, t) => t
  }

  /** `str(v)` */
  function PyStr(v: Value): string
  {
    match v
    case Null => "None"
    case Num(n) => IntToString(n)
    case Flag(b) => if b then "True" else "False"
    case Str(s) => s
    case Other(t, _) => t
  }

  /**
   * `str(v).strip()`, stripping only the texts that can carry whitespace;
   * `StrippedStrIsStrip` shows it is the strip of `PyStr`.
   */
  function StrippedStr(v: Value): string
  {
    match v
    case Null => "None"
    case Num(n) => IntToString(n)
    case Flag(b) => if b then "True" else "False"
    case Str(s) => Strip(s)
    case Other(t, _) => Strip(t)
  }

  lemma {:induction false} IntToStringEnds(i: int)
    ensures var t := IntToString(i); |t| > 0 && t[0] !in Whitespace && t[|t| - 1] !in Whitespace
  {
    var d := NatToString(if i < 0 then -i else i);
    assert IsDigit(d[0]) && IsDigit(d[|d| - 1]);
    if i < 0 {
      assert IntToString(i)[|IntToString(i)| - 1] == d[|d| - 1];
    }
  }

  /** A word with no whitespace at either end is its own strip. */
  lemma {:induction false} StripWord(w: string)
    requires |w| > 0 && w[0] !in Whitespace && w[|w| - 1] !in Whitespace
    ensures Strip(w) == w
  {
    TrimIdentity(w, Whitespace);
  }

  lemma {:induction false} StrippedStrIsStrip(v: Value)
    ensures StrippedStr(v) == Strip(PyStr(v))
  {
    match v
    case Null => StripWord("None");
    case Num(n) => IntToStringEnds(n); StripWord(IntToString(n));
    case Flag(b) => if b { StripWord("True"); } else { StripWord("False"); }
    case Str(_) =>
    case Other(_, _) =>
  }

  /** `int(str(v).strip())` is `int(str(v))`, read from the stripped text. */
  lemma {:induction false} ParseIntStrippedStr(v: Value)
    ensures ParseInt(PyStr(v)) == IntLiteral(StrippedStr(v))
    ensures ParseInt(Strip(PyStr(v))) == ParseInt(PyStr(v))
  {
    StrippedStrIsStrip(v);
    ParseIntStripped(PyStr(v));
  }

  /** `int(v)`; `None` where Python raises (`None`, non-numeric text, containers). */
  function PyInt(v: Value): Option<int>
  {
    match v
    case Null => None
    case Num(n) => Some(n)
    case Flag(b) => Some(if b then 1 else 0)
    case Str(s) => ParseInt(s)
    case Other(_, _) => None
  }

  /** `a or b`: `a` when it is truthy, else `b`. */
  function Or(a: Value, b: Value): (r: Value)
    ensures Truthy(r) <==> Truthy(a) || Truthy(b)
  {
    if Truthy(a) then a else b
  }

  /** `d.get(key)` on a message or JSON object: `None` for a missing key. */
  function Get(d: map<string, Value>, key: string): Value
  {
    if key in d then d[key] else Null
  }

  /** `"".join(parts)` */
  function Concat(parts: seq<string>): string
    decreases |parts|
  {
    if |parts| == 0 then "" else parts[0] + Concat(parts[1..])
  }

  /** Every `c` in `a + b` is replaced where it stands on either side. */
  lemma {:induction false} ReplaceCharAppend(a: string, b: string, c: char, rep: string)
    ensures ReplaceChar(a + b, c, rep) == ReplaceChar(a, c, rep) + ReplaceChar(b, c, rep)
    decreases |a|
  {
    if |a| == 0 {
      assert a + b == b;
    } else {
      assert (a + b)[1..] == a[1..] + b;
      ReplaceCharAppend(a[1..], b, c, rep);
    }
  }

  /** The replacement of the first character, then the rest. */
  lemma {:induction false} ReplaceCharStep(v: string, c: char, rep: string, tail: string)
    requires |v| > 0
    ensures ReplaceChar(v, c, rep) + tail == (if v[0] == c then rep else [v[0]]) + (ReplaceChar(v[1..], c, rep) + tail)
  {
    AppendAssoc(if v[0] == c then rep else [v[0]], ReplaceChar(v[1..], c, rep), tail);
  }

  /** Text without `c` is left as it is. */
  lemma {:induction false} ReplaceCharAbsent(s: string, c: char, rep: string)
    requires c !in s
    ensures ReplaceChar(s, c, rep) == s
    decreases |s|
  {
    if |s| > 0 {
      assert c !in s[1..] by {
        forall i | 0 <= i < |s| - 1 ensures s[1..][i] != c {
          assert s[1..][i] == s[i + 1];
        }
      }
      ReplaceCharAbsent(s[1..], c, rep);
    }
  }

  /** Python's `<` on strings: code point by code point, a proper prefix coming first. */
  predicate StrLess(a: string, b: string)
    decreases |a|
  {
    |b| > 0 && (|a| == 0 || a[0] < b[0] || (a[0] == b[0] && StrLess(a[1..], b[1..])))
  }

  lemma {:induction false} StrLessIrreflexive(a: string)
    ensures !StrLess(a, a)
    decreases |a|
  {
    if |a| > 0 {
      StrLessIrreflexive(a[1..]);
    }
  }

  lemma {:induction false} StrLessTransitive(a: string, b: string, c: string)
    requires StrLess(a, b) && StrLess(b, c)
    ensures StrLess(a, c)
    decreases |a|
  {
    if |a| > 0 && a[0] == b[0] && b[0] == c[0] {
      StrLessTransitive(a[1..], b[1..], c[1..]);
    }
  }

  lemma {:induction false} StrLessTotal(a: string, b: string)
    ensures a == b || StrLess(a, b) || StrLess(b, a)
    decreases |a|
  {
    if |a| > 0 && |b| > 0 && a[0] == b[0] {
      StrLessTotal(a[1..], b[1..]);
      if a[1..] == b[1..] {
        assert a == [a[0]] + a[1..] && b == [b[0]] + b[1..];
      }
    }
  }

  /** The order is strict and total: two strings are equal, or exactly one is below the other. */
  lemma {:induction false} StrLessOrder()
    ensures forall a: string, b: string :: a == b || StrLess(a, b) || StrLess(b, a)
    ensures forall a: string, b: string :: StrLess(a, b) ==> !StrLess(b, a)
  {
    forall a: string, b: string ensures a == b || StrLess(a, b) || StrLess(b, a) {
      StrLessTotal(a, b);
    }
    forall a: string, b: string | StrLess(a, b) ensures !StrLess(b, a) {
      if StrLess(b, a) {
        StrLessTransitive(a, b, a);
        StrLessIrreflexive(a);
      }
    }
  }

  /** A non-empty set of strings has a least element. */
  lemma {:induction false} LeastExists(s: set<string>)
    requires s != {}
    ensures exists m :: m in s && forall o :: o in s ==> !StrLess(o, m)
    decreases |s|
  {
    var x :| x in s;
    if s == {x} {
      StrLessIrreflexive(x);
      assert forall o :: o in s ==> o == x;
      assert x in s && forall o :: o in s ==> !StrLess(o, x);
    } else {
      LeastExists(s - {x});
      var m :| m in s - {x} && forall o :: o in s - {x} ==> !StrLess(o, m);
      if StrLess(x, m) {
        forall o | o in s ensures !StrLess(o, x) {
          if o == x {
            StrLessIrreflexive(x);
          } else if StrLess(o, x) {
            StrLessTransitive(o, x, m);
          }
        }
        assert x in s && forall o :: o in s ==> !StrLess(o, x);
      } else {
        assert m in s && forall o :: o in s ==> !StrLess(o, m);
      }
    }
  }

  /** `sorted(s)` for a set of strings: each element once, in increasing order. */
  function SortedStrings(s: set<string>): (r: seq<string>)
    ensures |r| == |s| && forall x :: x in r <==> x in s
    ensures forall i, j :: 0 <= i < j < |r| ==> StrLess(r[i], r[j])
    decreases |s|
  {
    if s == {} then []
    else
      LeastExists(s);
      StrLessOrder();
      var m :| m in s && forall o :: o in s ==> !StrLess(o, m);
      [m] + SortedStrings(s - {m})
  }
}

/**
 * Forwarding public hostnames through the Cloudflare tunnel to devices and
 * Proxmox containers (cloudflare_forwarding.py): rule validation, container
 * rule specs, exposed ports, shell and /etc/environment text.
 */
module CloudflareForwarding {
  import opened Wrappers
  import opened Text
  import opened Collections

  // ---------------------------------------------------------------------
  // Hostnames

  const HostnameRequiredMessage: string := "hostname is required for each rule"

  /** The quote `repr()` puts around a string: double quotes when it holds a single quote and no double quote. */
  function ReprQuote(s: string): (q: char)
    ensures q == '"' <==> '\'' in s && '"' !in s
    ensures q == '"' || q == '\''
  {
    if '\'' in s && '"' !in s then '"' else '\''
  }

  function HexDigit(d: nat): char
    requires d < 16
  {
    if d < 10 then ('0' as int + d) as char else ('a' as int + d - 10) as char
  }

  /** The characters up to U+00FF that `str.isprintable()` refuses: the C0 and C1 controls, DEL, no-break space and soft hyphen. */
  predicate Unprintable(c: char)
  {
    c < ' ' || ('\U{7F}' <= c <= '\U{A0}') || c == '\U{AD}'
  }

  /** How `repr()` writes one character between the quotes `q`. */
  function ReprChar(c: char, q: char): (r: string)
    ensures r == [c] <==> c != q && c != '\\' && !Unprintable(c)
  {
    if c == q || c == '\\' then ['\\', c]
    else if c == '\t' then "\\t"
    else if c == '\n' then "\\n"
    else if c == '\r' then "\\r"
    else if Unprintable(c) then ['\\', 'x', HexDigit(c as int / 16), HexDigit(c as int % 16)]
    else [c]
  }

  function ReprBody(s: string, q: char): string
    decreases |s|
  {
    if |s| == 0 then "" else ReprChar(s[0], q) + ReprBody(s[1..], q)
  }

  /** `repr()` of a string. */
  function QuotedRepr(s: string): (r: string)
    ensures |r| >= 2 && r[0] == ReprQuote(s) && r[|r| - 1] == ReprQuote(s)
  {
    var q := ReprQuote(s);
    [q] + ReprBody(s, q) + [q]
  }

  /** Text without backslashes, unprintable characters, or both kinds of quote is written as it is between its quotes. */
  lemma {:induction false} ReprBodyPlain(s: string, q: char)
    requires q !in s && '\\' !in s
    requires forall k :: 0 <= k < |s| ==> !Unprintable(s[k])
    ensures ReprBody(s, q) == s
    decreases |s|
  {
    if |s| > 0 {
      assert s == [s[0]] + s[1..];
      ReprBodyPlain(s[1..], q);
    }
  }

  /** A string with a single quote and no double quote is written in double quotes, any other unescaped in single quotes. */
  lemma {:induction false} QuotedReprPlain(s: string)
    requires '\\' !in s && forall k :: 0 <= k < |s| ==> !Unprintable(s[k])
    ensures '"' !in s ==> QuotedRepr(s) == [ReprQuote(s)] + s + [ReprQuote(s)]
    ensures '\'' !in s ==> QuotedRepr(s) == "'" + s + "'"
  {
    if '"' !in s || '\'' !in s {
      ReprBodyPlain(s, ReprQuote(s));
    }
  }

  function NotSubdomainMessage(hostname: string, domain: string): string
  {
    QuotedRepr(hostname) + " is not a subdomain of " + QuotedRepr(domain)
  }

  /** `h` is the domain itself or a name under it. */
  predicate UnderDomain(h: string, domain: string)
  {
    h == domain || EndsWith(h, "." + domain)
  }

  /** `_validate_hostname`: the hostname stripped and lower-cased, when it lies under the domain. */
  function ValidateHostname(hostname: string, domain: string): (r: Result<string, string>)
    ensures r.Ok? ==> r.value != ""
  {
    var normalized := Lower(Strip(hostname));
    if normalized == "" then Err(HostnameRequiredMessage)
    else
      var d := Strip(Lower(domain));
      if normalized == d || EndsWith(normalized, "." + d) then Ok(normalized)
      else Err(NotSubdomainMessage(hostname, d))
  }

  lemma {:induction false} LowerCharNotWhitespace(c: char)
    requires c !in Whitespace
    ensures LowerChar(c) !in Whitespace && LowerChar(LowerChar(c)) == LowerChar(c)
  {
  }

  /** Stripped, lower-cased text is its own normalisation. */
  lemma {:induction false} NormalizeIdempotent(s: string)
    ensures var t := Lower(Strip(s)); Lower(Strip(t)) == t
  {
    var u := Strip(s);
    var t := Lower(u);
    StripTwice(s);
    if |u| > 0 {
      assert u[0] !in Whitespace && u[|u| - 1] !in Whitespace by {
        assert Strip(u) == u;
        var l := TrimLeft(u, Whitespace);
        assert l == u;
      }
      LowerCharNotWhitespace(u[0]);
      LowerCharNotWhitespace(u[|u| - 1]);
    }
    TrimIdentity(t, Whitespace);
    forall i | 0 <= i < |t| ensures Lower(t)[i] == t[i] {
      assert t[i] == LowerChar(u[i]);
    }
  }

  /**
   * The hostname is accepted exactly when, stripped and lower-cased, it is
   * non-empty and the domain or a name under it, and it is then returned in
   * that form; a blank hostname gets its own error.
   */
  lemma {:induction false} ValidateHostnameSpec(hostname: string, domain: string)
    ensures var n := Lower(Strip(hostname)); var r := ValidateHostname(hostname, domain);
      (r.Ok? <==> n != "" && UnderDomain(n, Strip(Lower(domain)))) &&
      (r.Ok? ==> r.value == n) &&
      (r == Err(HostnameRequiredMessage) <==> n == "")
  {
    var n := Lower(Strip(hostname));
    if n != "" && !UnderDomain(n, Strip(Lower(domain))) {
      var e := NotSubdomainMessage(hostname, Strip(Lower(domain)));
      assert e[0] != HostnameRequiredMessage[0];
    }
  }

  /** A validated hostname is accepted again unchanged. */
  lemma {:induction false} ValidateHostnameAgain(hostname: string, domain: string)
    requires ValidateHostname(hostname, domain).Ok?
    ensures var h := ValidateHostname(hostname, domain).value; ValidateHostname(h, domain) == Ok(h)
  {
    NormalizeIdempotent(hostname);
  }

  // ---------------------------------------------------------------------
  // Destinations

  const DestinationRequiredMessage: string := "destination is required for each rule"
  const InvalidUrlMessage: string := "destination must be a valid http:// or https:// URL"

  /** A parsed destination: a device of the tunnel (`http(s)://[<id>]...`) or a plain URL. */
  datatype Destination =
    | Device(scheme: string, deviceId: string, port: int, path: string)
    | Url(serviceUrl: string, path: string)

  /** The length of the run of ASCII digits `s` starts with. */
  function DigitPrefix(s: string): (n: nat)
    ensures n <= |s| && (forall i :: 0 <= i < n ==> IsDigit(s[i])) && (n < |s| ==> !IsDigit(s[n]))
    decreases |s|
  {
    if |s| == 0 || !IsDigit(s[0]) then 0 else 1 + DigitPrefix(s[1..])
  }

  lemma {:induction false} DigitPrefixAll(s: string, rest: string)
    requires forall i :: 0 <= i < |s| ==> IsDigit(s[i])
    requires rest == [] || !IsDigit(rest[0])
    ensures DigitPrefix(s + rest) == |s|
    decreases |s|
  {
    if |s| > 0 {
      assert (s + rest)[1..] == s[1..] + rest;
      DigitPrefixAll(s[1..], rest);
    } else {
      assert s + rest == rest;
    }
  }

  /** The groups of `DEVICE_DEST_PATTERN` when it matches. */
  datatype DeviceMatch = DeviceMatch(scheme: string, deviceId: string, port: Option<string>, path: string)

  /** The scheme group `https?`, matched regardless of case. */
  predicate IsHttpScheme(s: string)
  {
    s == "http" || s == "https"
  }

  /** The length of the `https?` group followed by "://[", letters matched regardless of case. */
  function DeviceSchemeLength(v: string): Option<nat>
  {
    if |v| >= 9 && Lower(v[..5]) == "https" && v[5..9] == "://[" then Some(5)
    else if |v| >= 8 && Lower(v[..4]) == "http" && v[4..8] == "://[" then Some(4)
    else None
  }

  /** A path group `/.*`: a slash, then anything but a newline. */
  predicate IsPathGroup(p: string)
  {
    |p| > 0 && p[0] == '/' && '\n' !in p
  }

  /** The tail `(?::(\d+))?(/.*)?` of the pattern up to the end of the text. */
  function MatchTail(t: string): Option<(Option<string>, string)>
  {
    if t == "" then Some((None, ""))
    else if t[0] == '/' then (if IsPathGroup(t) then Some((None, t)) else None)
    else if t[0] == ':' then
      var n := DigitPrefix(t[1..]);
      var rest := t[1 + n..];
      if n == 0 then None
      else if rest == "" || IsPathGroup(rest) then Some((Some(t[1..1 + n]), rest))
      else None
    else None
  }

  /** The part of the pattern after "://[": the device id group, "]", then the tail. */
  function MatchDeviceBody(body: string): Option<(string, Option<string>, string)>
  {
    var n := DigitPrefix(body);
    if n == 0 || n == |body| || body[n] != ']' then None
    else
      match MatchTail(body[n + 1..])
      case None => None
      case Some(tail) => Some((body[..n], tail.0, tail.1))
  }

  /**
   * `DEVICE_DEST_PATTERN.match(v)` on stripped text. (Such text never ends
   * in a newline, the one place where `$` would match before the end.)
   */
  function MatchDevice(v: string): Option<DeviceMatch>
  {
    match DeviceSchemeLength(v)
    case None => None
    case Some(k) =>
      match MatchDeviceBody(v[k + 4..])
      case None => None
      case Some(g) => Some(DeviceMatch(v[..k], g.0, g.1, g.2))
  }

  /** The text a port group stands for in the destination. */
  function PortText(port: Option<string>): string
  {
    if port.None? then "" else ":" + port.value
  }

  /** The groups of a device destination: an http(s) scheme, digit groups, and a path group or nothing. */
  predicate WellFormedMatch(m: DeviceMatch)
  {
    IsHttpScheme(Lower(m.scheme)) && AllDigits(m.deviceId) &&
    (m.port.Some? ==> AllDigits(m.port.value)) &&
    (m.path == "" || IsPathGroup(m.path))
  }

  function BodyText(deviceId: string, port: Option<string>, path: string): string
  {
    deviceId + "]" + PortText(port) + path
  }

  function DeviceText(m: DeviceMatch): string
  {
    m.scheme + "://[" + BodyText(m.deviceId, m.port, m.path)
  }

  lemma {:induction false} MatchTailSound(t: string)
    requires MatchTail(t).Some?
    ensures var (port, path) := MatchTail(t).value;
      t == PortText(port) + path && (port.Some? ==> AllDigits(port.value)) && (path == "" || IsPathGroup(path))
  {
    if t != "" && t[0] == ':' {
      var n := DigitPrefix(t[1..]);
      assert t == ":" + t[1..1 + n] + t[1 + n..];
    }
  }

  lemma {:induction false} MatchDeviceBodySound(body: string)
    requires MatchDeviceBody(body).Some?
    ensures var (id, port, path) := MatchDeviceBody(body).value;
      body == BodyText(id, port, path) && AllDigits(id) &&
      (port.Some? ==> AllDigits(port.value)) && (path == "" || IsPathGroup(path))
  {
    var n := DigitPrefix(body);
    var tail := body[n + 1..];
    MatchTailSound(tail);
    SplitAround(body, n, "]");
    AppendAssoc(body[..n] + "]", PortText(MatchTail(tail).value.0), MatchTail(tail).value.1);
  }

  /** A text is what comes before a position, the one-character text there, and what follows. */
  lemma {:induction false} SplitAround(s: string, n: nat, c: string)
    requires n < |s| && c == [s[n]]
    ensures s == (s[..n] + c) + s[n + 1..]
  {
  }

  lemma {:induction false} DeviceSchemeSound(v: string)
    requires DeviceSchemeLength(v).Some?
    ensures var k := DeviceSchemeLength(v).value;
      k + 4 <= |v| && IsHttpScheme(Lower(v[..k])) && v == v[..k] + "://[" + v[k + 4..]
  {
    var k := DeviceSchemeLength(v).value;
    assert v == v[..k] + v[k..k + 4] + v[k + 4..];
  }

  /** A match gives back the destination it was read from, and its groups are well formed. */
  lemma {:induction false} MatchDeviceSound(v: string)
    requires MatchDevice(v).Some?
    ensures var m := MatchDevice(v).value; WellFormedMatch(m) && v == DeviceText(m)
  {
    var k := DeviceSchemeLength(v).value;
    DeviceSchemeSound(v);
    MatchDeviceBodySound(v[k + 4..]);
  }

  lemma {:induction false} MatchTailComplete(port: Option<string>, path: string)
    requires port.Some? ==> AllDigits(port.value)
    requires path == "" || IsPathGroup(path)
    ensures MatchTail(PortText(port) + path) == Some((port, path))
  {
    var t := PortText(port) + path;
    if port.Some? {
      var p := port.value;
      assert t[1..] == p + path;
      DigitPrefixAll(p, path);
      assert t[1..1 + |p|] == p;
      assert t[1 + |p|..] == path;
    } else {
      assert t == path;
    }
  }

  lemma {:induction false} MatchDeviceBodySplit(id: string, tail: string)
    requires AllDigits(id)
    ensures MatchDeviceBody(id + "]" + tail) ==
      if MatchTail(tail).None? then None else Some((id, MatchTail(tail).value.0, MatchTail(tail).value.1))
  {
    var body := id + "]" + tail;
    assert body == id + ("]" + tail);
    DigitPrefixAll(id, "]" + tail);
    assert body[|id|] == ']';
    assert body[..|id|] == id;
    assert body[|id| + 1..] == tail;
  }

  lemma {:induction false} MatchDeviceBodyComplete(id: string, port: Option<string>, path: string)
    requires AllDigits(id) && (port.Some? ==> AllDigits(port.value)) && (path == "" || IsPathGroup(path))
    ensures MatchDeviceBody(BodyText(id, port, path)) == Some((id, port, path))
  {
    var tail := PortText(port) + path;
    assert BodyText(id, port, path) == id + "]" + tail;
    MatchDeviceBodySplit(id, tail);
    MatchTailComplete(port, path);
  }

  lemma {:induction false} SchemeLength(scheme: string, rest: string)
    requires IsHttpScheme(Lower(scheme))
    ensures DeviceSchemeLength(scheme + "://[" + rest) == Some(|scheme|)
  {
    var v := scheme + "://[" + rest;
    assert v[..|scheme|] == scheme;
    assert v[|scheme|..|scheme| + 4] == "://[";
    if |scheme| == 4 {
      assert Lower(v[..5])[4] == ':';
    }
  }

  /** Every well-formed decomposition is matched, with exactly those groups. */
  lemma {:induction false} MatchDeviceComplete(m: DeviceMatch)
    requires WellFormedMatch(m)
    ensures MatchDevice(DeviceText(m)) == Some(m)
  {
    var v := DeviceText(m);
    var k := |m.scheme|;
    var body := BodyText(m.deviceId, m.port, m.path);
    SchemeLength(m.scheme, body);
    assert v[k + 4..] == body;
    assert v[..k] == m.scheme;
    MatchDeviceBodyComplete(m.deviceId, m.port, m.path);
  }

  /** What `urllib.parse.urlparse` reads as scheme, network location and path. */
  datatype UrlParts = UrlParts(scheme: string, netloc: string, path: string)

  predicate IsSchemeChar(c: char)
  {
    'a' <= c <= 'z' || 'A' <= c <= 'Z' || '0' <= c <= '9' || c == '+' || c == '-' || c == '.'
  }

  /** `_WHATWG_C0_CONTROL_OR_SPACE`: what `urlsplit` strips from the front of a URL. */
  const C0ControlOrSpace: set<char> := set i: int | 0 <= i <= 32 :: i as char

  /** `_UNSAFE_URL_BYTES_TO_REMOVE` holds tab, carriage return and line feed. */
  predicate IsSafeUrlChar(c: char)
  {
    c != '\t' && c != '\r' && c != '\n'
  }

  /** The text `urlsplit` splits: the URL with its leading controls and spaces stripped and every unsafe character deleted. */
  function CleanUrl(url: string): string
  {
    Filter(TrimLeft(url, C0ControlOrSpace), IsSafeUrlChar)
  }

  /**
   * `urlsplit` on cleaned text: a scheme before the first ":" when it starts
   * with a letter and uses scheme characters only (lower-cased); after "//"
   * the network location up to the first "/", "?" or "#"; then the path up
   * to the first "?" or "#".
   */
  function SplitUrl(v: string): UrlParts
  {
    var i := IndexOf(v, ':');
    if i.Some? && i.value > 0 && ('a' <= v[0] <= 'z' || 'A' <= v[0] <= 'Z') &&
       forall j :: 0 <= j < i.value ==> IsSchemeChar(v[j])
    then SplitAfterScheme(Lower(v[..i.value]), v[i.value + 1..])
    else SplitAfterScheme("", v)
  }

  /** What follows the scheme: the network location after "//", then the path. */
  function SplitAfterScheme(scheme: string, rest: string): UrlParts
  {
    if StartsWith(rest, "//") then
      var n := FirstIndexIn(rest[2..], {'/', '?', '#'});
      var after := rest[2 + n..];
      UrlParts(scheme, rest[2..2 + n], after[..FirstIndexIn(after, {'?', '#'})])
    else UrlParts(scheme, "", rest[..FirstIndexIn(rest, {'?', '#'})])
  }

  /** `urllib.parse.uses_params`: the schemes whose paths may end in `;params`. */
  const UsesParams: set<string> :=
    {"", "ftp", "hdl", "prospero", "http", "imap", "https", "shttp", "rtsp", "rtsps", "rtspu", "sip", "sips", "mms", "sftp", "tel"}

  /** Where `_splitparams` cuts a path: the first ";" from its last "/" on, or from the start when it has no "/". */
  function ParamsStart(path: string): (i: nat)
    ensures i <= |path| && (i < |path| ==> path[i] == ';')
  {
    var from := match LastIndexOf(path, '/') case Some(j) => j case None => 0;
    from + FirstIndexIn(path[from..], {';'})
  }

  /** The path without its `;params`. */
  function StripParams(path: string): string
  {
    path[..ParamsStart(path)]
  }

  /**
   * The cut is the first ";" after the last "/": every ";" before it has a "/"
   * after it, no "/" follows it, and a path without ";" is not cut.
   */
  lemma {:induction false} ParamsStartCut(path: string)
    ensures var i := ParamsStart(path);
      (forall k :: 0 <= k < i && path[k] == ';' ==> '/' in path[k + 1..i]) &&
      (forall k :: i < k < |path| ==> path[k] != '/') &&
      (';' !in path ==> StripParams(path) == path)
  {
    var i := ParamsStart(path);
    var last := LastIndexOf(path, '/');
    var from := match last case Some(j) => j case None => 0;
    forall k | 0 <= k < i && path[k] == ';' ensures '/' in path[k + 1..i] {
      assert k < from;
      assert path[from] == '/';
      assert path[from..][0] != ';';
      assert path[k + 1..i][from - k - 1] == '/';
    }
    forall k | i < k < |path| ensures path[k] != '/' {
      if last.Some? {
        assert path[k] == path[last.value + 1..][k - last.value - 1];
      }
    }
  }

  const InvalidIpv6Message: string := "Invalid IPv6 URL"

  /**
   * `urlparse` as `_parse_destination` reads it: `urlsplit` of the cleaned
   * text, refused when its network location holds only one of "[" and "]";
   * for a scheme in `uses_params`, a path holding ";" loses its `;params`.
   */
  function UrlParse(url: string): (r: Result<UrlParts, string>)
    ensures r.Err? ==> r.error == InvalidIpv6Message
  {
    var u := SplitUrl(CleanUrl(url));
    if ('[' in u.netloc) != (']' in u.netloc) then Err(InvalidIpv6Message)
    else if u.scheme in UsesParams && ';' in u.path then Ok(u.(path := StripParams(u.path)))
    else Ok(u)
  }

  /** Text that does not start with a control or space is not stripped. */
  lemma {:induction false} TrimLeftC0Identity(v: string)
    requires v != "" && v[0] !in C0ControlOrSpace
    ensures TrimLeft(v, C0ControlOrSpace) == v
  {
  }

  lemma {:induction false} CleanUrlIgnoresUnsafe(a: string, c: char, b: string)
    requires a != "" && a[0] !in C0ControlOrSpace
    requires !IsSafeUrlChar(c)
    ensures CleanUrl(a + [c] + b) == CleanUrl(a + b)
  {
    var x := a + [c] + b;
    assert x[0] == a[0] && (a + b)[0] == a[0];
    TrimLeftC0Identity(x);
    TrimLeftC0Identity(a + b);
    var p := IsSafeUrlChar;
    FilterAppend(a + [c], b, p);
    FilterAppend(a, [c], p);
    FilterAppend(a, b, p);
    FilterNone([c], p);
    calc {
      CleanUrl(x);
      Filter(x, p);
      Filter(a + [c], p) + Filter(b, p);
      Filter(a, p) + Filter([c], p) + Filter(b, p);
      Filter(a, p) + Filter(b, p);
      Filter(a + b, p);
      CleanUrl(a + b);
    }
  }

  /** Deleting a tab, carriage return or line feed after the first character does not change how a URL parses. */
  lemma {:induction false} UrlParseIgnoresUnsafe(a: string, c: char, b: string)
    requires a != "" && a[0] !in C0ControlOrSpace
    requires !IsSafeUrlChar(c)
    ensures UrlParse(a + [c] + b) == UrlParse(a + b)
  {
    CleanUrlIgnoresUnsafe(a, c, b);
  }

  /** The first character of `s` in `cs` is at `i` when `s[i]` is in `cs` (or `i` is the end) and nothing before it is. */
  lemma {:induction false} FirstIndexInAt(s: string, cs: set<char>, i: nat)
    requires i <= |s| && (i < |s| ==> s[i] in cs)
    requires forall k :: 0 <= k < i ==> s[k] !in cs
    ensures FirstIndexIn(s, cs) == i
  {
  }

  /** The pieces of an http or https URL the lemmas below assemble. */
  predicate HttpUrlPieces(scheme: string, netloc: string, path: string, tail: string)
  {
    (scheme == "http" || scheme == "https") &&
    (forall k :: 0 <= k < |netloc| ==> netloc[k] !in {'/', '?', '#'} && IsSafeUrlChar(netloc[k])) &&
    (path == "" || path[0] == '/') &&
    (forall k :: 0 <= k < |path| ==> path[k] !in {'?', '#'} && IsSafeUrlChar(path[k])) &&
    (tail == "" || tail[0] in {'?', '#'}) &&
    (forall k :: 0 <= k < |tail| ==> IsSafeUrlChar(tail[k]))
  }

  lemma {:induction false} CleanHttpUrl(scheme: string, netloc: string, path: string, tail: string)
    requires HttpUrlPieces(scheme, netloc, path, tail)
    ensures CleanUrl(scheme + "://" + netloc + path + tail) == scheme + "://" + netloc + path + tail
  {
    var head := scheme + "://";
    var v := head + netloc + path + tail;
    assert v[0] == 'h';
    TrimLeftC0Identity(v);
    var p := IsSafeUrlChar;
    FilterAll(head, p);
    FilterAll(netloc, p);
    FilterAll(path, p);
    FilterAll(tail, p);
    FilterAppend(head + netloc + path, tail, p);
    FilterAppend(head + netloc, path, p);
    FilterAppend(head, netloc, p);
  }

  lemma {:induction false} SplitHttpUrl(scheme: string, netloc: string, path: string, tail: string)
    requires HttpUrlPieces(scheme, netloc, path, tail)
    ensures SplitUrl(scheme + "://" + netloc + path + tail) == UrlParts(scheme, netloc, path)
  {
    var rest := "//" + (netloc + path + tail);
    assert scheme + "://" + netloc + path + tail == scheme + ":" + rest;
    SplitHttpScheme(scheme, rest);
    SplitNetloc(scheme, netloc, path, tail);
  }

  /** "http:" or "https:" is read as the scheme. */
  lemma {:induction false} SplitHttpScheme(scheme: string, rest: string)
    requires scheme == "http" || scheme == "https"
    ensures SplitUrl(scheme + ":" + rest) == SplitAfterScheme(scheme, rest)
  {
    var v := scheme + ":" + rest;
    var n := |scheme|;
    assert v[..n] == scheme && v[n] == ':' && v[n + 1..] == rest;
    IndexOfAt(v, ':', n);
    assert Lower(scheme) == scheme;
  }

  lemma {:induction false} SplitNetloc(scheme: string, netloc: string, path: string, tail: string)
    requires forall k :: 0 <= k < |netloc| ==> netloc[k] !in {'/', '?', '#'}
    requires path == "" || path[0] == '/'
    requires forall k :: 0 <= k < |path| ==> path[k] !in {'?', '#'}
    requires tail == "" || tail[0] in {'?', '#'}
    ensures SplitAfterScheme(scheme, "//" + (netloc + path + tail)) == UrlParts(scheme, netloc, path)
  {
    var tailed := netloc + path + tail;
    var rest := "//" + tailed;
    assert StartsWith(rest, "//") && rest[2..] == tailed;
    var after := path + tail;
    assert tailed == netloc + after;
    NetlocEnd(netloc, after);
    assert rest[2..2 + |netloc|] == netloc && rest[2 + |netloc|..] == after;
    PathEnd(path, tail);
  }

  lemma {:induction false} NetlocEnd(netloc: string, after: string)
    requires forall k :: 0 <= k < |netloc| ==> netloc[k] !in {'/', '?', '#'}
    requires after == "" || after[0] in {'/', '?', '#'}
    ensures FirstIndexIn(netloc + after, {'/', '?', '#'}) == |netloc|
  {
    var t := netloc + after;
    if after != "" {
      assert t[|netloc|] == after[0];
    }
    FirstIndexInAt(t, {'/', '?', '#'}, |netloc|);
  }

  lemma {:induction false} PathEnd(path: string, tail: string)
    requires forall k :: 0 <= k < |path| ==> path[k] !in {'?', '#'}
    requires tail == "" || tail[0] in {'?', '#'}
    ensures FirstIndexIn(path + tail, {'?', '#'}) == |path| && (path + tail)[..|path|] == path
  {
    var t := path + tail;
    if tail != "" {
      assert t[|path|] == tail[0];
    }
    FirstIndexInAt(t, {'?', '#'}, |path|);
  }

  /**
   * An http or https URL written as scheme, "://", a network location without
   * "/", "?" or "#", a path that is empty or starts with "/", and a query or
   * fragment: it parses to that scheme, network location and path less its
   * `;params`, unless the network location holds only one of "[" and "]".
   */
  lemma {:induction false} UrlParseHttp(scheme: string, netloc: string, path: string, tail: string)
    requires HttpUrlPieces(scheme, netloc, path, tail)
    ensures UrlParse(scheme + "://" + netloc + path + tail) ==
      if ('[' in netloc) != (']' in netloc) then Err(InvalidIpv6Message)
      else Ok(UrlParts(scheme, netloc, StripParams(path)))
  {
    CleanHttpUrl(scheme, netloc, path, tail);
    SplitHttpUrl(scheme, netloc, path, tail);
    ParamsStartCut(path);
  }

  /** In a last segment "<seg>;<params>" the cut falls at the ";". */
  lemma {:induction false} StripLastSegmentParams(seg: string, params: string)
    requires '/' !in seg && ';' !in seg && '/' !in params
    ensures StripParams("/" + seg + ";" + params) == "/" + seg
  {
    var path := "/" + seg + ";" + params;
    assert path[0] == '/';
    forall k | 0 < k < |path| ensures path[k] != '/' {
      if k <= |seg| {
        assert path[k] == seg[k - 1];
      } else if k > |seg| + 1 {
        assert path[k] == params[k - |seg| - 2];
      }
    }
    assert '/' !in path[1..];
    assert LastIndexOf(path, '/') == Some(0);
    forall k | 0 <= k < |seg| + 1 ensures path[k] != ';' {
      if k > 0 {
        assert path[k] == seg[k - 1];
      }
    }
    FirstIndexInAt(path, {';'}, |seg| + 1);
    assert path[..|seg| + 1] == "/" + seg;
  }

  /** An http URL whose last path segment carries `;params` parses to the path without them. */
  lemma {:induction false} UrlParseCutsParams(netloc: string, seg: string, params: string)
    requires forall k :: 0 <= k < |netloc| ==> netloc[k] !in {'/', '?', '#', '[', ']'} && IsSafeUrlChar(netloc[k])
    requires forall k :: 0 <= k < |seg| ==> seg[k] !in {'/', '?', '#', ';'} && IsSafeUrlChar(seg[k])
    requires forall k :: 0 <= k < |params| ==> params[k] !in {'/', '?', '#'} && IsSafeUrlChar(params[k])
    ensures UrlParse("http://" + netloc + ("/" + seg + ";" + params)) == Ok(UrlParts("http", netloc, "/" + seg))
  {
    var path := "/" + seg + ";" + params;
    SegmentParamsPath(seg, params);
    UrlParseHttp("http", netloc, path, "");
    StripLastSegmentParams(seg, params);
    HttpPrefix(netloc, path);
  }

  lemma {:induction false} HttpPrefix(netloc: string, path: string)
    ensures "http" + "://" + netloc + path + "" == "http://" + netloc + path
  {
  }

  lemma {:induction false} SegmentParamsPath(seg: string, params: string)
    requires forall k :: 0 <= k < |seg| ==> seg[k] !in {'/', '?', '#', ';'} && IsSafeUrlChar(seg[k])
    requires forall k :: 0 <= k < |params| ==> params[k] !in {'/', '?', '#'} && IsSafeUrlChar(params[k])
    ensures var path := "/" + seg + ";" + params;
      forall k :: 0 <= k < |path| ==> path[k] !in {'?', '#'} && IsSafeUrlChar(path[k])
  {
    var path := "/" + seg + ";" + params;
    forall k | 0 <= k < |path| ensures path[k] !in {'?', '#'} && IsSafeUrlChar(path[k]) {
      if 0 < k <= |seg| {
        assert path[k] == seg[k - 1];
      } else if k > |seg| + 1 {
        assert path[k] == params[k - |seg| - 2];
      }
    }
  }

  /** A network location with a lone "[" is refused. */
  lemma {:induction false} UrlParseBracketExample()
    ensures UrlParse("http://[x") == Err(InvalidIpv6Message)
  {
    assert HttpUrlPieces("http", "[x", "", "");
    UrlParseHttp("http", "[x", "", "");
    assert "http" + "://" + "[x" + "" + "" == "http://[x";
    assert "[x"[0] == '[' && ']' !in "[x";
  }

  /** The port of a device destination: the written one, else 80 for http and 443 for https. */
  function GroupPort(m: DeviceMatch): nat
    requires WellFormedMatch(m)
  {
    if m.port.Some? then DigitsValue(m.port.value) else if Lower(m.scheme) == "http" then 80 else 443
  }

  /** `_parse_destination` */
  function ParseDestination(destination: string): (r: Result<Destination, string>)
  {
    var value := Strip(destination);
    if value == "" then Err(DestinationRequiredMessage)
    else
      match MatchDevice(value)
      case Some(m) =>
        MatchDeviceSound(value);
        Ok(Device(Lower(m.scheme), m.deviceId, GroupPort(m), m.path))
      case None => ParseUrlDestination(value)
  }

  /** The URL branch of `_parse_destination`: `urlparse`'s error, or an http(s) URL with a network location. */
  function ParseUrlDestination(value: string): Result<Destination, string>
  {
    match UrlParse(value)
    case Err(e) => Err(e)
    case Ok(u) =>
      if !IsHttpScheme(u.scheme) || u.netloc == "" then Err(InvalidUrlMessage)
      else Ok(Url(value, u.path))
  }

  /** Only blank text gets the "required" error. */
  lemma {:induction false} ParseDestinationBlank(destination: string)
    ensures ParseDestination(destination) == Err(DestinationRequiredMessage) <==> Strip(destination) == ""
  {
    assert DestinationRequiredMessage[12] != InvalidUrlMessage[12];
    assert DestinationRequiredMessage[0] != InvalidIpv6Message[0];
  }

  /**
   * A device destination is read from text of the form
   * `<http or https>://[<digits>][:<digits>][/<path>]`: its scheme lower-cased,
   * its id and path as written, its port as written or the scheme's default.
   */
  lemma {:induction false} ParseDestinationDevice(destination: string)
    requires ParseDestination(destination).Ok? && ParseDestination(destination).value.Device?
    ensures var v := Strip(destination); var d := ParseDestination(destination).value;
      MatchDevice(v).Some? &&
      var m := MatchDevice(v).value;
      WellFormedMatch(m) && v == DeviceText(m) && IsHttpScheme(d.scheme) &&
      d == Device(Lower(m.scheme), m.deviceId, GroupPort(m), m.path)
  {
    MatchDeviceSound(Strip(destination));
  }

  /** Device text with a path that does not end in whitespace is its own strip. */
  lemma {:induction false} DeviceTextStripped(m: DeviceMatch)
    requires WellFormedMatch(m)
    requires m.path == "" || m.path[|m.path| - 1] !in Whitespace
    ensures Strip(DeviceText(m)) == DeviceText(m)
  {
    var v := DeviceText(m);
    var b := BodyText(m.deviceId, m.port, m.path);
    assert v == m.scheme + ("://[" + b);
    assert v[0] == m.scheme[0];
    assert Lower(m.scheme)[0] == 'h';
    assert v[|v| - 1] == b[|b| - 1];
    if m.path == "" {
      if m.port.Some? {
        var p := m.port.value;
        assert b == m.deviceId + "]" + (":" + p);
        assert b[|b| - 1] == p[|p| - 1];
      } else {
        assert b[|b| - 1] == ']';
      }
    } else {
      assert b[|b| - 1] == m.path[|m.path| - 1];
    }
    TrimIdentity(v, Whitespace);
  }

  /** Every stripped text of the device form parses to its groups, with the default port when none is written. */
  lemma {:induction false} ParseDeviceText(m: DeviceMatch)
    requires WellFormedMatch(m)
    requires m.path == "" || m.path[|m.path| - 1] !in Whitespace
    ensures ParseDestination(DeviceText(m)) == Ok(Device(Lower(m.scheme), m.deviceId, GroupPort(m), m.path))
  {
    DeviceTextStripped(m);
    MatchDeviceComplete(m);
  }

  /**
   * Text that is neither blank nor of the device form is accepted exactly when
   * `urlparse` reads it as an http or https URL with a network location; it is
   * kept whole with the parsed path. A network location with one bracket gets
   * `urlparse`'s own error, every other refusal the URL error.
   */
  lemma {:induction false} ParseDestinationUrl(destination: string)
    requires Strip(destination) != "" && MatchDevice(Strip(destination)).None?
    ensures var v := Strip(destination); var r := ParseDestination(destination); var u := UrlParse(v);
      (r.Ok? <==> u.Ok? && IsHttpScheme(u.value.scheme) && u.value.netloc != "") &&
      (r.Ok? ==> r.value == Url(v, u.value.path)) &&
      (u.Err? ==> r == Err(InvalidIpv6Message)) &&
      (u.Ok? && r.Err? ==> r.error == InvalidUrlMessage)
  {
  }

  /** The destination `set_container_forwarding_rules` writes for a container port. */
  function ContainerDestination(deviceId: string, port: nat): string
  {
    "http://[" + deviceId + "]:" + NatToString(port)
  }

  /** A container destination parses back to an http device destination with that id and port, and no path. */
  lemma {:induction false} ContainerDestinationParses(deviceId: string, port: nat)
    requires AllDigits(deviceId)
    ensures ParseDestination(ContainerDestination(deviceId, port)) == Ok(Device("http", deviceId, port, ""))
  {
    var p := NatToString(port);
    var m := DeviceMatch("http", deviceId, Some(p), "");
    assert ContainerDestination(deviceId, port) == DeviceText(m);
    assert Lower("http") == "http";
    ParseDeviceText(m);
    NatToStringValue(port);
  }

  // ---------------------------------------------------------------------
  // Forwarding rules

  const RuleObjectMessage: string := "Each rule must be an object with hostname and destination"

  /**
   * A rule as received or stored. `stored` is the `parsed` field of a stored
   * rule (`None` when it is absent or null).
   */
  datatype RawRule = RuleNotAnObject | RuleObject(fields: map<string, Value>, stored: Option<Destination>)

  /** A normalised forwarding rule. */
  datatype Rule = Rule(hostname: string, destination: string, parsed: Destination)

  /** The hostname field: `hostname`, else `host`, else `domain`. */
  function HostnameField(fields: map<string, Value>): string
  {
    PyStr(Or(Or(Or(Get(fields, "hostname"), Get(fields, "host")), Get(fields, "domain")), Str("")))
  }

  /** The destination field: `destination`, else `service`. */
  function DestinationField(fields: map<string, Value>): string
  {
    PyStr(Or(Or(Get(fields, "destination"), Get(fields, "service")), Str("")))
  }

  /** One iteration of `_normalize_rules`: the hostname is validated first, then the destination is parsed unless stored. */
  function NormalizeRule(entry: RawRule, domain: string, fromStorage: bool): Result<Rule, string>
  {
    match entry
    case RuleNotAnObject => Err(RuleObjectMessage)
    case RuleObject(fields, stored) =>
      var hostname :- ValidateHostname(HostnameField(fields), domain);
      var parsed :- if fromStorage && stored.Some? then Ok(stored.value) else ParseDestination(DestinationField(fields));
      Ok(Rule(hostname, DestinationField(fields), parsed))
  }

  // ---------------------------------------------------------------------
  // Loops that stop at the first raised error

  /** `f(k, xs[k])` for each position in order, or the first error (what a loop that raises on a bad element computes). */
  function MapUntilError<A, B, E>(xs: seq<A>, f: (nat, A) -> Result<B, E>): Result<seq<B>, E>
    decreases |xs|
  {
    if |xs| == 0 then Ok([])
    else
      var prefix :- MapUntilError(xs[..|xs| - 1], f);
      var y :- f(|xs| - 1, xs[|xs| - 1]);
      Ok(prefix + [y])
  }

  /** One more element after a prefix that succeeded. */
  lemma {:induction false} MapUntilErrorStep<A, B, E>(xs: seq<A>, i: nat, f: (nat, A) -> Result<B, E>, done: seq<B>)
    requires i < |xs| && MapUntilError(xs[..i], f) == Ok(done)
    ensures MapUntilError(xs[..i + 1], f) == if f(i, xs[i]).Ok? then Ok(done + [f(i, xs[i]).value]) else Err(f(i, xs[i]).error)
  {
    assert xs[..i + 1][..i] == xs[..i];
  }

  /** Once a prefix fails, the whole sequence fails with the same error. */
  lemma {:induction false} MapUntilErrorStays<A, B, E>(xs: seq<A>, n: nat, f: (nat, A) -> Result<B, E>)
    requires n <= |xs| && MapUntilError(xs[..n], f).Err?
    ensures MapUntilError(xs, f) == MapUntilError(xs[..n], f)
    decreases |xs| - n
  {
    if n < |xs| {
      assert xs[..n + 1][..n] == xs[..n];
      MapUntilErrorStays(xs, n + 1, f);
    } else {
      assert xs[..n] == xs;
    }
  }

  /** Success exactly when every element succeeds, with one result per element, in order. */
  lemma {:induction false} MapUntilErrorOk<A, B, E>(xs: seq<A>, f: (nat, A) -> Result<B, E>)
    ensures var r := MapUntilError(xs, f);
      (r.Ok? <==> forall k :: 0 <= k < |xs| ==> f(k, xs[k]).Ok?) &&
      (r.Ok? ==> (|r.value| == |xs| && forall k :: 0 <= k < |xs| ==> f(k, xs[k]) == Ok(r.value[k])))
    decreases |xs|
  {
    if |xs| > 0 {
      var p := xs[..|xs| - 1];
      MapUntilErrorOk(p, f);
      assert forall k :: 0 <= k < |p| ==> p[k] == xs[k];
    }
  }

  /** Every element succeeding with the given results makes the whole sequence succeed with them. */
  lemma {:induction false} MapUntilErrorAll<A, B, E>(xs: seq<A>, f: (nat, A) -> Result<B, E>, ys: seq<B>)
    requires |ys| == |xs| && forall k :: 0 <= k < |xs| ==> f(k, xs[k]) == Ok(ys[k])
    ensures MapUntilError(xs, f) == Ok(ys)
  {
    MapUntilErrorOk(xs, f);
    assert MapUntilError(xs, f).value == ys;
  }

  /** A failure is the error of the first element that fails. */
  lemma {:induction false} MapUntilErrorErr<A, B, E>(xs: seq<A>, f: (nat, A) -> Result<B, E>)
    requires MapUntilError(xs, f).Err?
    ensures exists k :: (0 <= k < |xs| && (forall j :: 0 <= j < k ==> f(j, xs[j]).Ok?) &&
      f(k, xs[k]) == Err(MapUntilError(xs, f).error))
    decreases |xs|
  {
    var p := xs[..|xs| - 1];
    assert forall k :: 0 <= k < |p| ==> p[k] == xs[k];
    if MapUntilError(p, f).Err? {
      MapUntilErrorErr(p, f);
    } else {
      MapUntilErrorOk(p, f);
    }
  }

  /** The rules normalised in order, or the error of the first rule that fails. */
  function NormalizedRules(rules: seq<RawRule>, domain: string, fromStorage: bool): Result<seq<Rule>, string>
  {
    MapUntilError(rules, (k: nat, e: RawRule) => NormalizeRule(e, domain, fromStorage))
  }

  /** `_normalize_rules` */
  method NormalizeRules(rules: seq<RawRule>, domain: string, fromStorage: bool) returns (r: Result<seq<Rule>, string>)
    ensures r == NormalizedRules(rules, domain, fromStorage)
  {
    var f := (k: nat, e: RawRule) => NormalizeRule(e, domain, fromStorage);
    var normalized: seq<Rule> := [];
    for i := 0 to |rules|
      invariant MapUntilError(rules[..i], f) == Ok(normalized)
    {
      MapUntilErrorStep(rules, i, f, normalized);
      var rule := NormalizeRule(rules[i], domain, fromStorage);
      if rule.Err? {
        r := Err(rule.error);
        MapUntilErrorStays(rules, i + 1, f);
        return;
      }
      normalized := normalized + [rule.value];
    }
    assert rules[..|rules|] == rules;
    r := Ok(normalized);
  }

  /**
   * Normalisation succeeds exactly when every rule does; it then keeps one
   * rule per entry, in order. A failure is the first failing rule's error.
   */
  lemma {:induction false} NormalizedRulesSpec(rules: seq<RawRule>, domain: string, fromStorage: bool)
    ensures var r := NormalizedRules(rules, domain, fromStorage);
      (r.Ok? <==> forall k :: 0 <= k < |rules| ==> NormalizeRule(rules[k], domain, fromStorage).Ok?) &&
      (r.Ok? ==> (|r.value| == |rules| &&
        forall k :: 0 <= k < |rules| ==> NormalizeRule(rules[k], domain, fromStorage) == Ok(r.value[k]))) &&
      (r.Err? ==> exists k :: (0 <= k < |rules| && (forall j :: 0 <= j < k ==> NormalizeRule(rules[j], domain, fromStorage).Ok?) &&
        NormalizeRule(rules[k], domain, fromStorage) == Err(r.error)))
  {
    var f := (k: nat, e: RawRule) => NormalizeRule(e, domain, fromStorage);
    MapUntilErrorOk(rules, f);
    if MapUntilError(rules, f).Err? {
      MapUntilErrorErr(rules, f);
    }
  }

  /** A normalised rule has its hostname in validated form, lying under the domain. */
  lemma {:induction false} NormalizeRuleHostname(entry: RawRule, domain: string, fromStorage: bool)
    requires NormalizeRule(entry, domain, fromStorage).Ok?
    ensures var h := NormalizeRule(entry, domain, fromStorage).value.hostname;
      h != "" && UnderDomain(h, Strip(Lower(domain))) && ValidateHostname(h, domain) == Ok(h)
  {
    NormalizeRuleValidates(entry, domain, fromStorage);
    ValidatedHostname(HostnameField(entry.fields), domain);
  }

  /** A normalised rule's hostname is the validated hostname field. */
  lemma {:induction false} NormalizeRuleValidates(entry: RawRule, domain: string, fromStorage: bool)
    requires NormalizeRule(entry, domain, fromStorage).Ok?
    ensures entry.RuleObject? && ValidateHostname(HostnameField(entry.fields), domain) == Ok(NormalizeRule(entry, domain, fromStorage).value.hostname)
  {
    var v := ValidateHostname(HostnameField(entry.fields), domain);
    assert v.Ok? && NormalizeRule(entry, domain, fromStorage).value.hostname == v.value;
  }

  /** A validated hostname is non-empty, lies under the domain and validates to itself. */
  lemma {:induction false} ValidatedHostname(hostname: string, domain: string)
    requires ValidateHostname(hostname, domain).Ok?
    ensures var h := ValidateHostname(hostname, domain).value;
      h != "" && UnderDomain(h, Strip(Lower(domain))) && ValidateHostname(h, domain) == Ok(h)
  {
    ValidateHostnameSpec(hostname, domain);
    ValidateHostnameAgain(hostname, domain);
  }

  // ---------------------------------------------------------------------
  // Container subdomain labels

  // The longer messages are written as two literals, which keeps their characters visible to the verifier.
  const SingleLabelMessage: string := "subdomain must be a single hostname label"
  const LabelFormatMessage: string := "subdomain must follow " + "'<device_id>' or '<index>_<device_id>' format"

  /**
   * `CONTAINER_SUBDOMAIN_RE` matched against the whole text: `<digits>` or
   * `<index digits>_<digits>`. The result is the device id group, the last run.
   */
  function LabelDevice(s: string): Option<string>
  {
    match IndexOf(s, '_')
    case None => if AllDigits(s) then Some(s) else None
    case Some(i) => if AllDigits(s[..i]) && AllDigits(s[i + 1..]) then Some(s[i + 1..]) else None
  }

  /** `CONTAINER_SUBDOMAIN_RE.match(s)`: the pattern ends in `$`, which also matches just before a final newline. */
  function MatchLabel(s: string): Option<string>
  {
    if |s| > 0 && s[|s| - 1] == '\n' then LabelDevice(s[..|s| - 1]) else LabelDevice(s)
  }

  /** The label of the rule at `index` when its subdomain is blank. */
  function DefaultLabel(deviceId: string, index: nat): string
  {
    if index == 0 then deviceId else NatToString(index) + "_" + deviceId
  }

  /** `str(subdomain or "").strip().lower().rstrip(".")` */
  function LabelCandidate(subdomain: Value): string
  {
    TrimRight(Lower(StrippedStr(Or(subdomain, Str("")))), {'.'})
  }

  /** `_normalize_subdomain_label` as written: the label is checked with `re.match`, whose `$` lets a final newline through. */
  function NormalizeSubdomainLabelAsWritten(subdomain: Value, deviceId: string, index: nat): Result<string, string>
  {
    var c := LabelCandidate(subdomain);
    var candidate := if c == "" then DefaultLabel(deviceId, index) else c;
    if '.' in candidate then Err(SingleLabelMessage)
    else if MatchLabel(candidate).None? then Err(LabelFormatMessage)
    else Ok(candidate)
  }

  /** `_normalize_subdomain_label` with the pattern required to match the whole label. */
  function NormalizeSubdomainLabel(subdomain: Value, deviceId: string, index: nat): Result<string, string>
  {
    var c := LabelCandidate(subdomain);
    var candidate := if c == "" then DefaultLabel(deviceId, index) else c;
    if '.' in candidate then Err(SingleLabelMessage)
    else if LabelDevice(candidate).None? then Err(LabelFormatMessage)
    else Ok(candidate)
  }

  /** Text without upper-case letters is its own lower-casing. */
  lemma {:induction false} LowerNoUpper(s: string)
    requires forall i :: 0 <= i < |s| ==> !('A' <= s[i] <= 'Z')
    ensures Lower(s) == s
  {
    forall i | 0 <= i < |s| ensures Lower(s)[i] == s[i] {
    }
  }

  lemma {:induction false} TrailingDotTrimmed()
    ensures TrimRight("12\n.", {'.'}) == "12\n"
  {
    assert "12\n."[..3] == "12\n";
  }

  /** A non-empty word without surrounding whitespace or capitals gives its candidate by dropping final dots. */
  lemma {:induction false} WordCandidate(w: string)
    requires |w| > 0 && w[0] !in Whitespace && w[|w| - 1] !in Whitespace
    requires forall i :: 0 <= i < |w| ==> !('A' <= w[i] <= 'Z')
    ensures LabelCandidate(Str(w)) == TrimRight(w, {'.'})
  {
    assert Or(Str(w), Str("")) == Str(w);
    StripWord(w);
    LowerNoUpper(w);
  }

  lemma {:induction false} TrailingNewlineCandidate()
    ensures LabelCandidate(Str("12\n.")) == "12\n"
  {
    WordCandidate("12\n.");
    TrailingDotTrimmed();
  }

  lemma {:induction false} TrailingNewlineMatch()
    ensures MatchLabel("12\n") == Some("12") && LabelDevice("12\n") == None
  {
    var c := "12\n";
    assert c[..2] == "12";
    assert IndexOf("12", '_') == None;
    assert AllDigits("12");
    assert IndexOf(c, '_') == None;
    assert !IsDigit(c[2]);
  }

  /** The subdomain "12\n." passes the check as written and yields a label ending in a newline; the full match refuses it. */
  lemma {:induction false} LabelTrailingNewline()
    ensures NormalizeSubdomainLabelAsWritten(Str("12\n."), "12", 0) == Ok("12\n")
    ensures NormalizeSubdomainLabel(Str("12\n."), "12", 0) == Err(LabelFormatMessage)
  {
    TrailingNewlineCandidate();
    TrailingNewlineMatch();
    NoDotInTrailingNewline();
  }

  lemma {:induction false} NoDotInTrailingNewline()
    ensures '.' !in "12\n"
  {
    assert "12\n"[0] != '.' && "12\n"[1] != '.' && "12\n"[2] != '.';
  }

  /** A label: digits and underscores, not empty. */
  predicate LabelChars(l: string)
  {
    |l| > 0 && forall j :: 0 <= j < |l| ==> IsDigit(l[j]) || l[j] == '_'
  }

  lemma {:induction false} LabelDeviceChars(l: string)
    requires LabelDevice(l).Some?
    ensures LabelChars(l)
  {
    match IndexOf(l, '_')
    case None =>
    case Some(i) =>
      forall j | 0 <= j < |l| ensures IsDigit(l[j]) || l[j] == '_' {
        if j < i {
          assert l[j] == l[..i][j];
        } else if j > i {
          assert l[j] == l[i + 1..][j - i - 1];
        }
      }
  }

  /** A label of digits and underscores is its own candidate text. */
  lemma {:induction false} LabelCandidateOf(l: string)
    requires LabelChars(l)
    ensures LabelCandidate(Str(l)) == l
  {
    assert Or(Str(l), Str("")) == Str(l);
    assert l[0] !in Whitespace && l[|l| - 1] !in Whitespace by {
      assert IsDigit(l[0]) || l[0] == '_';
      assert IsDigit(l[|l| - 1]) || l[|l| - 1] == '_';
    }
    TrimIdentity(l, Whitespace);
    LowerNoUpper(l);
    assert l[|l| - 1] != '.' by {
      assert IsDigit(l[|l| - 1]) || l[|l| - 1] == '_';
    }
  }

  lemma {:induction false} DigitsNotWhitespace(s: string)
    requires AllDigits(s)
    ensures s[0] !in Whitespace && s[|s| - 1] !in Whitespace
  {
  }

  /** Digits are their own strip. */
  lemma {:induction false} StripDigits(s: string)
    requires AllDigits(s)
    ensures Strip(s) == s
  {
    DigitsNotWhitespace(s);
    TrimIdentity(s, Whitespace);
  }

  lemma {:induction false} NotDigitChar(s: string, c: char)
    requires AllDigits(s) && !IsDigit(c)
    ensures c !in s
  {
  }

  /** The default label has no "." and names the device. */
  lemma {:induction false} DefaultLabelDevice(deviceId: string, index: nat)
    requires AllDigits(deviceId)
    ensures var l := DefaultLabel(deviceId, index); '.' !in l && LabelDevice(l) == Some(deviceId)
  {
    NotDigitChar(deviceId, '.');
    NotDigitChar(deviceId, '_');
    if index > 0 {
      var n := NatToString(index);
      var l := n + "_" + deviceId;
      NotDigitChar(n, '.');
      NotDigitChar(n, '_');
      assert l[|n|] == '_' && l[..|n|] == n;
      IndexOfAt(l, '_', |n|);
      assert l[|n| + 1..] == deviceId;
    }
  }

  lemma {:induction false} LabelMessagesDiffer()
    ensures SingleLabelMessage != LabelFormatMessage
  {
    assert SingleLabelMessage[15] != LabelFormatMessage[15];
  }

  /**
   * A blank subdomain falls back to `<device_id>` at index 0 and to
   * `<index>_<device_id>` after it, and that label names the device.
   */
  lemma {:induction false} BlankSubdomainLabel(subdomain: Value, deviceId: string, index: nat)
    requires AllDigits(deviceId) && LabelCandidate(subdomain) == ""
    ensures NormalizeSubdomainLabel(subdomain, deviceId, index) == Ok(DefaultLabel(deviceId, index))
    ensures LabelDevice(DefaultLabel(deviceId, index)) == Some(deviceId)
  {
    DefaultLabelDevice(deviceId, index);
  }

  /**
   * The label (or, when blank, the default) is accepted exactly when it has no
   * "." and has the `<digits>` or `<index>_<digits>` form; a "." is reported
   * before the form.
   */
  lemma {:induction false} NormalizeSubdomainLabelCases(subdomain: Value, deviceId: string, index: nat)
    ensures var r := NormalizeSubdomainLabel(subdomain, deviceId, index);
      var c := LabelCandidate(subdomain);
      var candidate := if c == "" then DefaultLabel(deviceId, index) else c;
      (r.Ok? <==> '.' !in candidate && LabelDevice(candidate).Some?) &&
      (r.Ok? ==> r.value == candidate) &&
      (r == Err(SingleLabelMessage) <==> '.' in candidate)
  {
    LabelMessagesDiffer();
  }

  lemma {:induction false} NormalizeSubdomainLabelErrors(subdomain: Value, deviceId: string, index: nat)
    requires NormalizeSubdomainLabel(subdomain, deviceId, index).Err?
    ensures var e := NormalizeSubdomainLabel(subdomain, deviceId, index).error;
      e == SingleLabelMessage || e == LabelFormatMessage
  {
  }

  /** An accepted label is accepted again unchanged, at any index. */
  lemma {:induction false} NormalizeSubdomainLabelAgain(subdomain: Value, deviceId: string, index: nat, other: nat)
    requires NormalizeSubdomainLabel(subdomain, deviceId, index).Ok?
    ensures var l := NormalizeSubdomainLabel(subdomain, deviceId, index).value;
      NormalizeSubdomainLabel(Str(l), deviceId, other) == Ok(l)
  {
    NormalizeSubdomainLabelCases(subdomain, deviceId, index);
    var l := NormalizeSubdomainLabel(subdomain, deviceId, index).value;
    LabelDeviceChars(l);
    LabelCandidateOf(l);
    NormalizeSubdomainLabelCases(Str(l), deviceId, other);
  }

  // ---------------------------------------------------------------------
  // Container rule specs

  const DeviceIdMessage: string := "container device_id " + "must be a numeric value"
  const RulesListMessage: string := "rules must be a list"
  const RuleSpecObjectMessage: string := "each container rule must be an object"
  const RulePortMessage: string := "each container rule " + "requires a valid integer port"
  const RulePortRangeMessage: string := "container rule ports " + "must be between 1 and 65535"

  /** A container rule as received (`SpecNotAnObject` for anything but a JSON object). */
  datatype RawSpec = SpecNotAnObject | SpecObject(fields: map<string, Value>)

  /** A normalised container rule: its subdomain label and port. */
  datatype RuleSpec = RuleSpec(subdomain: string, port: int)

  /** `str(v or "").strip()` */
  function ValueText(v: Value): string
  {
    StrippedStr(Or(v, Str("")))
  }

  predicate InPortRange(p: int)
  {
    1 <= p <= 65535
  }

  /**
   * One iteration of `_normalize_container_rule_specs`: the label, then
   * `int(str(port).strip())` and its range (read with `IntLiteral`, see `ParseIntStrippedStr`).
   */
  function NormalizeSpec(deviceId: string, index: nat, rule: RawSpec): Result<RuleSpec, string>
  {
    match rule
    case SpecNotAnObject => Err(RuleSpecObjectMessage)
    case SpecObject(fields) =>
      var sub :- NormalizeSubdomainLabel(Get(fields, "subdomain"), deviceId, index);
      match IntLiteral(StrippedStr(Get(fields, "port")))
      case None => Err(RulePortMessage)
      case Some(port) => if !InPortRange(port) then Err(RulePortRangeMessage) else Ok(RuleSpec(sub, port))
  }

  /** What `_normalize_container_rule_specs` returns; `None` rules stand for a value that is not a list. */
  function ContainerRuleSpecs(containerDeviceId: Value, containerRules: Option<seq<RawSpec>>): Result<seq<RuleSpec>, string>
  {
    var deviceId := ValueText(containerDeviceId);
    if !AllDigits(deviceId) then Err(DeviceIdMessage)
    else if containerRules.None? then Err(RulesListMessage)
    else MapUntilError(containerRules.value, (k: nat, rule: RawSpec) => NormalizeSpec(deviceId, k, rule))
  }

  /** `_normalize_container_rule_specs` */
  method NormalizeContainerRuleSpecs(containerDeviceId: Value, containerRules: Option<seq<RawSpec>>)
    returns (r: Result<seq<RuleSpec>, string>)
    ensures r == ContainerRuleSpecs(containerDeviceId, containerRules)
  {
    var deviceId := StrippedStr(Or(containerDeviceId, Str("")));
    if deviceId == "" || !AllDigits(deviceId) {
      return Err(DeviceIdMessage);
    }
    if containerRules.None? {
      return Err(RulesListMessage);
    }
    var rules := containerRules.value;
    var f := (k: nat, rule: RawSpec) => NormalizeSpec(deviceId, k, rule);
    var normalized: seq<RuleSpec> := [];
    for index := 0 to |rules|
      invariant MapUntilError(rules[..index], f) == Ok(normalized)
    {
      MapUntilErrorStep(rules, index, f, normalized);
      var spec := NormalizeSpec(deviceId, index, rules[index]);
      if spec.Err? {
        MapUntilErrorStays(rules, index + 1, f);
        return Err(spec.error);
      }
      normalized := normalized + [spec.value];
    }
    assert rules[..|rules|] == rules;
    return Ok(normalized);
  }

  /** An accepted rule has a well-formed label and a port in 1..65535. */
  lemma {:induction false} NormalizeSpecShape(deviceId: string, index: nat, rule: RawSpec)
    requires NormalizeSpec(deviceId, index, rule).Ok?
    ensures var s := NormalizeSpec(deviceId, index, rule).value;
      InPortRange(s.port) && '.' !in s.subdomain && LabelDevice(s.subdomain).Some?
  {
    var sub := NormalizeSubdomainLabel(Get(rule.fields, "subdomain"), deviceId, index);
    assert sub.Ok? && NormalizeSpec(deviceId, index, rule).value.subdomain == sub.value;
    NormalizeSubdomainLabelOk(Get(rule.fields, "subdomain"), deviceId, index);
  }

  /** An accepted label is a single label whose device suffix is well formed. */
  lemma {:induction false} NormalizeSubdomainLabelOk(subdomain: Value, deviceId: string, index: nat)
    requires NormalizeSubdomainLabel(subdomain, deviceId, index).Ok?
    ensures var sub := NormalizeSubdomainLabel(subdomain, deviceId, index).value;
      '.' !in sub && LabelDevice(sub).Some?
  {
    NormalizeSubdomainLabelCases(subdomain, deviceId, index);
  }

  lemma {:induction false} SpecMessagesDiffer()
    ensures DeviceIdMessage != RulesListMessage && DeviceIdMessage != RuleSpecObjectMessage
    ensures DeviceIdMessage != RulePortMessage && DeviceIdMessage != RulePortRangeMessage
    ensures DeviceIdMessage != SingleLabelMessage && DeviceIdMessage != LabelFormatMessage
  {
    assert DeviceIdMessage[0] == 'c';
    assert RulesListMessage[0] == 'r';
    assert RuleSpecObjectMessage[0] == 'e' && RulePortMessage[0] == 'e';
    assert RulePortRangeMessage[10] == 'r' && DeviceIdMessage[10] == 'd';
    assert SingleLabelMessage[0] == 's' && LabelFormatMessage[0] == 's';
  }

  /** A single rule fails with one of the rule errors. */
  lemma {:induction false} NormalizeSpecErrors(deviceId: string, index: nat, rule: RawSpec)
    requires NormalizeSpec(deviceId, index, rule).Err?
    ensures var e := NormalizeSpec(deviceId, index, rule).error;
      e == RuleSpecObjectMessage || e == SingleLabelMessage || e == LabelFormatMessage ||
      e == RulePortMessage || e == RulePortRangeMessage
  {
    if rule.SpecObject? && NormalizeSubdomainLabel(Get(rule.fields, "subdomain"), deviceId, index).Err? {
      NormalizeSubdomainLabelErrors(Get(rule.fields, "subdomain"), deviceId, index);
    }
  }

  /** The device id is checked first: its error appears exactly when the id is not numeric. */
  lemma {:induction false} ContainerRuleSpecsDeviceId(containerDeviceId: Value, containerRules: Option<seq<RawSpec>>)
    ensures ContainerRuleSpecs(containerDeviceId, containerRules) == Err(DeviceIdMessage) <==>
      !AllDigits(ValueText(containerDeviceId))
  {
    var deviceId := ValueText(containerDeviceId);
    SpecMessagesDiffer();
    if AllDigits(deviceId) && containerRules.Some? {
      var rules := containerRules.value;
      var f := (k: nat, rule: RawSpec) => NormalizeSpec(deviceId, k, rule);
      if MapUntilError(rules, f).Err? {
        MapUntilErrorErr(rules, f);
        var k :| 0 <= k < |rules| && f(k, rules[k]) == Err(MapUntilError(rules, f).error);
        NormalizeSpecErrors(deviceId, k, rules[k]);
      }
    }
  }

  /**
   * Accepted specs come from a numeric device id and a list of rules: one
   * spec per rule, in order, each with a well-formed label and a port in 1..65535.
   */
  lemma {:induction false} ContainerRuleSpecsOk(containerDeviceId: Value, containerRules: Option<seq<RawSpec>>)
    requires ContainerRuleSpecs(containerDeviceId, containerRules).Ok?
    ensures var specs := ContainerRuleSpecs(containerDeviceId, containerRules).value;
      var id := ValueText(containerDeviceId);
      AllDigits(id) && containerRules.Some? && |specs| == |containerRules.value| &&
      forall k :: 0 <= k < |specs| ==>
        NormalizeSpec(id, k, containerRules.value[k]) == Ok(specs[k]) &&
        InPortRange(specs[k].port) && '.' !in specs[k].subdomain && LabelDevice(specs[k].subdomain).Some?
  {
    var id := ValueText(containerDeviceId);
    var rules := containerRules.value;
    var f := (k: nat, rule: RawSpec) => NormalizeSpec(id, k, rule);
    MapUntilErrorOk(rules, f);
    var specs := MapUntilError(rules, f).value;
    forall k | 0 <= k < |specs|
      ensures InPortRange(specs[k].port) && '.' !in specs[k].subdomain && LabelDevice(specs[k].subdomain).Some?
    {
      NormalizeSpecShape(id, k, rules[k]);
    }
  }

  // ---------------------------------------------------------------------
  // Exposed ports (ConfigureProxmoxContainerExposePortsHandler)

  const ChildIdMessage: string := "child_device_id is required"
  const PortsListMessage: string := "expose_ports must be a list of integers"
  const PortsIntegerMessage: string := "expose_ports must contain valid integers"
  const PortsRangeMessage: string := "expose_ports entries must be between 1 and 65535"
  const PortsMaxMessage: string := "A maximum of 3 ports can be exposed"

  /** The `expose_ports` field: absent or null, not a list, or a list of items. */
  datatype PortsField = PortsMissing | PortsNotAList | PortItems(items: seq<Value>)

  /** `int(str(raw).strip())`, range-checked (read with `IntLiteral`, see `ParseIntStrippedStr`). */
  function ParsePort(raw: Value): (r: Result<int, string>)
    ensures r.Ok? ==> InPortRange(r.value)
  {
    match IntLiteral(StrippedStr(raw))
    case None => Err(PortsIntegerMessage)
    case Some(p) => if !InPortRange(p) then Err(PortsRangeMessage) else Ok(p)
  }

  /** The rules asked for: the first port under `<id>`, the next ones under `1_<id>` and `2_<id>`. */
  function ExposeRules(ports: seq<int>, childId: string): (r: seq<RuleSpec>)
    ensures |r| == |ports|
  {
    seq(|ports|, i requires 0 <= i < |ports| => RuleSpec(DefaultLabel(childId, i), ports[i]))
  }

  /** The items of the field, an absent one counting as an empty list. */
  function PortItemsOf(rawPorts: PortsField): seq<Value>
  {
    if rawPorts.PortItems? then rawPorts.items else []
  }

  lemma {:induction false} ExposeRulesSnoc(ports: seq<int>, childId: string, index: nat)
    requires index < |ports|
    ensures ExposeRules(ports[..index + 1], childId) ==
      ExposeRules(ports[..index], childId) + [RuleSpec(DefaultLabel(childId, index), ports[index])]
  {
  }

  /** Each item parsed in order, up to the first failure. */
  function ParsedPorts(raws: seq<Value>): Result<seq<int>, string>
  {
    MapUntilError(raws, (k: nat, raw: Value) => ParsePort(raw))
  }

  /** The rules the handler asks `set_container_forwarding_rules` for, or the error it raises. */
  function ExposePortsRules(childDeviceId: Value, rawPorts: PortsField): Result<seq<RuleSpec>, string>
  {
    var childId := ValueText(childDeviceId);
    if !AllDigits(childId) then Err(ChildIdMessage)
    else if rawPorts.PortsNotAList? then Err(PortsListMessage)
    else
      var parsed :- ParsedPorts(PortItemsOf(rawPorts));
      var ports := Dedup(parsed);
      if |ports| > 3 then Err(PortsMaxMessage) else Ok(ExposeRules(ports, childId))
  }

  /** The loop state: the ports kept so far are the parsed ones without repeats, and `seen` holds exactly them. */
  ghost predicate SeenPorts(parsed: seq<int>, seen: set<int>, kept: seq<int>)
  {
    kept == Dedup(parsed) && forall x :: x in seen <==> x in kept
  }

  lemma {:induction false} SeenPortsStep(parsed: seq<int>, p: int, seen: set<int>, kept: seq<int>)
    requires SeenPorts(parsed, seen, kept)
    ensures p in seen ==> SeenPorts(parsed + [p], seen, kept)
    ensures p !in seen ==> SeenPorts(parsed + [p], seen + {p}, kept + [p])
  {
    DedupSnoc(parsed, p);
  }

  /** The port loop of `ConfigureProxmoxContainerExposePortsHandler.execute`: parse each item, keep the first of each port. */
  method UniquePorts(raws: seq<Value>) returns (r: Result<seq<int>, string>)
    ensures r.Err? <==> ParsedPorts(raws).Err?
    ensures r.Err? ==> r.error == ParsedPorts(raws).error
    ensures r.Ok? ==> r.value == Dedup(ParsedPorts(raws).value)
  {
    var f := (k: nat, raw: Value) => ParsePort(raw);
    var seen: set<int> := {};
    var normalized: seq<int> := [];
    ghost var parsed: seq<int> := [];
    for i := 0 to |raws|
      invariant MapUntilError(raws[..i], f) == Ok(parsed)
      invariant SeenPorts(parsed, seen, normalized)
    {
      MapUntilErrorStep(raws, i, f, parsed);
      var port := ParsePort(raws[i]);
      if port.Err? {
        MapUntilErrorStays(raws, i + 1, f);
        return Err(port.error);
      }
      var p := port.value;
      SeenPortsStep(parsed, p, seen, normalized);
      parsed := parsed + [p];
      if p in seen {
        continue;
      }
      seen := seen + {p};
      normalized := normalized + [p];
    }
    assert raws[..|raws|] == raws;
    return Ok(normalized);
  }

  /** The validation in `ConfigureProxmoxContainerExposePortsHandler.execute`, up to the call that applies the rules. */
  method NormalizeExposePorts(childDeviceId: Value, rawPorts: PortsField) returns (r: Result<seq<RuleSpec>, string>)
    ensures r == ExposePortsRules(childDeviceId, rawPorts)
  {
    var childId := StrippedStr(Or(childDeviceId, Str("")));
    if childId == "" || !AllDigits(childId) {
      return Err(ChildIdMessage);
    }
    if rawPorts.PortsNotAList? {
      return Err(PortsListMessage);
    }
    var raws := if rawPorts.PortsMissing? then [] else rawPorts.items;
    var unique := UniquePorts(raws);
    if unique.Err? {
      return Err(unique.error);
    }
    var normalized := unique.value;
    if |normalized| > 3 {
      return Err(PortsMaxMessage);
    }
    var desired: seq<RuleSpec> := [];
    for index := 0 to |normalized|
      invariant desired == ExposeRules(normalized[..index], childId)
    {
      var subdomain := if index == 0 then childId else NatToString(index) + "_" + childId;
      ExposeRulesSnoc(normalized, childId, index);
      desired := desired + [RuleSpec(subdomain, normalized[index])];
    }
    assert normalized[..|normalized|] == normalized;
    return Ok(desired);
  }

  /** The ports of a list of rules. */
  function Ports(rules: seq<RuleSpec>): (r: seq<int>)
    ensures |r| == |rules|
  {
    seq(|rules|, i requires 0 <= i < |rules| => rules[i].port)
  }

  lemma {:induction false} PortsOfExposeRules(ports: seq<int>, childId: string)
    ensures Ports(ExposeRules(ports, childId)) == ports
  {
  }

  /**
   * The accepted rules carry the listed ports without repeats, in the order
   * they first appear, at most three of them.
   */
  lemma {:induction false} ExposePortsRulesPorts(childDeviceId: Value, rawPorts: PortsField)
    requires ExposePortsRules(childDeviceId, rawPorts).Ok?
    ensures var rules := ExposePortsRules(childDeviceId, rawPorts).value;
      AllDigits(ValueText(childDeviceId)) && !rawPorts.PortsNotAList? &&
      ParsedPorts(PortItemsOf(rawPorts)).Ok? && Ports(rules) == Dedup(ParsedPorts(PortItemsOf(rawPorts)).value) &&
      |rules| <= 3 && Distinct(Ports(rules))
  {
    var parsed := ParsedPorts(PortItemsOf(rawPorts)).value;
    PortsOfExposeRules(Dedup(parsed), ValueText(childDeviceId));
  }

  /** Every accepted port is in 1..65535, and the rules are named `<id>`, `1_<id>`, `2_<id>` in turn. */
  lemma {:induction false} ExposePortsRulesShape(childDeviceId: Value, rawPorts: PortsField)
    requires ExposePortsRules(childDeviceId, rawPorts).Ok?
    ensures var rules := ExposePortsRules(childDeviceId, rawPorts).value;
      forall k :: 0 <= k < |rules| ==> InPortRange(rules[k].port) && rules[k].subdomain == DefaultLabel(ValueText(childDeviceId), k)
  {
    ParsedPortsInRange(PortItemsOf(rawPorts));
    assert ExposePortsRules(childDeviceId, rawPorts).value ==
      ExposeRules(Dedup(ParsedPorts(PortItemsOf(rawPorts)).value), ValueText(childDeviceId));
  }

  /** Every parsed port is in 1..65535. */
  lemma {:induction false} ParsedPortsInRange(raws: seq<Value>)
    requires ParsedPorts(raws).Ok?
    ensures forall p :: p in ParsedPorts(raws).value ==> InPortRange(p)
  {
    var f := (k: nat, raw: Value) => ParsePort(raw);
    MapUntilErrorOk(raws, f);
    var parsed := ParsedPorts(raws).value;
    forall j | 0 <= j < |parsed| ensures InPortRange(parsed[j]) {
      assert f(j, raws[j]) == Ok(parsed[j]);
    }
  }

  /** What the handler passes on: each rule as an object with its subdomain and port. */
  function RawSpecs(rules: seq<RuleSpec>): (r: seq<RawSpec>)
    ensures |r| == |rules|
  {
    seq(|rules|, i requires 0 <= i < |rules| => SpecObject(map["subdomain" := Str(rules[i].subdomain), "port" := Num(rules[i].port)]))
  }

  /** A port in range survives `int(str(port).strip())`. */
  lemma {:induction false} PortRoundTrip(p: int)
    requires InPortRange(p)
    ensures IntLiteral(StrippedStr(Num(p))) == Some(p)
  {
    IntLiteralDigits(NatToString(p));
    NatToStringValue(p);
  }

  lemma {:induction false} ExposeRuleNormalizes(id: string, k: nat, rule: RuleSpec)
    requires AllDigits(id) && InPortRange(rule.port) && rule.subdomain == DefaultLabel(id, k)
    ensures NormalizeSpec(id, k, SpecObject(map["subdomain" := Str(rule.subdomain), "port" := Num(rule.port)])) == Ok(rule)
  {
    var sub := rule.subdomain;
    assert NormalizeSubdomainLabel(Str(sub), id, k) == Ok(sub) by {
      DefaultLabelDevice(id, k);
      LabelDeviceChars(sub);
      LabelCandidateOf(sub);
      NormalizeSubdomainLabelCases(Str(sub), id, k);
    }
    PortRoundTrip(rule.port);
  }

  lemma {:induction false} DefaultSpecsNormalize(id: string, rules: seq<RuleSpec>)
    requires AllDigits(id)
    requires forall k :: 0 <= k < |rules| ==> InPortRange(rules[k].port) && rules[k].subdomain == DefaultLabel(id, k)
    ensures MapUntilError(RawSpecs(rules), (k: nat, rule: RawSpec) => NormalizeSpec(id, k, rule)) == Ok(rules)
  {
    var raw := RawSpecs(rules);
    var f := (k: nat, rule: RawSpec) => NormalizeSpec(id, k, rule);
    forall k | 0 <= k < |rules| ensures f(k, raw[k]) == Ok(rules[k]) {
      ExposeRuleNormalizes(id, k, rules[k]);
    }
    MapUntilErrorAll(raw, f, rules);
  }

  /** Rules named `<id>`, `1_<id>`, … with ports in range pass the container rule normalisation unchanged. */
  lemma {:induction false} DefaultRulesNormalize(id: string, rules: seq<RuleSpec>)
    requires AllDigits(id)
    requires forall k :: 0 <= k < |rules| ==> InPortRange(rules[k].port) && rules[k].subdomain == DefaultLabel(id, k)
    ensures ContainerRuleSpecs(Str(id), Some(RawSpecs(rules))) == Ok(rules)
  {
    assert ValueText(Str(id)) == id by {
      assert Or(Str(id), Str("")) == Str(id);
      StripDigits(id);
    }
    DefaultSpecsNormalize(id, rules);
  }

  /** The rules the handler asks for pass the container rule normalisation unchanged. */
  lemma {:induction false} ExposeRulesNormalize(childDeviceId: Value, rawPorts: PortsField)
    requires ExposePortsRules(childDeviceId, rawPorts).Ok?
    ensures var rules := ExposePortsRules(childDeviceId, rawPorts).value;
      ContainerRuleSpecs(Str(ValueText(childDeviceId)), Some(RawSpecs(rules))) == Ok(rules)
  {
    ExposePortsRulesShape(childDeviceId, rawPorts);
    DefaultRulesNormalize(ValueText(childDeviceId), ExposePortsRules(childDeviceId, rawPorts).value);
  }

  // ---------------------------------------------------------------------
  // Container network entries and DHCP leases

  /** One `key=value` part of a Proxmox `netN` entry: the text on each side of the first "=", stripped. */
  function NetPart(part: string): Option<(string, string)>
  {
    match IndexOf(part, '=')
    case None => None
    case Some(i) => Some((Strip(part[..i]), Strip(part[i + 1..])))
  }

  /** The optional assignment of each part, in order. */
  function NetParts(parts: seq<string>): (r: seq<Option<(string, string)>>)
    ensures |r| == |parts| && forall i :: 0 <= i < |parts| ==> r[i] == NetPart(parts[i])
  {
    seq(|parts|, i requires 0 <= i < |parts| => NetPart(parts[i]))
  }

  /** The dictionary a run of assignments builds in order, a later one overriding an earlier one with the same key. */
  function Assigned<K, V>(kvs: seq<Option<(K, V)>>): map<K, V>
    decreases |kvs|
  {
    if |kvs| == 0 then map[]
    else
      var m := Assigned(kvs[..|kvs| - 1]);
      match kvs[|kvs| - 1]
      case None => m
      case Some(kv) => m[kv.0 := kv.1]
  }

  /** One more assignment, applied over the ones before it. */
  lemma {:induction false} AssignedSnoc<K, V>(kvs: seq<Option<(K, V)>>, i: nat)
    requires i < |kvs|
    ensures Assigned(kvs[..i + 1]) == match kvs[i] case None => Assigned(kvs[..i]) case Some(kv) => Assigned(kvs[..i])[kv.0 := kv.1]
  {
    assert kvs[..i + 1][..i] == kvs[..i];
  }

  /** `_parse_net_entry` */
  method ParseNetEntry(entry: string) returns (parsed: map<string, string>)
    ensures parsed == Assigned(NetParts(Split(entry, ',')))
  {
    var parts := Split(entry, ',');
    ghost var kvs := NetParts(parts);
    parsed := map[];
    for i := 0 to |parts|
      invariant parsed == Assigned(kvs[..i])
    {
      AssignedSnoc(kvs, i);
      var part := parts[i];
      assert kvs[i] == NetPart(part);
      match IndexOf(part, '=') {
        case Some(k) =>
          parsed := parsed[Strip(part[..k]) := Strip(part[k + 1..])];
        case None =>
      }
    }
    assert kvs[..|parts|] == kvs;
  }

  /** The `j`-th assignment is to `key`. */
  predicate AssignsKey<K(==), V>(kvs: seq<Option<(K, V)>>, j: int, key: K)
  {
    0 <= j < |kvs| && kvs[j].Some? && kvs[j].value.0 == key
  }

  /** A key is present exactly when some part assigns it. */
  lemma {:induction false} AssignedKeys<K, V>(kvs: seq<Option<(K, V)>>, key: K)
    ensures key in Assigned(kvs) <==> exists j :: AssignsKey(kvs, j, key)
    decreases |kvs|
  {
    if |kvs| == 0 {
      assert forall j :: !AssignsKey(kvs, j, key);
    } else {
      var n := |kvs| - 1;
      var p := kvs[..n];
      AssignedKeys(p, key);
      if AssignsKey(kvs, n, key) {
      } else if key in Assigned(p) {
        var j :| AssignsKey(p, j, key);
        assert p[j] == kvs[j];
        assert AssignsKey(kvs, j, key);
      } else {
        forall j | AssignsKey(kvs, j, key) ensures false {
          assert j < n && p[j] == kvs[j];
          assert AssignsKey(p, j, key);
        }
      }
    }
  }

  /** A key's value is the one given by the last assignment to it. */
  lemma {:induction false} AssignedLast<K, V>(kvs: seq<Option<(K, V)>>, j: nat)
    requires j < |kvs| && kvs[j].Some?
    requires forall l :: j < l < |kvs| ==> !AssignsKey(kvs, l, kvs[j].value.0)
    ensures kvs[j].value.0 in Assigned(kvs) && Assigned(kvs)[kvs[j].value.0] == kvs[j].value.1
    decreases |kvs|
  {
    var p := kvs[..|kvs| - 1];
    if j < |p| {
      assert p[j] == kvs[j];
      forall l | j < l < |p| ensures !AssignsKey(p, l, kvs[j].value.0) {
        assert p[l] == kvs[l];
        assert !AssignsKey(kvs, l, kvs[j].value.0);
      }
      AssignedLast(p, j);
      assert !AssignsKey(kvs, |kvs| - 1, kvs[j].value.0);
    }
  }

  /** One dnsmasq lease as `_load_leases` records it, with the MAC address and hostname already lower-cased. */
  datatype Lease = Lease(mac: string, ip: string, hostname: string)

  /** The first position whose lease satisfies `p`. */
  function FirstLease(leases: seq<Lease>, p: Lease -> bool): (r: Option<nat>)
    ensures r.Some? ==> r.value < |leases| && p(leases[r.value]) && forall j :: 0 <= j < r.value ==> !p(leases[j])
    ensures r.None? ==> forall j :: 0 <= j < |leases| ==> !p(leases[j])
    decreases |leases|
  {
    if |leases| == 0 then None
    else if p(leases[0]) then Some(0)
    else match FirstLease(leases[1..], p)
      case None => None
      case Some(i) => Some(i + 1)
  }

  /**
   * What `_lookup_lease_ip` returns. An empty `mac` or `hostname` stands for
   * one that is not given (both are falsy).
   */
  function LeaseIp(leases: seq<Lease>, mac: string, hostname: string): Option<string>
  {
    var byMac := if mac != "" then FirstLease(leases, (e: Lease) => e.mac == Lower(mac)) else None;
    if byMac.Some? then Some(leases[byMac.value].ip)
    else
      var byHost := if hostname != "" then FirstLease(leases, (e: Lease) => e.hostname == Lower(hostname)) else None;
      if byHost.Some? then Some(leases[byHost.value].ip) else None
  }

  /** `_lookup_lease_ip` */
  method LookupLeaseIp(leases: seq<Lease>, mac: string, hostname: string) returns (ip: Option<string>)
    ensures ip == LeaseIp(leases, mac, hostname)
  {
    if mac != "" {
      var targetMac := Lower(mac);
      for i := 0 to |leases|
        invariant forall j :: 0 <= j < i ==> leases[j].mac != targetMac
      {
        if leases[i].mac == targetMac {
          return Some(leases[i].ip);
        }
      }
    }
    if hostname != "" {
      var targetHost := Lower(hostname);
      for i := 0 to |leases|
        invariant forall j :: 0 <= j < i ==> leases[j].hostname != targetHost
      {
        if leases[i].hostname == targetHost {
          return Some(leases[i].ip);
        }
      }
    }
    return None;
  }

  /**
   * A given MAC address wins: the first lease with it decides. The hostname
   * decides only when no lease has the address, again by the first lease with
   * it, and nothing is found exactly when neither matches any lease.
   */
  lemma {:induction false} LeaseIpSpec(leases: seq<Lease>, mac: string, hostname: string)
    ensures var r := LeaseIp(leases, mac, hostname);
      var noMac := mac == "" || forall j :: 0 <= j < |leases| ==> leases[j].mac != Lower(mac);
      var noHost := hostname == "" || forall j :: 0 <= j < |leases| ==> leases[j].hostname != Lower(hostname);
      (forall j :: (0 <= j < |leases| && mac != "" && leases[j].mac == Lower(mac) &&
        (forall l :: 0 <= l < j ==> leases[l].mac != Lower(mac))) ==> r == Some(leases[j].ip)) &&
      (forall j :: (0 <= j < |leases| && noMac && hostname != "" && leases[j].hostname == Lower(hostname) &&
        (forall l :: 0 <= l < j ==> leases[l].hostname != Lower(hostname))) ==> r == Some(leases[j].ip)) &&
      (r.None? <==> noMac && noHost)
  {
  }

  // ---------------------------------------------------------------------
  // Shell and /etc/environment quoting

  /** `_shell_quote_single`: the value in single quotes, each `'` written as `'"'"'`. */
  function ShellQuoteSingle(value: string): string
  {
    "'" + ReplaceChar(value, '\'', "'\"'\"'") + "'"
  }

  /** `_format_etc_environment_value`: each `\` doubled, then each `"` escaped, all in double quotes. */
  function FormatEtcEnvironmentValue(value: string): string
  {
    "\"" + ReplaceChar(ReplaceChar(value, '\\', "\\\\"), '"', "\\\"") + "\""
  }

  /** Where a POSIX shell reading a word is. */
  datatype QuoteState = Unquoted | SingleQuoted | DoubleQuoted

  /** The characters a backslash escapes inside double quotes. */
  predicate DoubleQuoteEscapes(c: char)
  {
    c == '$' || c == '`' || c == '"' || c == '\\' || c == '\n'
  }

  predicate IsBlank(c: char)
  {
    c == ' ' || c == '\t' || c == '\n'
  }

  function Prefixed(s: string, r: Option<string>): Option<string>
  {
    if r.Some? then Some(s + r.value) else None
  }

  /**
   * The value a POSIX shell reads from one word, its quotes removed and its
   * backslash escapes applied: `None` for an unclosed quote, a final
   * backslash or an unquoted blank. Expansions are not modelled: `$` and
   * backquotes are read as themselves.
   */
  function ReadWord(w: string, state: QuoteState): Option<string>
    decreases |w|
  {
    if |w| == 0 then (if state == Unquoted then Some("") else None)
    else
      var c := w[0];
      match state
      case Unquoted =>
        if c == '\'' then ReadWord(w[1..], SingleQuoted)
        else if c == '"' then ReadWord(w[1..], DoubleQuoted)
        else if c == '\\' then (if |w| == 1 then None else Prefixed([w[1]], ReadWord(w[2..], Unquoted)))
        else if IsBlank(c) then None
        else Prefixed([c], ReadWord(w[1..], Unquoted))
      case SingleQuoted =>
        if c == '\'' then ReadWord(w[1..], Unquoted) else Prefixed([c], ReadWord(w[1..], SingleQuoted))
      case DoubleQuoted =>
        if c == '"' then ReadWord(w[1..], Unquoted)
        else if c == '\\' && |w| > 1 && DoubleQuoteEscapes(w[1]) then Prefixed([w[1]], ReadWord(w[2..], DoubleQuoted))
        else Prefixed([c], ReadWord(w[1..], DoubleQuoted))
  }

  lemma {:induction false} PrefixedTwice(a: string, b: string, r: Option<string>)
    ensures Prefixed(a, Prefixed(b, r)) == Prefixed(a + b, r)
  {
    if r.Some? {
      assert a + (b + r.value) == (a + b) + r.value;
    }
  }

  lemma {:induction false} PrefixedNothing(r: Option<string>)
    ensures Prefixed("", r) == r
  {
    if r.Some? {
      assert "" + r.value == r.value;
    }
  }

  /** Inside single quotes, the escape for a quote closes the quotes, reads a double-quoted quote and reopens them. */
  lemma {:induction false} QuotedQuoteReads(rest: string)
    ensures ReadWord("'\"'\"'" + rest, SingleQuoted) == Prefixed("'", ReadWord(rest, SingleQuoted))
  {
    calc {
      ReadWord("'\"'\"'" + rest, SingleQuoted);
      { assert ("'\"'\"'" + rest)[0] == '\'' && ("'\"'\"'" + rest)[1..] == "\"'\"'" + rest; }
      ReadWord("\"'\"'" + rest, Unquoted);
      { assert ("\"'\"'" + rest)[1..] == "'\"'" + rest; }
      ReadWord("'\"'" + rest, DoubleQuoted);
      { assert ("'\"'" + rest)[1..] == "\"'" + rest; }
      Prefixed("'", ReadWord("\"'" + rest, DoubleQuoted));
      { assert ("\"'" + rest)[1..] == "'" + rest; }
      Prefixed("'", ReadWord("'" + rest, Unquoted));
      { assert ("'" + rest)[1..] == rest; }
      Prefixed("'", ReadWord(rest, SingleQuoted));
    }
  }

  /** Inside single quotes, any other character reads as itself. */
  lemma {:induction false} QuotedCharReads(c: char, rest: string)
    requires c != '\''
    ensures ReadWord([c] + rest, SingleQuoted) == Prefixed([c], ReadWord(rest, SingleQuoted))
  {
    assert ([c] + rest)[0] == c && ([c] + rest)[1..] == rest;
  }

  /** Inside single quotes, the escaped value reads as the value. */
  lemma {:induction false} SingleQuotedBody(v: string, tail: string)
    ensures ReadWord(ReplaceChar(v, '\'', "'\"'\"'") + tail, SingleQuoted) == Prefixed(v, ReadWord(tail, SingleQuoted))
    decreases |v|
  {
    var q := "'\"'\"'";
    if |v| == 0 {
      assert ReplaceChar(v, '\'', q) + tail == tail;
      PrefixedNothing(ReadWord(tail, SingleQuoted));
    } else {
      var rest := ReplaceChar(v[1..], '\'', q) + tail;
      ReplaceCharStep(v, '\'', q, tail);
      SingleQuotedBody(v[1..], tail);
      if v[0] == '\'' {
        QuotedQuoteReads(rest);
        assert [v[0]] == "'";
      } else {
        QuotedCharReads(v[0], rest);
      }
      PrefixedTwice([v[0]], v[1..], ReadWord(tail, SingleQuoted));
      assert v == [v[0]] + v[1..];
    }
  }

  /** A shell reading the quoted word gets the value back, whatever characters it holds. */
  lemma {:induction false} ShellQuoteRoundTrip(value: string)
    ensures ReadWord(ShellQuoteSingle(value), Unquoted) == Some(value)
  {
    var body := ReplaceChar(value, '\'', "'\"'\"'");
    var w := ShellQuoteSingle(value);
    assert w[0] == '\'' && w[1..] == body + "'";
    SingleQuotedBody(value, "'");
    assert "'"[1..] == "";
    assert value + "" == value;
  }

  /** The two replacements, one character at a time. */
  function EtcEscaped(value: string): string
  {
    ReplaceChar(ReplaceChar(value, '\\', "\\\\"), '"', "\\\"")
  }

  lemma {:induction false} EtcEscapedStep(v: string)
    requires |v| > 0
    ensures EtcEscaped(v) == (if v[0] == '\\' then "\\\\" else if v[0] == '"' then "\\\"" else [v[0]]) + EtcEscaped(v[1..])
  {
    var head := if v[0] == '\\' then "\\\\" else [v[0]];
    var tail := ReplaceChar(v[1..], '\\', "\\\\");
    assert ReplaceChar(v, '\\', "\\\\") == head + tail;
    ReplaceCharAppend(head, tail, '"', "\\\"");
    if v[0] == '"' {
      assert ReplaceChar(head, '"', "\\\"") == "\\\"" + ReplaceChar("", '"', "\\\"");
    } else {
      assert '"' !in head;
      ReplaceCharAbsent(head, '"', "\\\"");
    }
  }

  /** Inside double quotes, the escaped value reads as the value. */
  lemma {:induction false} DoubleQuotedBody(v: string, tail: string)
    ensures ReadWord(EtcEscaped(v) + tail, DoubleQuoted) == Prefixed(v, ReadWord(tail, DoubleQuoted))
    decreases |v|
  {
    if |v| == 0 {
      assert EtcEscaped(v) + tail == tail;
      PrefixedNothing(ReadWord(tail, DoubleQuoted));
    } else {
      EtcEscapedStep(v);
      var rest := EtcEscaped(v[1..]) + tail;
      DoubleQuotedBody(v[1..], tail);
      var head := if v[0] == '\\' then "\\\\" else if v[0] == '"' then "\\\"" else [v[0]];
      var w := head + rest;
      assert EtcEscaped(v) + tail == w;
      if v[0] == '\\' || v[0] == '"' {
        assert w[0] == '\\' && w[1] == v[0] && w[2..] == rest;
        assert ReadWord(w, DoubleQuoted) == Prefixed([v[0]], ReadWord(rest, DoubleQuoted));
      } else {
        assert w[0] == v[0] && w[1..] == rest;
        assert ReadWord(w, DoubleQuoted) == Prefixed([v[0]], ReadWord(rest, DoubleQuoted));
      }
      PrefixedTwice([v[0]], v[1..], ReadWord(tail, DoubleQuoted));
      assert v == [v[0]] + v[1..];
    }
  }

  /** Read as a double-quoted shell word, the formatted value is the value again. */
  lemma {:induction false} EtcEnvironmentRoundTrip(value: string)
    ensures ReadWord(FormatEtcEnvironmentValue(value), Unquoted) == Some(value)
  {
    var w := FormatEtcEnvironmentValue(value);
    assert w[0] == '"' && w[1..] == EtcEscaped(value) + "\"";
    DoubleQuotedBody(value, "\"");
    assert "\""[1..] == "";
    assert value + "" == value;
  }

  // ---------------------------------------------------------------------
  // System environment file

  /** `stripped.split("=", 1)[0].strip()`: the key of a line. */
  function LineKey(line: string): string
  {
    Strip(Split(Strip(line), '=')[0])
  }

  /** Blank and comment lines are always kept; any other line unless its key is managed. */
  predicate KeepsLine(line: string, managed: set<string>)
  {
    var stripped := Strip(line);
    stripped == "" || StartsWith(stripped, "#") || LineKey(line) !in managed
  }

  /** The existing lines `_merge_system_environment` keeps, in their order. */
  function KeptLines(lines: seq<string>, managed: set<string>): seq<string>
  {
    FilterSeq(lines, (l: string) => KeepsLine(l, managed))
  }

  /** The line written for a managed key. */
  function EnvLine(key: string, value: string): string
  {
    key + "=" + FormatEtcEnvironmentValue(value)
  }

  /** The lines written for the managed keys, in the order given. */
  function EnvLines(keys: seq<string>, env: map<string, string>): (r: seq<string>)
    requires forall k :: k in keys ==> k in env
    ensures |r| == |keys| && forall i :: 0 <= i < |keys| ==> r[i] == EnvLine(keys[i], env[keys[i]])
    decreases |keys|
  {
    if |keys| == 0 then [] else EnvLines(keys[..|keys| - 1], env) + [EnvLine(keys[|keys| - 1], env[keys[|keys| - 1]])]
  }

  /** The lines of the merged file: the kept lines, then one line per managed key in sorted order. */
  function MergedLines(lines: seq<string>, env: map<string, string>): seq<string>
  {
    KeptLines(lines, env.Keys) + EnvLines(SortedStrings(env.Keys), env)
  }

  /** The merged file: its lines joined by newlines, trailing whitespace removed, one newline added. */
  function MergedEnvironment(existing: string, env: map<string, string>): string
  {
    TrimRight(Join(MergedLines(SplitLines(existing), env), "\n"), Whitespace) + "\n"
  }

  /** One more line, kept or dropped by its own verdict. */
  lemma {:induction false} KeptLinesSnoc(lines: seq<string>, i: nat, managed: set<string>)
    requires i < |lines|
    ensures KeptLines(lines[..i + 1], managed) ==
      KeptLines(lines[..i], managed) + (if KeepsLine(lines[i], managed) then [lines[i]] else [])
  {
    assert lines[..i + 1][..i] == lines[..i];
  }

  lemma {:induction false} EnvLinesSnoc(keys: seq<string>, j: nat, env: map<string, string>)
    requires j < |keys| && forall k :: k in keys ==> k in env
    ensures EnvLines(keys[..j + 1], env) == EnvLines(keys[..j], env) + [EnvLine(keys[j], env[keys[j]])]
  {
    assert keys[..j + 1][..j] == keys[..j];
  }

  /** The first loop of `_merge_system_environment`: the existing lines it keeps. */
  method KeepUnmanagedLines(lines: seq<string>, managed: set<string>) returns (kept: seq<string>)
    ensures kept == KeptLines(lines, managed)
  {
    kept := [];
    for i := 0 to |lines|
      invariant kept == KeptLines(lines[..i], managed)
    {
      KeptLinesSnoc(lines, i, managed);
      var rawLine := lines[i];
      var stripped := Strip(rawLine);
      if stripped == "" {
        kept := kept + [rawLine];
        continue;
      }
      if StartsWith(stripped, "#") {
        kept := kept + [rawLine];
        continue;
      }
      var key := Strip(Split(stripped, '=')[0]);
      if key in managed {
        continue;
      }
      kept := kept + [rawLine];
    }
    assert lines[..|lines|] == lines;
  }

  /** The second loop of `_merge_system_environment`: one line per key, appended in the order given. */
  method AppendEnvLines(lines: seq<string>, keys: seq<string>, env: map<string, string>) returns (out: seq<string>)
    requires forall k :: k in keys ==> k in env
    ensures out == lines + EnvLines(keys, env)
  {
    out := lines;
    for j := 0 to |keys|
      invariant out == lines + EnvLines(keys[..j], env)
    {
      EnvLinesSnoc(keys, j, env);
      AppendAssoc(lines, EnvLines(keys[..j], env), [EnvLine(keys[j], env[keys[j]])]);
      out := out + [EnvLine(keys[j], env[keys[j]])];
    }
    assert keys[..|keys|] == keys;
  }

  /** `_merge_system_environment`; an empty `existing` also stands for a falsy one. */
  method MergeSystemEnvironment(existing: string, env: map<string, string>) returns (merged: string)
    ensures merged == MergedEnvironment(existing, env)
  {
    var managed := env.Keys;
    var kept := KeepUnmanagedLines(SplitLines(existing), managed);
    kept := AppendEnvLines(kept, SortedStrings(managed), env);
    merged := TrimRight(Join(kept, "\n"), Whitespace) + "\n";
  }

  /** Right-stripping and adding a newline leaves exactly one newline at the end. */
  lemma {:induction false} OneFinalNewline(s: string)
    ensures var m := TrimRight(s, Whitespace) + "\n";
      |m| > 0 && m[|m| - 1] == '\n' && (|m| == 1 || m[|m| - 2] !in Whitespace)
  {
    var t := TrimRight(s, Whitespace);
    var m := t + "\n";
    if |t| > 0 {
      assert m[|m| - 2] == t[|t| - 1];
    }
  }

  /** The merged file ends with exactly one newline, not preceded by other whitespace. */
  lemma {:induction false} MergedEnvironmentEnding(existing: string, env: map<string, string>)
    ensures var m := MergedEnvironment(existing, env);
      |m| > 0 && m[|m| - 1] == '\n' && (|m| == 1 || m[|m| - 2] !in Whitespace)
  {
    var text := Join(MergedLines(SplitLines(existing), env), "\n");
    OneFinalNewline(text);
    assert MergedEnvironment(existing, env) == TrimRight(text, Whitespace) + "\n";
  }

  /**
   * The existing lines that survive are exactly the blank lines, the comments
   * and the lines whose key is not managed, in their original order.
   */
  lemma {:induction false} KeptLinesSpec(lines: seq<string>, managed: set<string>)
    ensures forall l :: l in KeptLines(lines, managed) <==> l in lines && KeepsLine(l, managed)
    ensures forall a, b :: lines == a + b ==> KeptLines(lines, managed) == KeptLines(a, managed) + KeptLines(b, managed)
    ensures (forall i :: 0 <= i < |lines| ==> KeepsLine(lines[i], managed)) ==> KeptLines(lines, managed) == lines
  {
    var p := (l: string) => KeepsLine(l, managed);
    FilterSeqMembers(lines, p);
    forall a, b | lines == a + b ensures KeptLines(lines, managed) == KeptLines(a, managed) + KeptLines(b, managed) {
      FilterSeqAppend(a, b, p);
    }
    if forall i :: 0 <= i < |lines| ==> KeepsLine(lines[i], managed) {
      FilterSeqAll(lines, p);
    }
  }

  /** A key that reads back from its own line: non-empty, no "=", no whitespace at either end, not starting with "#". */
  predicate EnvKey(key: string)
  {
    |key| > 0 && '=' !in key && key[0] !in Whitespace && key[|key| - 1] !in Whitespace && key[0] != '#'
  }

  /** `line` assigns `key`: it is neither blank nor a comment, and its key is `key`. */
  predicate AssignsEnvKey(line: string, key: string)
  {
    var stripped := Strip(line);
    stripped != "" && !StartsWith(stripped, "#") && LineKey(line) == key
  }

  /** The line written for a key assigns that key. */
  lemma {:induction false} EnvLineKey(key: string, value: string)
    requires EnvKey(key)
    ensures LineKey(EnvLine(key, value)) == key && AssignsEnvKey(EnvLine(key, value), key)
  {
    EnvLineParts(key, value);
    KeyedLine(EnvLine(key, value), key);
  }

  /** The line written for a key starts with the key and "=", and ends with a quote. */
  lemma {:induction false} EnvLineParts(key: string, value: string)
    ensures var line := EnvLine(key, value);
      |line| > |key| && line[..|key|] == key && line[|key|] == '=' && line[|line| - 1] == '"'
  {
  }

  /** A line made of a key, "=", and text not ending in whitespace assigns that key. */
  lemma {:induction false} KeyedLine(line: string, key: string)
    requires EnvKey(key) && |line| > |key| && line[..|key|] == key && line[|key|] == '=' && line[|line| - 1] !in Whitespace
    ensures LineKey(line) == key && AssignsEnvKey(line, key)
  {
    assert line[0] == key[0];
    StripWord(line);
    IndexOfAt(line, '=', |key|);
    StripWord(key);
    assert line[..1][0] == line[0];
  }

  /** No kept line assigns a managed key. */
  lemma {:induction false} KeptLinesAssignNothing(lines: seq<string>, managed: set<string>, key: string)
    requires key in managed
    ensures forall i :: 0 <= i < |KeptLines(lines, managed)| ==> !AssignsEnvKey(KeptLines(lines, managed)[i], key)
  {
    FilterSeqSatisfies(lines, (l: string) => KeepsLine(l, managed));
  }

  /** Written for strictly increasing keys, each line assigns its own key, so the keys of the lines increase too. */
  lemma {:induction false} EnvLinesKeys(keys: seq<string>, env: map<string, string>, key: string)
    requires forall k :: k in keys ==> k in env && EnvKey(k)
    requires forall i, j :: 0 <= i < j < |keys| ==> StrLess(keys[i], keys[j])
    ensures forall i :: 0 <= i < |keys| ==> (AssignsEnvKey(EnvLines(keys, env)[i], key) <==> keys[i] == key)
    ensures forall i, j :: 0 <= i < j < |keys| ==> StrLess(LineKey(EnvLines(keys, env)[i]), LineKey(EnvLines(keys, env)[j]))
  {
    forall i | 0 <= i < |keys| ensures LineKey(EnvLines(keys, env)[i]) == keys[i] && AssignsEnvKey(EnvLines(keys, env)[i], keys[i]) {
      assert keys[i] in keys;
      EnvLineKey(keys[i], env[keys[i]]);
    }
  }

  /** Among lines written for distinct keys, only the line for `key` assigns it. */
  lemma {:induction false} EnvLinesAssignOnce(keys: seq<string>, env: map<string, string>, key: string, k: nat)
    requires forall x :: x in keys ==> x in env && EnvKey(x)
    requires forall i, j :: 0 <= i < j < |keys| ==> StrLess(keys[i], keys[j])
    requires k < |keys| && keys[k] == key
    ensures AssignsEnvKey(EnvLines(keys, env)[k], key)
    ensures forall i :: 0 <= i < |keys| && AssignsEnvKey(EnvLines(keys, env)[i], key) ==> i == k
  {
    EnvLinesKeys(keys, env, key);
    StrLessIrreflexive(key);
  }

  /** The merged file holds, after the kept lines, the line written for each managed key. */
  lemma {:induction false} MergedLinesWriteKey(lines: seq<string>, env: map<string, string>, key: string)
    requires forall k :: k in env ==> EnvKey(k)
    requires key in env
    ensures var ls := MergedLines(lines, env);
      |ls| == |KeptLines(lines, env.Keys)| + |env| &&
      exists j :: |KeptLines(lines, env.Keys)| <= j < |ls| && ls[j] == EnvLine(key, env[key]) && AssignsEnvKey(ls[j], key)
  {
    var kept := KeptLines(lines, env.Keys);
    var keys := SortedStrings(env.Keys);
    var managed := EnvLines(keys, env);
    assert key in keys;
    var k :| 0 <= k < |keys| && keys[k] == key;
    EnvLineKey(key, env[key]);
    var ls := kept + managed;
    assert ls[|kept| + k] == managed[k] == EnvLine(key, env[key]);
    assert |kept| <= |kept| + k < |ls| && ls[|kept| + k] == EnvLine(key, env[key]) && AssignsEnvKey(ls[|kept| + k], key);
  }

  /** Kept lines that assign nothing, then managed lines of which only one assigns `key`: only that one does. */
  lemma {:induction false} AssignOnceAfter(kept: seq<string>, managed: seq<string>, key: string, k: nat)
    requires forall i :: 0 <= i < |kept| ==> !AssignsEnvKey(kept[i], key)
    requires forall i :: 0 <= i < |managed| && AssignsEnvKey(managed[i], key) ==> i == k
    ensures forall i, j :: (0 <= i < |kept + managed| && 0 <= j < |kept + managed| &&
      AssignsEnvKey((kept + managed)[i], key) && AssignsEnvKey((kept + managed)[j], key)) ==> i == j
  {
    var ls := kept + managed;
    forall i | 0 <= i < |ls| && AssignsEnvKey(ls[i], key) ensures i == |kept| + k {
      if |kept| <= i {
        assert ls[i] == managed[i - |kept|];
      }
    }
  }

  /** No two lines of the merged file assign the same managed key. */
  lemma {:induction false} MergedLinesAssignOnce(lines: seq<string>, env: map<string, string>, key: string)
    requires forall k :: k in env ==> EnvKey(k)
    requires key in env
    ensures var ls := MergedLines(lines, env);
      forall i, j :: 0 <= i < |ls| && 0 <= j < |ls| && AssignsEnvKey(ls[i], key) && AssignsEnvKey(ls[j], key) ==> i == j
  {
    var keys := SortedStrings(env.Keys);
    KeptLinesAssignNothing(lines, env.Keys, key);
    assert key in keys;
    var k :| 0 <= k < |keys| && keys[k] == key;
    EnvLinesAssignOnce(keys, env, key, k);
    AssignOnceAfter(KeptLines(lines, env.Keys), EnvLines(keys, env), key, k);
  }

  /** After the kept lines, the managed lines come in increasing order of their keys. */
  lemma {:induction false} MergedLinesSorted(lines: seq<string>, env: map<string, string>)
    requires forall k :: k in env ==> EnvKey(k)
    ensures var ls := MergedLines(lines, env);
      var n := |KeptLines(lines, env.Keys)|;
      forall i, j :: n <= i < j < |ls| ==> StrLess(LineKey(ls[i]), LineKey(ls[j]))
  {
    var kept := KeptLines(lines, env.Keys);
    var keys := SortedStrings(env.Keys);
    EnvLinesKeys(keys, env, "");
    OrderedAfter(kept, EnvLines(keys, env), (x: string, y: string) => StrLess(LineKey(x), LineKey(y)));
  }

  // ---------------------------------------------------------------------
  // Container forwarding rules (set_container_forwarding_rules)

  /** `str(domain or "").strip().lower().rstrip(".")` for the tunnel state's domain. */
  function StateDomain(domain: Value): string
  {
    TrimRight(Lower(ValueText(domain)), {'.'})
  }

  /**
   * `_rule_targets_container`: the rule's parsed destination is that device,
   * or its hostname is `<label>.<domain>` for a label whose device id group
   * is the container's (matched with `re.match`, as written).
   */
  predicate RuleTargetsContainer(rule: Rule, deviceId: string, domain: string)
  {
    (rule.parsed.Device? && Strip(rule.parsed.deviceId) == deviceId) ||
    (var hostname := TrimRight(Lower(Strip(rule.hostname)), {'.'});
     var suffix := "." + domain;
     hostname != "" && EndsWith(hostname, suffix) && MatchLabel(hostname[..|hostname| - |suffix|]) == Some(deviceId))
  }

  /** The rule written for one spec: `<subdomain>.<domain>` to `http://[<id>]:<port>`, parsed as that device. */
  function NewRule(deviceId: string, domain: string, spec: RuleSpec): Rule
  {
    Rule(spec.subdomain + "." + domain, "http://[" + deviceId + "]:" + IntToString(spec.port), Device("http", deviceId, spec.port, ""))
  }

  /** The exposed-port record written for one spec. */
  datatype ExposedPort = ExposedPort(port: int, hostname: string, url: string)

  function NewExposedPort(domain: string, spec: RuleSpec): ExposedPort
  {
    var hostname := spec.subdomain + "." + domain;
    ExposedPort(spec.port, hostname, "https://" + hostname)
  }

  /** One new rule per spec, in order. */
  function NewRules(deviceId: string, domain: string, specs: seq<RuleSpec>): (r: seq<Rule>)
    ensures |r| == |specs| && forall k :: 0 <= k < |specs| ==> r[k] == NewRule(deviceId, domain, specs[k])
    decreases |specs|
  {
    if |specs| == 0 then [] else NewRules(deviceId, domain, specs[..|specs| - 1]) + [NewRule(deviceId, domain, specs[|specs| - 1])]
  }

  /** One exposed port per spec, in order. */
  function ExposedPorts(domain: string, specs: seq<RuleSpec>): (r: seq<ExposedPort>)
    ensures |r| == |specs| && forall k :: 0 <= k < |specs| ==> r[k] == NewExposedPort(domain, specs[k])
    decreases |specs|
  {
    if |specs| == 0 then [] else ExposedPorts(domain, specs[..|specs| - 1]) + [NewExposedPort(domain, specs[|specs| - 1])]
  }

  /** The existing rules that do not target the container, in their order. */
  function PreservedRules(existing: seq<Rule>, deviceId: string, domain: string): seq<Rule>
  {
    FilterSeq(existing, (rule: Rule) => !RuleTargetsContainer(rule, deviceId, domain))
  }

  /** `merged_rules`: the preserved rules, then the new ones. */
  function MergeContainerRules(existing: seq<Rule>, deviceId: string, domain: string, specs: seq<RuleSpec>): seq<Rule>
  {
    PreservedRules(existing, deviceId, domain) + NewRules(deviceId, domain, specs)
  }

  /** What `set_container_forwarding_rules` hands on to be applied and persisted, and returns besides. */
  datatype ForwardingUpdate = ForwardingUpdate(deviceId: string, domain: string, rules: seq<Rule>, exposedPorts: seq<ExposedPort>)

  /**
   * The update for a container: the specs are normalised first, then the
   * stored rules (from storage); either raises its first error.
   */
  function ContainerForwardingUpdate(containerDeviceId: Value, containerRules: Option<seq<RawSpec>>, stateDomain: Value,
                                     stored: seq<RawRule>): Result<ForwardingUpdate, string>
  {
    var domain := StateDomain(stateDomain);
    var specs :- ContainerRuleSpecs(containerDeviceId, containerRules);
    var deviceId := StrippedStr(containerDeviceId);
    var existing :- NormalizedRules(stored, domain, true);
    Ok(ForwardingUpdate(deviceId, domain, MergeContainerRules(existing, deviceId, domain, specs), ExposedPorts(domain, specs)))
  }

  /** The loop of `set_container_forwarding_rules` over the specs. */
  method BuildContainerRules(deviceId: string, domain: string, specs: seq<RuleSpec>)
    returns (newRules: seq<Rule>, exposed: seq<ExposedPort>)
    requires AllDigits(deviceId) && forall k :: 0 <= k < |specs| ==> InPortRange(specs[k].port)
    ensures newRules == NewRules(deviceId, domain, specs) && exposed == ExposedPorts(domain, specs)
  {
    newRules := [];
    exposed := [];
    for k := 0 to |specs|
      invariant newRules == NewRules(deviceId, domain, specs[..k]) && exposed == ExposedPorts(domain, specs[..k])
    {
      assert specs[..k + 1][..k] == specs[..k];
      var spec := specs[k];
      var hostname := spec.subdomain + "." + domain;
      var destination := "http://[" + deviceId + "]:" + IntToString(spec.port);
      ContainerDestinationParses(deviceId, spec.port);
      var parsed := ParseDestination(destination);
      newRules := newRules + [Rule(hostname, destination, parsed.value)];
      exposed := exposed + [ExposedPort(spec.port, hostname, "https://" + hostname)];
    }
    assert specs[..|specs|] == specs;
  }

  /** A numeric device id comes from a truthy value, so `str(id).strip()` is the id the specs were checked with. */
  lemma {:induction false} ContainerDeviceIdText(containerDeviceId: Value)
    requires AllDigits(ValueText(containerDeviceId))
    ensures StrippedStr(containerDeviceId) == ValueText(containerDeviceId)
  {
  }

  /** `set_container_forwarding_rules`, up to applying and persisting the rules and syncing the container. */
  method SetContainerForwardingRules(containerDeviceId: Value, containerRules: Option<seq<RawSpec>>, stateDomain: Value,
                                     stored: seq<RawRule>) returns (r: Result<ForwardingUpdate, string>)
    ensures r == ContainerForwardingUpdate(containerDeviceId, containerRules, stateDomain, stored)
  {
    var domain := TrimRight(Lower(StrippedStr(Or(stateDomain, Str("")))), {'.'});
    var specs := NormalizeContainerRuleSpecs(containerDeviceId, containerRules);
    if specs.Err? {
      return Err(specs.error);
    }
    var deviceId := StrippedStr(containerDeviceId);
    ContainerRuleSpecsOk(containerDeviceId, containerRules);
    ContainerDeviceIdText(containerDeviceId);
    var existing := NormalizeRules(stored, domain, true);
    if existing.Err? {
      return Err(existing.error);
    }
    var preserved := PreservedRules(existing.value, deviceId, domain);
    var newRules, exposed := BuildContainerRules(deviceId, domain, specs.value);
    return Ok(ForwardingUpdate(deviceId, domain, preserved + newRules, exposed));
  }

  /** A new rule's destination parses to its recorded device destination. */
  lemma {:induction false} NewRuleParses(deviceId: string, domain: string, spec: RuleSpec)
    requires AllDigits(deviceId) && spec.port >= 0
    ensures ParseDestination(NewRule(deviceId, domain, spec).destination) == Ok(NewRule(deviceId, domain, spec).parsed)
  {
    assert NewRule(deviceId, domain, spec).destination == ContainerDestination(deviceId, spec.port);
    ContainerDestinationParses(deviceId, spec.port);
  }

  /** A new rule targets the container it was written for. */
  lemma {:induction false} NewRuleTargets(deviceId: string, domain: string, spec: RuleSpec)
    requires AllDigits(deviceId)
    ensures RuleTargetsContainer(NewRule(deviceId, domain, spec), deviceId, domain)
  {
    StripDigits(deviceId);
  }

  /**
   * In the merged rules, a rule targets the container exactly when it is one
   * of the new rules at the end; the existing rules that do not target it are
   * all kept, in order, and nothing else is.
   */
  lemma {:induction false} MergeContainerRulesTargets(existing: seq<Rule>, deviceId: string, domain: string, specs: seq<RuleSpec>)
    requires AllDigits(deviceId) && forall k :: 0 <= k < |specs| ==> InPortRange(specs[k].port)
    ensures var merged := MergeContainerRules(existing, deviceId, domain, specs);
      var n := |PreservedRules(existing, deviceId, domain)|;
      |merged| == n + |specs| &&
      (forall i :: 0 <= i < |merged| ==> (RuleTargetsContainer(merged[i], deviceId, domain) <==> n <= i)) &&
      (forall rule :: rule in PreservedRules(existing, deviceId, domain) <==> rule in existing && !RuleTargetsContainer(rule, deviceId, domain))
  {
    var p := (rule: Rule) => !RuleTargetsContainer(rule, deviceId, domain);
    var preserved := PreservedRules(existing, deviceId, domain);
    var added := NewRules(deviceId, domain, specs);
    FilterSeqSatisfies(existing, p);
    FilterSeqMembers(existing, p);
    forall i | 0 <= i < |preserved + added| ensures RuleTargetsContainer((preserved + added)[i], deviceId, domain) <==> |preserved| <= i {
      if i < |preserved| {
        assert (preserved + added)[i] == preserved[i];
        assert p(preserved[i]);
      } else {
        assert (preserved + added)[i] == added[i - |preserved|];
        NewRuleTargets(deviceId, domain, specs[i - |preserved|]);
      }
    }
  }

  /** Setting the same rules again leaves the merged rules as they are. */
  lemma {:induction false} MergeContainerRulesAgain(existing: seq<Rule>, deviceId: string, domain: string, specs: seq<RuleSpec>)
    requires AllDigits(deviceId) && forall k :: 0 <= k < |specs| ==> InPortRange(specs[k].port)
    ensures var merged := MergeContainerRules(existing, deviceId, domain, specs);
      MergeContainerRules(merged, deviceId, domain, specs) == merged
  {
    var p := (rule: Rule) => !RuleTargetsContainer(rule, deviceId, domain);
    var preserved := PreservedRules(existing, deviceId, domain);
    var added := NewRules(deviceId, domain, specs);
    FilterSeqAppend(preserved, added, p);
    FilterSeqTwice(existing, p);
    forall i | 0 <= i < |added| ensures !p(added[i]) {
      NewRuleTargets(deviceId, domain, specs[i]);
    }
    FilterSeqNone(added, p);
    assert preserved + [] == preserved;
  }

  /**
   * A successful update reports the id the specs were checked with and the
   * normalised domain; it keeps the preserved stored rules and then writes
   * one rule and one exposed port per container rule, in order, each rule's
   * destination parsing to the recorded device destination and each exposed
   * port naming the rule's hostname over https.
   */
  lemma {:induction false} ContainerForwardingUpdateOk(containerDeviceId: Value, containerRules: Option<seq<RawSpec>>,
                                                       stateDomain: Value, stored: seq<RawRule>)
    requires ContainerForwardingUpdate(containerDeviceId, containerRules, stateDomain, stored).Ok?
    ensures var u := ContainerForwardingUpdate(containerDeviceId, containerRules, stateDomain, stored).value;
      u.deviceId == ValueText(containerDeviceId) && AllDigits(u.deviceId) && u.domain == StateDomain(stateDomain) &&
      containerRules.Some? && NormalizedRules(stored, u.domain, true).Ok? &&
      var existing := NormalizedRules(stored, u.domain, true).value;
      var n := |PreservedRules(existing, u.deviceId, u.domain)|;
      var added := u.rules[n..];
      |u.rules| == n + |containerRules.value| && |u.exposedPorts| == |containerRules.value| &&
      u.rules[..n] == PreservedRules(existing, u.deviceId, u.domain) &&
      forall k :: 0 <= k < |added| ==>
        ParseDestination(added[k].destination) == Ok(added[k].parsed) &&
        u.exposedPorts[k] == ExposedPort(added[k].parsed.port, added[k].hostname, "https://" + added[k].hostname)
  {
    ContainerForwardingUpdateValue(containerDeviceId, containerRules, stateDomain, stored);
    var u := ContainerForwardingUpdate(containerDeviceId, containerRules, stateDomain, stored).value;
    var specs := ContainerRuleSpecs(containerDeviceId, containerRules).value;
    var preserved := PreservedRules(NormalizedRules(stored, u.domain, true).value, u.deviceId, u.domain);
    var added := NewRules(u.deviceId, u.domain, specs);
    NewRulesParse(u.deviceId, u.domain, specs);
    assert u.rules[..|preserved|] == preserved;
    assert u.rules[|preserved|..] == added;
  }

  /** What a successful update is made of. */
  lemma {:induction false} ContainerForwardingUpdateValue(containerDeviceId: Value, containerRules: Option<seq<RawSpec>>,
                                                          stateDomain: Value, stored: seq<RawRule>)
    requires ContainerForwardingUpdate(containerDeviceId, containerRules, stateDomain, stored).Ok?
    ensures var u := ContainerForwardingUpdate(containerDeviceId, containerRules, stateDomain, stored).value;
      ContainerRuleSpecs(containerDeviceId, containerRules).Ok? &&
      var specs := ContainerRuleSpecs(containerDeviceId, containerRules).value;
      u.deviceId == ValueText(containerDeviceId) && AllDigits(u.deviceId) && u.domain == StateDomain(stateDomain) &&
      containerRules.Some? && |specs| == |containerRules.value| && (forall k :: 0 <= k < |specs| ==> InPortRange(specs[k].port)) &&
      NormalizedRules(stored, u.domain, true).Ok? &&
      u.rules == PreservedRules(NormalizedRules(stored, u.domain, true).value, u.deviceId, u.domain) + NewRules(u.deviceId, u.domain, specs) &&
      u.exposedPorts == ExposedPorts(u.domain, specs)
  {
    ContainerRuleSpecsOk(containerDeviceId, containerRules);
    ContainerDeviceIdText(containerDeviceId);
  }

  /** Each new rule's destination parses back, and each exposed port names its rule's port and hostname. */
  lemma {:induction false} NewRulesParse(deviceId: string, domain: string, specs: seq<RuleSpec>)
    requires AllDigits(deviceId) && forall k :: 0 <= k < |specs| ==> InPortRange(specs[k].port)
    ensures var added := NewRules(deviceId, domain, specs);
      var ports := ExposedPorts(domain, specs);
      forall k :: 0 <= k < |added| ==>
        ParseDestination(added[k].destination) == Ok(added[k].parsed) &&
        ports[k] == ExposedPort(added[k].parsed.port, added[k].hostname, "https://" + added[k].hostname)
  {
    var added := NewRules(deviceId, domain, specs);
    forall k | 0 <= k < |added| ensures ParseDestination(added[k].destination) == Ok(added[k].parsed) {
      NewRuleParses(deviceId, domain, specs[k]);
    }
  }

}

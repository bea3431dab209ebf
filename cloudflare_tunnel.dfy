/** Naming the Cloudflare tunnel of a Proxmox host and placing its credentials (cloudflare_tunnel.py). */
module CloudflareTunnel {
  import opened Text

  /** The characters `[a-zA-Z0-9-]` that survive the tunnel-name substitution. */
  predicate IsNameChar(c: char)
  {
    'a' <= c <= 'z' || 'A' <= c <= 'Z' || '0' <= c <= '9' || c == '-'
  }

  predicate IsAlnum(c: char)
  {
    'a' <= c <= 'z' || 'A' <= c <= 'Z' || '0' <= c <= '9'
  }

  /** The substitution keeps every letter and digit, in order, and adds none. */
  lemma {:induction false} ReplaceRunsKeepsAlnums(s: string)
    ensures Filter(ReplaceRuns(s, IsNameChar), IsAlnum) == Filter(s, IsAlnum)
  {
    ReplaceRunsKeeps(s, IsNameChar, IsAlnum);
  }

  /** The normalised device id: `[^a-zA-Z0-9-]+` substituted by "-", stripped of "-", lower-cased, or "device" when nothing remains. */
  function TunnelSuffix(deviceId: string): string
  {
    var normalized := Lower(Trim(ReplaceRuns(Strip(deviceId), IsNameChar), {'-'}));
    if normalized == "" then "device" else normalized
  }

  const TunnelPrefix: string := "portacode-proxmox-"

  /** `_build_tunnel_name` */
  function BuildTunnelName(deviceId: string): (name: string)
    ensures StartsWith(name, TunnelPrefix) && name[|TunnelPrefix|..] == TunnelSuffix(deviceId)
  {
    TunnelPrefix + TunnelSuffix(deviceId)
  }

  /** A suffix character: a lower-case letter, a digit or "-". */
  predicate IsSuffixChar(c: char)
  {
    'a' <= c <= 'z' || '0' <= c <= '9' || c == '-'
  }

  /** Stripping "-" from text of name characters leaves name characters with no "-" at either end. */
  lemma {:induction false} TrimDashes(r: string)
    requires forall i :: 0 <= i < |r| ==> IsNameChar(r[i])
    ensures var t := Trim(r, {'-'});
      (forall i :: 0 <= i < |t| ==> IsNameChar(t[i])) && (|t| > 0 ==> t[0] != '-' && t[|t| - 1] != '-')
  {
    TrimWindow(r, {'-'});
    var d := |r| - |TrimLeft(r, {'-'})|;
    var t := Trim(r, {'-'});
    forall i | 0 <= i < |t| ensures IsNameChar(t[i]) {
      assert t[i] == r[d + i];
    }
  }

  lemma {:induction false} LowerNameChar(c: char)
    requires IsNameChar(c)
    ensures IsSuffixChar(LowerChar(c)) && (LowerChar(c) == '-' <==> c == '-')
  {
  }

  /** Lower-casing name characters gives suffix characters, and leaves "-" where it was and nowhere else. */
  lemma {:induction false} LowerNameChars(t: string)
    requires forall i :: 0 <= i < |t| ==> IsNameChar(t[i])
    ensures forall i :: 0 <= i < |t| ==> IsSuffixChar(Lower(t)[i]) && (Lower(t)[i] == '-' <==> t[i] == '-')
  {
    forall i | 0 <= i < |t| ensures IsSuffixChar(Lower(t)[i]) && (Lower(t)[i] == '-' <==> t[i] == '-') {
      LowerNameChar(t[i]);
    }
  }

  /** The suffix is non-empty, uses only `[a-z0-9-]`, and neither starts nor ends with "-". */
  lemma {:induction false} SuffixShape(deviceId: string)
    ensures SuffixShaped(TunnelSuffix(deviceId))
  {
    var n := Lower(Trim(ReplaceRuns(Strip(deviceId), IsNameChar), {'-'}));
    if n == "" {
      DeviceSuffixShaped();
    } else {
      NormalizedShape(deviceId);
    }
  }

  /** Non-empty, only `[a-z0-9-]`, and no "-" at either end. */
  predicate SuffixShaped(s: string)
  {
    |s| > 0 && (forall i :: 0 <= i < |s| ==> IsSuffixChar(s[i])) && s[0] != '-' && s[|s| - 1] != '-'
  }

  lemma {:induction false} DeviceSuffixShaped()
    ensures SuffixShaped("device")
  {
  }

  /** Before the fallback, a non-empty normalised id uses only `[a-z0-9-]` and neither starts nor ends with "-". */
  lemma {:induction false} NormalizedShape(deviceId: string)
    ensures var n := Lower(Trim(ReplaceRuns(Strip(deviceId), IsNameChar), {'-'}));
      n != "" ==> SuffixShaped(n)
  {
    var r := ReplaceRuns(Strip(deviceId), IsNameChar);
    TrimDashes(r);
    LowerTrimmed(Trim(r, {'-'}));
  }

  /** Lower-casing non-empty name characters with no "-" at either end gives a suffix-shaped text. */
  lemma {:induction false} LowerTrimmed(t: string)
    requires forall i :: 0 <= i < |t| ==> IsNameChar(t[i])
    requires |t| > 0 ==> t[0] != '-' && t[|t| - 1] != '-'
    ensures Lower(t) != "" ==> SuffixShaped(Lower(t))
  {
    LowerNameChars(t);
  }

  lemma {:induction false} LowerIdentity(s: string)
    requires forall i :: 0 <= i < |s| ==> IsSuffixChar(s[i])
    ensures Lower(s) == s
  {
    forall i | 0 <= i < |s| ensures Lower(s)[i] == s[i] {
      assert Lower(s)[i] == LowerChar(s[i]);
    }
  }

  lemma {:induction false} SuffixNotWhitespace(c: char)
    requires IsSuffixChar(c)
    ensures c !in Whitespace
  {
  }

  /** A suffix is its own normalisation, so normalising twice changes nothing. */
  lemma {:induction false} TunnelSuffixIdempotent(deviceId: string)
    ensures TunnelSuffix(TunnelSuffix(deviceId)) == TunnelSuffix(deviceId)
  {
    var s := TunnelSuffix(deviceId);
    SuffixShape(deviceId);
    SuffixNotWhitespace(s[0]);
    SuffixNotWhitespace(s[|s| - 1]);
    TrimIdentity(s, Whitespace);
    forall i | 0 <= i < |s| ensures IsNameChar(s[i]) {
    }
    ReplaceRunsIdentity(s, IsNameChar);
    TrimIdentity(s, {'-'});
    LowerIdentity(s);
    assert Lower(Trim(ReplaceRuns(Strip(s), IsNameChar), {'-'})) == s;
  }

  /** Where `_ensure_tunnel_with_credentials` keeps the tunnel's credentials. */
  datatype CredentialsLocation = SystemCredentials | UserCredentials

  /** A configuration under /etc/ belongs to a system-wide install, whose credentials live in the system path. */
  function CredentialsLocationFor(configPath: string): (loc: CredentialsLocation)
    ensures loc == SystemCredentials <==> StartsWith(configPath, "/etc/")
  {
    if StartsWith(configPath, "/etc/") then SystemCredentials else UserCredentials
  }
}

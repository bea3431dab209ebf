/**
 * The decision logic of the Proxmox infrastructure handler
 * (portacode/connection/handlers/proxmox_infra.py): API token parsing,
 * storage choice, container sizing, the bootstrap step list and the retrying
 * step runner, the start-up admission check and the configuration snapshot.
 */
module ProxmoxInfra {
  import opened Wrappers
  import opened Text
  import opened Collections

  // ------------------------------------------------------------------ _parse_token

  const TokenFormMessage: string := "Expected API token in the form user@realm!tokenid"
  const MissingRealmMessage: string := "API token missing user realm (user@realm)"
  const MissingNameMessage: string := "Token identifier missing token name"

  /** `_parse_token`: the user and token name of `user@realm!tokenid`; `Err` is the ValueError. */
  function ParseToken(tokenIdentifier: string): Result<(string, string), string>
  {
    SplitToken(Strip(tokenIdentifier))
  }

  /** The checks `_parse_token` makes once the identifier is stripped. */
  function SplitToken(identifier: string): Result<(string, string), string>
  {
    if '!' !in identifier || '@' !in identifier then Err(TokenFormMessage)
    else
      var i := IndexOf(identifier, '!').value;
      var user := Strip(identifier[..i]);
      var tokenName := Strip(identifier[i + 1..]);
      if '@' !in user then Err(MissingRealmMessage)
      else if tokenName == "" then Err(MissingNameMessage)
      else Ok((user, tokenName))
  }

  /**
   * A parsed token names a user with a realm and a non-empty token name,
   * both stripped, the user taken from before the first "!"; without both
   * "!" and "@" the identifier is refused with the form message.
   */
  lemma {:induction false} ParseTokenShape(tokenIdentifier: string)
    ensures var identifier := Strip(tokenIdentifier);
      ('!' !in identifier || '@' !in identifier) ==> ParseToken(tokenIdentifier) == Err(TokenFormMessage)
    ensures var r := ParseToken(tokenIdentifier);
      r.Ok? ==> ('@' in r.value.0 && '!' !in r.value.0 && r.value.1 != "" &&
        Strip(r.value.0) == r.value.0 && Strip(r.value.1) == r.value.1)
  {
    SplitTokenShape(Strip(tokenIdentifier));
  }

  lemma {:induction false} SplitTokenShape(identifier: string)
    ensures var r := SplitToken(identifier);
      r.Ok? ==> ('@' in r.value.0 && '!' !in r.value.0 && r.value.1 != "" &&
        Strip(r.value.0) == r.value.0 && Strip(r.value.1) == r.value.1)
  {
    if '!' in identifier && '@' in identifier {
      var i := IndexOf(identifier, '!').value;
      StrippedParts(identifier[..i], identifier[i + 1..]);
    }
  }

  /** The stripped user, cut before the first "!", and the stripped token name are their own strippings. */
  lemma {:induction false} StrippedParts(user: string, tokenName: string)
    requires '!' !in user
    ensures '!' !in Strip(user) && Strip(Strip(user)) == Strip(user) && Strip(Strip(tokenName)) == Strip(tokenName)
  {
    StripTwice(user);
    StripTwice(tokenName);
    StripInside(user, '!');
  }

  /** Stripping keeps only characters of the text. */
  lemma {:induction false} StripInside(s: string, c: char)
    requires c !in s
    ensures c !in Strip(s)
  {
    var l := TrimLeft(s, Whitespace);
    var t := TrimRight(l, Whitespace);
    forall i | 0 <= i < |t| ensures t[i] != c {
      assert t[i] == l[i] == s[|s| - |l| + i];
    }
  }

  /** A stripped identifier with no outer whitespace and no "!" in the user reads back as its user and token name. */
  lemma {:induction false} ParseTokenRoundTrip(user: string, tokenName: string)
    requires '@' in user && '!' !in user && tokenName != ""
    requires user[0] !in Whitespace && user[|user| - 1] !in Whitespace
    requires tokenName[0] !in Whitespace && tokenName[|tokenName| - 1] !in Whitespace
    ensures ParseToken(user + "!" + tokenName) == Ok((user, tokenName))
  {
    var s := user + "!" + tokenName;
    assert s[0] == user[0] && s[|s| - 1] == tokenName[|tokenName| - 1];
    TrimIdentity(s, Whitespace);
    SplitTokenRoundTrip(user, tokenName);
  }

  lemma {:induction false} SplitTokenRoundTrip(user: string, tokenName: string)
    requires '@' in user && '!' !in user && tokenName != ""
    requires user[0] !in Whitespace && user[|user| - 1] !in Whitespace
    requires tokenName[0] !in Whitespace && tokenName[|tokenName| - 1] !in Whitespace
    ensures SplitToken(user + "!" + tokenName) == Ok((user, tokenName))
  {
    var s := user + "!" + tokenName;
    assert s[..|user|] == user;
    assert s[|user| + 1..] == tokenName;
    IndexOfAt(s, '!', |user|);
    TrimIdentity(user, Whitespace);
    TrimIdentity(tokenName, Whitespace);
    var k :| 0 <= k < |user| && user[k] == '@';
    assert s[k] == '@';
  }

  // ------------------------------------------------------------------ storages

  /** One entry of the node's storage list; `storage` is `None` where the entry has no name. */
  datatype StorageEntry = StorageEntry(storage: Option<string>, content: string, avail: int, storageType: string)

  /** The storage can hold container root file systems. */
  predicate HoldsRootdir(e: StorageEntry)
  {
    Contains(e.content, "rootdir")
  }

  /** The first rootdir candidates of `_pick_storage`: those with space available. */
  function WithSpace(storages: seq<StorageEntry>): seq<StorageEntry>
  {
    if |storages| == 0 then []
    else (if HoldsRootdir(storages[0]) && storages[0].avail > 0 then [storages[0]] else []) + WithSpace(storages[1..])
  }

  /** The fallback candidates of `_pick_storage`: every rootdir storage. */
  function Rootdirs(storages: seq<StorageEntry>): seq<StorageEntry>
  {
    if |storages| == 0 then [] else (if HoldsRootdir(storages[0]) then [storages[0]] else []) + Rootdirs(storages[1..])
  }

  /** The storages with space are exactly the rootdir storages with a positive `avail`. */
  lemma {:induction false} WithSpaceMembers(storages: seq<StorageEntry>, e: StorageEntry)
    ensures e in WithSpace(storages) <==> e in storages && HoldsRootdir(e) && e.avail > 0
    decreases |storages|
  {
    if |storages| > 0 {
      WithSpaceMembers(storages[1..], e);
      assert storages == [storages[0]] + storages[1..];
    }
  }

  /** The fallback candidates are exactly the rootdir storages. */
  lemma {:induction false} RootdirsMembers(storages: seq<StorageEntry>, e: StorageEntry)
    ensures e in Rootdirs(storages) <==> e in storages && HoldsRootdir(e)
    decreases |storages|
  {
    if |storages| > 0 {
      RootdirsMembers(storages[1..], e);
      assert storages == [storages[0]] + storages[1..];
    }
  }

  /** The position of the first entry with the largest `avail`: where a stable descending sort puts element 0. */
  function FirstMax(c: seq<StorageEntry>): (i: nat)
    requires |c| > 0
    ensures i < |c| && (forall j :: 0 <= j < |c| ==> c[j].avail <= c[i].avail) && forall j :: 0 <= j < i ==> c[j].avail < c[i].avail
    decreases |c|
  {
    if |c| == 1 then 0
    else
      var n := |c| - 1;
      var i := FirstMax(c[..n]);
      assert forall j :: 0 <= j < n ==> c[..n][j] == c[j];
      if c[n].avail > c[i].avail then n else i
  }

  /** One more entry scanned: it becomes the first maximum exactly when it beats the previous one. */
  lemma {:induction false} FirstMaxStep(c: seq<StorageEntry>, j: nat, best: nat)
    requires 0 < j < |c| && best == FirstMax(c[..j])
    ensures best < j && FirstMax(c[..j + 1]) == if c[j].avail > c[best].avail then j else best
  {
    assert c[..j + 1][..j] == c[..j];
  }

  lemma {:induction false} FirstMaxStart(c: seq<StorageEntry>)
    requires |c| > 0
    ensures FirstMax(c[..1]) == 0
  {
  }

  /** What `_pick_storage` returns. */
  function PickedStorage(storages: seq<StorageEntry>): string
  {
    var candidates := if |WithSpace(storages)| > 0 then WithSpace(storages) else Rootdirs(storages);
    if |candidates| == 0 then "" else candidates[FirstMax(candidates)].storage.GetOr("")
  }

  /**
   * `_pick_storage`. Sorting by `avail` in descending order and taking the
   * first element is computed as the scan for the first largest `avail`
   * that a stable sort brings to the front.
   */
  method PickStorage(storages: seq<StorageEntry>) returns (r: string)
    ensures r == PickedStorage(storages)
  {
    var candidates := WithSpace(storages);
    if |candidates| == 0 {
      candidates := Rootdirs(storages);
    }
    if |candidates| == 0 {
      return "";
    }
    var best := 0;
    FirstMaxStart(candidates);
    for j := 1 to |candidates|
      invariant best < j && best == FirstMax(candidates[..j])
    {
      FirstMaxStep(candidates, j, best);
      if candidates[j].avail > candidates[best].avail {
        best := j;
      }
    }
    WholePrefix(candidates);
    r := candidates[best].storage.GetOr("");
  }

  /**
   * `_pick_storage` returns "" exactly when no storage holds rootdir (or the
   * chosen one has no name); otherwise it names a rootdir storage, one with
   * space when any has space, whose `avail` no candidate exceeds, and the
   * first candidate with that `avail`.
   */
  lemma {:induction false} PickStorageShape(storages: seq<StorageEntry>)
    ensures (forall e :: e in storages ==> !HoldsRootdir(e)) ==> PickedStorage(storages) == ""
    ensures (exists e :: e in storages && HoldsRootdir(e)) ==>
      var spaced := exists e :: e in storages && HoldsRootdir(e) && e.avail > 0;
      var candidates := if spaced then WithSpace(storages) else Rootdirs(storages);
      |candidates| > 0 &&
      var i := FirstMax(candidates);
      var chosen := candidates[i];
      PickedStorage(storages) == chosen.storage.GetOr("") && chosen in storages && HoldsRootdir(chosen) &&
      (spaced ==> chosen.avail > 0) &&
      (forall e :: e in storages && HoldsRootdir(e) && (spaced ==> e.avail > 0) ==> e.avail <= chosen.avail)
  {
    SpacedIff(storages);
    RootdirsIff(storages);
    if exists e :: e in storages && HoldsRootdir(e) {
      var spaced := exists e :: e in storages && HoldsRootdir(e) && e.avail > 0;
      CandidateBound(storages, spaced, if spaced then WithSpace(storages) else Rootdirs(storages));
    }
  }

  lemma {:induction false} SpacedIff(storages: seq<StorageEntry>)
    ensures |WithSpace(storages)| > 0 <==> exists e :: e in storages && HoldsRootdir(e) && e.avail > 0
  {
    if exists e :: e in storages && HoldsRootdir(e) && e.avail > 0 {
      var e :| e in storages && HoldsRootdir(e) && e.avail > 0;
      WithSpaceMembers(storages, e);
    } else if |WithSpace(storages)| > 0 {
      WithSpaceMembers(storages, WithSpace(storages)[0]);
    }
  }

  lemma {:induction false} RootdirsIff(storages: seq<StorageEntry>)
    ensures |Rootdirs(storages)| > 0 <==> exists e :: e in storages && HoldsRootdir(e)
  {
    if exists e :: e in storages && HoldsRootdir(e) {
      var e :| e in storages && HoldsRootdir(e);
      RootdirsMembers(storages, e);
    } else if |Rootdirs(storages)| > 0 {
      RootdirsMembers(storages, Rootdirs(storages)[0]);
    }
  }

  /** The first largest candidate is a rootdir storage that no eligible storage beats. */
  lemma {:induction false} CandidateBound(storages: seq<StorageEntry>, spaced: bool, candidates: seq<StorageEntry>)
    requires candidates == (if spaced then WithSpace(storages) else Rootdirs(storages)) && |candidates| > 0
    ensures var chosen := candidates[FirstMax(candidates)];
      chosen in storages && HoldsRootdir(chosen) && (spaced ==> chosen.avail > 0) &&
      forall e :: e in storages && HoldsRootdir(e) && (spaced ==> e.avail > 0) ==> e.avail <= chosen.avail
  {
    var i := FirstMax(candidates);
    CandidateMember(storages, spaced, candidates, candidates[i]);
    forall e | e in storages && HoldsRootdir(e) && (spaced ==> e.avail > 0) ensures e.avail <= candidates[i].avail {
      CandidateMember(storages, spaced, candidates, e);
      var j :| 0 <= j < |candidates| && candidates[j] == e;
    }
  }

  lemma {:induction false} CandidateMember(storages: seq<StorageEntry>, spaced: bool, candidates: seq<StorageEntry>, e: StorageEntry)
    requires candidates == (if spaced then WithSpace(storages) else Rootdirs(storages))
    ensures e in candidates <==> e in storages && HoldsRootdir(e) && (spaced ==> e.avail > 0)
  {
    if spaced {
      WithSpaceMembers(storages, e);
    } else {
      RootdirsMembers(storages, e);
    }
  }

  /** `_get_storage_type`: the type of the first storage named `name`, or "". */
  function StorageType(storages: seq<StorageEntry>, name: string): (r: string)
    ensures (exists k :: 0 <= k < |storages| && storages[k].storage == Some(name)) ==>
      exists k :: 0 <= k < |storages| && storages[k].storage == Some(name) && r == storages[k].storageType &&
        forall j :: 0 <= j < k ==> storages[j].storage != Some(name)
    ensures (forall k :: 0 <= k < |storages| ==> storages[k].storage != Some(name)) ==> r == ""
    decreases |storages|
  {
    if |storages| == 0 then ""
    else if storages[0].storage == Some(name) then storages[0].storageType
    else
      assert forall k :: 1 <= k < |storages| ==> storages[k] == storages[1..][k - 1];
      StorageType(storages[1..], name)
  }

  /** `_format_rootfs`: `storage:size`, with a "G" unit except on LVM storages. */
  function FormatRootfs(storage: string, diskGib: int, storageType: string): (r: string)
    ensures StartsWith(r, storage + ":" + IntToString(diskGib))
    ensures r == storage + ":" + IntToString(diskGib) <==> storageType in {"lvm", "lvmthin"}
    ensures r != storage + ":" + IntToString(diskGib) ==> r == storage + ":" + IntToString(diskGib) + "G"
  {
    var size := storage + ":" + IntToString(diskGib);
    if storageType in {"lvm", "lvmthin"} then size
    else
      assert (size + "G")[..|size|] == size;
      size + "G"
  }

  /** `_validate_positive_int`: `int(value)` when that succeeds and is positive, else the default. */
  function ValidatePositiveInt(value: Value, default: int): (r: int)
    ensures r == default || (PyInt(value).Some? && r == PyInt(value).value > 0)
    ensures PyInt(value).Some? && PyInt(value).value > 0 ==> r == PyInt(value).value
    ensures default > 0 ==> r > 0
  {
    match PyInt(value)
    case Some(candidate) => if candidate > 0 then candidate else default
    case None => default
  }

  // ------------------------------------------------------------------ step labels

  /** `s.capitalize()` on ASCII: the first character upper-cased, the rest lower-cased. */
  function Capitalize(s: string): (r: string)
    ensures |r| == |s|
  {
    if s == "" then "" else [UpperChar(s[0])] + Lower(s[1..])
  }

  lemma {:induction false} CaseOfChar(c: char)
    ensures LowerChar(UpperChar(c)) == LowerChar(c) && LowerChar(LowerChar(c)) == LowerChar(c)
    ensures UpperChar(UpperChar(c)) == UpperChar(c)
    ensures (UpperChar(c) == '_' || LowerChar(c) == '_') ==> c == '_'
  {
  }

  /** Capitalising changes letter case only, and leaves an upper-case first letter and lower-case rest. */
  lemma {:induction false} CapitalizeShape(s: string)
    requires '_' !in s
    ensures var r := Capitalize(s);
      '_' !in r && Lower(r) == Lower(s) &&
      (|r| > 0 ==> UpperChar(r[0]) == r[0]) && (forall k :: 1 <= k < |r| ==> LowerChar(r[k]) == r[k])
  {
    var r := Capitalize(s);
    forall k | 0 <= k < |r|
      ensures r[k] != '_' && LowerChar(r[k]) == LowerChar(s[k])
      ensures k == 0 ==> UpperChar(r[k]) == r[k]
      ensures k > 0 ==> LowerChar(r[k]) == r[k]
    {
      CaseOfChar(s[k]);
      if k > 0 {
        assert r[k] == Lower(s[1..])[k - 1] == LowerChar(s[k]);
      }
      assert s[k] in s;
    }
  }

  /** `_friendly_step_label`: "Step" for an empty name, else the name with "_" read as spaces, stripped and capitalised. */
  function FriendlyStepLabel(stepName: string): string
  {
    if stepName == "" then "Step" else Capitalize(Strip(ReplaceChar(stepName, '_', " ")))
  }

  /**
   * A label has no "_", starts upper-case with the rest lower-case, and
   * differs from the spaced, stripped name only in letter case.
   */
  lemma {:induction false} FriendlyStepLabelShape(stepName: string)
    ensures stepName == "" ==> FriendlyStepLabel(stepName) == "Step"
    ensures stepName != "" ==>
      var spaced := Strip(ReplaceChar(stepName, '_', " "));
      var r := FriendlyStepLabel(stepName);
      '_' !in r && Lower(r) == Lower(spaced) &&
      (|r| > 0 ==> UpperChar(r[0]) == r[0]) && (forall k :: 1 <= k < |r| ==> LowerChar(r[k]) == r[k])
  {
    if stepName != "" {
      StripInside(ReplaceChar(stepName, '_', " "), '_');
      CapitalizeShape(Strip(ReplaceChar(stepName, '_', " ")));
    }
  }

  // ------------------------------------------------------------------ _build_bootstrap_steps

  /**
   * One entry of a setup step list: a shell command run inside the container
   * with its retry budget and the output fragments that make a failure worth
   * retrying, or the final `portacode connect` step.
   */
  datatype SetupStep =
    | Command(name: string, cmd: string, retries: int, retryOn: seq<string>)
    | PortacodeConnect(name: string, timeoutS: int)

  const NetworkFailures: seq<string> := ["Temporary failure resolving", "Could not resolve", "Failed to fetch"]

  const AptUpdate: SetupStep := Command("apt_update", "apt-get update -y", 4, NetworkFailures)
  const InstallDeps: SetupStep := Command("install_deps", "apt-get install -y python3 python3-pip sudo --fix-missing", 5,
    ["lock-frontend", "Unable to acquire the dpkg frontend lock"] + NetworkFailures)
  const PipUpgrade: SetupStep := Command("pip_upgrade", "python3 -m pip install --upgrade pip", 0, [])
  const InstallPortacode: SetupStep := Command("install_portacode", "python3 -m pip install --upgrade portacode", 0, [])
  const ConnectStep: SetupStep := PortacodeConnect("portacode_connect", 30)

  function UserExists(user: string): SetupStep
  {
    Command("user_exists", "id -u " + user + " >/dev/null 2>&1 || adduser --disabled-password --gecos '' " + user, 0, [])
  }

  function AddSudo(user: string): SetupStep
  {
    Command("add_sudo", "usermod -aG sudo " + user, 0, [])
  }

  function SetPassword(user: string, password: string): SetupStep
  {
    Command("set_password", "echo '" + user + ":" + password + "' | chpasswd", 0, [])
  }

  function AddSshKey(user: string, sshKey: string): SetupStep
  {
    var home := "/home/" + user + "/.ssh";
    Command("add_ssh_key", "install -d -m 700 " + home + " && echo '" + sshKey + "' >> " + home +
      "/authorized_keys && chown -R " + user + ":" + user + " " + home, 0, [])
  }

  function Names(steps: seq<SetupStep>): (r: seq<string>)
    ensures |r| == |steps| && forall k :: 0 <= k < |steps| ==> r[k] == steps[k].name
  {
    seq(|steps|, k requires 0 <= k < |steps| => steps[k].name)
  }

  /** The step names of the bootstrap list, by whether a password and an SSH key are given. */
  function BootstrapNames(withPassword: bool, withKey: bool): seq<string>
  {
    ["apt_update", "install_deps", "user_exists", "add_sudo"] +
    (if withPassword then ["set_password"] else []) + (if withKey then ["add_ssh_key"] else []) +
    ["pip_upgrade", "install_portacode", "portacode_connect"]
  }

  lemma {:induction false} BootstrapNamesShape(withPassword: bool, withKey: bool)
    ensures var names := BootstrapNames(withPassword, withKey);
      Distinct(names) && ("set_password" in names <==> withPassword) && ("add_ssh_key" in names <==> withKey)
  {
    var names := BootstrapNames(withPassword, withKey);
    forall i, j | 0 <= i < j < |names| ensures names[i] != names[j] {
      assert |names[i]| != |names[j]| || names[i][0] != names[j][0];
    }
  }

  /**
   * `_build_bootstrap_steps`: apt update, dependencies, the user and its sudo
   * group, the password and the SSH key when given, then the pip upgrades and
   * the connect step; every step has its own name.
   */
  method BuildBootstrapSteps(user: string, password: string, sshKey: string) returns (steps: seq<SetupStep>)
    ensures |steps| == 7 + (if password != "" then 1 else 0) + (if sshKey != "" then 1 else 0)
    ensures steps[..4] == [AptUpdate, InstallDeps, UserExists(user), AddSudo(user)]
    ensures steps[|steps| - 3..] == [PipUpgrade, InstallPortacode, ConnectStep]
    ensures password != "" ==> steps[4] == SetPassword(user, password)
    ensures sshKey != "" ==> steps[if password != "" then 5 else 4] == AddSshKey(user, sshKey)
    ensures "set_password" in Names(steps) <==> password != ""
    ensures "add_ssh_key" in Names(steps) <==> sshKey != ""
    ensures Distinct(Names(steps))
  {
    steps := [AptUpdate, InstallDeps, UserExists(user), AddSudo(user)];
    ghost var head := steps;
    if password != "" {
      steps := steps + [SetPassword(user, password)];
    } else {
      assert steps == head + [];
    }
    ghost var middle := steps;
    if sshKey != "" {
      steps := steps + [AddSshKey(user, sshKey)];
    } else {
      assert steps == middle + [];
    }
    steps := steps + [PipUpgrade, InstallPortacode, ConnectStep];
    BootstrapListShape(user, password, sshKey, steps);
  }

  /** The bootstrap list: the four fixed first steps, the optional password and key steps, the three fixed last steps. */
  lemma {:induction false} BootstrapListShape(user: string, password: string, sshKey: string, steps: seq<SetupStep>)
    requires steps == [AptUpdate, InstallDeps, UserExists(user), AddSudo(user)] +
      (if password != "" then [SetPassword(user, password)] else []) + (if sshKey != "" then [AddSshKey(user, sshKey)] else []) +
      [PipUpgrade, InstallPortacode, ConnectStep]
    ensures |steps| == 7 + (if password != "" then 1 else 0) + (if sshKey != "" then 1 else 0)
    ensures steps[..4] == [AptUpdate, InstallDeps, UserExists(user), AddSudo(user)]
    ensures steps[|steps| - 3..] == [PipUpgrade, InstallPortacode, ConnectStep]
    ensures password != "" ==> steps[4] == SetPassword(user, password)
    ensures sshKey != "" ==> steps[if password != "" then 5 else 4] == AddSshKey(user, sshKey)
    ensures "set_password" in Names(steps) <==> password != ""
    ensures "add_ssh_key" in Names(steps) <==> sshKey != ""
    ensures Distinct(Names(steps))
  {
    BootstrapStepNames(user, password, sshKey, steps);
    BootstrapNamesShape(password != "", sshKey != "");
  }

  lemma {:induction false} BootstrapStepNames(user: string, password: string, sshKey: string, steps: seq<SetupStep>)
    requires steps == [AptUpdate, InstallDeps, UserExists(user), AddSudo(user)] +
      (if password != "" then [SetPassword(user, password)] else []) + (if sshKey != "" then [AddSshKey(user, sshKey)] else []) +
      [PipUpgrade, InstallPortacode, ConnectStep]
    ensures Names(steps) == BootstrapNames(password != "", sshKey != "")
  {
    var h := [AptUpdate, InstallDeps, UserExists(user), AddSudo(user)];
    var p := if password != "" then [SetPassword(user, password)] else [];
    var q := if sshKey != "" then [AddSshKey(user, sshKey)] else [];
    var t := [PipUpgrade, InstallPortacode, ConnectStep];
    NamesAppend(h + p + q, t);
    NamesAppend(h + p, q);
    NamesAppend(h, p);
    assert Names(h) == ["apt_update", "install_deps", "user_exists", "add_sudo"];
    assert Names(t) == ["pip_upgrade", "install_portacode", "portacode_connect"];
  }

  lemma {:induction false} NamesAppend(a: seq<SetupStep>, b: seq<SetupStep>)
    ensures Names(a + b) == Names(a) + Names(b)
  {
  }

  // ------------------------------------------------------------------ _summarize_error

  const DiskFullMessage: string := "Disk full inside container; increase rootfs or clean apt cache."
  const DpkgLockMessage: string := "Another apt/dpkg process is running; retry after it finishes."
  const DnsMessage: string := "DNS/network resolution failed inside container."
  const FetchMessage: string := "Package repo fetch failed; check network and apt sources."
  const GenericFailureMessage: string := "Command failed; see stdout/stderr for details."

  /** `_summarize_error` on a command's output. */
  function SummarizeError(stdout: string, stderr: string): string
  {
    var text := stdout + "\n" + stderr;
    if Contains(text, "No space left on device") then DiskFullMessage
    else if Contains(text, "Unable to acquire the dpkg frontend lock") || Contains(text, "lock-frontend") then DpkgLockMessage
    else if Contains(text, "Temporary failure resolving") || Contains(text, "Could not resolve") then DnsMessage
    else if Contains(text, "Failed to fetch") then FetchMessage
    else GenericFailureMessage
  }

  /** Each diagnosis is given exactly when its symptom shows and no earlier one in the priority order does. */
  lemma {:induction false} SummarizeErrorPriority(stdout: string, stderr: string)
    ensures var text := stdout + "\n" + stderr;
      var disk := Contains(text, "No space left on device");
      var lock := Contains(text, "Unable to acquire the dpkg frontend lock") || Contains(text, "lock-frontend");
      var dns := Contains(text, "Temporary failure resolving") || Contains(text, "Could not resolve");
      var fetch := Contains(text, "Failed to fetch");
      var r := SummarizeError(stdout, stderr);
      (r == DiskFullMessage <==> disk) &&
      (r == DpkgLockMessage <==> !disk && lock) &&
      (r == DnsMessage <==> !disk && !lock && dns) &&
      (r == FetchMessage <==> !disk && !lock && !dns && fetch) &&
      (r == GenericFailureMessage <==> !disk && !lock && !dns && !fetch)
  {
  }

  // ------------------------------------------------------------------ _run_setup_steps

  /** What `_run_pct` reports for one command run inside the container. */
  datatype PctResult = PctResult(returncode: int, stdout: string, stderr: string)

  /** One entry of the results list: a command attempt, or the connect step's outcome. */
  datatype StepRecord =
    | CommandRecord(name: string, attempt: int, result: PctResult, errorSummary: Option<string>)
    | ConnectRecord(name: string, ok: bool)

  datatype StepStatus = InProgress | Completed | Retrying | Failed

  /** One call of the progress callback. */
  datatype Progress = Progress(stepIndex: int, totalSteps: int, stepName: string, status: StepStatus)

  /** The results list, the success flag and the progress reported along the way. */
  datatype Run = Run(records: seq<StepRecord>, ok: bool, events: seq<Progress>)

  /** `records` and `events` already produced, followed by the run `r`. */
  function Prepend(records: seq<StepRecord>, events: seq<Progress>, r: Run): Run
  {
    Run(records + r.records, r.ok, events + r.events)
  }

  /** A failed attempt is retried while the budget of `retries + 1` lasts and the output names a retryable cause. */
  predicate WillRetry(attempt: int, retries: int, retryOn: seq<string>, res: PctResult)
  {
    attempt < retries + 1 && |retryOn| > 0 && exists k :: 0 <= k < |retryOn| && Contains(res.stderr + res.stdout, retryOn[k])
  }

  /** The record of attempt `attempt`, with the diagnosis a failure carries. */
  function AttemptRecord(name: string, attempt: int, res: PctResult): StepRecord
  {
    CommandRecord(name, attempt, res, if res.returncode != 0 then Some(SummarizeError(res.stdout, res.stderr)) else None)
  }

  /**
   * The attempts of a command step after `done` of them: `run(offset, a)` is
   * what attempt `a` of the step at `offset` returns.
   */
  function Attempts(step: SetupStep, offset: nat, done: nat, run: (nat, nat) -> PctResult, index: int, total: int): Run
    requires step.Command?
    decreases if done < step.retries + 1 then step.retries + 1 - done else 0
  {
    var attempt := done + 1;
    var res := run(offset, attempt);
    var rec := AttemptRecord(step.name, attempt, res);
    if res.returncode == 0 then Run([rec], true, [Progress(index, total, step.name, Completed)])
    else if WillRetry(attempt, step.retries, step.retryOn, res) then
      Prepend([rec], [Progress(index, total, step.name, Retrying)], Attempts(step, offset, attempt, run, index, total))
    else Run([rec], false, [Progress(index, total, step.name, Failed)])
  }

  /** One step after its "in_progress" report; `connect(offset, timeout)` is the connect step's outcome. */
  function StepRun(step: SetupStep, offset: nat, run: (nat, nat) -> PctResult, connect: (nat, int) -> bool, index: int, total: int): Run
  {
    match step
    case PortacodeConnect(name, timeoutS) =>
      var ok := connect(offset, timeoutS);
      Run([ConnectRecord(name, ok)], ok, [Progress(index, total, name, if ok then Completed else Failed)])
    case Command(_, _, _, _) => Attempts(step, offset, 0, run, index, total)
  }

  /** The steps from `offset` on, stopping at the first one that fails. */
  function RunSteps(steps: seq<SetupStep>, offset: nat, run: (nat, nat) -> PctResult, connect: (nat, int) -> bool,
                    startIndex: int, total: int): Run
    decreases |steps| - offset
  {
    if offset >= |steps| then Run([], true, [])
    else
      var index := startIndex + offset;
      var s := StepRun(steps[offset], offset, run, connect, index, total);
      var head := Prepend([], [Progress(index, total, steps[offset].name, InProgress)], s);
      if !s.ok then head else Prepend(head.records, head.events, RunSteps(steps, offset + 1, run, connect, startIndex, total))
  }

  /** The `total_steps` reported: the one given, else `start_index + len(steps) - 1`. */
  function ComputedTotal(steps: seq<SetupStep>, startIndex: int, totalSteps: Option<int>): int
  {
    if totalSteps.Some? then totalSteps.value else startIndex + |steps| - 1
  }

  /** Some fragment of `retryOn` occurs in `text` (`any(tok in text for tok in retry_on)`). */
  method AnyFragment(retryOn: seq<string>, text: string) returns (found: bool)
    ensures found <==> exists k :: 0 <= k < |retryOn| && Contains(text, retryOn[k])
  {
    found := false;
    for k := 0 to |retryOn|
      invariant !found
      invariant forall j :: 0 <= j < k ==> !Contains(text, retryOn[j])
    {
      if Contains(text, retryOn[k]) {
        return true;
      }
    }
  }

  /** The `while True` retry loop of one command step. */
  method RunCommandStep(step: SetupStep, offset: nat, run: (nat, nat) -> PctResult, index: int, total: int) returns (r: Run)
    requires step.Command?
    ensures r == Attempts(step, offset, 0, run, index, total)
  {
    var records: seq<StepRecord> := [];
    var events: seq<Progress> := [];
    var attempts: nat := 0;
    while true
      invariant Prepend(records, events, Attempts(step, offset, attempts, run, index, total)) == Attempts(step, offset, 0, run, index, total)
      decreases step.retries + 1 - attempts
    {
      ghost var before := attempts;
      attempts := attempts + 1;
      var res := run(offset, attempts);
      var rec := CommandRecord(step.name, attempts, res, None);
      if res.returncode != 0 {
        rec := rec.(errorSummary := Some(SummarizeError(res.stdout, res.stderr)));
      }
      records := records + [rec];
      if res.returncode == 0 {
        events := events + [Progress(index, total, step.name, Completed)];
        return Run(records, true, events);
      }
      var willRetry := false;
      if attempts < step.retries + 1 && |step.retryOn| > 0 {
        willRetry := AnyFragment(step.retryOn, res.stderr + res.stdout);
      }
      events := events + [Progress(index, total, step.name, if willRetry then Retrying else Failed)];
      if !willRetry {
        return Run(records, false, events);
      }
      assert Attempts(step, offset, before, run, index, total) ==
        Prepend([rec], [Progress(index, total, step.name, Retrying)], Attempts(step, offset, attempts, run, index, total));
    }
  }

  lemma {:induction false} PrependTwice(a: seq<StepRecord>, e: seq<Progress>, b: seq<StepRecord>, f: seq<Progress>, r: Run)
    ensures Prepend(a, e, Prepend(b, f, r)) == Prepend(a + b, e + f, r)
  {
    assert a + (b + r.records) == (a + b) + r.records;
    assert e + (f + r.events) == (e + f) + r.events;
  }

  /** One step of `RunSteps`: the step's report and run, and the rest only when it succeeded. */
  lemma {:induction false} RunStepsStep(steps: seq<SetupStep>, offset: nat, run: (nat, nat) -> PctResult, connect: (nat, int) -> bool,
                                        startIndex: int, total: int)
    requires offset < |steps|
    ensures var index := startIndex + offset;
      var s := StepRun(steps[offset], offset, run, connect, index, total);
      var inProgress := Progress(index, total, steps[offset].name, InProgress);
      RunSteps(steps, offset, run, connect, startIndex, total) ==
        if !s.ok then Prepend([], [inProgress], s)
        else Prepend(s.records, [inProgress] + s.events, RunSteps(steps, offset + 1, run, connect, startIndex, total))
  {
  }

  /** The body of `_run_setup_steps`'s loop after the "in_progress" report. */
  method RunStep(step: SetupStep, offset: nat, run: (nat, nat) -> PctResult, connect: (nat, int) -> bool, index: int, total: int)
    returns (r: Run)
    ensures r == StepRun(step, offset, run, connect, index, total)
  {
    match step {
      case PortacodeConnect(name, timeoutS) =>
        var connected := connect(offset, timeoutS);
        r := Run([ConnectRecord(name, connected)], connected, [Progress(index, total, name, if connected then Completed else Failed)]);
      case Command(_, _, _, _) =>
        r := RunCommandStep(step, offset, run, index, total);
    }
  }

  /**
   * `_run_setup_steps` with the progress callback's calls returned as
   * `events`: the results of every attempt, and whether all steps succeeded.
   */
  method RunSetupSteps(steps: seq<SetupStep>, run: (nat, nat) -> PctResult, connect: (nat, int) -> bool,
                       startIndex: int, totalSteps: Option<int>)
    returns (results: seq<StepRecord>, ok: bool, events: seq<Progress>)
    ensures Run(results, ok, events) == RunSteps(steps, 0, run, connect, startIndex, ComputedTotal(steps, startIndex, totalSteps))
  {
    var total := if totalSteps.Some? then totalSteps.value else startIndex + |steps| - 1;
    assert total == ComputedTotal(steps, startIndex, totalSteps);
    results := [];
    events := [];
    PrependNothing(RunSteps(steps, 0, run, connect, startIndex, total));
    for offset := 0 to |steps|
      invariant Prepend(results, events, RunSteps(steps, offset, run, connect, startIndex, total)) == RunSteps(steps, 0, run, connect, startIndex, total)
    {
      var stepIndex := startIndex + offset;
      var inProgress := Progress(stepIndex, total, steps[offset].name, InProgress);
      var r := RunStep(steps[offset], offset, run, connect, stepIndex, total);
      RunSetupAdvance(steps, offset, run, connect, startIndex, total, results, events);
      if !r.ok {
        return results + r.records, false, events + ([inProgress] + r.events);
      }
      results := results + r.records;
      events := events + ([inProgress] + r.events);
    }
    RunStepsPast(steps, run, connect, startIndex, total, results, events);
    return results, true, events;
  }

  lemma {:induction false} PrependNothing(r: Run)
    ensures Prepend([], [], r) == r
  {
  }

  /** Past the last step nothing is left to run. */
  lemma {:induction false} RunStepsPast(steps: seq<SetupStep>, run: (nat, nat) -> PctResult, connect: (nat, int) -> bool,
                                        startIndex: int, total: int, results: seq<StepRecord>, events: seq<Progress>)
    ensures Prepend(results, events, RunSteps(steps, |steps|, run, connect, startIndex, total)) == Run(results, true, events)
  {
  }

  /** One pass of the loop of `_run_setup_steps`: a failed step ends the run, a successful one keeps the invariant. */
  lemma {:induction false} RunSetupAdvance(steps: seq<SetupStep>, offset: nat, run: (nat, nat) -> PctResult, connect: (nat, int) -> bool,
                                           startIndex: int, total: int, results: seq<StepRecord>, events: seq<Progress>)
    requires offset < |steps|
    requires Prepend(results, events, RunSteps(steps, offset, run, connect, startIndex, total)) == RunSteps(steps, 0, run, connect, startIndex, total)
    ensures var r := StepRun(steps[offset], offset, run, connect, startIndex + offset, total);
      var reports := [Progress(startIndex + offset, total, steps[offset].name, InProgress)] + r.events;
      if !r.ok then Run(results + r.records, false, events + reports) == RunSteps(steps, 0, run, connect, startIndex, total)
      else (Prepend(results + r.records, events + reports, RunSteps(steps, offset + 1, run, connect, startIndex, total)) ==
            RunSteps(steps, 0, run, connect, startIndex, total))
  {
    var r := StepRun(steps[offset], offset, run, connect, startIndex + offset, total);
    var inProgress := Progress(startIndex + offset, total, steps[offset].name, InProgress);
    RunStepsStep(steps, offset, run, connect, startIndex, total);
    if !r.ok {
      PrependTwice(results, events, [], [inProgress], r);
    } else {
      PrependTwice(results, events, r.records, [inProgress] + r.events, RunSteps(steps, offset + 1, run, connect, startIndex, total));
    }
  }

  /** A command step makes at least one attempt and no more than its budget of `retries + 1` allows. */
  lemma {:induction false} AttemptsCount(step: SetupStep, offset: nat, done: nat, run: (nat, nat) -> PctResult, index: int, total: int)
    requires step.Command?
    ensures var n := |Attempts(step, offset, done, run, index, total).records|;
      n >= 1 && (done + n <= step.retries + 1 || n == 1)
    decreases if done < step.retries + 1 then step.retries + 1 - done else 0
  {
    var res := run(offset, done + 1);
    if res.returncode != 0 && WillRetry(done + 1, step.retries, step.retryOn, res) {
      AttemptsCount(step, offset, done + 1, run, index, total);
    }
  }

  /**
   * Every attempt is recorded, with its number, counting on from `done + 1`,
   * and what `_run_pct` returned for it.
   */
  lemma {:induction false} AttemptsRecords(step: SetupStep, offset: nat, done: nat, run: (nat, nat) -> PctResult, index: int, total: int)
    requires step.Command?
    ensures forall k :: 0 <= k < |Attempts(step, offset, done, run, index, total).records| ==>
      AttemptOf(Attempts(step, offset, done, run, index, total).records[k], step.name, done + k + 1, offset, run)
    decreases if done < step.retries + 1 then step.retries + 1 - done else 0
  {
    var res := run(offset, done + 1);
    AttemptsUnfold(step, offset, done, run, index, total);
    if res.returncode != 0 && WillRetry(done + 1, step.retries, step.retryOn, res) {
      AttemptsRecords(step, offset, done + 1, run, index, total);
      ConsShift(AttemptRecord(step.name, done + 1, res), Attempts(step, offset, done + 1, run, index, total).records);
    }
  }

  /** The first attempt, then the attempts after it when it is retried. */
  lemma {:induction false} AttemptsUnfold(step: SetupStep, offset: nat, done: nat, run: (nat, nat) -> PctResult, index: int, total: int)
    requires step.Command?
    ensures var res := run(offset, done + 1);
      var r := Attempts(step, offset, done, run, index, total);
      var rec := AttemptRecord(step.name, done + 1, res);
      if res.returncode != 0 && WillRetry(done + 1, step.retries, step.retryOn, res) then
        var rest := Attempts(step, offset, done + 1, run, index, total);
        r.records == [rec] + rest.records && r.events == [Progress(index, total, step.name, Retrying)] + rest.events && r.ok == rest.ok
      else
        r.records == [rec] && r.ok == (res.returncode == 0) &&
        r.events == [Progress(index, total, step.name, if res.returncode == 0 then Completed else Failed)]
  {
  }

  /**
   * Every attempt but the last failed and was retryable, and the step
   * succeeds exactly when its last attempt returned 0.
   */
  lemma {:induction false} AttemptsRetried(step: SetupStep, offset: nat, done: nat, run: (nat, nat) -> PctResult, index: int, total: int)
    requires step.Command?
    ensures var r := Attempts(step, offset, done, run, index, total);
      var n := |r.records|;
      n >= 1 &&
      (forall k :: 0 <= k < n ==> r.records[k].CommandRecord?) &&
      (forall k :: 0 <= k < n - 1 ==>
        (r.records[k].result.returncode != 0 && WillRetry(done + k + 1, step.retries, step.retryOn, r.records[k].result))) &&
      (r.ok <==> r.records[n - 1].result.returncode == 0)
    decreases if done < step.retries + 1 then step.retries + 1 - done else 0
  {
    var res := run(offset, done + 1);
    AttemptsUnfold(step, offset, done, run, index, total);
    if res.returncode != 0 && WillRetry(done + 1, step.retries, step.retryOn, res) {
      AttemptsRetried(step, offset, done + 1, run, index, total);
      ConsShift(AttemptRecord(step.name, done + 1, res), Attempts(step, offset, done + 1, run, index, total).records);
    }
  }

  /** `rec` is attempt `attempt` of the step named `name` at `offset`, with what `_run_pct` returned for it. */
  predicate AttemptOf(rec: StepRecord, name: string, attempt: nat, offset: nat, run: (nat, nat) -> PctResult)
  {
    rec.CommandRecord? && rec.name == name && rec.attempt == attempt && rec.result == run(offset, attempt) &&
    (rec.errorSummary.Some? <==> rec.result.returncode != 0)
  }

  /**
   * The reports of a command step: one per attempt, all for this step's index
   * and total, "retrying" for every attempt but the last, and "completed" or
   * "failed" for the last.
   */
  lemma {:induction false} AttemptsEvents(step: SetupStep, offset: nat, done: nat, run: (nat, nat) -> PctResult, index: int, total: int)
    requires step.Command?
    ensures var r := Attempts(step, offset, done, run, index, total);
      var n := |r.events|;
      n == |r.records| && n >= 1 &&
      (forall k :: 0 <= k < n ==> r.events[k].stepIndex == index && r.events[k].totalSteps == total && r.events[k].stepName == step.name) &&
      (forall k :: 0 <= k < n - 1 ==> r.events[k].status == Retrying) &&
      r.events[n - 1].status == (if r.ok then Completed else Failed)
    decreases if done < step.retries + 1 then step.retries + 1 - done else 0
  {
    var res := run(offset, done + 1);
    AttemptsUnfold(step, offset, done, run, index, total);
    if res.returncode != 0 && WillRetry(done + 1, step.retries, step.retryOn, res) {
      AttemptsEvents(step, offset, done + 1, run, index, total);
      ConsShift(Progress(index, total, step.name, Retrying), Attempts(step, offset, done + 1, run, index, total).events);
    }
  }

  /** A step's reports carry its index, the total and its name; a failed step's last report is "failed". */
  lemma {:induction false} StepRunEvents(step: SetupStep, offset: nat, run: (nat, nat) -> PctResult, connect: (nat, int) -> bool, index: int, total: int)
    ensures var r := StepRun(step, offset, run, connect, index, total);
      |r.events| >= 1 &&
      (forall k :: 0 <= k < |r.events| ==> r.events[k].stepIndex == index && r.events[k].totalSteps == total && r.events[k].stepName == step.name) &&
      (!r.ok ==> r.events[|r.events| - 1].status == Failed)
  {
    if step.Command? {
      AttemptsEvents(step, offset, 0, run, index, total);
    }
  }

  /** Step `o` of the list succeeds on its own. */
  predicate StepSucceeds(steps: seq<SetupStep>, o: nat, run: (nat, nat) -> PctResult, connect: (nat, int) -> bool, startIndex: int, total: int)
    requires o < |steps|
  {
    StepRun(steps[o], o, run, connect, startIndex + o, total).ok
  }

  /** The run succeeds exactly when every step from `offset` on succeeds. */
  lemma {:induction false} RunStepsOk(steps: seq<SetupStep>, offset: nat, run: (nat, nat) -> PctResult, connect: (nat, int) -> bool,
                                      startIndex: int, total: int)
    requires offset <= |steps|
    ensures RunSteps(steps, offset, run, connect, startIndex, total).ok <==>
      forall o :: offset <= o < |steps| ==> StepSucceeds(steps, o, run, connect, startIndex, total)
    decreases |steps| - offset
  {
    if offset < |steps| {
      RunStepsStep(steps, offset, run, connect, startIndex, total);
      RunStepsOk(steps, offset + 1, run, connect, startIndex, total);
      if !StepSucceeds(steps, offset, run, connect, startIndex, total) {
        assert !RunSteps(steps, offset, run, connect, startIndex, total).ok;
      }
    }
  }

  /**
   * Every report names a step of the list by its index `start_index + offset`,
   * with the total given, and a failed run ends on a "failed" report.
   */
  lemma {:induction false} RunStepsEvents(steps: seq<SetupStep>, offset: nat, run: (nat, nat) -> PctResult, connect: (nat, int) -> bool,
                                          startIndex: int, total: int)
    requires offset <= |steps|
    ensures var r := RunSteps(steps, offset, run, connect, startIndex, total);
      (forall k :: 0 <= k < |r.events| ==> ReportsStep(r.events[k], steps, offset, startIndex, total)) &&
      (!r.ok ==> |r.events| > 0 && r.events[|r.events| - 1].status == Failed)
    decreases |steps| - offset
  {
    if offset < |steps| {
      var index := startIndex + offset;
      var s := StepRun(steps[offset], offset, run, connect, index, total);
      var head := [Progress(index, total, steps[offset].name, InProgress)] + s.events;
      StepHeadReports(steps, offset, run, connect, startIndex, total);
      RunStepsStep(steps, offset, run, connect, startIndex, total);
      if s.ok {
        RunStepsEvents(steps, offset + 1, run, connect, startIndex, total);
        ReportsConcat(head, RunSteps(steps, offset + 1, run, connect, startIndex, total).events, steps, offset, startIndex, total);
      }
    }
  }

  /** The "in_progress" report and the step's own reports are about step `offset`; a failed step ends on "failed". */
  lemma {:induction false} StepHeadReports(steps: seq<SetupStep>, offset: nat, run: (nat, nat) -> PctResult, connect: (nat, int) -> bool,
                                           startIndex: int, total: int)
    requires offset < |steps|
    ensures var index := startIndex + offset;
      var s := StepRun(steps[offset], offset, run, connect, index, total);
      var head := [Progress(index, total, steps[offset].name, InProgress)] + s.events;
      (forall k :: 0 <= k < |head| ==> ReportsStep(head[k], steps, offset, startIndex, total)) &&
      (!s.ok ==> head[|head| - 1].status == Failed)
  {
    StepRunEvents(steps[offset], offset, run, connect, startIndex + offset, total);
  }

  /** Reports about step `offset` followed by reports about later steps are all about steps at or after `offset`. */
  lemma {:induction false} ReportsConcat(head: seq<Progress>, rest: seq<Progress>, steps: seq<SetupStep>, offset: nat, startIndex: int, total: int)
    requires forall k :: 0 <= k < |head| ==> ReportsStep(head[k], steps, offset, startIndex, total)
    requires forall k :: 0 <= k < |rest| ==> ReportsStep(rest[k], steps, offset + 1, startIndex, total)
    ensures forall k :: 0 <= k < |head + rest| ==> ReportsStep((head + rest)[k], steps, offset, startIndex, total)
  {
    forall k | 0 <= k < |head + rest| ensures ReportsStep((head + rest)[k], steps, offset, startIndex, total) {
      if k >= |head| {
        assert (head + rest)[k] == rest[k - |head|];
      }
    }
  }

  /** The report is about a step of the list at or after `offset`, by its index, name and the total. */
  predicate ReportsStep(e: Progress, steps: seq<SetupStep>, offset: nat, startIndex: int, total: int)
  {
    offset <= e.stepIndex - startIndex < |steps| && e.totalSteps == total && e.stepName == steps[e.stepIndex - startIndex].name
  }

  // ------------------------------------------------------------------ _start_container

  const ManagedMarker: string := "portacode-managed:true"
  const RamMessage: string := "Not enough RAM to start this container safely."
  const CpuMessage: string := "Not enough CPU cores to start this container safely."

  /** A container on the node as `_list_running_managed` sees it: its status, description and configured memory (MiB) and cores. */
  datatype Container = Container(running: bool, description: string, memoryMb: int, cores: int)

  /** `_list_running_managed`: the running containers whose description carries the managed marker. */
  function RunningManaged(containers: seq<Container>): seq<Container>
  {
    if |containers| == 0 then []
    else
      var c := containers[0];
      (if c.running && Contains(c.description, ManagedMarker) then [c] else []) + RunningManaged(containers[1..])
  }

  function SumMemory(cs: seq<Container>): int
  {
    if |cs| == 0 then 0 else cs[0].memoryMb + SumMemory(cs[1..])
  }

  function SumCores(cs: seq<Container>): int
  {
    if |cs| == 0 then 0 else cs[0].cores + SumCores(cs[1..])
  }

  /** What `_start_container` does with the target. */
  datatype StartDecision = AlreadyRunning | Admitted | Refused(message: string)

  /** `memory.total // 1024**2`; Dafny's division by a positive divisor rounds down like Python's `//`. */
  function MemTotalMb(memoryTotalBytes: int): int
  {
    memoryTotalBytes / (1024 * 1024)
  }

  /**
   * The admission check of `_start_container`: a running target is left
   * alone; otherwise the RAM and then the CPU budget of the node, when the
   * node reports one, must hold the running managed containers plus the target.
   */
  function StartContainerDecision(target: Container, memoryTotalBytes: int, coresTotal: int, containers: seq<Container>): StartDecision
  {
    if target.running then AlreadyRunning
    else
      var running := RunningManaged(containers);
      var memTotal := MemTotalMb(memoryTotalBytes);
      if memTotal != 0 && SumMemory(running) + target.memoryMb > memTotal then Refused(RamMessage)
      else if coresTotal != 0 && SumCores(running) + target.cores > coresTotal then Refused(CpuMessage)
      else Admitted
  }

  /** Memory is refused exactly when over a reported budget; cores exactly when memory passed and cores are over a reported budget. */
  lemma {:induction false} StartContainerCases(target: Container, memoryTotalBytes: int, coresTotal: int, containers: seq<Container>)
    ensures target.running <==> StartContainerDecision(target, memoryTotalBytes, coresTotal, containers) == AlreadyRunning
    ensures var running := RunningManaged(containers);
      var memTotal := MemTotalMb(memoryTotalBytes);
      var memOver := memTotal != 0 && SumMemory(running) + target.memoryMb > memTotal;
      var coresOver := coresTotal != 0 && SumCores(running) + target.cores > coresTotal;
      var d := StartContainerDecision(target, memoryTotalBytes, coresTotal, containers);
      (d == Refused(RamMessage) <==> !target.running && memOver) &&
      (d == Refused(CpuMessage) <==> !target.running && !memOver && coresOver) &&
      (d == Admitted <==> !target.running && !memOver && !coresOver)
  {
  }

  /** Only stopped managed containers are ignored: the sums count exactly the running managed ones. */
  lemma {:induction false} RunningManagedMembers(containers: seq<Container>, c: Container)
    ensures c in RunningManaged(containers) <==> c in containers && c.running && Contains(c.description, ManagedMarker)
    decreases |containers|
  {
    if |containers| > 0 {
      RunningManagedMembers(containers[1..], c);
      assert containers == [containers[0]] + containers[1..];
    }
  }

  lemma {:induction false} RunningManagedSnoc(containers: seq<Container>, c: Container)
    ensures RunningManaged(containers + [c]) == RunningManaged(containers) + (if c.running && Contains(c.description, ManagedMarker) then [c] else [])
    decreases |containers|
  {
    if |containers| > 0 {
      assert (containers + [c])[1..] == containers[1..] + [c];
      RunningManagedSnoc(containers[1..], c);
    } else {
      assert containers + [c] == [c];
    }
  }

  lemma {:induction false} SumsSnoc(cs: seq<Container>, c: Container)
    ensures SumMemory(cs + [c]) == SumMemory(cs) + c.memoryMb && SumCores(cs + [c]) == SumCores(cs) + c.cores
    decreases |cs|
  {
    if |cs| > 0 {
      assert (cs + [c])[1..] == cs[1..] + [c];
      SumsSnoc(cs[1..], c);
    } else {
      assert cs + [c] == [c];
    }
  }

  /** One more container on the node, using no negative resources, never turns a refusal into a start. */
  lemma {:induction false} StartContainerMonotone(target: Container, memoryTotalBytes: int, coresTotal: int, containers: seq<Container>, c: Container)
    requires c.memoryMb >= 0 && c.cores >= 0
    requires StartContainerDecision(target, memoryTotalBytes, coresTotal, containers).Refused?
    ensures StartContainerDecision(target, memoryTotalBytes, coresTotal, containers + [c]).Refused?
  {
    RunningManagedSnoc(containers, c);
    SumsSnoc(RunningManaged(containers), c);
    if !(c.running && Contains(c.description, ManagedMarker)) {
      assert RunningManaged(containers + [c]) == RunningManaged(containers);
    }
  }

  // ------------------------------------------------------------------ build_snapshot

  const DefaultBridge: string := "vmbr1"

  /** `d.get(key, default)`: the stored value, even a `None`, when the key is present. */
  function GetOr(d: map<string, Value>, key: string, default: Value): Value
  {
    if key in d then d[key] else default
  }

  /**
   * The stored infrastructure configuration: its `network` object apart,
   * `None` when the key is absent.
   */
  datatype InfraConfig = InfraConfig(fields: map<string, Value>, network: Option<map<string, Value>>)

  predicate IsEmptyConfig(config: InfraConfig)
  {
    config.fields == map[] && config.network.None?
  }

  datatype NetworkBlock = NetworkBlock(applied: Value, message: Value, bridge: Value)

  datatype Snapshot =
    | Unconfigured(network: NetworkBlock)
    | Configured(host: Value, node: Value, user: Value, tokenName: Value, defaultStorage: Value,
                 templates: Value, lastVerified: Value, network: NetworkBlock)

  /** The `[]` that `config.get("templates") or []` falls back to. */
  const EmptyList: Value := Other("[]", false)

  /** `build_snapshot` */
  function BuildSnapshot(config: InfraConfig): Snapshot
  {
    var network := config.network.GetOr(map[]);
    var base := NetworkBlock(GetOr(network, "applied", Flag(false)), GetOr(network, "message", Null), GetOr(network, "bridge", Str(DefaultBridge)));
    if IsEmptyConfig(config) then Unconfigured(base)
    else
      var f := config.fields;
      Configured(Get(f, "host"), Get(f, "node"), Get(f, "user"), Get(f, "token_name"), Get(f, "default_storage"),
        Or(Get(f, "templates"), EmptyList), Get(f, "last_verified"), base)
  }

  /**
   * A snapshot is "configured" exactly when the configuration is not empty;
   * the empty one reports an unapplied network on the default bridge; the
   * network block always copies the stored network fields with their
   * defaults; and the stored fields are copied as they are.
   */
  lemma {:induction false} BuildSnapshotShape(config: InfraConfig)
    ensures BuildSnapshot(config).Configured? <==> !IsEmptyConfig(config)
    ensures IsEmptyConfig(config) ==> BuildSnapshot(config) == Unconfigured(NetworkBlock(Flag(false), Null, Str(DefaultBridge)))
    ensures var net := config.network.GetOr(map[]);
      BuildSnapshot(config).network == NetworkBlock(GetOr(net, "applied", Flag(false)), GetOr(net, "message", Null), GetOr(net, "bridge", Str(DefaultBridge)))
    ensures var s := BuildSnapshot(config);
      s.Configured? ==>
        (s.host == Get(config.fields, "host") && s.node == Get(config.fields, "node") &&
         s.user == Get(config.fields, "user") && s.tokenName == Get(config.fields, "token_name") &&
         s.defaultStorage == Get(config.fields, "default_storage") && s.lastVerified == Get(config.fields, "last_verified") &&
         (Truthy(Get(config.fields, "templates")) ==> s.templates == Get(config.fields, "templates")) &&
         (!Truthy(Get(config.fields, "templates")) ==> s.templates == EmptyList))
  {
  }

  // ------------------------------------------------------------------ _build_container_payload

  const TemplateRequiredMessage: string := "Container template is required."
  const StorageMissingMessage: string := "Storage pool could not be determined."

  /** `(v or "").strip()` for a text field of the message. */
  function StrippedField(message: map<string, Value>, key: string, default: string): string
  {
    Strip(PyStr(Or(Get(message, key), Str(default))))
  }

  const DefaultUser: string := "svcuser"

  /**
   * `_get_provisioning_user_info`; `generatedPassword` stands for
   * `secrets.token_urlsafe(10)`, used when the message has no password.
   */
  function ProvisioningUserInfo(message: map<string, Value>, generatedPassword: Value): (r: (string, Value, string))
    ensures r.0 != ""
    ensures Truthy(Get(message, "password")) ==> r.1 == Get(message, "password")
    ensures !Truthy(Get(message, "password")) ==> r.1 == generatedPassword
  {
    var user := StrippedField(message, "username", DefaultUser);
    var password := Get(message, "password");
    (if user == "" then DefaultUser else user, if Truthy(password) then password else generatedPassword, StrippedField(message, "ssh_key", ""))
  }

  /** The user name and the SSH key come out stripped, the user being the given one whenever that is not blank. */
  lemma {:induction false} ProvisioningUserStripped(message: map<string, Value>, generatedPassword: Value)
    ensures var r := ProvisioningUserInfo(message, generatedPassword);
      Strip(r.0) == r.0 && Strip(r.2) == r.2 &&
      (StrippedField(message, "username", DefaultUser) != "" ==> r.0 == StrippedField(message, "username", DefaultUser))
  {
    StrippedFieldStripped(message, "username", DefaultUser);
    StrippedFieldStripped(message, "ssh_key", "");
    DefaultUserStripped();
  }

  lemma {:induction false} StrippedFieldStripped(message: map<string, Value>, key: string, default: string)
    ensures Strip(StrippedField(message, key, default)) == StrippedField(message, key, default)
  {
    StripTwice(PyStr(Or(Get(message, key), Str(default))));
  }

  lemma {:induction false} DefaultUserStripped()
    ensures Strip(DefaultUser) == DefaultUser
  {
    TrimIdentity(DefaultUser, Whitespace);
  }

  /** The arguments `_instantiate_container` creates the container with. */
  datatype ContainerPayload = ContainerPayload(
    template: Value, storage: Value, diskGib: int, ramMib: int, cpus: int, hostname: string, net0: string,
    unprivileged: int, swapMb: int, username: string, password: Value, sshPublicKey: string, description: string)

  /**
   * `_build_container_payload`. `templates` is the configuration's template
   * list (empty when missing), `defaultStorage` its `default_storage` and
   * `bridge` its network bridge, already defaulted to "vmbr1".
   */
  function BuildContainerPayload(message: map<string, Value>, templates: seq<Value>, defaultStorage: Value, bridge: Value,
                                 generatedPassword: Value): Result<ContainerPayload, string>
  {
    var defaultTemplate := if |templates| > 0 then templates[0] else Str("");
    var template := Or(Get(message, "template"), defaultTemplate);
    if !Truthy(template) then Err(TemplateRequiredMessage)
    else
      var hostname := StrippedField(message, "hostname", "");
      var diskGib := ValidatePositiveInt(Or(Get(message, "disk_gib"), Get(message, "disk")), 32);
      var ramMib := ValidatePositiveInt(Or(Get(message, "ram_mib"), Get(message, "ram")), 2048);
      var cpus := ValidatePositiveInt(Get(message, "cpus"), 1);
      var storage := Or(Or(Get(message, "storage"), defaultStorage), Str(""));
      if !Truthy(storage) then Err(StorageMissingMessage)
      else
        var info := ProvisioningUserInfo(message, generatedPassword);
        Ok(ContainerPayload(template, storage, diskGib, ramMib, cpus, hostname, "name=eth0,bridge=" + PyStr(bridge) + ",ip=dhcp",
          1, 0, info.0, info.1, info.2, ManagedMarker))
  }

  /** The template is checked before the storage, and a payload is built exactly when both are given. */
  lemma {:induction false} BuildContainerPayloadErrors(message: map<string, Value>, templates: seq<Value>, defaultStorage: Value,
                                                       bridge: Value, generatedPassword: Value)
    ensures var template := Or(Get(message, "template"), if |templates| > 0 then templates[0] else Str(""));
      var storage := Or(Or(Get(message, "storage"), defaultStorage), Str(""));
      var r := BuildContainerPayload(message, templates, defaultStorage, bridge, generatedPassword);
      (r == Err(TemplateRequiredMessage) <==> !Truthy(template)) &&
      (r == Err(StorageMissingMessage) <==> Truthy(template) && !Truthy(storage)) &&
      (r.Ok? <==> Truthy(template) && Truthy(storage))
  {
  }

  /**
   * A payload always has a template and a storage, positive sizes that
   * default to 32 GiB, 2048 MiB and one CPU, a DHCP interface on the bridge,
   * a named user, and carries the managed marker.
   */
  lemma {:induction false} BuildContainerPayloadShape(message: map<string, Value>, templates: seq<Value>, defaultStorage: Value,
                                                      bridge: Value, generatedPassword: Value)
    ensures var r := BuildContainerPayload(message, templates, defaultStorage, bridge, generatedPassword);
      r.Ok? ==>
        var p := r.value;
        Truthy(p.template) && Truthy(p.storage) && p.diskGib > 0 && p.ramMib > 0 && p.cpus > 0 &&
        (!Truthy(Get(message, "disk_gib")) && !Truthy(Get(message, "disk")) ==> p.diskGib == 32) &&
        (!Truthy(Get(message, "ram_mib")) && !Truthy(Get(message, "ram")) ==> p.ramMib == 2048) &&
        (Get(message, "cpus") == Null ==> p.cpus == 1) &&
        p.net0 == "name=eth0,bridge=" + PyStr(bridge) + ",ip=dhcp" && p.unprivileged == 1 && p.swapMb == 0 &&
        p.username != "" && p.description == ManagedMarker
  {
    var disk := Or(Get(message, "disk_gib"), Get(message, "disk"));
    var ram := Or(Get(message, "ram_mib"), Get(message, "ram"));
    if !Truthy(disk) {
      PositiveDefault(disk, 32);
    }
    if !Truthy(ram) {
      PositiveDefault(ram, 2048);
    }
  }

  /** A false-like value gives the default. */
  lemma {:induction false} PositiveDefault(v: Value, default: int)
    requires !Truthy(v)
    ensures ValidatePositiveInt(v, default) == default
  {
    if v.Str? {
      assert v.s == "";
    }
  }
}

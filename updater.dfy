/** The pip command the agent uses to upgrade itself (portacode/updater.py). */
module Updater {
  import opened Wrappers

  /** Prepended when the agent is not root, so pip can write system site-packages without a prompt. */
  const SudoPrefix: seq<string> := ["sudo", "-H", "-n"]

  /** `package`, or `package==version` when a version is pinned. */
  function Target(package: string, version: Option<string>): string
  {
    if version.None? then package else package + "==" + version.value
  }

  /** The effective user id; a platform without `os.geteuid` counts as root. */
  predicate NeedsSudo(euid: Option<int>)
  {
    euid.GetOr(0) != 0
  }

  /** The command `build_pip_install_command` returns. */
  function PipCommand(python: string, package: string, version: Option<string>, extraArgs: seq<string>, euid: Option<int>): seq<string>
  {
    (if NeedsSudo(euid) then SudoPrefix else []) +
    [python, "-m", "pip", "install", "--upgrade", Target(package, version)] + extraArgs
  }

  /**
   * `build_pip_install_command`: `python` is `sys.executable`, `euid` what
   * `os.geteuid()` returns (`None` where the platform lacks it).
   */
  method BuildPipInstallCommand(python: string, package: string, version: Option<string>, extraArgs: seq<string>, euid: Option<int>)
    returns (cmd: seq<string>)
    ensures cmd == PipCommand(python, package, version, extraArgs, euid)
  {
    var target := if version.None? then package else package + "==" + version.value;
    cmd := [python, "-m", "pip", "install", "--upgrade", target];
    if |extraArgs| > 0 {
      cmd := cmd + extraArgs;
    }
    var uid := if euid.Some? then euid.value else 0;
    if uid != 0 {
      cmd := ["sudo", "-H", "-n"] + cmd;
    }
  }

  /**
   * The command has the sudo prefix exactly when the agent is not root, then
   * runs pip's upgrade on the target, then the extra arguments in order.
   */
  lemma {:induction false} PipCommandShape(python: string, package: string, version: Option<string>, extraArgs: seq<string>, euid: Option<int>)
    ensures var cmd := PipCommand(python, package, version, extraArgs, euid);
      var k := if NeedsSudo(euid) then 3 else 0;
      |cmd| == k + 6 + |extraArgs| &&
      (NeedsSudo(euid) ==> cmd[..3] == SudoPrefix) &&
      cmd[k..k + 6] == [python, "-m", "pip", "install", "--upgrade", Target(package, version)] &&
      cmd[k + 6..] == extraArgs
  {
  }

  /** `t` has "==" at position `j`. */
  predicate PinAt(t: string, j: int)
  {
    0 <= j && j + 1 < |t| && t[j] == '=' && t[j + 1] == '='
  }

  lemma {:induction false} PinShift(t: string)
    requires |t| > 0
    ensures forall j :: 1 <= j ==> (PinAt(t, j) <==> PinAt(t[1..], j - 1))
  {
  }

  /** The position of the first "==" in `t`, if any. */
  function PinIndex(t: string): (r: Option<nat>)
    ensures r.Some? ==> PinAt(t, r.value) && forall j :: 0 <= j < r.value ==> !PinAt(t, j)
    ensures r.None? ==> forall j :: !PinAt(t, j)
    decreases |t|
  {
    if |t| < 2 then None
    else if t[0] == '=' && t[1] == '=' then Some(0)
    else
      PinShift(t);
      match PinIndex(t[1..])
      case None => None
      case Some(i) => Some(i + 1)
  }

  /** Reading a pip target back into its package name and pinned version. */
  function SplitPin(t: string): (string, Option<string>)
  {
    match PinIndex(t)
    case None => (t, None)
    case Some(i) => (t[..i], Some(t[i + 2..]))
  }

  /** For a package name without "=", the target is read back as the package and version it was built from. */
  lemma {:induction false} SplitPinTarget(package: string, version: Option<string>)
    requires '=' !in package
    ensures SplitPin(Target(package, version)) == (package, version)
  {
    var t := Target(package, version);
    if version.None? {
      forall j ensures !PinAt(t, j) {
        if 0 <= j < |t| {
          assert t[j] == package[j];
        }
      }
    } else {
      forall j | 0 <= j < |package| ensures !PinAt(t, j) {
        assert t[j] == package[j];
      }
      assert PinAt(t, |package|);
      var i := PinIndex(t).value;
      assert i == |package|;
      assert t[..i] == package;
      assert t[i + 2..] == version.value;
    }
  }
}

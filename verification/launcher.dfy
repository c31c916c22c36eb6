/** `launch_activated_cmd` (backend_functions.py): opens a new terminal in
    which the selected environment is activated. */
module Launcher {
  import opened Outcomes

  /** `subprocess.CREATE_NEW_CONSOLE`. */
  const CreateNewConsole: int := 0x10

  const VenvSuffix: string := " && where python && python --version"
  const CondaSuffix: string := " && conda info --envs"
  const UnknownTypeCommand: string := "echo Error: Unknown environment type && pause"

  /** What the call does: nothing when no name is given (an error is only
      logged), otherwise it asks `Popen` to start `argv` with the given
      creation flags; when `Popen` raises, an error dialog is shown instead. */
  datatype Launch =
    | NoName
    | Launched(argv: seq<string>, creationFlags: int)
    | LaunchFailed(argv: seq<string>, creationFlags: int)

  predicate IsNtSeparator(c: char) {
    c == '\\' || c == '/'
  }

  /** Whether `ntpath.join(a, b)` (Python 3.12 and later) puts a separator
      between `a` and a relative component `b`: not when the part of `a`
      after a drive letter (`X:`) is empty, nor when `a` already ends in a
      separator. */
  predicate NtAddsSeparator(a: string) {
    var path := if |a| >= 2 && !IsNtSeparator(a[0]) && a[1] == ':' then a[2..] else a;
    path != [] && !IsNtSeparator(path[|path| - 1])
  }

  /** `ntpath.join(a, b)` for a relative component `b` with no drive. */
  function NtJoin(a: string, b: string): (r: string)
    ensures r == a + "\\" + b || r == a + b
  {
    if NtAddsSeparator(a) then a + "\\" + b else a + b
  }

  /** `posixpath.join(a, b)` for a relative component `b`. */
  function PosixJoin(a: string, b: string): (r: string)
    ensures r == a + "/" + b || r == a + b
  {
    if a == [] || a[|a| - 1] == '/' then a + b else a + "/" + b
  }

  /** `os.path.join(envName, "Scripts", "activate.bat")`. */
  function ActivationScript(envName: string, isNt: bool): (path: string)
    ensures isNt ==> path == NtJoin(envName, "Scripts") + "\\activate.bat"
    ensures !isNt ==> path == PosixJoin(envName, "Scripts") + "/activate.bat"
  {
    if isNt then NtJoin(NtJoin(envName, "Scripts"), "activate.bat")
    else PosixJoin(PosixJoin(envName, "Scripts"), "activate.bat")
  }

  /** The command line run in the new terminal, by environment type. */
  function ActivationCommand(envType: string, envName: string, isNt: bool): string {
    if envType == "venv" then "call " + ActivationScript(envName, isNt) + VenvSuffix
    else if envType == "conda" then "conda activate " + envName + CondaSuffix
    else UnknownTypeCommand
  }

  /** `launch_activated_cmd(env_type, env_name, console)` on a platform where
      `os.name == "nt"` exactly when `isNt`; `popenRaises` says whether
      starting the terminal fails. */
  function LaunchActivatedCmd(envType: string, envName: string, isNt: bool, popenRaises: bool): (r: Launch)
    ensures r.NoName? <==> envName == []
    ensures !r.NoName? ==> (r.LaunchFailed? <==> popenRaises)
    ensures !r.NoName? && isNt ==> r.argv == ["cmd.exe", "/K", ActivationCommand(envType, envName, isNt)] && r.creationFlags == CreateNewConsole
    ensures !r.NoName? && !isNt ==> r.argv == ["/bin/bash", "-c", ActivationCommand(envType, envName, isNt)] && r.creationFlags == 0
  {
    if envName == [] then NoName
    else
      var flags := if isNt then CreateNewConsole else 0;
      var command := ActivationCommand(envType, envName, isNt);
      var argv := if isNt then ["cmd.exe", "/K", command] else ["/bin/bash", "-c", command];
      if popenRaises then LaunchFailed(argv, flags) else Launched(argv, flags)
  }

  // ---------------------------------------------------------------------
  // reading the command back

  /** The middle of `s` when it starts with `prefix` and ends with `suffix`. */
  function Between(s: string, prefix: string, suffix: string): (r: Option<string>)
    ensures r.Some? ==> s == prefix + r.value + suffix
  {
    if |s| >= |prefix| + |suffix| && s[..|prefix|] == prefix && s[|s| - |suffix|..] == suffix then
      var middle := s[|prefix|..|s| - |suffix|];
      assert s == s[..|prefix|] + middle + s[|s| - |suffix|..];
      Some(middle)
    else None
  }

  lemma BetweenOf(prefix: string, middle: string, suffix: string)
    ensures Between(prefix + middle + suffix, prefix, suffix) == Some(middle)
  {
    var s := prefix + middle + suffix;
    assert s[..|prefix|] == prefix;
    assert s[|s| - |suffix|..] == suffix;
    assert s[|prefix|..|s| - |suffix|] == middle;
  }

  /** The conda environment a command activates, read back from the command. */
  function ActivatedCondaEnv(command: string): Option<string> {
    Between(command, "conda activate ", CondaSuffix)
  }

  /** The terminal for a conda environment activates exactly that
      environment: the name is recovered from the command line. */
  lemma CondaCommandActivates(envName: string, isNt: bool)
    ensures ActivatedCondaEnv(ActivationCommand("conda", envName, isNt)) == Some(envName)
  {
    BetweenOf("conda activate ", envName, CondaSuffix);
  }

  /** Different conda environments give different commands. */
  lemma CondaCommandInjective(a: string, b: string, isNt: bool)
    requires ActivationCommand("conda", a, isNt) == ActivationCommand("conda", b, isNt)
    ensures a == b
  {
    CondaCommandActivates(a, isNt);
    CondaCommandActivates(b, isNt);
  }

  /** The activation script a venv command calls, read back from the command. */
  function CalledScript(command: string): Option<string> {
    Between(command, "call ", VenvSuffix)
  }

  /** The terminal for a venv calls the `activate.bat` under the venv's
      `Scripts` directory, whichever way the path was joined. */
  lemma VenvCommandCallsScript(envName: string, isNt: bool)
    ensures CalledScript(ActivationCommand("venv", envName, isNt)) == Some(ActivationScript(envName, isNt))
    ensures var script := ActivationScript(envName, isNt);
      |script| >= |envName| && script[..|envName|] == envName
  {
    BetweenOf("call ", ActivationScript(envName, isNt), VenvSuffix);
    var script := ActivationScript(envName, isNt);
    if isNt {
      var dir := NtJoin(envName, "Scripts");
      assert script == dir + "\\activate.bat";
      assert dir[..|envName|] == envName;
    } else {
      var dir := PosixJoin(envName, "Scripts");
      assert script == dir + "/activate.bat";
      assert dir[..|envName|] == envName;
    }
  }

  /** On Windows a trailing separator on the venv name makes no difference:
      `env` and `env\` activate the same script. */
  lemma NtTrailingSeparatorIgnored(envName: string)
    requires |envName| >= 1 && !IsNtSeparator(envName[|envName| - 1])
    requires !(|envName| == 2 && !IsNtSeparator(envName[0]) && envName[1] == ':')
    ensures ActivationScript(envName + "\\", true) == ActivationScript(envName, true)
  {
    var a := envName + "\\";
    if |envName| >= 2 && !IsNtSeparator(envName[0]) && envName[1] == ':' {
      assert a[2..] == envName[2..] + "\\";
    }
    assert NtAddsSeparator(envName);
    assert !NtAddsSeparator(a);
    assert a + "Scripts" == envName + "\\" + "Scripts";
  }

  /** An unknown environment type runs the same error command whatever the name. */
  lemma UnknownTypeIgnoresName(envType: string, a: string, b: string, isNt: bool)
    requires envType != "venv" && envType != "conda"
    ensures ActivationCommand(envType, a, isNt) == ActivationCommand(envType, b, isNt) == UnknownTypeCommand
  {
  }
}

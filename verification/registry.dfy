/** The environment registry: unique-name resolution for new environments,
    parsing of `conda env list` output, and discovery of local venvs
    (backend_functions.py). */
module Registry {
  import opened PyStr
  import Decimal
  import opened Outcomes

  /** The name used when the user leaves the name field empty. */
  const DefaultEnvName: string := "myenv"

  /** `env_name or "myenv"`: an empty name falls back to the default. */
  function BaseName(envName: string): (base: string)
    ensures base != []
    ensures envName != [] ==> base == envName
  {
    if envName == [] then DefaultEnvName else envName
  }

  /** The `k`-th name tried: `base`, then `base_1`, `base_2`, ... */
  function Candidate(base: string, k: nat): (name: string)
    ensures |base| <= |name| && name[..|base|] == base
    ensures name == base <==> k == 0
  {
    if k == 0 then base else base + "_" + Decimal.NatToString(k)
  }

  /** Different suffix indices give different names. */
  lemma CandidateInjective(base: string, j: nat, k: nat)
    requires Candidate(base, j) == Candidate(base, k)
    ensures j == k
  {
    if j > 0 && k > 0 {
      var p := base + "_";
      assert Candidate(base, j)[|p|..] == Decimal.NatToString(j);
      assert Candidate(base, k)[|p|..] == Decimal.NatToString(k);
      Decimal.NatToStringInjective(j, k);
    }
  }

  /** If the first `n` candidates are all taken, at least `n` names are taken. */
  lemma {:induction false} CandidatesBound(base: string, n: nat, taken: set<string>)
    requires forall j :: 0 <= j < n ==> Candidate(base, j) in taken
    ensures n <= |taken|
    decreases n
  {
    if n > 0 {
      var last := Candidate(base, n - 1);
      var rest := taken - {last};
      forall j | 0 <= j < n - 1
        ensures Candidate(base, j) in rest
      {
        if Candidate(base, j) == last {
          CandidateInjective(base, j, n - 1);
        }
      }
      CandidatesBound(base, n - 1, rest);
    }
  }

  /** Index of the first free candidate at or after `from`, when every
      candidate before `from` is taken. */
  function FreeIndex(base: string, taken: set<string>, from: nat): (k: nat)
    requires forall j :: 0 <= j < from ==> Candidate(base, j) in taken
    ensures from <= k <= |taken|
    ensures Candidate(base, k) !in taken
    ensures forall j :: 0 <= j < k ==> Candidate(base, j) in taken
    decreases |taken| - from
  {
    if Candidate(base, from) in taken then
      CandidatesBound(base, from + 1, taken);
      FreeIndex(base, taken, from + 1)
    else
      CandidatesBound(base, from, taken);
      from
  }

  /** The first of `base, base_1, base_2, ...` that is not taken. */
  function UniqueName(base: string, taken: set<string>): string {
    Candidate(base, FreeIndex(base, taken, 0))
  }

  /** The name search loop of `create_virtual_env` and `create_conda_env`:
      returns the first free candidate and its suffix index; every earlier
      candidate is taken, and the index never exceeds the number of taken names. */
  method ResolveUniqueName(base: string, taken: set<string>) returns (finalName: string, num: nat)
    ensures finalName == Candidate(base, num) && finalName !in taken
    ensures forall j :: 0 <= j < num ==> Candidate(base, j) in taken
    ensures num <= |taken|
    ensures finalName == UniqueName(base, taken)
  {
    finalName := base;
    num := 0;
    while finalName in taken
      invariant finalName == Candidate(base, num)
      invariant forall j :: 0 <= j < num ==> Candidate(base, j) in taken
      decreases |taken| - num
    {
      CandidatesBound(base, num + 1, taken);
      num := num + 1;
      finalName := if num > 0 then base + "_" + Decimal.NatToString(num) else base;
    }
    CandidatesBound(base, num, taken);
    UniqueIndex(base, taken, num);
  }

  /** Only one index has a free candidate with every earlier candidate taken. */
  lemma UniqueIndex(base: string, taken: set<string>, k: nat)
    requires Candidate(base, k) !in taken
    requires forall j :: 0 <= j < k ==> Candidate(base, j) in taken
    ensures FreeIndex(base, taken, 0) == k
  {
  }

  /** `create_virtual_env`: the venv name chosen against the paths that
      already exist, the `py -<version> -m venv <name>` command, and the
      outcome of running it (`check_call` raises on failure). */
  datatype VenvCreation = VenvCreation(command: seq<string>, outcome: Result<string, Failure>)

  function CreateVirtualEnv(envName: string, pythonVersion: string, existingPaths: set<string>,
                            run: ProcessResult): (c: VenvCreation)
    ensures var finalName := UniqueName(BaseName(envName), existingPaths);
      && finalName !in existingPaths
      && c.command == ["py", "-" + pythonVersion, "-m", "venv", finalName]
      && (c.outcome.Ok? <==> run.Exited? && run.code == 0)
      && (c.outcome.Ok? ==> c.outcome.value == finalName)
      && (run.NotFound? ==> c.outcome == Err(ExecutableNotFound))
      && (run.Raised? ==> c.outcome == Err(OtherError))
      && (run.Exited? && run.code != 0 ==> c.outcome == Err(CalledProcessError(run.code)))
  {
    var base := BaseName(envName);
    var finalName := UniqueName(base, existingPaths);
    var command := ["py", "-" + pythonVersion, "-m", "venv", finalName];
    match run
    case NotFound => VenvCreation(command, Err(ExecutableNotFound))
    case Raised => VenvCreation(command, Err(OtherError))
    case Exited(code, _) =>
      if code != 0 then VenvCreation(command, Err(CalledProcessError(code)))
      else VenvCreation(command, Ok(finalName))
  }

  // ---------------------------------------------------------------------
  // conda env list

  /** The line filter of `list_conda_envs`: non-blank after stripping, not a
      `#` comment (checked on the unstripped line), and containing a space. */
  predicate ListsEnv(line: string) {
    Strip(line) != [] && !StartsWith(line, '#') && ' ' in line
  }

  /** `line.split()[0].strip()`: the first whitespace-separated word. */
  function EnvName(line: string): (name: string)
    requires ListsEnv(line)
    ensures IsToken(name)
  {
    StripEmptyIff(line);
    var word := SplitWs(line)[0];
    StripClean(word);
    Strip(word)
  }

  /** The name taken from a listed line is its first maximal run of
      non-whitespace characters. */
  lemma EnvNameFirstWord(line: string)
    requires ListsEnv(line)
    ensures EnvName(line) == LStrip(line)[..TokenLength(LStrip(line))]
  {
    StripEmptyIff(line);
    StripClean(SplitWs(line)[0]);
  }

  /** What one output line contributes: its first word when it passes the filter. */
  function LineEnv(line: string): (names: seq<string>)
    ensures |names| <= 1
    ensures forall k :: 0 <= k < |names| ==> IsToken(names[k])
  {
    if ListsEnv(line) then [EnvName(line)] else []
  }

  /** The names listed by `conda env list` output lines, in line order. */
  function ParseEnvList(lines: seq<string>): (envs: seq<string>)
    ensures |envs| <= |lines|
    ensures forall k :: 0 <= k < |envs| ==> IsToken(envs[k])
  {
    if lines == [] then []
    else
      var head := LineEnv(lines[0]);
      var tail := ParseEnvList(lines[1..]);
      AppendTokens(head, tail);
      head + tail
  }

  lemma AppendTokens(a: seq<string>, b: seq<string>)
    requires forall k :: 0 <= k < |a| ==> IsToken(a[k])
    requires forall k :: 0 <= k < |b| ==> IsToken(b[k])
    ensures forall k :: 0 <= k < |a + b| ==> IsToken((a + b)[k])
  {
    forall k | 0 <= k < |a + b|
      ensures IsToken((a + b)[k])
    {
      if k >= |a| {
        assert (a + b)[k] == b[k - |a|];
      }
    }
  }

  /** The line passes the filter and its first word is `name`. */
  predicate ListsName(line: string, name: string) {
    ListsEnv(line) && EnvName(line) == name
  }

  /** A name is listed exactly when some line passes the filter and starts with it. */
  lemma ParseEnvListMembers(lines: seq<string>, name: string)
    ensures name in ParseEnvList(lines) <==> exists i :: 0 <= i < |lines| && ListsName(lines[i], name)
  {
    ParseEnvListContributions(lines, name);
    forall i | 0 <= i < |lines|
      ensures name in LineEnv(lines[i]) <==> ListsName(lines[i], name)
    {
      LineEnvMember(lines[i], name);
    }
  }

  lemma LineEnvMember(line: string, name: string)
    ensures name in LineEnv(line) <==> ListsName(line, name)
  {
    if ListsEnv(line) {
      var word := EnvName(line);
      assert LineEnv(line) == [word];
      assert name in [word] <==> name == word;
    } else {
      assert LineEnv(line) == [];
    }
  }

  /** A name is listed exactly when some line contributes it. */
  lemma {:induction false} ParseEnvListContributions(lines: seq<string>, name: string)
    ensures name in ParseEnvList(lines) <==> exists i :: 0 <= i < |lines| && name in LineEnv(lines[i])
    decreases |lines|
  {
    if lines != [] {
      var tail := lines[1..];
      ParseEnvListContributions(tail, name);
      assert ParseEnvList(lines) == LineEnv(lines[0]) + ParseEnvList(tail);
      if name in ParseEnvList(tail) {
        var i :| 0 <= i < |tail| && name in LineEnv(tail[i]);
        assert lines[i + 1] == tail[i];
      }
      if exists i :: 0 <= i < |lines| && name in LineEnv(lines[i]) {
        var i :| 0 <= i < |lines| && name in LineEnv(lines[i]);
        if i > 0 {
          assert tail[i - 1] == lines[i];
        }
      }
    }
  }

  /** Parsing is line by line: the names of two consecutive blocks of output
      are the names of the first block followed by those of the second. */
  lemma {:induction false} ParseEnvListAppend(a: seq<string>, b: seq<string>)
    ensures ParseEnvList(a + b) == ParseEnvList(a) + ParseEnvList(b)
    decreases |a|
  {
    if a == [] {
      assert a + b == b;
    } else {
      assert (a + b)[0] == a[0];
      assert (a + b)[1..] == a[1..] + b;
      ParseEnvListAppend(a[1..], b);
    }
  }

  /** A single line contributes its first word exactly when it passes the filter. */
  lemma ParseEnvListLine(line: string)
    ensures ParseEnvList([line]) == if ListsEnv(line) then [EnvName(line)] else []
  {
    assert [line][1..] == [];
  }

  /** `list_conda_envs`: a missing conda executable or a non-zero exit status
      yields the empty list (the error is only logged); any other exception
      of `check_output` escapes; otherwise the output is cut into lines and
      parsed. */
  function ListCondaEnvs(conda: ProcessResult): (r: Result<seq<string>, Failure>)
    ensures conda.Raised? <==> r.Err?
    ensures r.Err? ==> r.error == OtherError
    ensures conda.NotFound? || (conda.Exited? && conda.code != 0) ==> r == Ok([])
    ensures conda.Exited? && conda.code == 0 ==> r == Ok(ParseEnvList(SplitLines(conda.output)))
  {
    match conda
    case NotFound => Ok([])
    case Raised => Err(OtherError)
    case Exited(code, output) => if code != 0 then Ok([]) else Ok(ParseEnvList(SplitLines(output)))
  }

  /** When conda prints one `\n`-terminated line per entry, the names listed
      are those of the printed lines that pass the filter. */
  lemma ListCondaEnvsOfLines(lines: seq<string>)
    requires forall k :: 0 <= k < |lines| ==> NoLineBreak(lines[k])
    ensures ListCondaEnvs(Exited(0, Terminated(lines))) == Ok(ParseEnvList(lines))
  {
    SplitLinesTerminated(lines);
  }

  function Elements(s: seq<string>): (e: set<string>)
    ensures |e| <= |s|
    ensures forall x :: x in e <==> x in s
  {
    if s == [] then {} else {s[0]} + Elements(s[1..])
  }

  /** `create_conda_env`: the first candidate name that `list_conda_envs`
      does not list, or the exception `list_conda_envs` lets escape. The
      listing is taken once; the source re-runs it on every iteration and
      the model assumes it does not change meanwhile. */
  function CreateCondaEnv(envName: string, conda: ProcessResult): (r: Result<string, Failure>)
    ensures conda.Raised? <==> r.Err?
    ensures r.Err? ==> r.error == OtherError
    ensures r.Ok? ==> var listed := ListCondaEnvs(conda).value;
      && r.value !in listed
      && exists k: nat :: k <= |listed| && r.value == Candidate(BaseName(envName), k)
           && forall j :: 0 <= j < k ==> Candidate(BaseName(envName), j) in listed
  {
    match ListCondaEnvs(conda)
    case Err(e) => Err(e)
    case Ok(listed) =>
      var taken := Elements(listed);
      var k := FreeIndex(BaseName(envName), taken, 0);
      Ok(Candidate(BaseName(envName), k))
  }

  /** When conda is unavailable the requested (or default) name is used as is. */
  lemma CreateCondaEnvWithoutConda(envName: string)
    ensures CreateCondaEnv(envName, NotFound) == Ok(BaseName(envName))
  {
    var k := FreeIndex(BaseName(envName), {}, 0);
    assert k == 0;
  }

  // ---------------------------------------------------------------------
  // local venvs

  /** One entry of `os.listdir`: its name, whether it is a directory, and
      whether `<name>/Scripts/activate.bat` exists. */
  datatype DirEntry = DirEntry(name: string, isDir: bool, hasActivateScript: bool)

  /** The directory listing, or the `OSError` that `os.listdir` raises. */
  datatype Listing = Unreadable | Entries(entries: seq<DirEntry>)

  predicate IsVenv(e: DirEntry) {
    e.isDir && e.hasActivateScript
  }

  /** The names of the qualifying entries, in listing order. */
  function VenvNames(entries: seq<DirEntry>): (names: seq<string>)
    ensures |names| <= |entries|
    ensures forall name :: name in names <==> exists i :: 0 <= i < |entries| && IsVenv(entries[i]) && entries[i].name == name
  {
    if entries == [] then []
    else
      var head := if IsVenv(entries[0]) then [entries[0].name] else [];
      assert forall i :: 1 <= i < |entries| ==> entries[i] == entries[1..][i - 1];
      head + VenvNames(entries[1..])
  }

  /** No venv is reported exactly when no entry qualifies. */
  lemma VenvNamesEmpty(entries: seq<DirEntry>)
    ensures VenvNames(entries) == [] <==> forall i :: 0 <= i < |entries| ==> !IsVenv(entries[i])
  {
    var names := VenvNames(entries);
    if exists i :: 0 <= i < |entries| && IsVenv(entries[i]) {
      var i :| 0 <= i < |entries| && IsVenv(entries[i]);
      assert entries[i].name in names;
    }
    if names != [] {
      assert names[0] in names;
    }
  }

  /** Discovery keeps listing order: the venvs of two consecutive blocks of
      entries are those of the first block followed by those of the second. */
  lemma {:induction false} VenvNamesAppend(a: seq<DirEntry>, b: seq<DirEntry>)
    ensures VenvNames(a + b) == VenvNames(a) + VenvNames(b)
    decreases |a|
  {
    if a == [] {
      assert a + b == b;
    } else {
      assert (a + b)[0] == a[0];
      assert (a + b)[1..] == a[1..] + b;
      VenvNamesAppend(a[1..], b);
    }
  }

  /** `find_local_venvs`: the names of the subdirectories holding
      `Scripts/activate.bat`; an unreadable directory raises. */
  function FindLocalVenvs(listing: Listing): (r: Result<seq<string>, Failure>)
    ensures listing.Unreadable? <==> r.Err?
    ensures r.Err? ==> r.error == ReadError
    ensures r.Ok? ==> r.value == VenvNames(listing.entries)
  {
    match listing
    case Unreadable => Err(ReadError)
    case Entries(entries) => Ok(VenvNames(entries))
  }
}

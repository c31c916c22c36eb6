/** `InstallWorker.run` (backend_functions.py): runs a command with standard
    output and error merged into one text pipe, emits every line it reads,
    stripped, and finally emits the exit status with the environment name. */
module ProcessRunner {
  import opened PyStr
  import opened TextIO

  /** The worker's two signals, in the order the thread emits them. */
  datatype Event = Output(line: string) | Finished(returnCode: int, envName: string)

  /** What becomes of the command: `Popen` raises (the executable is
      missing or not permitted, or the command is not something `Popen`
      accepts) and the thread ends with no signal; or the child runs but a
      read meets bytes the locale codec cannot decode, so `readline` raises
      `UnicodeDecodeError` after returning `linesRead` and the thread ends
      without a finished signal; or the child runs, writes `output` to the
      pipe as decodable characters, and exits with `exitCode`. */
  datatype Child =
    | SpawnFailed
    | ReadFailed(linesRead: seq<string>)
    | Ran(output: string, exitCode: int)

  /** The read loop: `readline` until it returns the empty string, which on a
      pipe happens only at end of stream, emitting each line stripped. */
  function OutputLines(text: string): (r: seq<string>)
    ensures |r| <= |text|
    ensures r == [] <==> text == []
    decreases |text|
  {
    var (line, rest) := ReadLine(text);
    if line == [] then [] else [Strip(line)] + OutputLines(rest)
  }

  function StripAll(lines: seq<string>): (r: seq<string>)
    ensures |r| == |lines|
    ensures forall k :: 0 <= k < |lines| ==> r[k] == Strip(lines[k])
  {
    if lines == [] then [] else [Strip(lines[0])] + StripAll(lines[1..])
  }

  /** A `\n`-terminated first line is emitted stripped, and the loop goes on
      with the rest. */
  lemma OutputLinesCons(l: string, rest: string)
    requires '\n' !in l
    ensures OutputLines(l + "\n" + rest) == [Strip(l)] + OutputLines(rest)
  {
    ReadLineAt(l, rest);
    StripTrailingSpace(l, '\n');
  }

  /** An unterminated last line is emitted stripped, unless it is empty. */
  lemma OutputLinesLast(tail: string)
    requires '\n' !in tail
    ensures OutputLines(tail) == if tail == [] then [] else [Strip(tail)]
  {
    ReadLineLast(tail);
  }

  /** A stream of `\n`-terminated lines: every line is emitted once,
      stripped and in order, blank lines included. */
  lemma {:induction false} OutputLinesOf(lines: seq<string>)
    requires forall k :: 0 <= k < |lines| ==> '\n' !in lines[k]
    ensures OutputLines(Terminated(lines)) == StripAll(lines)
    decreases |lines|
  {
    if lines != [] {
      var l := lines[0];
      var rest := Terminated(lines[1..]);
      assert Terminated(lines) == l + "\n" + rest;
      OutputLinesCons(l, rest);
      OutputLinesOf(lines[1..]);
    }
  }

  function Outputs(lines: seq<string>): (r: seq<Event>)
    ensures |r| == |lines|
    ensures forall k :: 0 <= k < |lines| ==> r[k] == Output(lines[k])
  {
    seq(|lines|, k requires 0 <= k < |lines| => Output(lines[k]))
  }

  /** `InstallWorker(command, console, envName).run()` for the child it spawns. */
  function Trace(child: Child, envName: string): (r: seq<Event>)
    ensures child.SpawnFailed? ==> r == []
    ensures child.ReadFailed? ==> |r| == |child.linesRead| && forall k :: 0 <= k < |r| ==> r[k] == Output(Strip(child.linesRead[k]))
    ensures (r != [] && r[|r| - 1].Finished?) <==> child.Ran?
    ensures child.Ran? ==> r[|r| - 1] == Finished(child.exitCode, envName)
    ensures forall k :: 0 <= k < |r| - 1 ==> r[k].Output?
  {
    match child
    case SpawnFailed => []
    case ReadFailed(linesRead) => Outputs(StripAll(linesRead))
    case Ran(output, exitCode) => Outputs(OutputLines(ReadNewlines(output))) + [Finished(exitCode, envName)]
  }

  /** A child that writes `lines` (with no line break inside any of them), one
      per line, produces one output signal per line, stripped, then the
      finished signal. */
  lemma TraceOfLines(lines: seq<string>, exitCode: int, envName: string, linesep: string)
    requires forall k :: 0 <= k < |lines| ==> '\n' !in lines[k] && '\r' !in lines[k]
    requires IsLineSeparator(linesep)
    ensures Trace(Ran(WriteNewlines(Terminated(lines), linesep), exitCode), envName)
      == Outputs(StripAll(lines)) + [Finished(exitCode, envName)]
  {
    var text := Terminated(lines);
    TerminatedNoReturn(lines);
    NewlinesRoundTrip(text, linesep);
    OutputLinesOf(lines);
    assert OutputLines(ReadNewlines(WriteNewlines(text, linesep))) == StripAll(lines);
  }

  lemma {:induction false} TerminatedNoReturn(lines: seq<string>)
    requires forall k :: 0 <= k < |lines| ==> '\r' !in lines[k]
    ensures '\r' !in Terminated(lines)
    decreases |lines|
  {
    if lines != [] {
      TerminatedNoReturn(lines[1..]);
    }
  }

  /** The finished signal is the last event and the only one of its kind:
      it reaches the page once for a child that ran, and never for one that
      could not be spawned or whose output could not be read. */
  lemma FinishedOnlyLast(child: Child, envName: string, k: nat)
    requires var r := Trace(child, envName); k < |r| && r[k].Finished?
    ensures child.Ran? && k == |Trace(child, envName)| - 1
  {
  }
}

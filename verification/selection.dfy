/** The selection store: `save_selected_env` writes `type\nname` to the
    settings file in text mode and `load_selected_env` reads two stripped
    lines back (backend_functions.py). */
module SelectionStore {
  import opened PyStr
  import opened Outcomes
  import opened TextIO

  /** The settings file as `open` finds it: absent (`FileNotFoundError`),
      present but unreadable (any other `OSError` or a decoding error), or
      present with the given characters on disk. */
  datatype FileState = Missing | Unreadable | Present(content: string)

  /** What `load_selected_env` returns: `(None, None)`, or the two stripped lines. */
  datatype Selection = NoSelection | Stored(envType: string, envName: string)

  /** `save_selected_env`: the file afterwards holds `type\nname` as text
      mode writes it, so reading it in text mode gives that text back. */
  function SaveSelectedEnv(envType: string, envName: string, linesep: string): (f: FileState)
    ensures f.Present?
    ensures '\r' !in envType && '\r' !in envName && IsLineSeparator(linesep) ==>
      ReadNewlines(f.content) == envType + "\n" + envName
  {
    var text := envType + "\n" + envName;
    if '\r' !in envType && '\r' !in envName && IsLineSeparator(linesep) then
      NewlinesRoundTrip(text, linesep);
      Present(WriteNewlines(text, linesep))
    else
      Present(WriteNewlines(text, linesep))
  }

  /** No line break inside and no whitespace at either end. */
  predicate IsCleanField(s: string) {
    && '\n' !in s && '\r' !in s
    && (s == [] || (!IsSpace(s[0]) && !IsSpace(s[|s| - 1])))
  }

  /** `load_selected_env`: a missing file gives `(None, None)`; an unreadable
      one raises; otherwise the first two lines, each stripped (an absent
      line reads as empty), so both fields come back clean. */
  function LoadSelectedEnv(file: FileState): (r: Result<Selection, Failure>)
    ensures file.Missing? <==> r == Ok(NoSelection)
    ensures file.Unreadable? <==> r.Err?
    ensures file.Present? ==> r.Ok? && r.value.Stored? && IsCleanField(r.value.envType) && IsCleanField(r.value.envName)
  {
    match file
    case Missing => Ok(NoSelection)
    case Unreadable => Err(ReadError)
    case Present(content) => Ok(ParseSelection(ReadNewlines(content)))
  }

  /** The two `readline` calls on the text as read. */
  function ParseSelection(text: string): (sel: Selection)
    requires '\r' !in text
    ensures sel.Stored? && IsCleanField(sel.envType) && IsCleanField(sel.envName)
  {
    var (first, rest) := ReadLine(text);
    var (second, remaining) := ReadLine(rest);
    SubstringNoReturn(first, rest);
    SubstringNoReturn(second, remaining);
    StripLine(first);
    StripLine(second);
    Stored(Strip(first), Strip(second))
  }

  lemma SubstringNoReturn(a: string, b: string)
    requires '\r' !in a + b
    ensures '\r' !in a && '\r' !in b
  {
    assert forall k :: 0 <= k < |a| ==> a[k] == (a + b)[k];
    assert forall k :: 0 <= k < |b| ==> b[k] == (a + b)[|a| + k];
  }

  /** A line as `readline` returns it loses its only `\n` when stripped. */
  lemma StripLine(line: string)
    requires '\r' !in line
    requires |line| > 0 ==> '\n' !in line[..|line| - 1]
    ensures IsCleanField(Strip(line))
  {
  }

  /** Whatever follows the second line, the selection is the first two
      lines, stripped. */
  lemma ParseFirstTwo(a: string, b: string, rest: string)
    requires '\n' !in a && '\n' !in b
    requires '\r' !in a + "\n" + b + "\n" + rest
    ensures ParseSelection(a + "\n" + b + "\n" + rest) == Stored(Strip(a), Strip(b))
  {
    assert a + "\n" + b + "\n" + rest == a + "\n" + (b + "\n" + rest);
    ReadLineAt(a, b + "\n" + rest);
    ReadLineAt(b, rest);
    StripTrailingSpace(a, '\n');
    StripTrailingSpace(b, '\n');
  }

  /** A readable file whose text, as read, has at least two lines yields
      its first two lines, stripped. */
  lemma LoadFirstTwo(content: string, a: string, b: string, rest: string)
    requires ReadNewlines(content) == a + "\n" + b + "\n" + rest
    requires '\n' !in a && '\n' !in b
    ensures LoadSelectedEnv(Present(content)) == Ok(Stored(Strip(a), Strip(b)))
  {
    ParseFirstTwo(a, b, rest);
  }

  /** A file of one line gives that line, stripped, and an empty name. */
  lemma ParseOneLine(a: string)
    requires '\n' !in a && '\r' !in a
    ensures ParseSelection(a) == Stored(Strip(a), [])
  {
    ReadLineLast(a);
    ReadLineLast([]);
  }

  /** Saving then loading gives back the two fields, stripped, whenever
      neither holds a line break of its own. */
  lemma LoadAfterSave(envType: string, envName: string, linesep: string)
    requires '\n' !in envType && '\r' !in envType
    requires '\n' !in envName && '\r' !in envName
    requires IsLineSeparator(linesep)
    ensures LoadSelectedEnv(SaveSelectedEnv(envType, envName, linesep)) == Ok(Stored(Strip(envType), Strip(envName)))
  {
    var text := envType + "\n" + envName;
    NewlinesRoundTrip(text, linesep);
    ReadLineAt(envType, envName);
    ReadLineLast(envName);
    StripTrailingSpace(envType, '\n');
  }

  /** The selection round-trips exactly for clean fields. */
  lemma SelectionRoundTrip(envType: string, envName: string, linesep: string)
    requires IsCleanField(envType) && IsCleanField(envName)
    requires IsLineSeparator(linesep)
    ensures LoadSelectedEnv(SaveSelectedEnv(envType, envName, linesep)) == Ok(Stored(envType, envName))
  {
    LoadAfterSave(envType, envName, linesep);
    StripClean(envType);
    StripClean(envName);
  }
}

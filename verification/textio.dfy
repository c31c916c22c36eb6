/** Text-mode streams: how Python's `open(..., "w")` writes newlines, how
    text-mode reading (files and `text=True` pipes) reads them back, and
    `readline`. */
module TextIO {
  import opened PyStr

  /** `os.linesep`: what text-mode writing puts on disk for each `\n`. */
  predicate IsLineSeparator(linesep: string) {
    linesep == "\n" || linesep == "\r\n"
  }

  /** Text-mode writing: every `\n` becomes the platform line separator. */
  function WriteNewlines(text: string, linesep: string): (content: string)
    ensures linesep == "\n" ==> content == text
    decreases |text|
  {
    if text == [] then []
    else (if text[0] == '\n' then linesep else [text[0]]) + WriteNewlines(text[1..], linesep)
  }

  /** Text-mode reading with universal newlines: `\r\n` and a lone `\r` both
      read as `\n`. */
  function ReadNewlines(content: string): (text: string)
    ensures '\r' !in text
    decreases |content|
  {
    if content == [] then []
    else if content[0] == '\r' then
      if |content| > 1 && content[1] == '\n' then "\n" + ReadNewlines(content[2..])
      else "\n" + ReadNewlines(content[1..])
    else [content[0]] + ReadNewlines(content[1..])
  }

  /** Reading back what text mode wrote gives the text again, provided it
      holds no carriage return. */
  lemma {:induction false} NewlinesRoundTrip(text: string, linesep: string)
    requires '\r' !in text
    requires IsLineSeparator(linesep)
    ensures ReadNewlines(WriteNewlines(text, linesep)) == text
    decreases |text|
  {
    if text != [] {
      var rest := WriteNewlines(text[1..], linesep);
      NewlinesRoundTrip(text[1..], linesep);
      if text[0] == '\n' {
        var w := linesep + rest;
        if linesep == "\r\n" {
          assert w[0] == '\r' && w[1] == '\n' && w[2..] == rest;
        } else {
          assert w[0] == '\n' && w[1..] == rest;
        }
      } else {
        assert ([text[0]] + rest)[1..] == rest;
      }
      assert text == [text[0]] + text[1..];
    }
  }

  /** `f.readline()`: the text up to and including the first `\n` (or all of
      it when there is none), and what is left to read. */
  function ReadLine(text: string): (r: (string, string))
    ensures r.0 + r.1 == text
    ensures |r.0| > 0 ==> '\n' !in r.0[..|r.0| - 1]
    ensures '\n' in r.0 || r.1 == []
  {
    var n := IndexOf(text, '\n');
    if n == |text| then
      (text, [])
    else
      assert text[..n + 1][..n] == text[..n];
      (text[..n + 1], text[n + 1..])
  }

  lemma ReadLineAt(a: string, b: string)
    requires '\n' !in a
    ensures ReadLine(a + "\n" + b) == (a + "\n", b)
  {
    IndexOfAt(a, "\n" + b, '\n');
    assert a + "\n" + b == a + ("\n" + b);
  }

  lemma ReadLineLast(a: string)
    requires '\n' !in a
    ensures ReadLine(a) == (a, [])
  {
    IndexOfAbsent(a, '\n');
  }
}

/** Python `str` semantics the application relies on: whitespace, `strip`,
    `split()` with no separator, `split(sep)`, `splitlines`, `startswith`
    and the ordering `<` used by `list.sort`. */
module PyStr {

  /** `str.isspace` for one character: the ASCII whitespace (including the
      information separators U+001C..U+001F) and the Unicode space characters. */
  predicate IsSpace(c: char) {
    || ('\t' <= c <= '\r')
    || ('\U{1C}' <= c <= ' ')
    || c == '\U{85}' || c == '\U{A0}' || c == '\U{1680}'
    || ('\U{2000}' <= c <= '\U{200A}')
    || c == '\U{2028}' || c == '\U{2029}' || c == '\U{202F}' || c == '\U{205F}'
    || c == '\U{3000}'
  }

  predicate AllSpace(s: string) {
    forall i :: 0 <= i < |s| ==> IsSpace(s[i])
  }

  predicate NoSpace(s: string) {
    forall i :: 0 <= i < |s| ==> !IsSpace(s[i])
  }

  /** `str.lstrip()`: drops the leading whitespace. */
  function LStrip(s: string): (r: string)
    ensures |r| <= |s| && r == s[|s| - |r|..]
    ensures forall k :: 0 <= k < |s| - |r| ==> IsSpace(s[k])
    ensures r == [] || !IsSpace(r[0])
    decreases |s|
  {
    if |s| > 0 && IsSpace(s[0]) then
      var r := LStrip(s[1..]);
      assert s[1..][|s| - 1 - |r|..] == s[|s| - |r|..];
      assert forall k :: 1 <= k < |s| ==> s[k] == s[1..][k - 1];
      r
    else s
  }

  /** `str.rstrip()`: drops the trailing whitespace. */
  function RStrip(s: string): (r: string)
    ensures |r| <= |s| && r == s[..|r|]
    ensures forall k :: |r| <= k < |s| ==> IsSpace(s[k])
    ensures r == [] || !IsSpace(r[|r| - 1])
    decreases |s|
  {
    if |s| > 0 && IsSpace(s[|s| - 1]) then
      var r := RStrip(s[..|s| - 1]);
      assert s[..|s| - 1][..|r|] == s[..|r|];
      assert forall k :: 0 <= k < |s| - 1 ==> s[k] == s[..|s| - 1][k];
      r
    else s
  }

  /** `r` is the slice of `s` starting at `i`, and only whitespace lies
      around it. */
  predicate Trimmed(s: string, r: string, i: int) {
    && 0 <= i && i + |r| <= |s| && r == s[i..i + |r|]
    && (forall k :: 0 <= k < i ==> IsSpace(s[k]))
    && (forall k :: i + |r| <= k < |s| ==> IsSpace(s[k]))
  }

  /** `str.strip()`: the input with its leading and trailing whitespace removed. */
  function Strip(s: string): (r: string)
    ensures exists i :: Trimmed(s, r, i)
    ensures r == [] || (!IsSpace(r[0]) && !IsSpace(r[|r| - 1]))
  {
    var l := LStrip(s);
    var r := RStrip(l);
    var i := |s| - |l|;
    assert r == s[i..i + |r|];
    assert forall k :: i + |r| <= k < |s| ==> s[k] == l[k - i];
    assert Trimmed(s, r, i);
    r
  }

  /** Left-stripping empties a string exactly when it is all whitespace. */
  lemma LStripEmptyIff(s: string)
    ensures LStrip(s) == [] <==> AllSpace(s)
  {
    var l := LStrip(s);
    if l == [] {
      assert s[..|s|] == s;
    } else {
      assert s[|s| - |l|] == l[0];
    }
  }

  /** A string is blank after stripping exactly when it is all whitespace. */
  lemma StripEmptyIff(s: string)
    ensures Strip(s) == [] <==> AllSpace(s)
  {
    LStripEmptyIff(s);
  }

  /** `LStrip` distributes over a concatenation. */
  lemma {:induction false} LStripAppend(a: string, b: string)
    ensures LStrip(a + b) == if LStrip(a) == [] then LStrip(b) else LStrip(a) + b
    decreases |a|
  {
    if |a| == 0 {
      assert a + b == b;
    } else if IsSpace(a[0]) {
      assert (a + b)[1..] == a[1..] + b;
      LStripAppend(a[1..], b);
    } else {
    }
  }

  /** Appending trailing whitespace does not change the stripped text. */
  lemma StripTrailingSpace(a: string, c: char)
    requires IsSpace(c)
    ensures Strip(a + [c]) == Strip(a)
  {
    LStripAppend(a, [c]);
    if LStrip(a) != [] {
      assert (LStrip(a) + [c])[..|LStrip(a)|] == LStrip(a);
    }
  }

  /** Stripping a string without edge whitespace gives it back. */
  lemma StripClean(s: string)
    requires s == [] || (!IsSpace(s[0]) && !IsSpace(s[|s| - 1]))
    ensures Strip(s) == s
  {
  }

  /** Length of the leading run of non-whitespace characters. */
  function TokenLength(s: string): (n: nat)
    ensures n <= |s|
    ensures NoSpace(s[..n])
    ensures n == |s| || IsSpace(s[n])
    decreases |s|
  {
    if |s| == 0 || IsSpace(s[0]) then 0 else 1 + TokenLength(s[1..])
  }

  /** A word of `str.split()`: non-empty and free of whitespace. */
  predicate IsToken(w: string) {
    w != [] && NoSpace(w)
  }

  lemma ConsTokens(w: string, ws: seq<string>)
    requires IsToken(w)
    requires forall k :: 0 <= k < |ws| ==> IsToken(ws[k])
    ensures forall k :: 0 <= k < |[w] + ws| ==> IsToken(([w] + ws)[k])
  {
    forall k | 0 <= k < |[w] + ws|
      ensures IsToken(([w] + ws)[k])
    {
      if k > 0 {
        assert ([w] + ws)[k] == ws[k - 1];
      }
    }
  }

  /** `str.split()` with no separator: the maximal runs of non-whitespace
      characters, in order. */
  function SplitWs(s: string): (r: seq<string>)
    ensures forall k :: 0 <= k < |r| ==> IsToken(r[k])
    ensures |r| == 0 <==> AllSpace(s)
    ensures !AllSpace(s) ==> r[0] == LStrip(s)[..TokenLength(LStrip(s))]
    decreases |s|
  {
    var t := LStrip(s);
    LStripEmptyIff(s);
    if t == [] then
      []
    else
      var n := TokenLength(t);
      assert n > 0;
      var token := t[..n];
      var rest := SplitWs(t[n..]);
      assert IsToken(token);
      ConsTokens(token, rest);
      [token] + rest
  }

  /** `str.startswith` for a one-character prefix. */
  predicate StartsWith(s: string, c: char) {
    |s| > 0 && s[0] == c
  }

  /** The line boundaries of `str.splitlines`. */
  predicate IsLineBreak(c: char) {
    || ('\n' <= c <= '\r')
    || ('\U{1C}' <= c <= '\U{1E}')
    || c == '\U{85}' || c == '\U{2028}' || c == '\U{2029}'
  }

  predicate NoLineBreak(s: string) {
    forall i :: 0 <= i < |s| ==> !IsLineBreak(s[i])
  }

  /** Index of the first line boundary, or the length when there is none. */
  function LineLength(s: string): (n: nat)
    ensures n <= |s|
    ensures NoLineBreak(s[..n])
    ensures n == |s| || IsLineBreak(s[n])
    decreases |s|
  {
    if |s| == 0 || IsLineBreak(s[0]) then 0 else 1 + LineLength(s[1..])
  }

  /** `str.splitlines()`: the text cut at every line boundary, `\r\n`
      counting as one boundary; a final boundary does not start an empty line. */
  function SplitLines(s: string): (r: seq<string>)
    ensures forall k :: 0 <= k < |r| ==> NoLineBreak(r[k])
    ensures |r| <= |s|
    decreases |s|
  {
    if s == [] then []
    else
      var n := LineLength(s);
      if n == |s| then [s]
      else
        var width := if s[n] == '\r' && n + 1 < |s| && s[n + 1] == '\n' then 2 else 1;
        [s[..n]] + SplitLines(s[n + width..])
  }

  /** Each line followed by a `\n`, as a program printing the lines writes them. */
  function Terminated(lines: seq<string>): string {
    if lines == [] then [] else lines[0] + "\n" + Terminated(lines[1..])
  }

  /** `splitlines` recovers lines written one per `\n`-terminated line. */
  lemma {:induction false} SplitLinesTerminated(lines: seq<string>)
    requires forall k :: 0 <= k < |lines| ==> NoLineBreak(lines[k])
    ensures SplitLines(Terminated(lines)) == lines
    decreases |lines|
  {
    if lines != [] {
      var l := lines[0];
      var rest := Terminated(lines[1..]);
      var s := Terminated(lines);
      assert s == l + ("\n" + rest);
      LineLengthAt(l, "\n" + rest);
      assert s[|l|] == '\n';
      assert s[..|l|] == l;
      assert s[|l| + 1..] == rest;
      SplitLinesTerminated(lines[1..]);
    }
  }

  lemma {:induction false} LineLengthAt(a: string, b: string)
    requires NoLineBreak(a)
    requires |b| > 0 && IsLineBreak(b[0])
    ensures LineLength(a + b) == |a|
    decreases |a|
  {
    if |a| > 0 {
      assert (a + b)[1..] == a[1..] + b;
      LineLengthAt(a[1..], b);
    }
  }

  /** Python's `<` on strings: code-point lexicographic order. */
  predicate LexLess(a: string, b: string)
    decreases |a|
  {
    if |a| == 0 then |b| > 0
    else if |b| == 0 then false
    else if a[0] != b[0] then a[0] < b[0]
    else LexLess(a[1..], b[1..])
  }

  lemma {:induction false} LexLessIrreflexive(a: string)
    ensures !LexLess(a, a)
    decreases |a|
  {
    if |a| > 0 {
      LexLessIrreflexive(a[1..]);
    }
  }

  lemma {:induction false} LexLessTransitive(a: string, b: string, c: string)
    requires LexLess(a, b) && LexLess(b, c)
    ensures LexLess(a, c)
    decreases |a|
  {
    if |a| > 0 && |b| > 0 && |c| > 0 && a[0] == b[0] && b[0] == c[0] {
      LexLessTransitive(a[1..], b[1..], c[1..]);
    }
  }

  lemma {:induction false} LexLessTotal(a: string, b: string)
    ensures a == b || LexLess(a, b) || LexLess(b, a)
    decreases |a|
  {
    if |a| > 0 && |b| > 0 && a[0] == b[0] {
      LexLessTotal(a[1..], b[1..]);
      if a[1..] == b[1..] {
        assert a == [a[0]] + a[1..] && b == [b[0]] + b[1..];
      }
    }
  }

  lemma {:induction false} LexLessAsymmetric(a: string, b: string)
    requires LexLess(a, b)
    ensures !LexLess(b, a)
    decreases |a|
  {
    if |a| > 0 && |b| > 0 && a[0] == b[0] {
      LexLessAsymmetric(a[1..], b[1..]);
    }
  }

  /** A common prefix does not change the order. */
  lemma {:induction false} LexLessCommonPrefix(x: string, a: string, b: string)
    requires LexLess(a, b)
    ensures LexLess(x + a, x + b)
    decreases |x|
  {
    if |x| > 0 {
      LexLessCommonPrefix(x[1..], a, b);
      assert (x + a)[0] == x[0] == (x + b)[0];
      assert (x + a)[1..] == x[1..] + a && (x + b)[1..] == x[1..] + b;
    } else {
      assert x + a == a && x + b == b;
    }
  }

  /** `str.split(sep)` for a one-character separator: always at least one part. */
  function SplitOn(s: string, sep: char): (r: seq<string>)
    ensures |r| >= 1
    ensures forall k :: 0 <= k < |r| ==> sep !in r[k]
    decreases |s|
  {
    var n := IndexOf(s, sep);
    if n == |s| then [s] else [s[..n]] + SplitOn(s[n + 1..], sep)
  }

  /** Index of the first occurrence of `c`, or the length when absent. */
  function IndexOf(s: string, c: char): (n: nat)
    ensures n <= |s|
    ensures c !in s[..n]
    ensures n == |s| || s[n] == c
    decreases |s|
  {
    if |s| == 0 || s[0] == c then 0 else 1 + IndexOf(s[1..], c)
  }

  /** `sep.join(parts)` for a one-character separator. */
  function JoinOn(parts: seq<string>, sep: char): string {
    if |parts| == 0 then []
    else if |parts| == 1 then parts[0]
    else parts[0] + [sep] + JoinOn(parts[1..], sep)
  }

  /** Splitting a joined list gives the parts back when no part holds the separator. */
  lemma {:induction false} SplitJoin(parts: seq<string>, sep: char)
    requires |parts| >= 1
    requires forall k :: 0 <= k < |parts| ==> sep !in parts[k]
    ensures SplitOn(JoinOn(parts, sep), sep) == parts
    decreases |parts|
  {
    if |parts| > 1 {
      var p := parts[0];
      var s := JoinOn(parts, sep);
      var rest := JoinOn(parts[1..], sep);
      assert s == p + ([sep] + rest);
      IndexOfAt(p, [sep] + rest, sep);
      assert s[..|p|] == p;
      assert s[|p| + 1..] == rest;
      assert SplitOn(s, sep) == [p] + SplitOn(rest, sep);
      assert forall k :: 0 <= k < |parts| - 1 ==> parts[1..][k] == parts[k + 1];
      SplitJoin(parts[1..], sep);
      assert parts == [p] + parts[1..];
    } else {
      IndexOfAbsent(parts[0], sep);
    }
  }

  lemma {:induction false} IndexOfAt(a: string, b: string, c: char)
    requires c !in a
    requires |b| > 0 && b[0] == c
    ensures IndexOf(a + b, c) == |a|
    decreases |a|
  {
    if |a| > 0 {
      assert (a + b)[1..] == a[1..] + b;
      IndexOfAt(a[1..], b, c);
    }
  }

  lemma IndexOfAbsent(a: string, c: char)
    requires c !in a
    ensures IndexOf(a, c) == |a|
  {
    assert a[..IndexOf(a, c)] == a[..IndexOf(a, c)];
  }
}

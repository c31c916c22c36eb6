/** The version resolver `get_full_version` (backend_functions.py): maps a
    `major.minor` string to a `major.minor.patch` release found in the
    python.org release index, falling back to the input. */
module VersionResolver {
  import opened PyStr
  import Decimal
  import opened Outcomes

  /** The outcome of fetching the release index: a `requests.RequestException`
      (connection failure, timeout, or a non-2xx status raised by
      `raise_for_status`), or the strings the pattern `href="(\d+\.\d+\.\d+)/"`
      finds in the page, in page order. */
  datatype IndexFetch = RequestFailed | Fetched(versions: seq<string>)

  /** `".".join(v.split(".")[:2])`. */
  function MajorMinor(v: string): string {
    var parts := SplitOn(v, '.');
    JoinOn(parts[..if |parts| < 2 then |parts| else 2], '.')
  }

  predicate IsNumeral(s: string) {
    s != [] && Decimal.AllDigits(s)
  }

  /** A string of the form `\d+\.\d+\.\d+` (ASCII digits). */
  predicate IsTriple(v: string) {
    var p := SplitOn(v, '.');
    |p| == 3 && IsNumeral(p[0]) && IsNumeral(p[1]) && IsNumeral(p[2])
  }

  lemma NumeralHasNoDot(s: string)
    requires IsNumeral(s)
    ensures '.' !in s
  {
  }

  /** The dotted form of three components. */
  function Dotted(a: string, b: string, c: string): string {
    a + "." + b + "." + c
  }

  /** Splitting `a.b.c` gives its three components, and its `major.minor` is `a.b`. */
  lemma TripleParts(a: string, b: string, c: string)
    requires IsNumeral(a) && IsNumeral(b) && IsNumeral(c)
    ensures SplitOn(Dotted(a, b, c), '.') == [a, b, c]
    ensures IsTriple(Dotted(a, b, c))
    ensures MajorMinor(Dotted(a, b, c)) == a + "." + b
  {
    NumeralHasNoDot(a);
    NumeralHasNoDot(b);
    NumeralHasNoDot(c);
    var parts := [a, b, c];
    assert parts[1..] == [b, c];
    assert [b, c][1..] == [c];
    assert JoinOn([c], '.') == c;
    assert JoinOn([b, c], '.') == b + ['.'] + c;
    assert JoinOn(parts, '.') == a + ['.'] + (b + ['.'] + c);
    assert Dotted(a, b, c) == JoinOn(parts, '.');
    SplitJoin(parts, '.');
    assert parts[..2] == [a, b];
    assert [a, b][1..] == [b];
    assert JoinOn([a, b], '.') == a + ['.'] + b;
  }

  // ---------------------------------------------------------------------
  // `versions.sort(reverse=True)`

  ghost predicate SortedDescending(s: seq<string>) {
    forall i, j :: 0 <= i < j < |s| ==> !LexLess(s[i], s[j])
  }

  /** Inserts `x` into a descending sequence, after every element not below it. */
  function Insert(x: string, s: seq<string>): (r: seq<string>)
    requires SortedDescending(s)
    ensures multiset(r) == multiset(s) + multiset{x}
    ensures SortedDescending(r)
  {
    if s == [] then [x]
    else if !LexLess(s[0], x) then
      var tail := Insert(x, s[1..]);
      assert s == [s[0]] + s[1..];
      InsertHead(s[0], x, s[1..], tail);
      [s[0]] + tail
    else
      LexLessAsymmetric(s[0], x);
      InsertFront(x, s);
      [x] + s
  }

  lemma InsertHead(h: string, x: string, s: seq<string>, tail: seq<string>)
    requires SortedDescending([h] + s)
    requires !LexLess(h, x)
    requires multiset(tail) == multiset(s) + multiset{x}
    requires SortedDescending(tail)
    ensures SortedDescending([h] + tail)
  {
    forall j | 0 < j < |[h] + tail|
      ensures !LexLess(h, ([h] + tail)[j])
    {
      var y := tail[j - 1];
      assert ([h] + tail)[j] == y;
      assert y in multiset(tail);
      if y != x {
        assert y in multiset(s);
        assert y in s;
        var k :| 0 <= k < |s| && s[k] == y;
        assert ([h] + s)[0] == h;
        assert ([h] + s)[k + 1] == y;
      }
    }
  }

  lemma InsertFront(x: string, s: seq<string>)
    requires SortedDescending(s)
    requires s != [] && LexLess(s[0], x)
    ensures SortedDescending([x] + s)
  {
    forall j | 0 < j < |s| + 1
      ensures !LexLess(x, ([x] + s)[j])
    {
      var y := s[j - 1];
      assert ([x] + s)[j] == y;
      if y == s[0] {
        LexLessAsymmetric(s[0], x);
      } else {
        assert !LexLess(s[0], y);
        LexLessTotal(s[0], y);
        LexLessTransitive(y, s[0], x);
        LexLessAsymmetric(y, x);
      }
    }
  }

  /** `list.sort(reverse=True)` on strings: a descending permutation. */
  function SortDescending(s: seq<string>): (r: seq<string>)
    ensures multiset(r) == multiset(s)
    ensures SortedDescending(r)
  {
    if s == [] then []
    else
      assert s == [s[0]] + s[1..];
      Insert(s[0], SortDescending(s[1..]))
  }

  // ---------------------------------------------------------------------
  // `version_map[major_minor] = full_version`, in order

  /** The dictionary built by the loop: each entry overwrites the one before
      it under the same `major.minor` key. */
  function VersionMap(vs: seq<string>): map<string, string>
    decreases |vs|
  {
    if vs == [] then map[]
    else VersionMap(vs[..|vs| - 1])[MajorMinor(vs[|vs| - 1]) := vs[|vs| - 1]]
  }

  /** `i` is the last position in `vs` holding a version whose `major.minor` is `key`. */
  predicate LastWithKey(vs: seq<string>, i: int, key: string) {
    && 0 <= i < |vs| && MajorMinor(vs[i]) == key
    && forall j :: i < j < |vs| ==> MajorMinor(vs[j]) != key
  }

  /** A key is present exactly when some version has it. */
  lemma {:induction false} VersionMapKeys(vs: seq<string>, key: string)
    ensures key in VersionMap(vs) <==> exists i :: 0 <= i < |vs| && MajorMinor(vs[i]) == key
    decreases |vs|
  {
    if vs != [] {
      var n := |vs| - 1;
      var init := vs[..n];
      VersionMapKeys(init, key);
      if exists i :: 0 <= i < n && MajorMinor(init[i]) == key {
        var i :| 0 <= i < n && MajorMinor(init[i]) == key;
        assert vs[i] == init[i];
      }
      if exists i :: 0 <= i < |vs| && MajorMinor(vs[i]) == key {
        var i :| 0 <= i < |vs| && MajorMinor(vs[i]) == key;
        if i < n {
          assert init[i] == vs[i];
        }
      }
    }
  }

  /** The value under a present key is the LAST version in the sequence that
      has that key. */
  lemma {:induction false} VersionMapLast(vs: seq<string>, key: string)
    requires key in VersionMap(vs)
    ensures exists i :: LastWithKey(vs, i, key) && vs[i] == VersionMap(vs)[key]
    decreases |vs|
  {
    var n := |vs| - 1;
    var init := vs[..n];
    if MajorMinor(vs[n]) == key {
      assert LastWithKey(vs, n, key);
    } else {
      assert key in VersionMap(init);
      VersionMapLast(init, key);
      var i :| LastWithKey(init, i, key) && init[i] == VersionMap(init)[key];
      assert forall j :: i < j < n ==> vs[j] == init[j];
      assert vs[i] == init[i];
      assert LastWithKey(vs, i, key);
    }
  }

  /** `get_full_version` as written: sort descending as strings, build the
      map (later entries win), look the input up, and fall back to the input
      when it is absent or the request failed. */
  function GetFullVersion(versionDisplay: string, fetch: IndexFetch): (r: string)
    ensures fetch.RequestFailed? ==> r == versionDisplay
    ensures r == versionDisplay || (fetch.Fetched? && r in fetch.versions && MajorMinor(r) == versionDisplay)
  {
    match fetch
    case RequestFailed => versionDisplay
    case Fetched(versions) =>
      var sorted := SortDescending(versions);
      var versionMap := VersionMap(sorted);
      if versionDisplay in versionMap then
        VersionMapLast(sorted, versionDisplay);
        assert versionMap[versionDisplay] in multiset(sorted);
        versionMap[versionDisplay]
      else versionDisplay
  }

  /** When no fetched version has the requested `major.minor`, the input
      comes back unchanged. */
  lemma GetFullVersionAbsent(versionDisplay: string, versions: seq<string>)
    requires forall v :: v in versions ==> MajorMinor(v) != versionDisplay
    ensures GetFullVersion(versionDisplay, Fetched(versions)) == versionDisplay
  {
    var sorted := SortDescending(versions);
    VersionMapKeys(sorted, versionDisplay);
  }

  /** Otherwise `get_full_version` picks, among the versions with that
      `major.minor`, the one that is SMALLEST as a string: the descending sort
      puts it last and the last write to the map wins. */
  lemma GetFullVersionPicksSmallest(versionDisplay: string, versions: seq<string>, v: string)
    requires v in versions && MajorMinor(v) == versionDisplay
    ensures var r := GetFullVersion(versionDisplay, Fetched(versions));
      && r in versions && MajorMinor(r) == versionDisplay
      && forall w :: w in versions && MajorMinor(w) == versionDisplay ==> !LexLess(w, r)
  {
    var sorted := SortDescending(versions);
    var r := GetFullVersion(versionDisplay, Fetched(versions));
    assert v in multiset(sorted);
    VersionMapKeys(sorted, versionDisplay);
    VersionMapLast(sorted, versionDisplay);
    var i :| LastWithKey(sorted, i, versionDisplay) && sorted[i] == r;
    assert r in multiset(sorted);
    forall w | w in versions && MajorMinor(w) == versionDisplay
      ensures !LexLess(w, r)
    {
      assert w in multiset(versions);
      assert w in sorted;
      SmallestAmongLater(sorted, i, w, versionDisplay);
    }
  }

  lemma SmallestAmongLater(sorted: seq<string>, i: nat, w: string, key: string)
    requires SortedDescending(sorted)
    requires LastWithKey(sorted, i, key)
    requires w in sorted && MajorMinor(w) == key
    ensures !LexLess(w, sorted[i])
  {
    var j :| 0 <= j < |sorted| && sorted[j] == w;
    if j == i {
      LexLessIrreflexive(w);
    }
  }

  /** When the index holds only `d.d.d` strings, the resolved version is the
      input itself or a `d.d.d` string whose first two components spell the input. */
  lemma GetFullVersionShape(versionDisplay: string, fetch: IndexFetch)
    requires fetch.Fetched? ==> forall k :: 0 <= k < |fetch.versions| ==> IsTriple(fetch.versions[k])
    ensures var r := GetFullVersion(versionDisplay, fetch);
      r == versionDisplay || (IsTriple(r) && var p := SplitOn(r, '.'); p[0] + "." + p[1] == versionDisplay)
  {
    var r := GetFullVersion(versionDisplay, fetch);
    if r != versionDisplay {
      var p := SplitOn(r, '.');
      assert p[..2] == [p[0], p[1]];
      assert [p[0], p[1]][1..] == [p[1]];
      assert JoinOn([p[0], p[1]], '.') == p[0] + "." + p[1];
    }
  }

  // ---------------------------------------------------------------------
  // the evidently intended behaviour: the newest patch, compared as numbers

  function Patch(v: string): nat
    requires IsTriple(v)
  {
    Decimal.DigitsToNat(SplitOn(v, '.')[2])
  }

  predicate AllTriples(vs: seq<string>) {
    forall k :: 0 <= k < |vs| ==> IsTriple(vs[k])
  }

  /** The version with the given `major.minor` and the numerically greatest patch. */
  function NewestPatch(versionDisplay: string, vs: seq<string>): (r: Option<string>)
    requires AllTriples(vs)
    ensures r.None? <==> forall k :: 0 <= k < |vs| ==> MajorMinor(vs[k]) != versionDisplay
    ensures r.Some? ==> r.value in vs && IsTriple(r.value) && MajorMinor(r.value) == versionDisplay
    ensures r.Some? ==> forall k :: 0 <= k < |vs| && MajorMinor(vs[k]) == versionDisplay ==> Patch(vs[k]) <= Patch(r.value)
  {
    if vs == [] then None
    else
      var rest := NewestPatch(versionDisplay, vs[1..]);
      assert forall k :: 1 <= k < |vs| ==> vs[k] == vs[1..][k - 1];
      if MajorMinor(vs[0]) != versionDisplay then rest
      else if rest.Some? && Patch(vs[0]) <= Patch(rest.value) then rest
      else Some(vs[0])
  }

  /** The resolver as its documentation describes it: the latest patch
      release for the requested `major.minor`, patches compared as numbers. */
  function LatestPatchVersion(versionDisplay: string, fetch: IndexFetch): (r: string)
    requires fetch.Fetched? ==> AllTriples(fetch.versions)
    ensures fetch.RequestFailed? ==> r == versionDisplay
    ensures fetch.Fetched? && (forall v :: v in fetch.versions ==> MajorMinor(v) != versionDisplay) ==> r == versionDisplay
    ensures fetch.Fetched? && (exists v :: v in fetch.versions && MajorMinor(v) == versionDisplay) ==>
      && r in fetch.versions && IsTriple(r) && MajorMinor(r) == versionDisplay
      && forall w :: w in fetch.versions && MajorMinor(w) == versionDisplay ==> Patch(w) <= Patch(r)
  {
    match fetch
    case RequestFailed => versionDisplay
    case Fetched(versions) =>
      var best := NewestPatch(versionDisplay, versions);
      if best.Some? then best.value else versionDisplay
  }
}

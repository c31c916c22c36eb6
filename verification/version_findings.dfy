/** The `get_full_version` discrepancy: given two patches of one
    `major.minor` release whose string order and numeric order agree that
    `p` comes before `q` (as `0` and `9` do), the code as written resolves to
    the older patch, the documented intent to the newer one. */
module VersionFindings {
  import opened PyStr
  import Decimal
  import opened VersionResolver

  /** The index listing `a.b.p` and then `a.b.q`. */
  function PatchPair(a: string, b: string, p: string, q: string): seq<string> {
    [Dotted(a, b, p), Dotted(a, b, q)]
  }

  /** Both entries are `d.d.d` strings of release `a.b`, with patches `p` and `q`. */
  lemma PatchPairFacts(a: string, b: string, p: string, q: string)
    requires IsNumeral(a) && IsNumeral(b) && IsNumeral(p) && IsNumeral(q)
    ensures var index := PatchPair(a, b, p, q);
      && AllTriples(index)
      && MajorMinor(index[0]) == a + "." + b && MajorMinor(index[1]) == a + "." + b
      && Patch(index[0]) == Decimal.DigitsToNat(p) && Patch(index[1]) == Decimal.DigitsToNat(q)
  {
    TripleParts(a, b, p);
    TripleParts(a, b, q);
  }

  /** As written, `a.b` resolves to the string-smaller patch `a.b.p`. */
  lemma AsWrittenPicksOlderPatch(a: string, b: string, p: string, q: string)
    requires IsNumeral(a) && IsNumeral(b) && IsNumeral(p) && IsNumeral(q)
    requires LexLess(p, q)
    ensures GetFullVersion(a + "." + b, Fetched(PatchPair(a, b, p, q))) == Dotted(a, b, p)
  {
    var index := PatchPair(a, b, p, q);
    PatchPairFacts(a, b, p, q);
    assert Dotted(a, b, p) == (a + "." + b + ".") + p && Dotted(a, b, q) == (a + "." + b + ".") + q;
    LexLessCommonPrefix(a + "." + b + ".", p, q);
    GetFullVersionPicksSmallest(a + "." + b, index, index[0]);
  }

  /** On the same index the intended resolver picks the numerically newer
      patch `a.b.q`. */
  lemma IntendedPicksNewerPatch(a: string, b: string, p: string, q: string)
    requires IsNumeral(a) && IsNumeral(b) && IsNumeral(p) && IsNumeral(q)
    requires Decimal.DigitsToNat(p) < Decimal.DigitsToNat(q)
    ensures var index := PatchPair(a, b, p, q);
      AllTriples(index) && LatestPatchVersion(a + "." + b, Fetched(index)) == Dotted(a, b, q)
  {
    var index := PatchPair(a, b, p, q);
    PatchPairFacts(a, b, p, q);
    var r := LatestPatchVersion(a + "." + b, Fetched(index));
    assert index[0] in index;
    assert r in index && Patch(index[1]) <= Patch(r);
  }

  /** The components of `3.11.0` and `3.11.9` are numerals, and their
      patches `0` and `9` are in the same order as strings and as numbers. */
  lemma ExampleNumerals()
    ensures IsNumeral("3") && IsNumeral("11") && IsNumeral("0") && IsNumeral("9")
    ensures LexLess("0", "9") && Decimal.DigitsToNat("0") < Decimal.DigitsToNat("9")
  {
  }

  /** The pair of patches spelled out. */
  lemma ExampleSpelling()
    ensures "3" + "." + "11" == "3.11"
    ensures PatchPair("3", "11", "0", "9") == ["3.11.0", "3.11.9"]
  {
    assert Dotted("3", "11", "0") == "3.11.0";
    assert Dotted("3", "11", "9") == "3.11.9";
  }

  /** An index listing `3.11.0` and `3.11.9`: as written, `3.11` resolves to
      `3.11.0`; as intended, to `3.11.9`. */
  lemma Python311Example()
    ensures GetFullVersion("3.11", Fetched(["3.11.0", "3.11.9"])) == "3.11.0"
    ensures AllTriples(["3.11.0", "3.11.9"]) && LatestPatchVersion("3.11", Fetched(["3.11.0", "3.11.9"])) == "3.11.9"
  {
    ExampleNumerals();
    ExampleSpelling();
    AsWrittenPicksOlderPatch("3", "11", "0", "9");
    IntendedPicksNewerPatch("3", "11", "0", "9");
  }
}

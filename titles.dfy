/**
 * `normalizeProjectTitle`: the grouping key of a work. A trailing `-<digits>`
 * is removed, then a trailing run of whitespace followed by digits, the rest
 * is trimmed and looked up in a fixed table of canonical spellings.
 */
module Titles {
  import opened JsText

  /** The regular expression `/-\d+$/` matches `s` at index `i`. */
  predicate HyphenNumberAt(s: string, i: int) {
    0 <= i && i + 1 < |s| && s[i] == '-' && AllDigits(s[i + 1..])
  }

  /** `/\s+\d+$/` matches `s` at index `i`, the digits starting at `k`. */
  predicate SpaceNumberSplit(s: string, i: int, k: int) {
    0 <= i < k < |s| && AllWhitespace(s[i..k]) && AllDigits(s[k..])
  }

  ghost predicate SpaceNumberAt(s: string, i: int) {
    exists k :: SpaceNumberSplit(s, i, k)
  }

  /** `title.replace(/-\d+$/, '')` */
  function StripHyphenNumber(s: string): string {
    var j := TrailingDigitsStart(s);
    if 0 < j < |s| && s[j - 1] == '-' then s[..j - 1] else s
  }

  /** `title.replace(/\s+\d+$/, '')` */
  function StripSpaceNumber(s: string): string {
    var j := TrailingDigitsStart(s);
    if 0 < j < |s| && IsWhitespace(s[j - 1]) then s[..TrailingWhitespaceStart(s[..j])] else s
  }

  /** The title with its numeric suffixes removed and trimmed, before the table lookup. */
  function StrippedTitle(title: string): string {
    Trim(StripSpaceNumber(StripHyphenNumber(title)))
  }

  /** The `specialCases` table. */
  const SpecialCases: map<string, string> := map[
    "Dongdeamun Design Plaza" := "Dongdaemun Design Plaza",
    "Dongdaemun Design Plaza" := "Dongdaemun Design Plaza",
    "VE Residence Building" := "VE Residence Building",
    "Lom.Haijai Residences" := "Lom.Haijai Residences",
    "A-Frame Evolution" := "A-Frame Evolution",
    "Modern Apartment" := "Modern Apartment",
    "Tropical House" := "Tropical House",
    "AMOS Lobby Renovation" := "AMOS Lobby Renovation",
    "Wedding Hall Renovation" := "Wedding Hall Renovation",
    "T.K E&C Aerial View" := "T.K E&C Aerial View",
    "Geoje Island Caf\U{E9}" := "Geoje Island Caf\U{E9}",
    "Daemyoung Energy" := "Daemyoung Energy",
    "RIV Office" := "RIV Office",
    "Office Center" := "Office Center",
    "Solar Panel Balcony" := "Solar Panel Balcony",
    "Car Parking Lot" := "Car Parking Lot",
    "Ino Block" := "Ino Block",
    "Complex apartment" := "Complex Apartment",
    "Osan apartment" := "Osan Apartment",
    "S-Factory" := "S-Factory"
  ]

  /**
   * `normalizeProjectTitle`, reading only the table's own entries
   * (`specialCases[normalized] || normalized`).
   */
  function NormalizeProjectTitle(title: string): string {
    Lookup(SpecialCases, StrippedTitle(title))
  }

  /** `table[normalized] || normalized` on a table of own entries: an empty value falls back too. */
  function Lookup(table: map<string, string>, normalized: string): string {
    if normalized in table && table[normalized] != "" then table[normalized] else normalized
  }

  lemma TrailingDigitsStartUnique(s: string, k: nat)
    requires k <= |s| && AllDigits(s[k..])
    requires k == 0 || !IsDigit(s[k - 1])
    ensures TrailingDigitsStart(s) == k
  {
    var j := TrailingDigitsStart(s);
    if j < k {
      assert false;
    } else if j > k {
      assert false;
    }
  }

  lemma TrailingWhitespaceStartAtMost(s: string, i: nat)
    requires i <= |s| && AllWhitespace(s[i..])
    ensures TrailingWhitespaceStart(s) <= i
  {
    var j := TrailingWhitespaceStart(s);
    if j > i {
      assert false;
    }
  }

  /** `StripHyphenNumber` removes exactly what `/-\d+$/` matches, and nothing when it does not match. */
  lemma StripHyphenNumberIsRegexReplace(s: string)
    ensures forall i :: HyphenNumberAt(s, i) ==> StripHyphenNumber(s) == s[..i]
    ensures (forall i :: !HyphenNumberAt(s, i)) ==> StripHyphenNumber(s) == s
  {
    forall i | HyphenNumberAt(s, i) ensures StripHyphenNumber(s) == s[..i] {
      TrailingDigitsStartUnique(s, i + 1);
    }
    var j := TrailingDigitsStart(s);
    if 0 < j < |s| && s[j - 1] == '-' {
      assert HyphenNumberAt(s, j - 1);
    }
  }

  /**
   * `StripSpaceNumber` removes exactly the leftmost match of `/\s+\d+$/`,
   * and nothing when it does not match.
   */
  lemma StripSpaceNumberIsRegexReplace(s: string)
    ensures forall i :: SpaceNumberAt(s, i) && (forall i' :: 0 <= i' < i ==> !SpaceNumberAt(s, i'))
              ==> StripSpaceNumber(s) == s[..i]
    ensures (forall i :: !SpaceNumberAt(s, i)) ==> StripSpaceNumber(s) == s
  {
    var j := TrailingDigitsStart(s);
    if 0 < j < |s| && IsWhitespace(s[j - 1]) {
      var w := TrailingWhitespaceStart(s[..j]);
      assert w < j;
      assert s[w..j] == s[..j][w..];
      assert SpaceNumberSplit(s, w, j);
      assert SpaceNumberAt(s, w);
      forall i | SpaceNumberAt(s, i) && (forall i' :: 0 <= i' < i ==> !SpaceNumberAt(s, i'))
        ensures StripSpaceNumber(s) == s[..i]
      {
        var k :| SpaceNumberSplit(s, i, k);
        assert s[k - 1] == s[i..k][k - 1 - i];
        TrailingDigitsStartUnique(s, k);
        assert s[..j][i..] == s[i..k];
        TrailingWhitespaceStartAtMost(s[..j], i);
        assert !(w < i);
      }
    } else {
      forall i | SpaceNumberAt(s, i) ensures false {
        var k :| SpaceNumberSplit(s, i, k);
        assert s[k - 1] == s[i..k][k - 1 - i];
        TrailingDigitsStartUnique(s, k);
      }
    }
  }

  /** A title with no numeric suffix and no surrounding whitespace. */
  predicate Clean(t: string) {
    t == [] || (!IsDigit(t[|t| - 1]) && !IsWhitespace(t[0]) && !IsWhitespace(t[|t| - 1]))
  }

  lemma WhitespacePrefixAt(s: string, n: nat, k: nat)
    requires n <= |s| && AllWhitespace(s[..n]) && k < n
    ensures IsWhitespace(s[k])
  {
    assert s[k] == s[..n][k];
  }

  lemma WhitespaceSuffixAt(s: string, n: nat, k: nat)
    requires n <= k < |s| && AllWhitespace(s[n..])
    ensures IsWhitespace(s[k])
  {
    assert s[k] == s[n..][k - n];
  }

  lemma {:induction false} TrimUnique(a: string, m: string, b: string)
    requires AllWhitespace(a) && AllWhitespace(b)
    requires m == [] || (!IsWhitespace(m[0]) && !IsWhitespace(m[|m| - 1]))
    ensures Trim(a + m + b) == m
  {
    var s := a + m + b;
    var i := LeadingWhitespaceEnd(s);
    if m == [] {
      assert AllWhitespace(s) by {
        forall k | 0 <= k < |s| ensures IsWhitespace(s[k]) {
          if k < |a| { assert s[k] == a[k]; } else { assert s[k] == b[k - |a|]; }
        }
      }
      assert i == |s| by {
        if i < |s| { assert false; }
      }
    } else {
      assert i == |a| by {
        if i < |a| { assert false; }
        if i > |a| { WhitespacePrefixAt(s, i, |a|); assert false; }
      }
      var t := s[i..];
      assert t == m + b;
      var j := TrailingWhitespaceStart(t);
      assert j == |m| by {
        if j < |m| { WhitespaceSuffixAt(t, j, |m| - 1); assert false; }
        if j > |m| { assert false; }
      }
      assert t[..j] == m;
    }
  }

  lemma CleanTitleIsStripped(t: string)
    requires Clean(t)
    ensures StrippedTitle(t) == t
  {
    assert TrailingDigitsStart(t) == |t| by {
      if t != [] { assert !IsDigit(t[|t| - 1]); }
    }
    assert StripHyphenNumber(t) == t;
    assert StripSpaceNumber(t) == t;
    assert t == [] + t + [];
    TrimUnique([], t, []);
  }

  /**
   * The facts about an alias table the normalisation relies on: keys and
   * values carry no numeric suffix and no surrounding whitespace, values are
   * non-empty, and a value that is itself a key maps to itself.
   */
  ghost predicate CanonicalTable(table: map<string, string>) {
    forall k :: k in table ==>
      Clean(k) && Clean(table[k]) && table[k] != "" && (table[k] !in table || table[table[k]] == table[k])
  }

  lemma SpecialCasesKeysClean()
    ensures forall k :: k in SpecialCases ==> Clean(k)
  {
  }

  /** Every canonical spelling but two is itself a key. */
  lemma SpecialCasesValuesAreKeys()
    ensures forall k :: k in SpecialCases ==>
      SpecialCases[k] in SpecialCases || SpecialCases[k] == "Complex Apartment" || SpecialCases[k] == "Osan Apartment"
  {
  }

  lemma SpecialCasesValuesClean()
    ensures forall k :: k in SpecialCases ==> Clean(SpecialCases[k])
  {
    SpecialCasesKeysClean();
    SpecialCasesValuesAreKeys();
    assert Clean("Complex Apartment") && Clean("Osan Apartment");
  }

  lemma SpecialCasesValuesNonEmpty()
    ensures forall k :: k in SpecialCases ==> SpecialCases[k] != ""
  {
  }

  lemma CanonicalTitlesAreFixed()
    ensures forall k :: k in SpecialCases ==> SpecialCases[k] !in SpecialCases || SpecialCases[SpecialCases[k]] == SpecialCases[k]
  {
  }

  lemma SpecialCasesAreCanonicalTable()
    ensures CanonicalTable(SpecialCases)
  {
    SpecialCasesKeysClean();
    SpecialCasesValuesClean();
    SpecialCasesValuesNonEmpty();
    CanonicalTitlesAreFixed();
  }

  /** In a canonical table a key normalises to its value and a value to itself. */
  lemma CanonicalTableEntry(table: map<string, string>, k: string)
    requires CanonicalTable(table) && k in table
    ensures Lookup(table, StrippedTitle(k)) == table[k]
    ensures Lookup(table, StrippedTitle(table[k])) == table[k]
  {
    CleanTitleIsStripped(k);
    CleanTitleIsStripped(table[k]);
  }

  /**
   * A listed spelling normalises to its canonical title (for instance
   * "Dongdeamun Design Plaza" to "Dongdaemun Design Plaza"), and a
   * canonical title normalises to itself.
   */
  lemma SpecialCasesAreCanonical(k: string)
    requires k in SpecialCases
    ensures NormalizeProjectTitle(k) == SpecialCases[k]
    ensures NormalizeProjectTitle(SpecialCases[k]) == SpecialCases[k]
  {
    SpecialCasesAreCanonicalTable();
    CanonicalTableEntry(SpecialCases, k);
  }

  /** The suffix patterns cannot match a title whose last character is not a digit. */
  lemma NoNumericSuffix(p: string)
    requires p != [] && !IsDigit(p[|p| - 1])
    ensures forall i :: !HyphenNumberAt(p, i) && !SpaceNumberAt(p, i)
  {
    forall i | 0 <= i < |p| ensures !HyphenNumberAt(p, i) && !SpaceNumberAt(p, i) {
      if i + 1 < |p| {
        assert p[|p| - 1] == p[i + 1..][|p| - 2 - i];
      }
      forall k | SpaceNumberSplit(p, i, k) ensures false {
        assert false;
      }
    }
  }

  lemma SplitInThree(q: string, i: nat, j: nat)
    requires i <= j <= |q|
    ensures q[..i] + q[i..j] + q[j..] == q
  {
  }

  lemma BlanksConcat(x: string, y: string)
    requires AllWhitespace(x) && AllWhitespace(y)
    ensures AllWhitespace(x + y)
  {
    forall k | 0 <= k < |x + y| ensures IsWhitespace((x + y)[k]) {
      if k < |x| { assert (x + y)[k] == x[k]; } else { assert (x + y)[k] == y[k - |x|]; }
    }
  }

  lemma RejoinSplit(p: string, e: nat, i: nat, j: nat)
    requires i <= j <= e <= |p|
    ensures p[..e][..i] + p[..e][i..j] + (p[..e][j..] + p[e..]) == p
  {
    var q := p[..e];
    SplitInThree(q, i, j);
    assert q + p[e..] == p;
  }

  /** Trimming ignores whitespace that is already at the end. */
  lemma TrimIgnoresTrailingWhitespace(p: string, e: nat)
    requires e <= |p| && AllWhitespace(p[e..])
    ensures Trim(p[..e]) == Trim(p)
  {
    var q := p[..e];
    var r := Trim(q);
    var i, j :| 0 <= i <= j <= |q| && r == q[i..j] && AllWhitespace(q[..i]) && AllWhitespace(q[j..]);
    var b := q[j..] + p[e..];
    BlanksConcat(q[j..], p[e..]);
    RejoinSplit(p, e, i, j);
    TrimUnique(q[..i], r, b);
  }

  lemma HyphenVariantStripped(p: string, d: string)
    requires forall i :: !HyphenNumberAt(p, i) && !SpaceNumberAt(p, i)
    requires d != [] && AllDigits(d)
    ensures StrippedTitle(p + "-" + d) == StrippedTitle(p)
  {
    StripHyphenNumberIsRegexReplace(p);
    StripSpaceNumberIsRegexReplace(p);
    var s := p + "-" + d;
    assert s[|p| + 1..] == d;
    TrailingDigitsStartUnique(s, |p| + 1);
    assert s[..|p|] == p;
  }

  lemma SpaceVariantStripped(p: string, w: string, d: string)
    requires forall i :: !HyphenNumberAt(p, i) && !SpaceNumberAt(p, i)
    requires w != [] && AllWhitespace(w)
    requires d != [] && AllDigits(d)
    ensures StrippedTitle(p + w + d) == StrippedTitle(p)
  {
    StripHyphenNumberIsRegexReplace(p);
    StripSpaceNumberIsRegexReplace(p);
    var s := p + w + d;
    var j := |p| + |w|;
    assert s[j..] == d;
    assert s[j - 1] == w[|w| - 1];
    TrailingDigitsStartUnique(s, j);
    var q := s[..j];
    assert q == p + w;
    var e := TrailingWhitespaceStart(q);
    TrailingWhitespaceStartAtMost(q, |p|) by { assert q[|p|..] == w; }
    assert StripSpaceNumber(s) == p[..e] by { assert q[..e] == p[..e]; }
    assert AllWhitespace(p[e..]) by {
      forall k | 0 <= k < |p[e..]| ensures IsWhitespace(p[e..][k]) {
        assert p[e..][k] == q[e..][k];
      }
    }
    TrimIgnoresTrailingWhitespace(p, e);
  }

  /**
   * Numbered variants of a title group with it: when `p` has no numeric
   * suffix of its own, `p + "-" + digits` and `p + whitespace + digits`
   * normalise as `p` does ("Tropical House-2" and "Tropical House 2" with
   * "Tropical House").
   */
  lemma NumberedVariantsShareKey(p: string, w: string, d: string)
    requires forall i :: !HyphenNumberAt(p, i) && !SpaceNumberAt(p, i)
    requires w != [] && AllWhitespace(w)
    requires d != [] && AllDigits(d)
    ensures NormalizeProjectTitle(p + "-" + d) == NormalizeProjectTitle(p)
    ensures NormalizeProjectTitle(p + w + d) == NormalizeProjectTitle(p)
  {
    HyphenVariantStripped(p, d);
    SpaceVariantStripped(p, w, d);
  }
}

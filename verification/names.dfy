/** When two spellings are one name. */
module Names {

  function LowerChar(c: char): char { if 'A' <= c <= 'Z' then (c as int + 32) as char else c }

  function Lower(s: string): (r: string)
    ensures |r| == |s| && forall i :: 0 <= i < |s| ==> r[i] == LowerChar(s[i])
  {
    seq(|s|, i requires 0 <= i < |s| => LowerChar(s[i]))
  }

  predicate EndsWith(s: string, suffix: string) { |suffix| <= |s| && s[|s| - |suffix|..] == suffix }

  predicate IsStringDomain(s: string) { '.' in s }

  predicate IsEthAliasDomain(s: string) { EndsWith(Lower(s), ".eth") || EndsWith(Lower(s), ".bso") }

  function NormalizeEthAliasDomain(s: string): string
  {
    if EndsWith(s, ".bso") then s[..|s| - 4] + ".eth" else s
  }

  predicate AreEquivalentNames(a: string, b: string)
  {
    || a == b
    || (&& IsEthAliasDomain(a) && IsEthAliasDomain(b)
        && NormalizeEthAliasDomain(Lower(a)) == NormalizeEthAliasDomain(Lower(b)))
  }

  // ----- the relation is the kernel of a canonical spelling

  function Canonical(s: string): string
  {
    if IsEthAliasDomain(s) then NormalizeEthAliasDomain(Lower(s)) else s
  }

  lemma LowerTwice(s: string)
    ensures Lower(Lower(s)) == Lower(s)
  {
  }

  lemma CanonicalAliasIsEth(s: string)
    requires IsEthAliasDomain(s)
    ensures EndsWith(Canonical(s), ".eth") && Lower(Canonical(s)) == Canonical(s)
  {
    var low := Lower(s);
    LowerTwice(s);
    if EndsWith(low, ".bso") {
      var stem := low[..|low| - 4];
      assert Lower(stem) == stem;
      LowerConcat(stem, ".eth");
      LowerOfSuffixes();
      assert (stem + ".eth")[|stem|..] == ".eth";
    }
  }

  lemma CanonicalIsStable(s: string)
    ensures IsEthAliasDomain(Canonical(s)) <==> IsEthAliasDomain(s)
    ensures Canonical(Canonical(s)) == Canonical(s)
  {
    if IsEthAliasDomain(s) {
      CanonicalAliasIsEth(s);
    }
  }

  /** Two names are equivalent exactly when they have one canonical spelling, so equivalence is
      reflexive, symmetric and transitive. */
  lemma EquivalentIffSameCanonical(a: string, b: string)
    ensures AreEquivalentNames(a, b) <==> Canonical(a) == Canonical(b)
  {
    CanonicalIsStable(a);
    CanonicalIsStable(b);
  }

  lemma EquivalentIsTransitive(a: string, b: string, c: string)
    requires AreEquivalentNames(a, b) && AreEquivalentNames(b, c)
    ensures AreEquivalentNames(a, c) && AreEquivalentNames(c, a)
  {
  }

  /** A name that is not a `.eth` or `.bso` domain, such as a public key, is only equivalent to itself. */
  lemma OtherNamesMatchExactly(a: string, b: string)
    requires !IsEthAliasDomain(a)
    ensures AreEquivalentNames(a, b) <==> a == b
  {
  }

  lemma LowerConcat(a: string, b: string)
    ensures Lower(a + b) == Lower(a) + Lower(b)
  {
  }

  lemma CanonicalOfAlias(stem: string, suffix: string)
    requires Lower(suffix) == ".eth" || Lower(suffix) == ".bso"
    ensures IsEthAliasDomain(stem + suffix) && Canonical(stem + suffix) == Lower(stem) + ".eth"
  {
    LowerConcat(stem, suffix);
    var low := Lower(stem + suffix);
    assert low[|stem|..] == Lower(suffix) && low[..|stem|] == Lower(stem);
  }

  /** The two suffixes name the same thing, in any mix of case of the suffix and of the stem. */
  lemma BsoIsEth(stem: string, a: string, b: string)
    requires Lower(a) == ".eth" || Lower(a) == ".bso"
    requires Lower(b) == ".eth" || Lower(b) == ".bso"
    ensures AreEquivalentNames(stem + a, stem + b) && AreEquivalentNames(stem + a, Lower(stem) + b)
  {
    LowerTwice(stem);
    CanonicalOfAlias(stem, a);
    CanonicalOfAlias(stem, b);
    CanonicalOfAlias(Lower(stem), b);
    EquivalentIffSameCanonical(stem + a, stem + b);
    EquivalentIffSameCanonical(stem + a, Lower(stem) + b);
  }

  lemma SuffixOf(address: string, suffix: string)
    requires |suffix| == 4 && EndsWith(Lower(address), suffix)
    ensures address == address[..|address| - 4] + address[|address| - 4..] && Lower(address[|address| - 4..]) == suffix
  {
  }

  lemma LowerOfSuffixes()
    ensures Lower(".eth") == ".eth" && Lower(".bso") == ".bso"
  {
  }

  /** Replacing the suffix of a `.eth` or `.bso` name by either one gives the same name. */
  lemma OtherSuffixIsSameName(address: string, suffix: string, other: string)
    requires (suffix == ".eth" || suffix == ".bso") && EndsWith(Lower(address), suffix)
    requires other == ".eth" || other == ".bso"
    ensures AreEquivalentNames(address[..|address| - 4] + other, address)
  {
    SuffixOf(address, suffix);
    LowerOfSuffixes();
    BsoIsEth(address[..|address| - 4], other, address[|address| - 4..]);
  }

  // ----- the same, said letter by letter

  /** One letter, or the same letter of the alphabet in the other case. */
  predicate SameButCase(a: char, b: char)
  {
    || a == b
    || ('A' <= a <= 'Z' && b as int == a as int + 'a' as int - 'A' as int)
    || ('A' <= b <= 'Z' && a as int == b as int + 'a' as int - 'A' as int)
  }

  predicate DifferOnlyInCase(a: string, b: string)
  {
    |a| == |b| && forall i :: 0 <= i < |a| ==> SameButCase(a[i], b[i])
  }

  predicate HasAliasSuffix(s: string)
  {
    |s| >= 4 && (DifferOnlyInCase(s[|s| - 4..], ".eth") || DifferOnlyInCase(s[|s| - 4..], ".bso"))
  }

  lemma LowerIffSameButCase(a: string, b: string)
    ensures Lower(a) == Lower(b) <==> DifferOnlyInCase(a, b)
  {
    forall i | 0 <= i < |a| && i < |b|
      ensures Lower(a)[i] == Lower(b)[i] <==> SameButCase(a[i], b[i])
    {
    }
    if Lower(a) == Lower(b) {
      assert |a| == |Lower(a)| == |Lower(b)| == |b|;
    }
  }

  predicate HasSuffix(s: string, suffix: string)
    requires |suffix| == 4
  {
    |s| >= 4 && DifferOnlyInCase(s[|s| - 4..], suffix)
  }

  lemma EndsWithIffSuffix(s: string, suffix: string)
    requires |suffix| == 4 && Lower(suffix) == suffix
    ensures EndsWith(Lower(s), suffix) <==> HasSuffix(s, suffix)
  {
    if |s| >= 4 {
      assert s == s[..|s| - 4] + s[|s| - 4..];
      LowerConcat(s[..|s| - 4], s[|s| - 4..]);
      LowerIffSameButCase(s[|s| - 4..], suffix);
      assert Lower(s)[|s| - 4..] == Lower(s[|s| - 4..]);
    }
  }

  lemma AliasIffSuffix(s: string)
    ensures IsEthAliasDomain(s) <==> HasAliasSuffix(s)
  {
    LowerOfSuffixes();
    EndsWithIffSuffix(s, ".eth");
    EndsWithIffSuffix(s, ".bso");
  }

  lemma CanonicalOfSuffix(s: string)
    requires HasAliasSuffix(s)
    ensures Canonical(s) == Lower(s[..|s| - 4]) + ".eth"
  {
    AliasIffSuffix(s);
    LowerOfSuffixes();
    var suffix := s[|s| - 4..];
    LowerIffSameButCase(suffix, ".eth");
    LowerIffSameButCase(suffix, ".bso");
    assert s == s[..|s| - 4] + suffix;
    CanonicalOfAlias(s[..|s| - 4], suffix);
  }

  /** Two names are one exactly when they are spelled alike, or both end in .eth or .bso and what stands before
      the suffix differs only in the case of letters. */
  lemma EquivalentIffSameStem(a: string, b: string)
    ensures AreEquivalentNames(a, b) <==>
            || a == b
            || (HasAliasSuffix(a) && HasAliasSuffix(b) && DifferOnlyInCase(a[..|a| - 4], b[..|b| - 4]))
  {
    AliasIffSuffix(a);
    AliasIffSuffix(b);
    EquivalentIffSameCanonical(a, b);
    if HasAliasSuffix(a) && HasAliasSuffix(b) {
      CanonicalOfSuffix(a);
      CanonicalOfSuffix(b);
      LowerIffSameButCase(a[..|a| - 4], b[..|b| - 4]);
      SameBeforeSuffix(Lower(a[..|a| - 4]), Lower(b[..|b| - 4]));
    }
  }

  lemma SameBeforeSuffix(a: string, b: string)
    ensures a + ".eth" == b + ".eth" <==> a == b
  {
    assert (a + ".eth")[..|a + ".eth"| - 4] == a && (b + ".eth")[..|b + ".eth"| - 4] == b;
  }
}

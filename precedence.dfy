/**
 * Laws of `equals` and `compareTo` on versions: item 11 of Semantic
 * Versioning 2.0.0 as the source implements it, and where it departs.
 */
module Precedence {
  import opened Wrappers
  import opened JsRuntime
  import opened Grammar
  import opened VersionValues
  import Identifiers
  import Specials

  /** The pre-release is absent or non-empty; an empty one is stored but yields no Special. */
  predicate NoEmptyPreRelease(v: VersionValue) {
    v.preRelease != Some("")
  }

  /** The pre-release is absent, or non-empty with every token spelled canonically. */
  predicate CanonicalPreRelease(v: VersionValue) {
    v.preRelease.Some? ==> v.preRelease.value != "" && Specials.TokensCanonical(v.preRelease.value)
  }

  predicate SameNumbers(a: VersionValue, b: VersionValue) {
    a.major == b.major && a.minor == b.minor && a.patch == b.patch
  }

  /** Lexicographic order of (major, minor, patch). */
  predicate NumbersBelow(a: VersionValue, b: VersionValue) {
    a.major < b.major
    || (a.major == b.major && a.minor < b.minor)
    || (a.major == b.major && a.minor == b.minor && a.patch < b.patch)
  }

  /** `equals` looks at the components and the pre-release string and at nothing else. */
  lemma EqualsLaws(a: VersionValue, b: VersionValue)
    ensures Equals(a, b) <==> SameNumbers(a, b) && a.preRelease == b.preRelease
    ensures Equals(a, b) <==> Equals(b, a)
    ensures Equals(a, a)
    ensures Equals(a, b) ==> CompareTo(a, b) == 0
  {
  }

  /** The components decide first, in the order major, minor, patch. */
  lemma NumbersDecideFirst(a: VersionValue, b: VersionValue)
    requires NumbersBelow(a, b)
    ensures CompareTo(a, b) < 0 && CompareTo(b, a) > 0
  {
  }

  /** On equal components, a release ranks above any (non-empty) pre-release. */
  lemma ReleaseOutranksPreRelease(a: VersionValue, b: VersionValue)
    requires SameNumbers(a, b) && a.preRelease.None? && Truthy(b.preRelease)
    ensures CompareTo(a, b) > 0 && CompareTo(b, a) < 0
  {
  }

  /** On equal components, two distinct pre-releases compare by their identifier lists. */
  lemma PreReleasesCompareByIdentifiers(a: VersionValue, b: VersionValue)
    requires SameNumbers(a, b) && Truthy(a.preRelease) && Truthy(b.preRelease) && a.preRelease != b.preRelease
    ensures CompareTo(a, b) == Specials.CompareIds(Specials.ParseSpecial(a.preRelease.value).ids, Specials.ParseSpecial(b.preRelease.value).ids)
  {
  }

  lemma CompareAntisymmetric(a: VersionValue, b: VersionValue)
    requires NoEmptyPreRelease(a) && NoEmptyPreRelease(b)
    ensures Identifiers.Sign(CompareTo(a, b)) == -Identifiers.Sign(CompareTo(b, a))
  {
    if !Equals(a, b) && SameNumbers(a, b) && Truthy(a.preRelease) && Truthy(b.preRelease) {
      Specials.CompareIdsAntisymmetric(Specials.ParseSpecial(a.preRelease.value).ids, Specials.ParseSpecial(b.preRelease.value).ids);
    }
  }

  /** With canonically spelled pre-releases, 0 means equal components and pre-release. */
  lemma CompareZeroIffSamePrecedence(a: VersionValue, b: VersionValue)
    requires CanonicalPreRelease(a) && CanonicalPreRelease(b)
    ensures CompareTo(a, b) == 0 <==> SameNumbers(a, b) && a.preRelease == b.preRelease
  {
    if SameNumbers(a, b) && Truthy(a.preRelease) && Truthy(b.preRelease) {
      var p, q := a.preRelease.value, b.preRelease.value;
      Specials.CompareIdsZeroIffEqual(Specials.ParseSpecial(p).ids, Specials.ParseSpecial(q).ids);
      if Specials.ParseSpecial(p).ids == Specials.ParseSpecial(q).ids {
        Specials.ParseSpecialInjective(p, q);
      }
    }
  }

  lemma CompareTransitive(a: VersionValue, b: VersionValue, c: VersionValue)
    requires CompareTo(a, b) < 0 && CompareTo(b, c) < 0
    ensures CompareTo(a, c) < 0
  {
    if SameNumbers(a, b) && SameNumbers(b, c) && Truthy(c.preRelease) {
      var x := Specials.ParseSpecial(a.preRelease.value).ids;
      var y := Specials.ParseSpecial(b.preRelease.value).ids;
      var z := Specials.ParseSpecial(c.preRelease.value).ids;
      Specials.CompareIdsTransitive(x, y, z);
      Specials.CompareIdsAntisymmetric(x, y);
    }
  }

  /** Build metadata never changes the outcome of `equals` or of `compareTo`. */
  lemma BuildMetadataNeverMatters(a: VersionValue, b: VersionValue, x: Option<string>, y: Option<string>)
    requires NoEmptyPreRelease(a) && NoEmptyPreRelease(b)
    ensures Equals(a.(buildMetadata := x), b.(buildMetadata := y)) == Equals(a, b)
    ensures CompareTo(a.(buildMetadata := x), b.(buildMetadata := y)) == CompareTo(a, b)
  {
  }

  /**
   * An empty pre-release breaks the order: against the same components
   * without a pre-release, `compareTo` answers 1 in both directions, and
   * adding build metadata to one side turns both answers into 0.
   */
  lemma EmptyPreReleaseAnomaly()
    ensures var a := VersionValue(1, 0, 0, Some(""), None);
            var b := VersionValue(1, 0, 0, None, None);
            !Equals(a, b) && CompareTo(a, b) == 1 && CompareTo(b, a) == 1
            && CompareTo(a, b.(buildMetadata := Some("b"))) == 0
            && CompareTo(b.(buildMetadata := Some("b")), a) == 0
  {
  }
}

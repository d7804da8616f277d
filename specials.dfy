/**
 * `Special`: a pre-release or build-metadata field split on '.' into a list
 * of identifiers, compared element by element. A Special never changes
 * after it is built, so it is a value here; its constructor loop and its
 * comparison loop are methods proved against the functions ParseSpecial
 * and CompareIds.
 */
module Specials {
  import opened Wrappers
  import opened JsRuntime
  import opened Grammar
  import Identifiers

  type Identifier = Identifiers.Identifier

  datatype Special = Special(ids: seq<Identifier>, version: string)

  /** What the constructor builds: one identifier per '.'-separated token, in order. */
  function ParseSpecial(version: string): (s: Special)
    ensures s.version == version
    ensures |s.ids| == |Split(version, '.')| > 0
  {
    var parts := Split(version, '.');
    Special(seq(|parts|, k requires 0 <= k < |parts| => Identifiers.ParseSpecialId(parts[k])), version)
  }

  /** The constructor: split, then push the classification of each token. */
  method NewSpecial(version: string) returns (s: Special)
    ensures s == ParseSpecial(version)
  {
    var parts := Split(version, '.');
    var ids: seq<Identifier> := [];
    var k := 0;
    while k < |parts|
      invariant 0 <= k <= |parts|
      invariant |ids| == k
      invariant forall j :: 0 <= j < k ==> ids[j] == Identifiers.ParseSpecialId(parts[j])
    {
      ids := ids + [Identifiers.ParseSpecialId(parts[k])];
      k := k + 1;
    }
    s := Special(ids, version);
  }

  /**
   * Reference definition of the comparison: the first pair of identifiers
   * that compares non-zero decides; when one list runs out first, the
   * longer list is greater.
   */
  function CompareIds(a: seq<Identifier>, b: seq<Identifier>): int
    decreases |a|
  {
    if |a| == 0 || |b| == 0 then
      (if |a| == |b| then 0 else if |a| > |b| then 1 else -1)
    else
      var c := Identifiers.CompareTo(a[0], b[0]);
      if c != 0 then c else CompareIds(a[1..], b[1..])
  }

  function Min(x: int, y: int): int { if x < y then x else y }

  function Max(x: int, y: int): int { if x < y then y else x }

  /** `compareTo`: an index loop over the common length with an early return. */
  method CompareTo(self: Special, other: Special) returns (c: int)
    ensures c == CompareIds(self.ids, other.ids)
  {
    var min := Min(|other.ids|, |self.ids|);
    var i := 0;
    while i < min
      invariant 0 <= i <= min
      invariant CompareIds(self.ids, other.ids) == CompareIds(self.ids[i..], other.ids[i..])
    {
      c := Identifiers.CompareTo(self.ids[i], other.ids[i]);
      if c != 0 {
        return;
      }
      assert self.ids[i..][1..] == self.ids[i + 1..];
      assert other.ids[i..][1..] == other.ids[i + 1..];
      i := i + 1;
    }
    var max := Max(|other.ids|, |self.ids|);
    if max != min {
      c := if |self.ids| > |other.ids| then 1 else -1;
      return;
    }
    c := 0;
  }

  /** `last`: the final identifier, `None` for an empty list (`undefined` in the source). */
  function Last(s: Special): (r: Option<Identifier>)
    ensures r.Some? <==> |s.ids| > 0
    ensures r.Some? ==> r.value == s.ids[|s.ids| - 1]
  {
    if |s.ids| > 0 then Some(s.ids[|s.ids| - 1]) else None
  }

  /** `isSnapshot`: the last identifier is a snapshot identifier, so it is a string identifier. */
  predicate IsSnapshot(s: Special)
    ensures IsSnapshot(s) ==> Last(s).Some? && Last(s).value.StringId?
  {
    if |s.ids| > 0 && Last(s).Some? then Identifiers.IsSnapshot(Last(s).value) else false
  }

  // ---------------------------------------------------------------------
  // Laws of the comparison.
  // ---------------------------------------------------------------------

  lemma {:induction false} CompareIdsAntisymmetric(a: seq<Identifier>, b: seq<Identifier>)
    ensures Identifiers.Sign(CompareIds(a, b)) == -Identifiers.Sign(CompareIds(b, a))
    decreases |a|
  {
    if |a| > 0 && |b| > 0 {
      Identifiers.Precedence(a[0], b[0]);
      CompareIdsAntisymmetric(a[1..], b[1..]);
    }
  }

  lemma {:induction false} CompareIdsZeroIffEqual(a: seq<Identifier>, b: seq<Identifier>)
    ensures CompareIds(a, b) == 0 <==> a == b
    decreases |a|
  {
    if |a| > 0 && |b| > 0 {
      Identifiers.Precedence(a[0], b[0]);
      CompareIdsZeroIffEqual(a[1..], b[1..]);
      assert a == [a[0]] + a[1..] && b == [b[0]] + b[1..];
    }
  }

  lemma {:induction false} CompareIdsTransitive(a: seq<Identifier>, b: seq<Identifier>, c: seq<Identifier>)
    requires CompareIds(a, b) < 0 && CompareIds(b, c) < 0
    ensures CompareIds(a, c) < 0
    decreases |a|
  {
    if |a| > 0 && |b| > 0 && |c| > 0 {
      Identifiers.Precedence(a[0], b[0]);
      Identifiers.Precedence(b[0], c[0]);
      Identifiers.Precedence(a[0], c[0]);
      var x := Identifiers.CompareTo(a[0], b[0]);
      var y := Identifiers.CompareTo(b[0], c[0]);
      if x < 0 && y < 0 {
        Identifiers.Transitive(a[0], b[0], c[0]);
      } else if x == 0 && y == 0 {
        CompareIdsTransitive(a[1..], b[1..], c[1..]);
      }
    }
  }

  /** The first position where the lists differ decides the comparison. */
  lemma {:induction false} CompareIdsFirstDifference(a: seq<Identifier>, b: seq<Identifier>, k: nat)
    requires k < |a| && k < |b| && a[..k] == b[..k] && a[k] != b[k]
    ensures CompareIds(a, b) == Identifiers.CompareTo(a[k], b[k])
    decreases k
  {
    Identifiers.Precedence(a[0], b[0]);
    if k > 0 {
      assert a[0] == a[..k][0] && b[0] == b[..k][0];
      assert a[1..][..k - 1] == a[..k][1..] && b[1..][..k - 1] == b[..k][1..];
      CompareIdsFirstDifference(a[1..], b[1..], k - 1);
    }
  }

  /** A proper prefix ranks below the longer list. */
  lemma {:induction false} CompareIdsProperPrefix(a: seq<Identifier>, b: seq<Identifier>)
    requires |a| < |b| && a == b[..|a|]
    ensures CompareIds(a, b) < 0 && CompareIds(b, a) > 0
    decreases |a|
  {
    if |a| > 0 {
      Identifiers.Precedence(a[0], b[0]);
      assert a[0] == b[0];
      assert a[1..] == b[1..][..|a| - 1];
      CompareIdsProperPrefix(a[1..], b[1..]);
    }
  }

  // ---------------------------------------------------------------------
  // Parsing is reversible on well-spelled fields.
  // ---------------------------------------------------------------------

  /** The identifiers spelled back as tokens. */
  function Tokens(ids: seq<Identifier>): (ts: seq<string>)
    ensures |ts| == |ids|
  {
    seq(|ids|, k requires 0 <= k < |ids| => Identifiers.ToString(ids[k]))
  }

  /** Every token is a numeric identifier without leading zero or holds a non-digit. */
  predicate TokensCanonical(p: string) {
    var parts := Split(p, '.');
    forall k :: 0 <= k < |parts| ==> IsCanonicalDecimal(parts[k]) || !AllDigits(parts[k])
  }

  /** Every grammatical pre-release is spelled canonically. */
  lemma PreReleaseTokensCanonical(p: string)
    requires IsPreRelease(p)
    ensures TokensCanonical(p)
  {
  }

  /** Joining the spelled-back identifiers with '.' rebuilds the field. */
  lemma ParseSpecialRoundTrip(p: string)
    requires TokensCanonical(p)
    ensures Join(Tokens(ParseSpecial(p).ids), '.') == p
  {
    var parts := Split(p, '.');
    forall k | 0 <= k < |parts|
      ensures Tokens(ParseSpecial(p).ids)[k] == parts[k]
    {
      Identifiers.ParseSpecialIdToString(parts[k]);
    }
    assert Tokens(ParseSpecial(p).ids) == parts;
    JoinSplit(p, '.');
  }

  /** Distinct canonical fields give distinct identifier lists. */
  lemma ParseSpecialInjective(p: string, q: string)
    requires TokensCanonical(p) && TokensCanonical(q)
    requires ParseSpecial(p).ids == ParseSpecial(q).ids
    ensures p == q
  {
    ParseSpecialRoundTrip(p);
    ParseSpecialRoundTrip(q);
  }

  // ---------------------------------------------------------------------
  // Snapshots.
  // ---------------------------------------------------------------------

  /** The last part of a split is a suffix that starts right after a separator (or at 0). */
  lemma {:induction false} LastPart(s: string, c: char) returns (j: nat)
    ensures j <= |s| && Split(s, c)[|Split(s, c)| - 1] == s[j..]
    ensures j > 0 ==> s[j - 1] == c
    decreases |s|
  {
    var i := Find(s, c);
    if i == |s| {
      j := 0;
    } else {
      var rest := s[i + 1..];
      var r := LastPart(rest, c);
      var parts, tail := Split(s, c), Split(rest, c);
      assert parts == [s[..i]] + tail;
      assert parts[|parts| - 1] == tail[|tail| - 1];
      j := i + 1 + r;
      assert rest[r..] == s[j..];
      if r > 0 {
        assert s[j - 1] == rest[r - 1];
      }
    }
  }

  /**
   * `last` of a parsed field is the classification of the text after the
   * final '.', or of the whole field when it has none.
   */
  lemma LastIsFinalToken(p: string) returns (j: nat)
    ensures j <= |p| && (j > 0 ==> p[j - 1] == '.') && '.' !in p[j..]
    ensures Last(ParseSpecial(p)) == Some(Identifiers.ParseSpecialId(p[j..]))
  {
    j := LastPart(p, '.');
  }

  /** Past the last separator, `s` and its tail end with the same separator-free suffixes. */
  lemma EndsWithTail(s: string, c: char, j: nat, suffix: string)
    requires j <= |s| && (j > 0 ==> s[j - 1] == c) && c !in suffix
    ensures EndsWith(s, suffix) <==> EndsWith(s[j..], suffix)
  {
    var tail := s[j..];
    if EndsWith(s, suffix) {
      var start := |s| - |suffix|;
      assert forall i :: start <= i < |s| ==> s[i] == suffix[i - start];
      assert start >= j;
      assert tail[|tail| - |suffix|..] == s[start..];
    }
    if EndsWith(tail, suffix) {
      assert tail[|tail| - |suffix|..] == s[|s| - |suffix|..];
    }
  }

  /** A snapshot field is one whose text ends with the snapshot suffix. */
  lemma SnapshotIffSuffix(p: string)
    ensures IsSnapshot(ParseSpecial(p)) <==> EndsWith(p, Identifiers.SNAPSHOT_VERSION_SUFFIX)
  {
    var suffix := Identifiers.SNAPSHOT_VERSION_SUFFIX;
    var j := LastIsFinalToken(p);
    Identifiers.ParseSpecialIdSnapshot(p[j..]);
    assert '.' !in suffix;
    EndsWithTail(p, '.', j, suffix);
  }
}

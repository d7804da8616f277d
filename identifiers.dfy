/**
 * One dot-separated identifier of a pre-release or build-metadata field:
 * a numeric identifier (`IntId`) or a string identifier (`StringId`), each
 * comparable against either kind.
 */
module Identifiers {
  import opened Wrappers
  import opened JsRuntime

  datatype Identifier = IntId(value: nat) | StringId(text: string)

  /** Suffix that marks the last identifier of a snapshot pre-release. */
  const SNAPSHOT_VERSION_SUFFIX: string := "SNAPSHOT"

  /** Only the sign of a comparison result carries meaning. */
  function Sign(x: int): int {
    if x < 0 then -1 else if x > 0 then 1 else 0
  }

  /**
   * `compareTo` of the two identifier classes. Two numeric identifiers give
   * the difference of their values, not -1/0/1; a numeric identifier ranks
   * below every string identifier.
   */
  function CompareTo(a: Identifier, b: Identifier): (r: int)
    ensures a.IntId? && b.StringId? ==> r < 0
    ensures a.StringId? && b.IntId? ==> r > 0
    ensures a == b ==> r == 0
  {
    match (a, b)
    case (IntId(x), IntId(y)) => x - y
    case (IntId(_), StringId(_)) => -1
    case (StringId(s), StringId(t)) => if s == t then 0 else if CodePointLess(s, t) then -1 else 1
    case (StringId(_), IntId(_)) => 1
  }

  /** `isSnapshot`: only a string identifier ending with the suffix is one. */
  predicate IsSnapshot(id: Identifier)
    ensures IsSnapshot(id) ==> id.StringId?
  {
    match id
    case IntId(_) => false
    case StringId(s) => EndsWith(s, SNAPSHOT_VERSION_SUFFIX)
  }

  function ToString(id: Identifier): string {
    match id
    case IntId(n) => NatToString(n)
    case StringId(s) => s
  }

  /**
   * Classification of one token: a non-empty token made only of digits is
   * numeric, every other token is a string identifier. This is the anchored
   * reading of the `DIGITS_ONLY` test; see ParseSpecialIdAsWritten for the
   * test as the source writes it.
   */
  function ParseSpecialId(token: string): (id: Identifier)
    ensures id.IntId? <==> token != "" && AllDigits(token)
    ensures id.StringId? ==> id.text == token
  {
    if token != "" && AllDigits(token) then IntId(ParseDecimal(token)) else StringId(token)
  }

  /** The precedence rules for identifiers, in both argument orders. */
  lemma Precedence(a: Identifier, b: Identifier)
    ensures a.IntId? && b.StringId? ==> CompareTo(a, b) < 0 && CompareTo(b, a) > 0
    ensures a.IntId? && b.IntId? ==> Sign(CompareTo(a, b)) == Sign(a.value - b.value)
    ensures a.StringId? && b.StringId? ==> (CompareTo(a, b) < 0 <==> CodePointLess(a.text, b.text))
    ensures CompareTo(a, b) == 0 <==> a == b
    ensures Sign(CompareTo(a, b)) == -Sign(CompareTo(b, a))
  {
    if a.StringId? && b.StringId? {
      CodePointLessIrreflexive(a.text);
      CodePointLessAsymmetric(a.text, b.text);
      CodePointLessTotal(a.text, b.text);
    }
  }

  lemma Transitive(a: Identifier, b: Identifier, c: Identifier)
    requires CompareTo(a, b) < 0 && CompareTo(b, c) < 0
    ensures CompareTo(a, c) < 0
  {
    if a.StringId? && b.StringId? && c.StringId? {
      CodePointLessTransitive(a.text, b.text, c.text);
      CodePointLessAsymmetric(a.text, c.text);
      if a.text == c.text {
        CodePointLessAsymmetric(a.text, b.text);
      }
    }
  }

  /**
   * A token that is a numeric identifier without a leading zero, or that
   * holds a character other than a digit, is spelled back unchanged.
   */
  lemma ParseSpecialIdToString(token: string)
    requires IsCanonicalDecimal(token) || !AllDigits(token)
    ensures ToString(ParseSpecialId(token)) == token
  {
    if IsCanonicalDecimal(token) {
      NatToStringParse(token);
    }
  }

  /**
   * With the anchored classification, two distinct well-spelled tokens
   * never tie, and swapping them negates the sign of the comparison.
   */
  lemma DistinctTokensNeverTie(s: string, t: string)
    requires s != t
    requires IsCanonicalDecimal(s) || !AllDigits(s)
    requires IsCanonicalDecimal(t) || !AllDigits(t)
    ensures CompareTo(ParseSpecialId(s), ParseSpecialId(t)) != 0
    ensures Sign(CompareTo(ParseSpecialId(s), ParseSpecialId(t))) == -Sign(CompareTo(ParseSpecialId(t), ParseSpecialId(s)))
  {
    ParseSpecialIdToString(s);
    ParseSpecialIdToString(t);
    Precedence(ParseSpecialId(s), ParseSpecialId(t));
  }

  /** Whether a token is classified as a snapshot depends only on its text. */
  lemma ParseSpecialIdSnapshot(token: string)
    ensures IsSnapshot(ParseSpecialId(token)) <==> EndsWith(token, SNAPSHOT_VERSION_SUFFIX)
  {
    if EndsWith(token, SNAPSHOT_VERSION_SUFFIX) {
      assert token[|token| - 1] == SNAPSHOT_VERSION_SUFFIX[7] == 'T';
    }
  }

  // ---------------------------------------------------------------------
  // The classification as written: `DIGITS_ONLY` is `/\d+/` without
  // anchors, so any token holding a digit becomes an IntId built from
  // `parseInt`, which reads only the leading digits (NaN when the token
  // does not start with a sign or digit).
  // ---------------------------------------------------------------------

  /** An identifier as the unanchored test builds it: `None` in `WrittenInt` is NaN. */
  datatype WrittenId = WrittenInt(number: Option<int>) | WrittenString(chars: string)

  /**
   * The unanchored classification: a token holding a digit anywhere is
   * numeric. It agrees with ParseSpecialId on all-digit and on digit-free
   * tokens.
   */
  function ParseSpecialIdAsWritten(token: string): (w: WrittenId)
    ensures token != "" && AllDigits(token) ==> w == WrittenInt(Some(ParseSpecialId(token).value))
    ensures (forall i :: 0 <= i < |token| ==> !IsDigit(token[i])) ==> w == WrittenString(ParseSpecialId(token).text)
  {
    assert token != "" && AllDigits(token) ==> IsDigit(token[0]);
    if exists i :: 0 <= i < |token| && IsDigit(token[i]) then WrittenInt(ParseInt(token)) else WrittenString(token)
  }

  /** `compareTo` on identifiers as written; `None` is a NaN result. */
  function CompareWritten(a: WrittenId, b: WrittenId): Option<int> {
    match (a, b)
    case (WrittenInt(Some(x)), WrittenInt(Some(y))) => Some(x - y)
    case (WrittenInt(_), WrittenInt(_)) => None
    case (WrittenInt(_), WrittenString(_)) => Some(-1)
    case (WrittenString(s), WrittenString(t)) => Some(if s == t then 0 else if CodePointLess(s, t) then -1 else 1)
    case (WrittenString(_), WrittenInt(_)) => Some(1)
  }

  /** A token holding a digit at `k` and not starting with white space is read by ParseSigned. */
  lemma WrittenDigitToken(token: string, k: nat)
    requires k < |token| && IsDigit(token[k]) && !IsWhiteSpace(token[0])
    ensures ParseSpecialIdAsWritten(token) == WrittenInt(ParseSigned(token))
  {
  }

  /** How the written test classifies the four sample tokens. */
  lemma WrittenSamples()
    ensures ParseSpecialIdAsWritten("0A") == WrittenInt(Some(0)) == ParseSpecialIdAsWritten("0B")
    ensures ParseSpecialIdAsWritten("rc1") == WrittenInt(None) == ParseSpecialIdAsWritten("rc2")
  {
    WrittenDigitToken("0A", 0);
    WrittenDigitToken("0B", 0);
    WrittenDigitToken("rc1", 2);
    WrittenDigitToken("rc2", 2);
    assert LeadingDigits("0A") == 1 by { assert LeadingDigits("A") == 0; assert "0A"[1..] == "A"; }
    assert LeadingDigits("0B") == 1 by { assert LeadingDigits("B") == 0; assert "0B"[1..] == "B"; }
    assert "0A"[..1] == "0" == "0B"[..1];
    assert ParseDecimal("0") == 0 by { assert "0"[..0] == ""; }
  }

  /**
   * The written test conflates distinct identifiers: `0A` and `0B` both
   * become IntId(0) and compare equal, and `rc1` against `rc2` compares to
   * NaN. The anchored classification orders both pairs as strings.
   */
  lemma UnanchoredDigitTestConflates()
    ensures ParseSpecialIdAsWritten("0A") == WrittenInt(Some(0)) == ParseSpecialIdAsWritten("0B")
    ensures CompareWritten(ParseSpecialIdAsWritten("0A"), ParseSpecialIdAsWritten("0B")) == Some(0)
    ensures CompareWritten(ParseSpecialIdAsWritten("rc1"), ParseSpecialIdAsWritten("rc2")) == None
    ensures CompareTo(ParseSpecialId("0A"), ParseSpecialId("0B")) < 0
    ensures CompareTo(ParseSpecialId("rc1"), ParseSpecialId("rc2")) < 0
  {
    WrittenSamples();
    AnchoredSamples();
  }

  /** How the anchored test classifies and orders the four sample tokens. */
  lemma AnchoredSamples()
    ensures ParseSpecialId("0A") == StringId("0A") && ParseSpecialId("0B") == StringId("0B")
    ensures ParseSpecialId("rc1") == StringId("rc1") && ParseSpecialId("rc2") == StringId("rc2")
    ensures CodePointLess("0A", "0B") && CodePointLess("rc1", "rc2")
  {
    assert !AllDigits("0A") by { assert !IsDigit("0A"[1]); }
    assert !AllDigits("0B") by { assert !IsDigit("0B"[1]); }
    assert !AllDigits("rc1") by { assert !IsDigit("rc1"[0]); }
    assert !AllDigits("rc2") by { assert !IsDigit("rc2"[0]); }
    assert CodePointLess("0A", "0B") by { assert "0A"[1..] == "A" && "0B"[1..] == "B"; }
    assert CodePointLess("rc1", "rc2") by {
      assert "rc1"[1..] == "c1" && "rc2"[1..] == "c2";
      assert "c1"[1..] == "1" && "c2"[1..] == "2";
    }
  }

  /** `isSnapshot` on an identifier as written: numeric ones never are. */
  predicate WrittenIsSnapshot(w: WrittenId) {
    w.WrittenString? && EndsWith(w.chars, SNAPSHOT_VERSION_SUFFIX)
  }

  /**
   * The written test loses snapshots whose last token holds a digit:
   * `rc1-SNAPSHOT` becomes a NaN numeric identifier, which is no snapshot,
   * while the anchored classification keeps it as a snapshot string.
   */
  lemma UnanchoredDigitTestMissesSnapshot()
    ensures ParseSpecialIdAsWritten("rc1-SNAPSHOT") == WrittenInt(None)
    ensures !WrittenIsSnapshot(ParseSpecialIdAsWritten("rc1-SNAPSHOT"))
    ensures IsSnapshot(ParseSpecialId("rc1-SNAPSHOT"))
  {
    var token := "rc1-SNAPSHOT";
    WrittenDigitToken(token, 2);
    assert token[|token| - 8..] == SNAPSHOT_VERSION_SUFFIX;
  }

  /**
   * The written test reverses the order of a string and a numeric
   * identifier: `2x` reads as 2 and ranks below 3, while the anchored
   * classification keeps `2x` a string, which ranks above every number.
   */
  lemma UnanchoredDigitTestReverses()
    ensures ParseSpecialIdAsWritten("2x") == WrittenInt(Some(2))
    ensures CompareWritten(ParseSpecialIdAsWritten("2x"), ParseSpecialIdAsWritten("3")) == Some(-1)
    ensures CompareTo(ParseSpecialId("2x"), ParseSpecialId("3")) > 0
  {
    WrittenDigitToken("2x", 0);
    WrittenDigitToken("3", 0);
    assert !IsDigit("2x"[1]);
    assert LeadingDigits("2x") == 1 by { assert LeadingDigits("x") == 0; assert "2x"[1..] == "x"; }
    assert "2x"[..1] == "2";
    assert ParseDecimal("2") == 2 by { assert "2"[..0] == ""; }
    assert ParseDecimal("3") == 3 by { assert "3"[..0] == ""; }
  }

  /**
   * The written test lets white space reach `parseInt`, which skips it:
   * ` 1` reads as 1, while the anchored classification keeps it a string.
   */
  lemma WrittenSkipsWhiteSpace()
    ensures ParseSpecialIdAsWritten(" 1") == WrittenInt(Some(1))
    ensures ParseSpecialId(" 1") == StringId(" 1")
  {
    assert IsDigit(" 1"[1]) && !IsDigit(" 1"[0]) && IsWhiteSpace(" 1"[0]);
    ParseIntSkipsWhiteSpace(" ", "1");
    assert " " + "1" == " 1";
    assert ParseDecimal("1") == 1 by { assert "1"[..0] == ""; }
  }
}

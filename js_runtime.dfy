/**
 * The few pieces of the JavaScript runtime the version type relies on:
 * numbers as a setter can receive them, `parseInt(s, 10)`, the decimal
 * rendering of a template literal, `String.prototype.split` on one
 * character, `endsWith`, and the ordering of two strings.
 */
module JsRuntime {
  import opened Wrappers

  /** A JavaScript number as the version type can observe it (fractions are not modelled). */
  datatype JsNumber = Int(value: int) | NaN | Infinity(negative: bool)

  /** `!!n`: zero and NaN are falsy. */
  predicate NumberTruthy(n: JsNumber) {
    match n
    case Int(v) => v != 0
    case NaN => false
    case Infinity(_) => true
  }

  /** A string that is present and non-empty is truthy. */
  predicate Truthy(s: Option<string>) {
    s.Some? && s.value != ""
  }

  predicate IsDigit(c: char) {
    '0' <= c <= '9'
  }

  predicate AllDigits(s: string) {
    forall i :: 0 <= i < |s| ==> IsDigit(s[i])
  }

  /** `0|[1-9]\d*`: a non-empty run of digits without a leading zero. */
  predicate IsCanonicalDecimal(s: string) {
    |s| > 0 && AllDigits(s) && (s[0] == '0' ==> |s| == 1)
  }

  function DigitChar(d: nat): (c: char)
    requires d < 10
    ensures IsDigit(c)
  {
    ('0' as int + d) as char
  }

  function DigitValue(c: char): (d: nat)
    requires IsDigit(c)
    ensures d < 10 && DigitChar(d) == c
  {
    c as int - '0' as int
  }

  /** `${n}` for a non-negative integer. */
  function NatToString(n: nat): (s: string)
    ensures IsCanonicalDecimal(s)
    decreases n
  {
    if n < 10 then [DigitChar(n)] else NatToString(n / 10) + [DigitChar(n % 10)]
  }

  /** `${n}` for any number. */
  function NumberToString(n: JsNumber): string {
    match n
    case Int(v) => if v < 0 then "-" + NatToString(-v) else NatToString(v)
    case NaN => "NaN"
    case Infinity(negative) => if negative then "-Infinity" else "Infinity"
  }

  /** `parseInt(s, 10)` on a string made of decimal digits only. */
  function ParseDecimal(s: string): nat
    requires AllDigits(s)
    decreases |s|
  {
    if s == [] then 0 else ParseDecimal(s[..|s| - 1]) * 10 + DigitValue(s[|s| - 1])
  }

  /** Length of the longest prefix of `s` made of digits. */
  function LeadingDigits(s: string): (n: nat)
    ensures n <= |s| && AllDigits(s[..n]) && (n < |s| ==> !IsDigit(s[n]))
    decreases |s|
  {
    if s == [] || !IsDigit(s[0]) then 0
    else
      var n := 1 + LeadingDigits(s[1..]);
      assert s[..n] == [s[0]] + s[1..][..n - 1];
      n
  }

  /**
   * The characters `parseInt` skips before the number: white space and line
   * terminators (StrWhiteSpaceChar, section 7.2 and 7.3 of ECMA-262).
   */
  predicate IsWhiteSpace(c: char) {
    || c == '\t' || c == '\n' || c == '\U{B}' || c == '\U{C}' || c == '\r' || c == ' '
    || c == '\U{A0}' || c == '\U{1680}' || ('\U{2000}' <= c <= '\U{200A}')
    || c == '\U{2028}' || c == '\U{2029}' || c == '\U{202F}' || c == '\U{205F}'
    || c == '\U{3000}' || c == '\U{FEFF}'
  }

  /** What `parseInt(s, 10)` reads after the white space: an optional sign, then the longest run of digits. */
  function ParseSigned(t: string): (r: Option<int>)
    ensures t != "" && AllDigits(t) ==> r == Some(ParseDecimal(t))
    ensures t != "" && !IsDigit(t[0]) && t[0] != '-' && t[0] != '+' ==> r.None?
  {
    assert t != "" && AllDigits(t) ==> t[..LeadingDigits(t)] == t;
    var signed := |t| > 0 && (t[0] == '-' || t[0] == '+');
    var rest := if signed then t[1..] else t;
    var n := LeadingDigits(rest);
    if n == 0 then None
    else
      var magnitude: int := ParseDecimal(rest[..n]);
      Some(if signed && t[0] == '-' then -magnitude else magnitude)
  }

  /**
   * `parseInt(s, 10)`: leading white space is skipped, then the number is
   * read. `None` stands for NaN.
   */
  function ParseInt(s: string): (r: Option<int>)
    ensures s != "" && AllDigits(s) ==> r == Some(ParseDecimal(s))
    ensures s != "" && !IsWhiteSpace(s[0]) && !IsDigit(s[0]) && s[0] != '-' && s[0] != '+' ==> r.None?
    decreases |s|
  {
    if s != "" && IsWhiteSpace(s[0]) then ParseInt(s[1..]) else ParseSigned(s)
  }

  /** `parseInt` skips any run of white space in front of the number. */
  lemma {:induction false} ParseIntSkipsWhiteSpace(w: string, s: string)
    requires forall i :: 0 <= i < |w| ==> IsWhiteSpace(w[i])
    ensures ParseInt(w + s) == ParseInt(s)
    decreases |w|
  {
    if w != "" {
      assert (w + s)[0] == w[0] && IsWhiteSpace(w[0]);
      assert (w + s)[1..] == w[1..] + s;
      ParseIntSkipsWhiteSpace(w[1..], s);
    } else {
      assert w + s == s;
    }
  }

  lemma {:induction false} ParseNatToString(n: nat)
    ensures ParseDecimal(NatToString(n)) == n
    decreases n
  {
    if n >= 10 {
      var s := NatToString(n);
      assert s[..|s| - 1] == NatToString(n / 10);
      ParseNatToString(n / 10);
    }
  }

  lemma {:induction false} ParseDecimalPositive(s: string)
    requires |s| > 0 && AllDigits(s) && s[0] != '0'
    ensures ParseDecimal(s) > 0
    decreases |s|
  {
    if |s| > 1 {
      ParseDecimalPositive(s[..|s| - 1]);
    }
  }

  /** `${parseInt(s, 10)}` gives `s` back exactly when `s` has no leading zero. */
  lemma {:induction false} NatToStringParse(s: string)
    requires IsCanonicalDecimal(s)
    ensures NatToString(ParseDecimal(s)) == s
    decreases |s|
  {
    if |s| > 1 {
      var init := s[..|s| - 1];
      ParseDecimalPositive(init);
      NatToStringParse(init);
      var n := ParseDecimal(s);
      assert n / 10 == ParseDecimal(init) && n % 10 == DigitValue(s[|s| - 1]);
      assert s == init + [s[|s| - 1]];
    }
  }

  /** Distinct naturals are spelled differently. */
  lemma NatToStringInjective(m: nat, n: nat)
    ensures NatToString(m) == NatToString(n) <==> m == n
  {
    ParseNatToString(m);
    ParseNatToString(n);
  }

  /** `${n}` starts with '0' only for 0. */
  lemma LeadingZeroOnlyForZero(n: nat)
    ensures NatToString(n)[0] == '0' <==> n == 0
  {
    var s := NatToString(n);
    if s[0] == '0' {
      assert s == "0";
      assert "0"[..0] == "";
      ParseNatToString(n);
    }
  }

  /** Index of the first `c` in `s`, or `|s|` when there is none. */
  function Find(s: string, c: char): (i: nat)
    ensures i <= |s| && (i < |s| ==> s[i] == c)
    ensures forall k :: 0 <= k < i ==> s[k] != c
    decreases |s|
  {
    if s == [] || s[0] == c then 0 else 1 + Find(s[1..], c)
  }

  /** `s.split(c)`: never empty; "" splits into [""]. */
  function Split(s: string, c: char): (parts: seq<string>)
    ensures |parts| > 0
    ensures forall k :: 0 <= k < |parts| ==> c !in parts[k]
    decreases |s|
  {
    var i := Find(s, c);
    if i == |s| then [s] else [s[..i]] + Split(s[i + 1..], c)
  }

  /** `parts.join(c)`. */
  function Join(parts: seq<string>, c: char): string
    decreases |parts|
  {
    if |parts| == 0 then ""
    else if |parts| == 1 then parts[0]
    else parts[0] + [c] + Join(parts[1..], c)
  }

  lemma FindAbsent(s: string, c: char)
    requires c !in s
    ensures Find(s, c) == |s|
  {
  }

  lemma FindAfter(a: string, c: char, b: string)
    requires c !in a
    ensures Find(a + [c] + b, c) == |a|
  {
    var s := a + [c] + b;
    assert s[|a|] == c;
  }

  lemma {:induction false} JoinSplit(s: string, c: char)
    ensures Join(Split(s, c), c) == s
    decreases |s|
  {
    var i := Find(s, c);
    if i < |s| {
      JoinSplit(s[i + 1..], c);
      assert s == s[..i] + [c] + s[i + 1..];
    }
  }

  lemma {:induction false} SplitJoin(parts: seq<string>, c: char)
    requires |parts| > 0
    requires forall k :: 0 <= k < |parts| ==> c !in parts[k]
    ensures Split(Join(parts, c), c) == parts
    decreases |parts|
  {
    if |parts| == 1 {
      FindAbsent(parts[0], c);
    } else {
      var rest := Join(parts[1..], c);
      FindAfter(parts[0], c, rest);
      var s := parts[0] + [c] + rest;
      assert s[..|parts[0]|] == parts[0];
      assert s[|parts[0]| + 1..] == rest;
      assert Join(parts, c) == s;
      assert Split(s, c) == [parts[0]] + Split(rest, c);
      SplitJoin(parts[1..], c);
      assert parts == [parts[0]] + parts[1..];
    }
  }

  /** Every character of `s` other than `c` is a character of one of its parts. */
  lemma {:induction false} SplitCovers(s: string, c: char, i: nat)
    requires i < |s| && s[i] != c
    ensures exists k, j :: 0 <= k < |Split(s, c)| && 0 <= j < |Split(s, c)[k]| && Split(s, c)[k][j] == s[i]
    decreases |s|
  {
    var f := Find(s, c);
    var parts := Split(s, c);
    if f == |s| {
      assert parts[0][i] == s[i];
    } else if i < f {
      assert parts[0][i] == s[i];
    } else {
      assert i > f;
      var rest := s[f + 1..];
      SplitCovers(rest, c, i - f - 1);
      var k, j :| 0 <= k < |Split(rest, c)| && 0 <= j < |Split(rest, c)[k]| && Split(rest, c)[k][j] == rest[i - f - 1];
      assert parts[k + 1] == Split(rest, c)[k];
    }
  }

  /** `s.endsWith(suffix)`. */
  predicate EndsWith(s: string, suffix: string) {
    |suffix| <= |s| && s[|s| - |suffix|..] == suffix
  }

  /**
   * Code-point order of two strings. The source orders string identifiers
   * with the locale-dependent `localeCompare`; this model pins the order.
   */
  predicate CodePointLess(a: string, b: string)
    decreases |a|
  {
    if |a| == 0 then |b| > 0
    else |b| > 0 && (a[0] < b[0] || (a[0] == b[0] && CodePointLess(a[1..], b[1..])))
  }

  lemma {:induction false} CodePointLessIrreflexive(a: string)
    ensures !CodePointLess(a, a)
    decreases |a|
  {
    if |a| > 0 {
      CodePointLessIrreflexive(a[1..]);
    }
  }

  lemma {:induction false} CodePointLessAsymmetric(a: string, b: string)
    ensures !(CodePointLess(a, b) && CodePointLess(b, a))
    decreases |a|
  {
    if |a| > 0 && |b| > 0 {
      CodePointLessAsymmetric(a[1..], b[1..]);
    }
  }

  lemma {:induction false} CodePointLessTotal(a: string, b: string)
    ensures a == b || CodePointLess(a, b) || CodePointLess(b, a)
    decreases |a|
  {
    if |a| > 0 && |b| > 0 && a[0] == b[0] {
      CodePointLessTotal(a[1..], b[1..]);
      if a[1..] == b[1..] {
        assert a == [a[0]] + a[1..] && b == [b[0]] + b[1..];
      }
    }
  }

  lemma {:induction false} CodePointLessTransitive(a: string, b: string, c: string)
    requires CodePointLess(a, b) && CodePointLess(b, c)
    ensures CodePointLess(a, c)
    decreases |a|
  {
    if |a| > 0 && a[0] == b[0] && b[0] == c[0] {
      CodePointLessTransitive(a[1..], b[1..], c[1..]);
    }
  }
}

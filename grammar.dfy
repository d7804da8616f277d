/**
 * The version grammar of Semantic Versioning 2.0.0 (items 2, 9 and 10),
 * which the source writes as the `FORMAT` regular expression:
 *
 *   version    := core ["-" preRelease] ["+" buildMetadata]
 *   core       := number "." number "." number,  number := "0" | [1-9][0-9]*
 *   preRelease := preId ("." preId)*,  preId := number | [0-9A-Za-z-]* holding a non-digit
 *   buildMetadata := buildId ("." buildId)*,  buildId := [0-9A-Za-z-]+
 *
 * `Exec` is the match (its five capture groups), `Render` puts groups back
 * together, and the two lemmas ExecSound and ExecComplete show that `Exec`
 * accepts exactly the renderings of well-formed groups.
 */
module Grammar {
  import opened Wrappers
  import opened JsRuntime

  predicate IsIdentifierChar(c: char) {
    IsDigit(c) || 'a' <= c <= 'z' || 'A' <= c <= 'Z' || c == '-'
  }

  predicate AllIdentifierChars(s: string) {
    forall i :: 0 <= i < |s| ==> IsIdentifierChar(s[i])
  }

  /** `0|[1-9]\d*`, used for the three numbers and numeric pre-release identifiers. */
  predicate IsNumericIdentifier(s: string) {
    IsCanonicalDecimal(s)
  }

  /** `\d*[a-zA-Z-][\da-zA-Z-]*`: identifier characters with at least one non-digit. */
  predicate IsAlphanumericIdentifier(s: string) {
    AllIdentifierChars(s) && !AllDigits(s)
  }

  predicate IsPreReleaseIdentifier(s: string) {
    IsNumericIdentifier(s) || IsAlphanumericIdentifier(s)
  }

  /** `[\da-zA-Z-]+`: leading zeros are allowed in build metadata. */
  predicate IsBuildIdentifier(s: string) {
    s != "" && AllIdentifierChars(s)
  }

  predicate IsPreRelease(s: string) {
    var ids := Split(s, '.');
    forall k :: 0 <= k < |ids| ==> IsPreReleaseIdentifier(ids[k])
  }

  predicate IsBuildMetadata(s: string) {
    var ids := Split(s, '.');
    forall k :: 0 <= k < |ids| ==> IsBuildIdentifier(ids[k])
  }

  /** The capture groups of a match: three numbers, then the optional fields. */
  datatype Groups = Groups(major: string, minor: string, patch: string, preRelease: Option<string>, buildMetadata: Option<string>)

  predicate WellFormed(g: Groups) {
    && IsNumericIdentifier(g.major)
    && IsNumericIdentifier(g.minor)
    && IsNumericIdentifier(g.patch)
    && (g.preRelease.Some? ==> IsPreRelease(g.preRelease.value))
    && (g.buildMetadata.Some? ==> IsBuildMetadata(g.buildMetadata.value))
  }

  function Suffix(separator: char, field: Option<string>): string {
    if field.Some? then [separator] + field.value else ""
  }

  function Render(g: Groups): string {
    g.major + "." + g.minor + "." + g.patch + Suffix('-', g.preRelease) + Suffix('+', g.buildMetadata)
  }

  /** `s` split at the first `c`: what precedes it, and what follows it if there is one. */
  datatype Cut = Cut(before: string, after: Option<string>)

  function CutAt(s: string, c: char): (r: Cut)
    ensures c !in r.before
    ensures r.before + Suffix(c, r.after) == s
  {
    var i := Find(s, c);
    if i < |s| then
      assert s == s[..i] + [c] + s[i + 1..];
      Cut(s[..i], Some(s[i + 1..]))
    else
      Cut(s, None)
  }

  /**
   * `FORMAT.exec(s)` read as a whole-string match: build metadata starts at
   * the first '+', the pre-release at the first '-' before it, and what
   * precedes is the dotted core.
   */
  function Exec(s: string): (r: Option<Groups>)
    ensures r.Some? ==> WellFormed(r.value)
  {
    var head := CutAt(s, '+');
    var core := CutAt(head.before, '-');
    var numbers := Split(core.before, '.');
    if |numbers| == 3 && WellFormed(Groups(numbers[0], numbers[1], numbers[2], core.after, head.after))
    then Some(Groups(numbers[0], numbers[1], numbers[2], core.after, head.after))
    else None
  }

  /**
   * `validate`: the string matches `FORMAT`. A valid string is at least as
   * long as `0.0.0` and starts with a digit of the major version.
   */
  predicate Validate(s: string)
    ensures Validate(s) ==> |s| >= 5 && IsDigit(s[0])
  {
    if Exec(s).Some? then
      ExecSound(s);
      assert s[0] == Exec(s).value.major[0];
      true
    else false
  }

  /** A pre-release or build field is never empty: "" splits into one empty identifier. */
  lemma FieldNonEmpty(s: string)
    requires IsPreRelease(s) || IsBuildMetadata(s)
    ensures s != ""
  {
    var ids := Split(s, '.');
    assert IsPreReleaseIdentifier(ids[0]) || IsBuildIdentifier(ids[0]);
    assert Split("", '.') == [""];
    assert !IsPreReleaseIdentifier("") && !IsBuildIdentifier("");
  }

  /** The optional groups of a match are never empty strings. */
  lemma GroupsNonEmpty(g: Groups)
    requires WellFormed(g)
    ensures g.preRelease.Some? ==> g.preRelease.value != ""
    ensures g.buildMetadata.Some? ==> g.buildMetadata.value != ""
  {
    if g.preRelease.Some? {
      FieldNonEmpty(g.preRelease.value);
    }
    if g.buildMetadata.Some? {
      FieldNonEmpty(g.buildMetadata.value);
    }
  }

  lemma JoinThree(a: string, b: string, c: string)
    ensures Join([a, b, c], '.') == a + "." + b + "." + c
  {
    assert [a, b, c][1..] == [b, c];
    assert [b, c][1..] == [c];
    assert Join([c], '.') == c;
    assert Join([b, c], '.') == b + "." + c;
    assert Join([a, b, c], '.') == a + "." + (b + "." + c);
  }

  /** Cutting `head + Suffix(c, field)` at its first `c` gives `head` and `field` back. */
  lemma SuffixCut(head: string, c: char, field: Option<string>)
    requires c !in head
    ensures CutAt(head + Suffix(c, field), c) == Cut(head, field)
  {
    if field.Some? {
      assert head + Suffix(c, field) == head + [c] + field.value;
      FindAfter(head, c, field.value);
      var s := head + [c] + field.value;
      assert s[..|head|] == head && s[|head| + 1..] == field.value;
    } else {
      FindAbsent(head, c);
    }
  }

  /** The characters of a field are identifier characters and dots. */
  lemma FieldChars(s: string)
    requires IsPreRelease(s) || IsBuildMetadata(s)
    ensures forall i :: 0 <= i < |s| ==> s[i] == '.' || IsIdentifierChar(s[i])
  {
    var ids := Split(s, '.');
    assert forall k :: 0 <= k < |ids| ==> AllIdentifierChars(ids[k]);
    forall i | 0 <= i < |s| && s[i] != '.'
      ensures IsIdentifierChar(s[i])
    {
      SplitCovers(s, '.', i);
    }
  }

  lemma ExecSound(s: string)
    requires Exec(s).Some?
    ensures Render(Exec(s).value) == s
  {
    var core := CutAt(CutAt(s, '+').before, '-').before;
    var numbers := Split(core, '.');
    JoinSplit(core, '.');
    assert numbers == [numbers[0], numbers[1], numbers[2]];
    JoinThree(numbers[0], numbers[1], numbers[2]);
  }

  /** Numbers, dots and identifier characters never include '+'; digits and dots never '-'. */
  lemma SeparatorsAbsent(g: Groups)
    requires WellFormed(g)
    ensures '+' !in g.major + "." + g.minor + "." + g.patch
    ensures '-' !in g.major + "." + g.minor + "." + g.patch
    ensures '+' !in Suffix('-', g.preRelease)
  {
    var core := g.major + "." + g.minor + "." + g.patch;
    assert forall i :: 0 <= i < |core| ==> core[i] == '.' || IsDigit(core[i]);
    if g.preRelease.Some? {
      FieldChars(g.preRelease.value);
      var field := Suffix('-', g.preRelease);
      assert forall i :: 0 <= i < |field| ==> field[i] == '-' || field[i] == '.' || IsIdentifierChar(field[i]);
    }
  }

  /** Cutting a rendering at its first '+' and then at its first '-' recovers the fields. */
  lemma RenderCuts(g: Groups)
    requires WellFormed(g)
    ensures CutAt(Render(g), '+') == Cut(g.major + "." + g.minor + "." + g.patch + Suffix('-', g.preRelease), g.buildMetadata)
    ensures CutAt(g.major + "." + g.minor + "." + g.patch + Suffix('-', g.preRelease), '-') == Cut(g.major + "." + g.minor + "." + g.patch, g.preRelease)
  {
    var core := g.major + "." + g.minor + "." + g.patch;
    var head := core + Suffix('-', g.preRelease);
    assert Render(g) == head + Suffix('+', g.buildMetadata);
    SeparatorsAbsent(g);
    assert '+' !in head;
    SuffixCut(head, '+', g.buildMetadata);
    SuffixCut(core, '-', g.preRelease);
  }

  /** The dotted core splits back into the three numbers. */
  lemma CoreSplit(g: Groups)
    requires WellFormed(g)
    ensures Split(g.major + "." + g.minor + "." + g.patch, '.') == [g.major, g.minor, g.patch]
  {
    JoinThree(g.major, g.minor, g.patch);
    SplitJoin([g.major, g.minor, g.patch], '.');
  }

  lemma ExecComplete(g: Groups)
    requires WellFormed(g)
    ensures Exec(Render(g)) == Some(g)
  {
    RenderCuts(g);
    CoreSplit(g);
  }

  /** `validate` accepts a string exactly when it is the rendering of well-formed groups. */
  lemma ValidateIffGrammar(s: string)
    ensures Validate(s) <==> exists g :: WellFormed(g) && Render(g) == s
  {
    if Validate(s) {
      ExecSound(s);
    }
    forall g | WellFormed(g) && Render(g) == s
      ensures Validate(s)
    {
      ExecComplete(g);
    }
  }
}

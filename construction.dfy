/**
 * Construction laws: a version built from a string reads back as that
 * string, a version built from components reads back in canonical form,
 * components are range-checked in order before anything is stored, and
 * `clone` rebuilds the same fields.
 */
module Construction {
  import opened Wrappers
  import opened JsRuntime
  import opened Grammar
  import opened VersionValues

  /** Options holding only a version string. */
  function FromVersion(s: string): VersionOptions {
    VersionOptions(None, None, None, None, None, Some(s))
  }

  /** The fields a grammatical rendering needs: absent or grammatical optional fields. */
  predicate GrammaticalFields(v: VersionValue) {
    && (v.preRelease.Some? ==> IsPreRelease(v.preRelease.value))
    && (v.buildMetadata.Some? ==> IsBuildMetadata(v.buildMetadata.value))
  }

  /** The fields stored from a match render back to the matched groups. */
  lemma ApplyGroupsRenders(g: Groups)
    requires WellFormed(g)
    ensures GroupsOf(ApplyGroups(Initial, g)) == g
  {
    GroupsNonEmpty(g);
  }

  /**
   * The `version` option: a string accepted by `validate` is stored so that
   * reading `version` gives it back exactly; any other non-empty string is
   * rejected with a SyntaxError naming it.
   */
  lemma StringRoundTrip(s: string)
    ensures Validate(s) ==> Construct(FromVersion(s)).Success? && Format(Construct(FromVersion(s)).value) == s
    ensures !Validate(s) && s != "" ==> Construct(FromVersion(s)) == Failure(SyntaxError(InvalidMessage(s)))
  {
    if Validate(s) {
      var g := Exec(s).value;
      ExecSound(s);
      assert |s| >= |g.major| > 0;
      ApplyGroupsRenders(g);
      FormatIsRender(ApplyGroups(Initial, g));
    }
  }

  /** Formatting fields with grammatical optional parts and parsing the result gives them back. */
  lemma FormatThenParse(v: VersionValue)
    requires GrammaticalFields(v)
    ensures FromString(Format(v)) == Success(v)
  {
    var g := GroupsOf(v);
    if v.preRelease.Some? {
      FieldNonEmpty(v.preRelease.value);
    }
    if v.buildMetadata.Some? {
      FieldNonEmpty(v.buildMetadata.value);
    }
    assert g.preRelease == v.preRelease && g.buildMetadata == v.buildMetadata;
    assert WellFormed(g);
    FormatIsRender(v);
    ExecComplete(g);
    var r := ApplyGroups(Initial, g);
    NatToStringInjective(r.major, v.major);
    NatToStringInjective(r.minor, v.minor);
    NatToStringInjective(r.patch, v.patch);
  }

  /**
   * Components with a grammatical (or empty) pre-release and a grammatical
   * (or empty) build metadata construct successfully. The pre-release is
   * stored as given, an empty build metadata is not stored, and `version`
   * reads `major.minor.patch`, then `-pre` when the pre-release is
   * non-empty, then `+build` when the build metadata is non-empty.
   */
  lemma ComponentsConstruct(major: nat, minor: nat, patch: nat, pre: Option<string>, build: Option<string>)
    requires pre.Some? ==> pre.value == "" || IsPreRelease(pre.value)
    requires build.Some? ==> build.value == "" || IsBuildMetadata(build.value)
    ensures var o := VersionOptions(Some(Int(major)), Some(Int(minor)), Some(Int(patch)), pre, build, None);
            var v := VersionValue(major, minor, patch, pre, Present(build));
            && Construct(o) == Success(v)
            && Exec(Format(v)) == Some(Groups(NatToString(major), NatToString(minor), NatToString(patch), Present(pre), Present(build)))
  {
    var o := VersionOptions(Some(Int(major)), Some(Int(minor)), Some(Int(patch)), pre, build, None);
    var v := VersionValue(major, minor, patch, pre, Present(build));
    assert Stored(o) == Success(v);
    var g := GroupsOf(v);
    assert WellFormed(g);
    FormatIsRender(v);
    ExecComplete(g);
    assert Validate(Format(v));
  }

  /**
   * Range checks run major, then minor, then patch, and the first failing
   * one is the error: the message names that component and says what the
   * value must be (a number, finite, positive — in that order of checks).
   */
  lemma ComponentRangeChecked(o: VersionOptions)
    requires !Truthy(o.version)
    ensures o.major.Some? && AssertRange(o.major.value, "major").Some? ==>
      Construct(o) == Failure(AssertRange(o.major.value, "major").value)
    ensures (o.major.None? || AssertRange(o.major.value, "major").None?) && o.minor.Some? && AssertRange(o.minor.value, "minor").Some? ==>
      Construct(o) == Failure(AssertRange(o.minor.value, "minor").value)
    ensures ((o.major.None? || AssertRange(o.major.value, "major").None?) && (o.minor.None? || AssertRange(o.minor.value, "minor").None?)
             && o.patch.Some? && AssertRange(o.patch.value, "patch").Some?) ==>
      Construct(o) == Failure(AssertRange(o.patch.value, "patch").value)
  {
    assert COMPONENT_NAMES[0] == "major" && COMPONENT_NAMES[1] == "minor" && COMPONENT_NAMES[2] == "patch";
  }

  /** A negative major is reported as not positive, before the other components are looked at. */
  lemma NegativeMajorRejected(n: int, minor: Option<JsNumber>, patch: Option<JsNumber>)
    requires n < 0
    ensures Construct(VersionOptions(Some(Int(n)), minor, patch, None, None, None))
      == Failure(RangeError("IllegalArgumentException major version must be positive"))
  {
    var o := VersionOptions(Some(Int(n)), minor, patch, None, None, None);
    assert SetIfGiven(Success(Initial), 0, o.major) == Failure(RangeError(RangeMessage("major", "positive")));
    assert Stored(o) == Failure(RangeError(RangeMessage("major", "positive")));
    assert RangeMessage("major", "positive") == "IllegalArgumentException major version must be positive";
  }

  /** Every constructed version reads back as a string `validate` accepts. */
  lemma ConstructedFormatValid(o: VersionOptions)
    requires Construct(o).Success?
    ensures Validate(Format(Construct(o).value))
  {
    if Truthy(o.version) {
      StringRoundTrip(o.version.value);
    }
  }

  /** `clone` passes every field back; only an empty build metadata is not stored. */
  lemma CloneStores(v: VersionValue)
    ensures Stored(CloneOptions(v)) == Success(v.(buildMetadata := Present(v.buildMetadata)))
  {
  }

  /**
   * `clone` succeeds exactly when the fields render to a valid string, and
   * then rebuilds the same fields, except that an empty build metadata is
   * dropped.
   */
  lemma CloneRoundTrip(v: VersionValue)
    ensures Clone(v).Success? <==> Validate(Format(v))
    ensures Clone(v).Success? ==> Clone(v).value == v.(buildMetadata := Present(v.buildMetadata))
  {
    CloneStores(v);
    assert Format(v.(buildMetadata := Present(v.buildMetadata))) == Format(v);
  }
}

/**
 * The `Version` class: the components live in a three-element array, the
 * pre-release and build metadata as strings together with the `Special`s
 * built from them, and `versionString` caches the rendering. Every setter
 * re-renders the cache, so `Valid()` (cache and Specials agree with the
 * fields) holds after each of them; `Value()` reads the fields as the
 * value the functions of VersionValues work on.
 */
module Versions {
  import opened Wrappers
  import opened JsRuntime
  import opened Grammar
  import opened VersionValues
  import Specials

  class Version {
    var buildMetadataString: Option<string>
    var preReleaseString: Option<string>
    var specialBuildMetadata: Option<Specials.Special>
    var specialPrerelease: Option<Specials.Special>
    var versionComponents: array<nat>
    var versionString: string

    /** The Specials are built from the strings and the cache renders the fields. */
    ghost predicate Valid()
      reads this, versionComponents
    {
      && versionComponents.Length == 3
      && specialPrerelease == SpecialOf(preReleaseString)
      && specialBuildMetadata == SpecialOf(buildMetadataString)
      && versionString == Format(Value())
    }

    function Value(): VersionValue
      reads this, versionComponents
      requires versionComponents.Length == 3
    {
      VersionValue(versionComponents[0], versionComponents[1], versionComponents[2], preReleaseString, buildMetadataString)
    }

    /** The field initialisers: 0.0.0, nothing else set, cache `DEFAULT_VERSION`. */
    constructor ()
      ensures Valid() && Value() == Initial && versionString == DEFAULT_VERSION
      ensures fresh(versionComponents)
    {
      buildMetadataString := None;
      preReleaseString := None;
      specialBuildMetadata := None;
      specialPrerelease := None;
      versionComponents := new nat[3](_ => 0);
      versionString := DEFAULT_VERSION;
      assert NatToString(0) == "0" by { assert DigitChar(0) == '0'; }
    }

    /** `updateVersion`: rebuild the cache piece by piece. */
    method UpdateVersion()
      requires versionComponents.Length == 3
      modifies this`versionString
      ensures versionString == Format(Value())
    {
      var s := "";
      if versionComponents[0] > -1 {
        s := NatToString(versionComponents[0]);
      }
      if versionComponents[1] > -1 {
        s := s + "." + NatToString(versionComponents[1]);
      }
      if versionComponents[2] > -1 {
        s := s + "." + NatToString(versionComponents[2]);
      }
      if Truthy(preReleaseString) {
        s := s + [PRE_RELEASE_SEPARATOR] + preReleaseString.value;
      }
      if Truthy(buildMetadataString) {
        s := s + [BUILD_METADATA_SEPARATOR] + buildMetadataString.value;
      }
      versionString := s;
    }

    /** The `version` getter: re-render, then read the cache. */
    method GetVersion() returns (s: string)
      requires Valid()
      modifies this`versionString
      ensures Valid() && versionString == old(versionString)
      ensures s == Format(Value())
    {
      UpdateVersion();
      s := versionString;
    }

    /** Shared body of the three component setters. */
    method SetComponent(i: nat, x: JsNumber) returns (error: Option<VersionError>)
      requires Valid() && i < 3
      modifies versionComponents, this`versionString
      ensures Valid()
      ensures error == AssertRange(x, COMPONENT_NAMES[i])
      ensures VersionValues.SetComponent(old(Value()), i, x) == if error.None? then Success(Value()) else Failure(error.value)
      ensures error.Some? ==> Value() == old(Value()) && versionString == old(versionString)
    {
      error := AssertRange(x, COMPONENT_NAMES[i]);
      if error.Some? {
        return;
      }
      versionComponents[i] := x.value;
      UpdateVersion();
    }

    /** The `major` setter; on a range error nothing is stored. */
    method SetMajor(major: JsNumber) returns (error: Option<VersionError>)
      requires Valid()
      modifies versionComponents, this`versionString
      ensures Valid()
      ensures error == AssertRange(major, "major")
      ensures error.None? ==> Value() == old(Value()).(major := major.value)
      ensures error.Some? ==> Value() == old(Value()) && versionString == old(versionString)
    {
      error := SetComponent(0, major);
    }

    /** The `minor` setter; on a range error nothing is stored. */
    method SetMinor(minor: JsNumber) returns (error: Option<VersionError>)
      requires Valid()
      modifies versionComponents, this`versionString
      ensures Valid()
      ensures error == AssertRange(minor, "minor")
      ensures error.None? ==> Value() == old(Value()).(minor := minor.value)
      ensures error.Some? ==> Value() == old(Value()) && versionString == old(versionString)
    {
      error := SetComponent(1, minor);
    }

    /** The `patch` setter; on a range error nothing is stored. */
    method SetPatch(patch: JsNumber) returns (error: Option<VersionError>)
      requires Valid()
      modifies versionComponents, this`versionString
      ensures Valid()
      ensures error == AssertRange(patch, "patch")
      ensures error.None? ==> Value() == old(Value()).(patch := patch.value)
      ensures error.Some? ==> Value() == old(Value()) && versionString == old(versionString)
    {
      error := SetComponent(2, patch);
    }

    /** The `preRelease` setter: store the string, build a Special when it is non-empty. */
    method SetPreRelease(preRelease: Option<string>)
      requires Valid()
      modifies this`preReleaseString, this`specialPrerelease, this`versionString
      ensures Valid()
      ensures Value() == old(Value()).(preRelease := preRelease)
    {
      preReleaseString := preRelease;
      if Truthy(preRelease) {
        var special := Specials.NewSpecial(preRelease.value);
        specialPrerelease := Some(special);
      } else {
        specialPrerelease := None;
      }
      UpdateVersion();
    }

    /** The `buildMetadata` setter: store the string, build a Special when it is non-empty. */
    method SetBuildMetadata(buildMetadata: Option<string>)
      requires Valid()
      modifies this`buildMetadataString, this`specialBuildMetadata, this`versionString
      ensures Valid()
      ensures Value() == old(Value()).(buildMetadata := buildMetadata)
    {
      buildMetadataString := buildMetadata;
      if Truthy(buildMetadata) {
        var special := Specials.NewSpecial(buildMetadata.value);
        specialBuildMetadata := Some(special);
      } else {
        specialBuildMetadata := None;
      }
      UpdateVersion();
    }

    /**
     * The `version` setter: a string that does not match `FORMAT` is a
     * SyntaxError and changes nothing; otherwise each matched group goes
     * through its setter, and unmatched optional fields keep their value.
     */
    method SetVersion(version: string) returns (error: Option<VersionError>)
      requires Valid()
      modifies versionComponents, this`versionString, this`preReleaseString, this`specialPrerelease
      modifies this`buildMetadataString, this`specialBuildMetadata
      ensures Valid()
      ensures Exec(version).None? ==> error == Some(SyntaxError(InvalidMessage(version))) && Value() == old(Value())
      ensures Exec(version).Some? ==> error.None? && Value() == ApplyGroups(old(Value()), Exec(version).value)
    {
      var groups := Exec(version);
      if groups.None? {
        return Some(SyntaxError(InvalidMessage(version)));
      }
      var g := groups.value;
      if g.major != "" {
        var e := SetMajor(Int(ParseDecimal(g.major)));
      }
      if g.minor != "" {
        var e := SetMinor(Int(ParseDecimal(g.minor)));
      }
      if g.patch != "" {
        var e := SetPatch(Int(ParseDecimal(g.patch)));
      }
      if Truthy(g.preRelease) {
        SetPreRelease(g.preRelease);
      }
      if Truthy(g.buildMetadata) {
        SetBuildMetadata(g.buildMetadata);
      }
      error := None;
    }

    /** `compareTo`, reading the fields and the pre-release Specials. */
    method CompareTo(another: Version) returns (c: int)
      requires Valid() && another.Valid()
      ensures c == VersionValues.CompareTo(Value(), another.Value())
    {
      if Equals(Value(), another.Value()) {
        return 0;
      }
      var major, otherMajor := versionComponents[0], another.versionComponents[0];
      var minor, otherMinor := versionComponents[1], another.versionComponents[1];
      var patch, otherPatch := versionComponents[2], another.versionComponents[2];
      if major < otherMajor {
        return -1;
      } else if major == otherMajor {
        if minor < otherMinor {
          return -1;
        } else if minor == otherMinor {
          if patch < otherPatch {
            return -1;
          } else if patch == otherPatch {
            if specialPrerelease.Some? && another.specialPrerelease.Some? {
              c := Specials.CompareTo(specialPrerelease.value, another.specialPrerelease.value);
              return;
            }
            if another.specialPrerelease.Some? {
              return 1;
            } else if specialPrerelease.Some? {
              return -1;
            }
            var mine, theirs := specialBuildMetadata, another.specialBuildMetadata;
            if (mine.Some? && theirs.Some?) || (mine.Some? && theirs.None?) || (mine.None? && theirs.Some?) {
              return 0;
            }
          }
        }
      }
      return 1;
    }

    /** `clone`: construct a new instance from the fields. */
    method Clone() returns (r: Result<Version, VersionError>)
      requires versionComponents.Length == 3
      ensures r.Success? <==> VersionValues.Clone(Value()).Success?
      ensures r.Success? ==> fresh(r.value) && fresh(r.value.versionComponents) && r.value.Valid() && r.value.Value() == VersionValues.Clone(Value()).value
      ensures r.Failure? ==> r.error == VersionValues.Clone(Value()).error
    {
      r := NewVersion(CloneOptions(Value()));
    }

    /**
     * `finalize`: reset the cache, the components and the Specials, keeping
     * the two strings; the result is consistent only when both strings are
     * absent or empty.
     */
    method Finalize()
      requires Valid()
      modifies this
      ensures fresh(versionComponents) && versionComponents.Length == 3
      ensures Value() == VersionValue(0, 0, 0, old(preReleaseString), old(buildMetadataString))
      ensures versionString == DEFAULT_VERSION && specialPrerelease.None? && specialBuildMetadata.None?
      ensures Valid() <==> !Truthy(preReleaseString) && !Truthy(buildMetadataString)
    {
      versionString := DEFAULT_VERSION;
      versionComponents := new nat[3](_ => 0);
      specialBuildMetadata := None;
      specialPrerelease := None;
      assert NatToString(0) == "0" by { assert DigitChar(0) == '0'; }
      assert Truthy(preReleaseString) ==> |Format(Value())| > |DEFAULT_VERSION|;
      assert Truthy(buildMetadataString) ==> |Format(Value())| > |DEFAULT_VERSION|;
    }
  }

  /** The component options, in the order major, minor, patch; the first range error stops. */
  method SetComponents(v: Version, options: VersionOptions) returns (error: Option<VersionError>)
    requires v.Valid()
    modifies v.versionComponents, v`versionString
    ensures v.Valid()
    ensures var r := SetIfGiven(SetIfGiven(SetIfGiven(Success(old(v.Value())), 0, options.major), 1, options.minor), 2, options.patch);
            && (error.None? <==> r.Success?)
            && (r.Success? ==> v.Value() == r.value)
            && (r.Failure? ==> error == Some(r.error))
  {
    ghost var r := Success(v.Value());
    if options.major.Some? {
      error := v.SetMajor(options.major.value);
      if error.Some? {
        return;
      }
    }
    r := SetIfGiven(r, 0, options.major);
    assert r == Success(v.Value());
    if options.minor.Some? {
      error := v.SetMinor(options.minor.value);
      if error.Some? {
        return;
      }
    }
    r := SetIfGiven(r, 1, options.minor);
    assert r == Success(v.Value());
    if options.patch.Some? {
      error := v.SetPatch(options.patch.value);
      if error.Some? {
        return;
      }
    }
    error := None;
  }

  /**
   * The constructor, which may throw: a truthy `version` option goes
   * through the `version` setter; otherwise the given components, a defined
   * pre-release and a truthy build metadata go through their setters and
   * the rendering must pass `validate`.
   */
  method NewVersion(options: VersionOptions) returns (r: Result<Version, VersionError>)
    ensures r.Success? <==> Construct(options).Success?
    ensures r.Success? ==> fresh(r.value) && fresh(r.value.versionComponents) && r.value.Valid() && r.value.Value() == Construct(options).value
    ensures r.Failure? ==> r.error == Construct(options).error
  {
    var v := new Version();
    if Truthy(options.version) {
      var e := v.SetVersion(options.version.value);
      if e.Some? {
        return Failure(e.value);
      }
      return Success(v);
    }
    var e := SetComponents(v, options);
    if e.Some? {
      return Failure(e.value);
    }
    if options.preRelease.Some? {
      v.SetPreRelease(options.preRelease);
    }
    if Truthy(options.buildMetadata) {
      v.SetBuildMetadata(options.buildMetadata);
    }
    var s := v.GetVersion();
    if !Validate(s) {
      return Failure(SyntaxError(InvalidMessage(s)));
    }
    return Success(v);
  }
}

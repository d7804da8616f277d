/**
 * The observable state of a `Version` as a value: the three components, the
 * pre-release and build-metadata strings as they were assigned, and the
 * operations that read that state without changing it (formatting,
 * equality, precedence, the classifiers, `next`) or build a fresh one
 * (construction from options, `clone`). The class in version.dfy keeps
 * this value in its fields.
 */
module VersionValues {
  import opened Wrappers
  import opened JsRuntime
  import opened Grammar
  import Semver
  import Identifiers
  import Specials

  /** Fields of a version; the two `Special`s are derived from the strings (SpecialOf). */
  datatype VersionValue = VersionValue(major: nat, minor: nat, patch: nat, preRelease: Option<string>, buildMetadata: Option<string>)

  /** The three error classes the source throws, with their messages. */
  datatype VersionError = RangeError(message: string) | SyntaxError(message: string) | ReferenceError(message: string)

  const ILLEGAL_ARGUMENT_EXCEPTION: string := "IllegalArgumentException"
  const DEFAULT_VERSION: string := "0.0.0"
  const PRE_RELEASE_SEPARATOR: char := '-'
  const BUILD_METADATA_SEPARATOR: char := '+'

  /** The names used in range messages, indexed like `versionComponents`. */
  const COMPONENT_NAMES: seq<string> := ["major", "minor", "patch"]

  /** The `type` numbers `next` dispatches on. */
  const MAJOR: int := Semver.VersionType.Major.Ordinal()
  const MINOR: int := Semver.VersionType.Minor.Ordinal()
  const PATCH: int := Semver.VersionType.Patch.Ordinal()

  /** Field values of a freshly allocated instance, before any setter runs. */
  const Initial: VersionValue := VersionValue(0, 0, 0, None, None)

  /** `field ? new Special(field) : undefined`. */
  function SpecialOf(field: Option<string>): Option<Specials.Special> {
    if Truthy(field) then Some(Specials.ParseSpecial(field.value)) else None
  }

  /** The field as `updateVersion` renders it: absent when it is absent or empty. */
  function Present(field: Option<string>): (r: Option<string>)
    ensures r.Some? <==> Truthy(field)
    ensures r.Some? ==> r == field
  {
    if Truthy(field) then field else None
  }

  /** `updateVersion`: the canonical string of the fields; it starts with the major version and a dot. */
  function Format(v: VersionValue): (s: string)
    ensures NatToString(v.major) + "." <= s
  {
    NatToString(v.major) + "." + NatToString(v.minor) + "." + NatToString(v.patch)
      + (if Truthy(v.preRelease) then [PRE_RELEASE_SEPARATOR] + v.preRelease.value else "")
      + (if Truthy(v.buildMetadata) then [BUILD_METADATA_SEPARATOR] + v.buildMetadata.value else "")
  }

  /** The capture groups a well-formed rendering of `v` has. */
  function GroupsOf(v: VersionValue): Groups {
    Groups(NatToString(v.major), NatToString(v.minor), NatToString(v.patch), Present(v.preRelease), Present(v.buildMetadata))
  }

  /** `updateVersion` renders exactly the groups of the value. */
  lemma FormatIsRender(v: VersionValue)
    ensures Format(v) == Render(GroupsOf(v))
  {
  }

  function RangeMessage(property: string, requirement: string): string {
    ILLEGAL_ARGUMENT_EXCEPTION + " " + property + " version must be " + requirement
  }

  /**
   * `assertRange`: NaN is reported first, then a non-finite value, then a
   * value not above -1. `None` means the value is accepted.
   */
  function AssertRange(value: JsNumber, property: string): (r: Option<VersionError>)
    ensures r.None? <==> value.Int? && value.value >= 0
    ensures value.NaN? ==> r == Some(RangeError(RangeMessage(property, "a number")))
    ensures value.Infinity? ==> r == Some(RangeError(RangeMessage(property, "finite")))
    ensures value.Int? && value.value < 0 ==> r == Some(RangeError(RangeMessage(property, "positive")))
  {
    if value.NaN? then Some(RangeError(RangeMessage(property, "a number")))
    else if value.Infinity? then Some(RangeError(RangeMessage(property, "finite")))
    else if value.value <= -1 then Some(RangeError(RangeMessage(property, "positive")))
    else None
  }

  function Component(v: VersionValue, i: nat): nat
    requires i < 3
  {
    if i == 0 then v.major else if i == 1 then v.minor else v.patch
  }

  function WithComponent(v: VersionValue, i: nat, n: nat): VersionValue
    requires i < 3
  {
    if i == 0 then v.(major := n) else if i == 1 then v.(minor := n) else v.(patch := n)
  }

  /** The `major`, `minor` and `patch` setters: range check, then store. */
  function SetComponent(v: VersionValue, i: nat, x: JsNumber): (r: Result<VersionValue, VersionError>)
    requires i < 3
    ensures r.Failure? <==> AssertRange(x, COMPONENT_NAMES[i]).Some?
    ensures r.Success? ==> Component(r.value, i) == x.value
    ensures r.Success? ==> forall j :: 0 <= j < 3 && j != i ==> Component(r.value, j) == Component(v, j)
    ensures r.Success? ==> r.value.preRelease == v.preRelease && r.value.buildMetadata == v.buildMetadata
  {
    match AssertRange(x, COMPONENT_NAMES[i])
    case Some(e) => Failure(e)
    case None => Success(WithComponent(v, i, x.value))
  }

  /**
   * `equals` against another Version: the components and the pre-release
   * strings must coincide. The build-metadata test compares the receiver's
   * field with itself, so build metadata never matters.
   */
  predicate Equals(a: VersionValue, b: VersionValue)
    ensures Equals(a, b) <==> a.major == b.major && a.minor == b.minor && a.patch == b.patch && a.preRelease == b.preRelease
  {
    if b.major != a.major || b.minor != a.minor || b.patch != a.patch then false
    else a.preRelease == b.preRelease && a.buildMetadata == a.buildMetadata
  }

  /** `compareTo`, branch for branch; pre-release Specials compare with Specials.CompareIds. */
  function CompareTo(a: VersionValue, b: VersionValue): (r: int)
    ensures Equals(a, b) ==> r == 0
    ensures a.major < b.major ==> r < 0
    ensures a.major > b.major ==> r > 0
  {
    if Equals(a, b) then 0
    else if a.major < b.major then -1
    else if a.major == b.major then
      if a.minor < b.minor then -1
      else if a.minor == b.minor then
        if a.patch < b.patch then -1
        else if a.patch == b.patch then
          var sa := SpecialOf(a.preRelease);
          var sb := SpecialOf(b.preRelease);
          var ba := SpecialOf(a.buildMetadata);
          var bb := SpecialOf(b.buildMetadata);
          if sa.Some? && sb.Some? then Specials.CompareIds(sa.value.ids, sb.value.ids)
          else if sb.Some? then 1
          else if sa.Some? then -1
          else if (ba.Some? && bb.Some?) || (ba.Some? && bb.None?) || (ba.None? && bb.Some?) then 0
          else 1
        else 1
      else 1
    else 1
  }

  /** `isInDevelopment`: major 0, that is, the version string starts with the digit 0. */
  predicate IsInDevelopment(v: VersionValue)
    ensures IsInDevelopment(v) <==> NatToString(v.major)[0] == '0'
  {
    LeadingZeroOnlyForZero(v.major);
    v.major == 0
  }

  /** `isStable`: the version string does not start with the digit 0. */
  predicate IsStable(v: VersionValue)
    ensures IsStable(v) <==> NatToString(v.major)[0] != '0'
  {
    !IsInDevelopment(v)
  }

  /**
   * `isSnapshot`: a pre-release Special exists and is a snapshot, that is,
   * the pre-release is non-empty and ends with "SNAPSHOT".
   */
  predicate IsSnapshot(v: VersionValue)
    ensures IsSnapshot(v) <==> Truthy(v.preRelease) && EndsWith(v.preRelease.value, Identifiers.SNAPSHOT_VERSION_SUFFIX)
  {
    if Truthy(v.preRelease) then
      Specials.SnapshotIffSuffix(v.preRelease.value);
      Specials.IsSnapshot(SpecialOf(v.preRelease).value)
    else false
  }

  /** `isCompatible`: both version strings start with the same major number. */
  predicate IsCompatible(a: VersionValue, b: VersionValue)
    ensures IsCompatible(a, b) <==> NatToString(a.major) == NatToString(b.major)
  {
    NatToStringInjective(a.major, b.major);
    a.major == b.major
  }

  // ---------------------------------------------------------------------
  // Construction.
  // ---------------------------------------------------------------------

  /** `VersionOptions`: every field may be left `undefined`. */
  datatype VersionOptions = VersionOptions(
    major: Option<JsNumber>, minor: Option<JsNumber>, patch: Option<JsNumber>,
    preRelease: Option<string>, buildMetadata: Option<string>, version: Option<string>)

  /** Options naming the three components and nothing else. */
  function Components(major: int, minor: int, patch: int): VersionOptions {
    VersionOptions(Some(Int(major)), Some(Int(minor)), Some(Int(patch)), None, None, None)
  }

  function InvalidMessage(s: string): string {
    ILLEGAL_ARGUMENT_EXCEPTION + " invalid <" + s + "> version."
  }

  /**
   * What the `version` setter stores from a match: each number through its
   * setter (`parseInt` of a run of digits), and each field that matched.
   */
  function ApplyGroups(v: VersionValue, g: Groups): (r: VersionValue)
    requires WellFormed(g)
    ensures NatToString(r.major) == g.major && NatToString(r.minor) == g.minor && NatToString(r.patch) == g.patch
    ensures r.preRelease == (if g.preRelease.Some? then g.preRelease else v.preRelease)
    ensures r.buildMetadata == (if g.buildMetadata.Some? then g.buildMetadata else v.buildMetadata)
  {
    NatToStringParse(g.major);
    NatToStringParse(g.minor);
    NatToStringParse(g.patch);
    GroupsNonEmpty(g);
    var major := if g.major != "" then ParseDecimal(g.major) else v.major;
    var minor := if g.minor != "" then ParseDecimal(g.minor) else v.minor;
    var patch := if g.patch != "" then ParseDecimal(g.patch) else v.patch;
    var preRelease := if Truthy(g.preRelease) then g.preRelease else v.preRelease;
    var buildMetadata := if Truthy(g.buildMetadata) then g.buildMetadata else v.buildMetadata;
    VersionValue(major, minor, patch, preRelease, buildMetadata)
  }

  /** The `version` setter on the initial fields: match `FORMAT` or fail. */
  function FromString(s: string): Result<VersionValue, VersionError> {
    match Exec(s)
    case None => Failure(SyntaxError(InvalidMessage(s)))
    case Some(g) => Success(ApplyGroups(Initial, g))
  }

  /** Chains a setter that may fail after a previous one. */
  function SetIfGiven(r: Result<VersionValue, VersionError>, i: nat, x: Option<JsNumber>): Result<VersionValue, VersionError>
    requires i < 3
  {
    if r.Failure? || x.None? then r else SetComponent(r.value, i, x.value)
  }

  /**
   * What the constructor stores when no truthy `version` is given: the
   * components set in order (the first failing range check is the error),
   * then a defined pre-release and a truthy build metadata.
   */
  function Stored(options: VersionOptions): Result<VersionValue, VersionError> {
    var r := SetIfGiven(SetIfGiven(SetIfGiven(Success(Initial), 0, options.major), 1, options.minor), 2, options.patch);
    if r.Failure? then r
    else
      var withPre := if options.preRelease.Some? then r.value.(preRelease := options.preRelease) else r.value;
      Success(if Truthy(options.buildMetadata) then withPre.(buildMetadata := options.buildMetadata) else withPre)
  }

  /**
   * The constructor. A truthy `version` goes through the `version` setter;
   * otherwise the stored fields must render to a string matching `FORMAT`.
   */
  function Construct(options: VersionOptions): (r: Result<VersionValue, VersionError>)
    ensures r.Failure? ==> r.error.RangeError? || r.error.SyntaxError?
    ensures Truthy(options.version) && r.Failure? ==> r.error == SyntaxError(InvalidMessage(options.version.value))
  {
    if Truthy(options.version) then FromString(options.version.value)
    else
      match Stored(options)
      case Failure(e) => Failure(e)
      case Success(v) => if !Validate(Format(v)) then Failure(SyntaxError(InvalidMessage(Format(v)))) else Success(v)
  }

  /** The options `clone` passes to the constructor. */
  function CloneOptions(v: VersionValue): VersionOptions {
    VersionOptions(Some(Int(v.major)), Some(Int(v.minor)), Some(Int(v.patch)), v.preRelease, v.buildMetadata, None)
  }

  /** `clone`: it can only fail because the fields do not render to a valid string. */
  function Clone(v: VersionValue): (r: Result<VersionValue, VersionError>)
    ensures r.Failure? ==> r.error == SyntaxError(InvalidMessage(Format(v)))
  {
    assert Format(v.(buildMetadata := Present(v.buildMetadata))) == Format(v);
    Construct(CloneOptions(v))
  }

  // ---------------------------------------------------------------------
  // `next`.
  // ---------------------------------------------------------------------

  function NullTypeError(): VersionError {
    ReferenceError(ILLEGAL_ARGUMENT_EXCEPTION + " null type")
  }

  function UnknownTypeError(kind: JsNumber): VersionError {
    SyntaxError(ILLEGAL_ARGUMENT_EXCEPTION + " Unknown type <" + NumberToString(kind) + ">")
  }

  /** `hasSpecial`: either field is defined, even as an empty string. */
  predicate HasSpecial(v: VersionValue) {
    v.preRelease.Some? || v.buildMetadata.Some?
  }

  /**
   * The options each case of the `switch` in `next` passes to the
   * constructor, or the error of its default case. A version carrying a
   * pre-release or build metadata whose lower components are already 0 goes
   * to its own release instead of being bumped.
   */
  function BumpOptions(v: VersionValue, kind: JsNumber): (r: Result<VersionOptions, VersionError>)
    ensures r.Success? <==> kind == Int(MAJOR) || kind == Int(MINOR) || kind == Int(PATCH)
  {
    if kind == Int(MAJOR) then
      Success(if !HasSpecial(v) || v.minor != 0 || v.patch != 0 then Components(v.major + 1, 0, 0) else Components(v.major, 0, 0))
    else if kind == Int(MINOR) then
      Success(if !HasSpecial(v) || v.patch != 0 then Components(v.major, v.minor + 1, 0) else Components(v.major, v.minor, 0))
    else if kind == Int(PATCH) then
      Success(if !HasSpecial(v) then Components(v.major, v.minor, v.patch + 1) else Components(v.major, v.minor, v.patch))
    else Failure(UnknownTypeError(kind))
  }

  /** Builds the version a case of the `switch` chose. */
  function Bump(v: VersionValue, kind: JsNumber): (r: Result<VersionValue, VersionError>)
    ensures r.Success? ==> BumpOptions(v, kind).Success?
  {
    match BumpOptions(v, kind)
    case Failure(e) => Failure(e)
    case Success(o) => Construct(o)
  }

  /**
   * `next` as written: the guard `!type` also rejects 0, which is the
   * number of MAJOR, so the MAJOR case is never reached (see
   * NextLaws.NextMajorAlwaysFails).
   */
  function Next(v: VersionValue, kind: Option<JsNumber>): (r: Result<VersionValue, VersionError>)
    ensures r.Success? ==> kind == Some(Int(MINOR)) || kind == Some(Int(PATCH))
  {
    if kind.None? || !NumberTruthy(kind.value) then Failure(NullTypeError())
    else Bump(v, kind.value)
  }

  /** `next` with the guard the MAJOR case needs: only a missing kind is a null type. */
  function NextIntended(v: VersionValue, kind: Option<JsNumber>): (r: Result<VersionValue, VersionError>)
    ensures r.Success? ==> kind == Some(Int(MAJOR)) || kind == Some(Int(MINOR)) || kind == Some(Int(PATCH))
  {
    if kind.None? then Failure(NullTypeError())
    else Bump(v, kind.value)
  }
}

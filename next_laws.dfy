/**
 * Laws of `next`: which kinds it accepts, what it builds for MINOR and
 * PATCH, and that it never goes back in precedence. The MAJOR case is
 * unreachable as written (NextMajorAlwaysFails); NextIntended is the
 * corrected guard and NextIntendedMajor states what MAJOR then yields.
 */
module NextLaws {
  import opened Wrappers
  import opened JsRuntime
  import opened Grammar
  import opened VersionValues
  import Semver
  import Precedence

  /** Three components alone always construct, with nothing else stored. */
  lemma ComponentsAlwaysConstruct(major: nat, minor: nat, patch: nat)
    ensures Construct(Components(major, minor, patch)) == Success(VersionValue(major, minor, patch, None, None))
  {
    var v := VersionValue(major, minor, patch, None, None);
    assert WellFormed(GroupsOf(v));
    FormatIsRender(v);
    ExecComplete(GroupsOf(v));
  }

  /** MAJOR is numbered 0, so the `!type` guard rejects it before the switch. */
  lemma NextMajorAlwaysFails(v: VersionValue)
    ensures MAJOR == Semver.VersionType.Major.Ordinal() == 0
    ensures Next(v, Some(Int(MAJOR))) == Failure(NullTypeError())
  {
    Semver.OrdinalInjective(Semver.VersionType.Major, Semver.VersionType.Major);
  }

  /** Which kinds fail, and how. */
  lemma NextRejects(v: VersionValue, kind: Option<JsNumber>)
    ensures kind.None? || kind == Some(Int(0)) || kind == Some(NaN) ==> Next(v, kind) == Failure(NullTypeError())
    ensures kind.Some? && NumberTruthy(kind.value) && kind.value != Int(MINOR) && kind.value != Int(PATCH) ==>
      Next(v, kind) == Failure(UnknownTypeError(kind.value))
    ensures Next(v, kind).Success? <==> kind == Some(Int(MINOR)) || kind == Some(Int(PATCH))
  {
    if kind == Some(Int(MINOR)) {
      NextMinor(v);
    } else if kind == Some(Int(PATCH)) {
      NextPatch(v);
    }
  }

  /** SPECIAL is not handled by `next`. */
  lemma NextSpecialUnknown(v: VersionValue)
    ensures Next(v, Some(Int(Semver.VersionType.Special.Ordinal())))
      == Failure(SyntaxError("IllegalArgumentException Unknown type <3>"))
  {
    assert DigitChar(3) == '3';
    assert NumberToString(Int(3)) == "3";
    assert UnknownTypeError(Int(3)) == SyntaxError("IllegalArgumentException Unknown type <3>");
  }

  /**
   * MINOR: the next minor version with patch 0, except that a version
   * carrying a pre-release or build metadata at patch 0 goes to its own
   * release. The result has no pre-release, no build metadata and the same
   * major version.
   */
  lemma NextMinor(v: VersionValue)
    ensures Next(v, Some(Int(MINOR))) == Success(VersionValue(
      v.major, if !HasSpecial(v) || v.patch != 0 then v.minor + 1 else v.minor, 0, None, None))
    ensures IsCompatible(v, Next(v, Some(Int(MINOR))).value)
  {
    var minor := if !HasSpecial(v) || v.patch != 0 then v.minor + 1 else v.minor;
    assert BumpOptions(v, Int(MINOR)) == Success(Components(v.major, minor, 0));
    ComponentsAlwaysConstruct(v.major, minor, 0);
    assert Next(v, Some(Int(MINOR))) == Bump(v, Int(MINOR));
  }

  /**
   * PATCH: the next patch version, except that a version carrying a
   * pre-release or build metadata goes to its own release.
   */
  lemma NextPatch(v: VersionValue)
    ensures Next(v, Some(Int(PATCH))) == Success(VersionValue(
      v.major, v.minor, if !HasSpecial(v) then v.patch + 1 else v.patch, None, None))
    ensures IsCompatible(v, Next(v, Some(Int(PATCH))).value)
  {
    var patch := if !HasSpecial(v) then v.patch + 1 else v.patch;
    assert BumpOptions(v, Int(PATCH)) == Success(Components(v.major, v.minor, patch));
    ComponentsAlwaysConstruct(v.major, v.minor, patch);
    assert Next(v, Some(Int(PATCH))) == Bump(v, Int(PATCH));
  }

  /** A plain release with components at or above those of `v` ranks at or above `v`. */
  lemma ReleaseAtOrAbove(r: VersionValue, v: VersionValue)
    requires r.preRelease.None? && r.buildMetadata.None?
    requires Precedence.NumbersBelow(v, r) || Precedence.SameNumbers(r, v)
    ensures CompareTo(r, v) >= 0
    ensures Precedence.NoEmptyPreRelease(v) ==>
      (CompareTo(r, v) == 0 <==> Precedence.SameNumbers(r, v) && v.preRelease.None?)
  {
  }

  /**
   * `next` never goes back: the result ranks at or above the version. It
   * ranks equal only when nothing was bumped and the version had build
   * metadata but no pre-release (the two differ only in build metadata).
   */
  lemma NextNeverGoesBack(v: VersionValue, kind: int)
    requires kind == MINOR || kind == PATCH
    ensures Next(v, Some(Int(kind))).Success?
    ensures CompareTo(Next(v, Some(Int(kind))).value, v) >= 0
    ensures Precedence.NoEmptyPreRelease(v) ==> (CompareTo(Next(v, Some(Int(kind))).value, v) == 0 <==>
      v.preRelease.None? && v.buildMetadata.Some? && (kind == MINOR ==> v.patch == 0))
  {
    if kind == MINOR {
      NextMinor(v);
    } else {
      NextPatch(v);
    }
    ReleaseAtOrAbove(Next(v, Some(Int(kind))).value, v);
  }

  /** The corrected guard agrees with the written one on every kind except 0 and NaN. */
  lemma NextIntendedAgrees(v: VersionValue, kind: Option<JsNumber>)
    requires kind != Some(Int(0)) && kind != Some(NaN)
    ensures NextIntended(v, kind) == Next(v, kind)
  {
  }

  /**
   * With the corrected guard, MAJOR gives the next major version with
   * minor and patch 0, except that a version carrying a pre-release or
   * build metadata at minor and patch 0 goes to its own release; the
   * result never ranks below the version.
   */
  lemma NextIntendedMajor(v: VersionValue)
    ensures NextIntended(v, Some(Int(MAJOR))) == Success(VersionValue(
      if !HasSpecial(v) || v.minor != 0 || v.patch != 0 then v.major + 1 else v.major, 0, 0, None, None))
    ensures CompareTo(NextIntended(v, Some(Int(MAJOR))).value, v) >= 0
  {
    var bumped := !HasSpecial(v) || v.minor != 0 || v.patch != 0;
    var major := if bumped then v.major + 1 else v.major;
    assert BumpOptions(v, Int(MAJOR)) == Success(Components(major, 0, 0));
    ComponentsAlwaysConstruct(major, 0, 0);
    assert NextIntended(v, Some(Int(MAJOR))) == Bump(v, Int(MAJOR));
    ReleaseAtOrAbove(VersionValue(major, 0, 0, None, None), v);
  }
}

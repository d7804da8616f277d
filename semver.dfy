/** The bump kinds of a semantic version and the numbers callers pass for them. */
module Semver {

  /** The four kinds, from most to least meaningful. */
  datatype VersionType = Major | Minor | Patch | Special {

    /** The numeric value a caller passes for this kind: the kinds are numbered from 0. */
    function Ordinal(): (n: nat)
      ensures n < 4
    {
      match this
      case Major => 0
      case Minor => 1
      case Patch => 2
      case Special => 3
    }
  }

  /** Distinct kinds are passed as distinct numbers, and only MAJOR is passed as 0. */
  lemma OrdinalInjective(a: VersionType, b: VersionType)
    ensures a.Ordinal() == b.Ordinal() <==> a == b
    ensures a.Ordinal() == 0 <==> a == Major
  {
  }
}

/** What the read-only classifiers of a version say about its string. */
module Classifiers {
  import opened Wrappers
  import opened JsRuntime
  import opened VersionValues

  /**
   * A version is in development exactly when its string starts with the
   * digit 0, and stable exactly when it does not.
   */
  lemma DevelopmentIffLeadingZero(v: VersionValue)
    ensures IsInDevelopment(v) <==> Format(v)[0] == '0'
    ensures IsStable(v) <==> Format(v)[0] != '0'
  {
    assert Format(v)[0] == NatToString(v.major)[0];
  }
}

# Semantic version values, modelled in Dafny

This project models the `Version` class of `src/version.ts` and the identifier classes beneath it. `Version` implements the grammar of Semantic Versioning 2.0.0 (items 2, 9 and 10) and its precedence rule (item 11).

- **Identifiers.** `IntId` and `StringId` (module `Identifiers`) are one datatype. Their `compareTo` keeps the source's quirk: two numeric identifiers return the difference of their values, not -1/0/1.
- **Special.** A pre-release or build-metadata field split on `.` into identifiers (module `Specials`). A `Special` never changes once built, so it is a value. Its constructor loop and its `compareTo` loop are methods proved against the functions `ParseSpecial` and `CompareIds`.
- **Grammar.** `FORMAT` (module `Grammar`) is a whole-string parser `Exec` that returns the five capture groups. It is proved to accept exactly the renderings of well-formed groups.
- **VersionValue.** The fields of a `Version` as a value (module `VersionValues`). It carries the operations that only read them or build a fresh version: `updateVersion` (`Format`), `assertRange`, `equals`, `compareTo`, the classifiers, the constructor (`Construct`), `clone` and `next`.
- **The class.** `Versions.Version` keeps the source's fields:
  - a three-element `versionComponents` array;
  - the pre-release and build-metadata strings;
  - the two `Special`s built from those strings;
  - the cached `versionString`.

  Every setter re-renders the cache. `Valid()` says that the cache and the `Special`s agree with the fields, and every setter preserves it. `NewVersion` is the constructor, which may throw. It returns a `Result` that agrees with `Construct`.
- **Proofs.** The laws modules prove:
  - the string round trips;
  - the precedence laws (antisymmetry, transitivity, "build metadata never matters");
  - the range-check order;
  - the classifiers;
  - what `next` returns.

JavaScript values are modelled explicitly in `JsRuntime`. An argument that may be `undefined` is an `Option`. A number passed to a setter is `Int(n)`, `NaN` or `Infinity`. Truthiness is a predicate: the empty string and the number 0 are falsy. `${n}`, `split` and `join` are functions with their laws. `parseInt(s, 10)` (`JsRuntime.ParseInt`) skips leading white space, reads an optional sign and the longest run of digits after it, and gives NaN when no digit follows. String identifiers are ordered by code point.

Throughout the model a token of a pre-release or build metadata is a numeric identifier exactly when it is non-empty and made only of digits (`Identifiers.ParseSpecialId`). The source's `DIGITS_ONLY` test is unanchored and makes every token holding a digit numeric; that reading is modelled beside it (`Identifiers.ParseSpecialIdAsWritten`) and its consequences are listed under Findings.

Two edge cases are modelled as written:
- **Empty pre-release.** An empty pre-release string (`preRelease: ''`) is stored, but no `Special` is built from it. The ordering laws therefore require a pre-release that is absent or non-empty (`Precedence.NoEmptyPreRelease`), and `Precedence.EmptyPreReleaseAnomaly` shows what goes wrong otherwise.
- **Unchecked pre-release on the components path.** The constructor stores the pre-release as given and only checks the rendered string. So the options `{major: 1, minor: 0, patch: 0, preRelease: 'a+b'}` construct a version whose pre-release field is `a+b`, while its string reads as pre-release `a` with build metadata `b`. `Construction.ComponentsConstruct` states the round trip for grammatical fields.

## Model

| member | source | states |
|---|---|---|
| Semver.VersionType.Ordinal | src/semver.ts:45-63 | the enum numbers MAJOR, MINOR, PATCH, SPECIAL as 0..3 |
| Semver.OrdinalInjective | src/semver.ts:45-63 | distinct kinds have distinct numbers, and only MAJOR is numbered 0 (so `!type` rejects it) |
| JsRuntime.NatToString | src/version.ts:773 | `${n}` of a non-negative integer is a decimal numeral without leading zero |
| JsRuntime.ParseNatToString | src/version.ts:599 | `parseInt` of `${n}` gives back n |
| JsRuntime.NatToStringParse | src/version.ts:599 | a numeral without leading zero is exactly `${parseInt(s)}` |
| JsRuntime.NatToStringInjective | src/version.ts:773 | distinct components render as distinct numerals, and equal numerals come from equal components |
| JsRuntime.LeadingZeroOnlyForZero | src/version.ts:773 | `${n}` starts with 0 exactly when n is 0 |
| JsRuntime.ParseInt | src/version.ts:308 | `parseInt` of a non-empty run of digits is its decimal value, and of a string whose first character is neither white space, a sign nor a digit is NaN |
| JsRuntime.ParseIntSkipsWhiteSpace | src/version.ts:308 | `parseInt` skips any run of white space or line terminators in front of the number |
| JsRuntime.Split | src/version.ts:275 | `split('.')` returns at least one part, and no part holds the separator |
| JsRuntime.JoinSplit | src/version.ts:275 | joining the parts of a split with the separator rebuilds the string |
| JsRuntime.SplitJoin | src/version.ts:275 | splitting a join of separator-free parts gives the parts back |
| JsRuntime.CodePointLessTotal | src/version.ts:159 | string order (the stand-in for `localeCompare`) is total: distinct strings are ordered one way or the other |
| JsRuntime.CodePointLessTransitive | src/version.ts:159 | string order is transitive |
| JsRuntime.CodePointLessAsymmetric | src/version.ts:159 | string order never holds in both directions |
| Identifiers.CompareTo | src/version.ts:153-228 | a numeric identifier ranks below a string identifier, a string identifier above a numeric one, and an identifier compares 0 with itself |
| Identifiers.IsSnapshot | src/version.ts:204-206 | only a string identifier can be a snapshot; a numeric identifier never is |
| Identifiers.ParseSpecialId | src/version.ts:306-312 | the anchored classification (the corrected half of the src/version.ts:50 finding): a token is numeric exactly when it is non-empty and all digits, and any other token is kept as a string identifier with the same text |
| Identifiers.Precedence | src/version.ts:153-228 | a numeric identifier ranks below every string identifier; two numerics compare by the sign of their difference; two strings by string order; the result is 0 exactly for identical identifiers; swapping the arguments negates the sign |
| Identifiers.Transitive | src/version.ts:153-228 | identifier comparison is transitive |
| Identifiers.ParseSpecialIdToString | src/version.ts:306-312 | a token that is a canonical numeral or holds a non-digit is spelled back unchanged by its identifier |
| Identifiers.DistinctTokensNeverTie | src/version.ts:306-312 | with the anchored classification, two distinct canonically spelled tokens never compare 0, and swapping them negates the sign |
| Identifiers.ParseSpecialIdSnapshot | src/version.ts:125-127 | a token's identifier is a snapshot exactly when the token ends with `SNAPSHOT` (numeric identifiers never are) |
| Identifiers.ParseSpecialIdAsWritten | src/version.ts:306-312 | the unanchored classification as written agrees with the anchored one on all-digit tokens (the same number) and on digit-free tokens (the same string) |
| Identifiers.WrittenSamples | src/version.ts:306-312 | the written test turns `0A` and `0B` into IntId(0), and `rc1` and `rc2` into IntId(NaN) |
| Identifiers.UnanchoredDigitTestConflates | src/version.ts:50 | as written, `0A` and `0B` compare equal and `rc1` against `rc2` compares to NaN; the anchored classification orders both pairs as strings |
| Identifiers.UnanchoredDigitTestMissesSnapshot | src/version.ts:306-312 | as written, the token `rc1-SNAPSHOT` becomes a NaN numeric identifier, which is no snapshot; the anchored classification keeps it a snapshot |
| Identifiers.WrittenSkipsWhiteSpace | src/version.ts:306-312 | as written, the token ` 1` holds a digit and `parseInt` skips its space, so it reads as 1; the anchored classification keeps it a string |
| Identifiers.UnanchoredDigitTestReverses | src/version.ts:306-312 | as written, `2x` reads as 2 and ranks below `3`; the anchored classification keeps `2x` a string, which ranks above it |
| Specials.ParseSpecial | src/version.ts:274-280 | a Special keeps its text and holds one identifier per `.`-separated token |
| Specials.NewSpecial | src/version.ts:274-280 | the constructor loop pushes the classification of each token in order, giving exactly ParseSpecial of the text |
| Specials.CompareTo | src/version.ts:324-338 | the index loop with early return computes CompareIds: the first non-zero identifier comparison decides, else the longer list is greater, else 0 |
| Specials.IsSnapshot | src/version.ts:285-291 | a snapshot Special has a last identifier, and it is a string identifier |
| Specials.LastIsFinalToken | src/version.ts:296-298 | `last` of a parsed field is the classification of the text after its final `.` (the whole field when there is none) |
| Specials.CompareIdsAntisymmetric | src/version.ts:324-338 | swapping two Specials negates the sign of the comparison |
| Specials.CompareIdsZeroIffEqual | src/version.ts:324-338 | two identifier lists compare 0 exactly when they are equal |
| Specials.CompareIdsTransitive | src/version.ts:324-338 | the comparison of identifier lists is transitive |
| Specials.CompareIdsFirstDifference | src/version.ts:326-331 | the first position where two lists differ decides the comparison |
| Specials.CompareIdsProperPrefix | src/version.ts:332-335 | a proper prefix ranks below the longer list, in both argument orders |
| Specials.PreReleaseTokensCanonical | src/version.ts:58 | every token of a grammatical pre-release is a canonical numeral or holds a non-digit |
| Specials.ParseSpecialRoundTrip | src/version.ts:274-280 | for canonically spelled fields, joining the spelled-back identifiers with `.` rebuilds the field |
| Specials.ParseSpecialInjective | src/version.ts:274-280 | distinct canonically spelled fields give distinct identifier lists |
| Specials.SnapshotIffSuffix | src/version.ts:285-291 | a Special is a snapshot exactly when its text ends with `SNAPSHOT` |
| Grammar.CutAt | src/version.ts:58 | cutting at the first separator: the part before holds no separator, and the two parts rebuild the string |
| Grammar.Exec | src/version.ts:58 | every match of `FORMAT` yields well-formed groups |
| Grammar.FieldNonEmpty | src/version.ts:58 | a grammatical pre-release or build metadata is never the empty string |
| Grammar.ExecSound | src/version.ts:58 | a matched string is exactly the rendering of its capture groups |
| Grammar.ExecComplete | src/version.ts:58 | the rendering of any well-formed groups matches, with exactly those groups |
| Grammar.Validate | src/version.ts:751-753 | a string `validate` accepts is at least as long as `0.0.0` and starts with a digit |
| Grammar.ValidateIffGrammar | src/version.ts:751-753 | `validate` accepts a string exactly when it is `major.minor.patch[-pre][+build]` with canonical numbers, grammatical pre-release and build identifiers |
| VersionValues.Format | src/version.ts:770-788 | the rendering starts with the major version and a dot |
| VersionValues.Equals | src/version.ts:679-693 | `equals` holds exactly when the components and the pre-release strings coincide; the build-metadata test compares the receiver with itself, so build metadata never matters |
| VersionValues.CompareTo | src/version.ts:639-674 | equal versions compare 0, and a lower major ranks lower and a higher major higher before anything else is looked at |
| VersionValues.IsInDevelopment | src/version.ts:474-476 | a version is in development exactly when its major renders with a leading 0 |
| VersionValues.IsStable | src/version.ts:488-490 | a version is stable exactly when its major does not render with a leading 0 |
| VersionValues.IsSnapshot | src/version.ts:481-483 | a version is a snapshot exactly when its pre-release is non-empty and ends with `SNAPSHOT` |
| VersionValues.IsCompatible | src/version.ts:708-710 | two versions are compatible exactly when their major versions render the same |
| VersionValues.Construct | src/version.ts:420-446 | the constructor fails only with a RangeError or a SyntaxError, and a rejected `version` string fails with the "invalid <s> version." SyntaxError |
| VersionValues.Clone | src/version.ts:626-634 | `clone` can fail only because the fields do not render to a valid string, with the SyntaxError naming that rendering |
| VersionValues.BumpOptions | src/version.ts:719-737 | the `switch` of `next` has a case exactly for MAJOR, MINOR and PATCH |
| VersionValues.Next | src/version.ts:715-738 | `next` as written succeeds only for MINOR and PATCH |
| VersionValues.NextIntended | src/version.ts:715-738 | `next` with the corrected guard succeeds only for MAJOR, MINOR and PATCH |
| VersionValues.FormatIsRender | src/version.ts:770-788 | `updateVersion` renders `major.minor.patch`, then `-pre` for a non-empty pre-release, then `+build` for a non-empty build metadata |
| VersionValues.AssertRange | src/version.ts:761-765 | a component value is accepted exactly when it is a non-negative integer; NaN is reported as "a number", then Infinity as "finite", then a negative value as "positive", each message naming the component |
| VersionValues.SetComponent | src/version.ts:507-548 | a component setter fails exactly when the range check does; on success it stores the value in its own component and changes no other field |
| VersionValues.ApplyGroups | src/version.ts:598-612 | what the `version` setter stores from a match: each number spelled as matched, each matched optional field, and the old value of each unmatched one |
| Precedence.EqualsLaws | src/version.ts:679-693 | `equals` holds exactly when the components and the pre-release strings coincide; it is symmetric and reflexive and implies `compareTo` 0 |
| Precedence.NumbersDecideFirst | src/version.ts:644-651 | lower (major, minor, patch) in lexicographic order ranks lower, in both argument orders |
| Precedence.ReleaseOutranksPreRelease | src/version.ts:656-660 | on equal components a release ranks above any non-empty pre-release, in both argument orders |
| Precedence.PreReleasesCompareByIdentifiers | src/version.ts:653-655 | on equal components two distinct pre-releases compare by their identifier lists |
| Precedence.CompareAntisymmetric | src/version.ts:639-674 | swapping two versions negates the sign of `compareTo` |
| Precedence.CompareZeroIffSamePrecedence | src/version.ts:639-674 | with canonically spelled pre-releases, `compareTo` is 0 exactly when the components and the pre-release coincide |
| Precedence.CompareTransitive | src/version.ts:639-674 | `compareTo` is transitive |
| Precedence.BuildMetadataNeverMatters | src/version.ts:661-667 | replacing either build metadata changes neither `equals` nor `compareTo` |
| Precedence.EmptyPreReleaseAnomaly | src/version.ts:653-673 | with an empty pre-release, `compareTo` answers 1 in both directions against the same release, and 0 once either side carries build metadata |
| Classifiers.DevelopmentIffLeadingZero | src/version.ts:474-490 | a version is in development exactly when its string starts with 0, and stable exactly when it does not |
| Construction.ApplyGroupsRenders | src/version.ts:598-612 | the fields stored from a match render back to the matched groups |
| Construction.StringRoundTrip | src/version.ts:589-619 | a string `validate` accepts constructs, and reading `version` gives it back exactly; any other non-empty string fails with the "invalid <s> version." SyntaxError |
| Construction.FormatThenParse | src/version.ts:770-788 | parsing the rendering of fields with grammatical optional parts gives the same fields |
| Construction.ComponentsConstruct | src/version.ts:420-446 | components with a grammatical or empty pre-release and build metadata construct; the pre-release is stored as given, an empty build metadata is not stored, and the string is rendered canonically |
| Construction.ComponentRangeChecked | src/version.ts:427-435 | the components are range-checked in the order major, minor, patch, and the first failing check is the constructor's error |
| Construction.NegativeMajorRejected | src/version.ts:761-765 | a negative major fails with "IllegalArgumentException major version must be positive" whatever the other components are |
| Construction.ConstructedFormatValid | src/version.ts:442-444 | every constructed version renders to a string `validate` accepts |
| Construction.CloneStores | src/version.ts:626-634 | `clone` passes every field to the constructor, which drops only an empty build metadata |
| Construction.CloneRoundTrip | src/version.ts:626-634 | `clone` succeeds exactly when the rendering is valid, and then rebuilds the same fields except an empty build metadata |
| NextLaws.ComponentsAlwaysConstruct | src/version.ts:723-735 | the three-component options `next` builds always construct, with no pre-release or build metadata |
| NextLaws.NextMajorAlwaysFails | src/version.ts:716-725 | MAJOR is numbered 0, so `next(MAJOR)` always fails with "null type" |
| NextLaws.NextRejects | src/version.ts:716-738 | an absent, zero or NaN kind fails with "null type"; any other kind than MINOR or PATCH fails with "Unknown type"; `next` succeeds exactly for MINOR and PATCH |
| NextLaws.NextSpecialUnknown | src/version.ts:736-737 | SPECIAL fails with "IllegalArgumentException Unknown type <3>" |
| NextLaws.NextMinor | src/version.ts:726-730 | MINOR gives (M, m+1, 0) unless a pre-release or build metadata is present at patch 0, where it gives (M, m, 0); never a pre-release or build metadata, always compatible |
| NextLaws.NextPatch | src/version.ts:731-735 | PATCH gives (M, m, p+1) without a pre-release or build metadata and (M, m, p) with one; never a pre-release or build metadata, always compatible |
| NextLaws.ReleaseAtOrAbove | src/version.ts:639-674 | a plain release whose components are at or above another version's ranks at or above it, and equal exactly on equal components without a pre-release |
| NextLaws.NextNeverGoesBack | src/version.ts:715-738 | MINOR and PATCH never rank below the version, and rank equal only when nothing was bumped and the version had build metadata without a pre-release |
| NextLaws.NextIntendedAgrees | src/version.ts:716-718 | the corrected guard agrees with the written one on every kind except 0 and NaN |
| NextLaws.NextIntendedMajor | src/version.ts:721-725 | with the corrected guard, MAJOR gives (M+1, 0, 0), or (M, 0, 0) for a version carrying a pre-release or build metadata at minor and patch 0, and never ranks below the version |
| Versions.Version.constructor | src/version.ts:407-412 | a fresh instance holds 0.0.0 with nothing else set and the cache `DEFAULT_VERSION` |
| Versions.Version.UpdateVersion | src/version.ts:770-788 | the piece-by-piece concatenation leaves the cache equal to the rendering of the fields |
| Versions.Version.GetVersion | src/version.ts:583-587 | the `version` getter returns the rendering of the fields and leaves the state as it was |
| Versions.Version.SetComponent | src/version.ts:507-548 | a component setter agrees with the value-level SetComponent; on a range error nothing changes |
| Versions.Version.SetMajor | src/version.ts:507-511 | on success only `major` changes; on a range error (the checked message) nothing changes; the cache stays consistent |
| Versions.Version.SetMinor | src/version.ts:528-532 | on success only `minor` changes; on a range error nothing changes; the cache stays consistent |
| Versions.Version.SetPatch | src/version.ts:544-548 | on success only `patch` changes; on a range error nothing changes; the cache stays consistent |
| Versions.Version.SetPreRelease | src/version.ts:567-571 | stores the pre-release as given, rebuilds its Special (none when empty) and re-renders the cache |
| Versions.Version.SetBuildMetadata | src/version.ts:465-469 | stores the build metadata as given, rebuilds its Special (none when empty) and re-renders the cache |
| Versions.Version.SetVersion | src/version.ts:589-619 | a string that does not match fails with the "invalid <s> version." SyntaxError and changes nothing; otherwise the matched groups are stored as ApplyGroups says |
| Versions.Version.CompareTo | src/version.ts:639-674 | the branch-by-branch comparison of fields and Specials equals the value-level `compareTo` |
| Versions.Version.Clone | src/version.ts:626-634 | on any instance with its three components, including one left inconsistent by `finalize`, `clone` returns a fresh consistent instance with its own component array exactly when the value-level `clone` succeeds, with the same fields or the same error |
| Versions.Version.Finalize | src/version.ts:698-703 | resets the components, the Specials and the cache but keeps both strings; the instance stays consistent exactly when both strings are absent or empty |
| Versions.SetComponents | src/version.ts:427-435 | the given components go through their setters in order, and the first range error stops |
| Versions.NewVersion | src/version.ts:420-446 | the constructor returns a fresh consistent instance with its own component array exactly when Construct succeeds, with the same fields or the same error |

## Left out

- Identifiers.CompareTo: string identifiers are ordered by code point, not by `localeCompare`, because locale order depends on the environment. The two agree on ASCII letters of one case and on digits.
- Identifiers.CompareTo: the `-other.compareTo(this)` fallback for an identifier of a third class is not modelled, because only `IntId` and `StringId` exist.
- Specials.ParseSpecial: models the anchored classification of tokens (the corrected half of the src/version.ts:50 finding). As written, (a) `1.0.0-rc1-SNAPSHOT` is not a snapshot, because its last token becomes a NaN numeric identifier; (b) `1.0.0-2x` ranks below `1.0.0-3`, because `2x` reads as 2; (c) `rc1` is spelled back as `NaN`, and `0A` and `0B` tie; (d) a token ` 1`, which only the unchecked `preRelease` and `buildMetadata` setters let through, reads as 1.
- Specials.NewSpecial: models the anchored classification of tokens (the corrected half of the src/version.ts:50 finding). As written, (a) `1.0.0-rc1-SNAPSHOT` is not a snapshot, because its last token becomes a NaN numeric identifier; (b) `1.0.0-2x` ranks below `1.0.0-3`, because `2x` reads as 2; (c) `rc1` is spelled back as `NaN`, and `0A` and `0B` tie; (d) a token ` 1`, which only the unchecked `preRelease` and `buildMetadata` setters let through, reads as 1.
- Identifiers.ParseSpecialIdToString: models the anchored classification of tokens (the corrected half of the src/version.ts:50 finding). As written, (a) `1.0.0-rc1-SNAPSHOT` is not a snapshot, because its last token becomes a NaN numeric identifier; (b) `1.0.0-2x` ranks below `1.0.0-3`, because `2x` reads as 2; (c) `rc1` is spelled back as `NaN`, and `0A` and `0B` tie; (d) a token ` 1`, which only the unchecked `preRelease` and `buildMetadata` setters let through, reads as 1.
- Identifiers.ParseSpecialIdSnapshot: models the anchored classification of tokens (the corrected half of the src/version.ts:50 finding). As written, (a) `1.0.0-rc1-SNAPSHOT` is not a snapshot, because its last token becomes a NaN numeric identifier; (b) `1.0.0-2x` ranks below `1.0.0-3`, because `2x` reads as 2; (c) `rc1` is spelled back as `NaN`, and `0A` and `0B` tie; (d) a token ` 1`, which only the unchecked `preRelease` and `buildMetadata` setters let through, reads as 1.
- Identifiers.DistinctTokensNeverTie: models the anchored classification of tokens (the corrected half of the src/version.ts:50 finding). As written, (a) `1.0.0-rc1-SNAPSHOT` is not a snapshot, because its last token becomes a NaN numeric identifier; (b) `1.0.0-2x` ranks below `1.0.0-3`, because `2x` reads as 2; (c) `rc1` is spelled back as `NaN`, and `0A` and `0B` tie; (d) a token ` 1`, which only the unchecked `preRelease` and `buildMetadata` setters let through, reads as 1.
- Specials.ParseSpecialRoundTrip: models the anchored classification of tokens (the corrected half of the src/version.ts:50 finding). As written, (a) `1.0.0-rc1-SNAPSHOT` is not a snapshot, because its last token becomes a NaN numeric identifier; (b) `1.0.0-2x` ranks below `1.0.0-3`, because `2x` reads as 2; (c) `rc1` is spelled back as `NaN`, and `0A` and `0B` tie; (d) a token ` 1`, which only the unchecked `preRelease` and `buildMetadata` setters let through, reads as 1.
- Specials.ParseSpecialInjective: models the anchored classification of tokens (the corrected half of the src/version.ts:50 finding). As written, (a) `1.0.0-rc1-SNAPSHOT` is not a snapshot, because its last token becomes a NaN numeric identifier; (b) `1.0.0-2x` ranks below `1.0.0-3`, because `2x` reads as 2; (c) `rc1` is spelled back as `NaN`, and `0A` and `0B` tie; (d) a token ` 1`, which only the unchecked `preRelease` and `buildMetadata` setters let through, reads as 1.
- Specials.SnapshotIffSuffix: models the anchored classification of tokens (the corrected half of the src/version.ts:50 finding). As written, (a) `1.0.0-rc1-SNAPSHOT` is not a snapshot, because its last token becomes a NaN numeric identifier; (b) `1.0.0-2x` ranks below `1.0.0-3`, because `2x` reads as 2; (c) `rc1` is spelled back as `NaN`, and `0A` and `0B` tie; (d) a token ` 1`, which only the unchecked `preRelease` and `buildMetadata` setters let through, reads as 1.
- Specials.LastIsFinalToken: models the anchored classification of tokens (the corrected half of the src/version.ts:50 finding). As written, (a) `1.0.0-rc1-SNAPSHOT` is not a snapshot, because its last token becomes a NaN numeric identifier; (b) `1.0.0-2x` ranks below `1.0.0-3`, because `2x` reads as 2; (c) `rc1` is spelled back as `NaN`, and `0A` and `0B` tie; (d) a token ` 1`, which only the unchecked `preRelease` and `buildMetadata` setters let through, reads as 1.
- VersionValues.IsSnapshot: models the anchored classification of tokens (the corrected half of the src/version.ts:50 finding). As written, (a) `1.0.0-rc1-SNAPSHOT` is not a snapshot, because its last token becomes a NaN numeric identifier; (b) `1.0.0-2x` ranks below `1.0.0-3`, because `2x` reads as 2; (c) `rc1` is spelled back as `NaN`, and `0A` and `0B` tie; (d) a token ` 1`, which only the unchecked `preRelease` and `buildMetadata` setters let through, reads as 1.
- VersionValues.CompareTo: models the anchored classification of tokens (the corrected half of the src/version.ts:50 finding). As written, (a) `1.0.0-rc1-SNAPSHOT` is not a snapshot, because its last token becomes a NaN numeric identifier; (b) `1.0.0-2x` ranks below `1.0.0-3`, because `2x` reads as 2; (c) `rc1` is spelled back as `NaN`, and `0A` and `0B` tie; (d) a token ` 1`, which only the unchecked `preRelease` and `buildMetadata` setters let through, reads as 1.
- Precedence.PreReleasesCompareByIdentifiers: models the anchored classification of tokens (the corrected half of the src/version.ts:50 finding). As written, (a) `1.0.0-rc1-SNAPSHOT` is not a snapshot, because its last token becomes a NaN numeric identifier; (b) `1.0.0-2x` ranks below `1.0.0-3`, because `2x` reads as 2; (c) `rc1` is spelled back as `NaN`, and `0A` and `0B` tie; (d) a token ` 1`, which only the unchecked `preRelease` and `buildMetadata` setters let through, reads as 1.
- Precedence.CompareAntisymmetric: models the anchored classification of tokens (the corrected half of the src/version.ts:50 finding). As written, (a) `1.0.0-rc1-SNAPSHOT` is not a snapshot, because its last token becomes a NaN numeric identifier; (b) `1.0.0-2x` ranks below `1.0.0-3`, because `2x` reads as 2; (c) `rc1` is spelled back as `NaN`, and `0A` and `0B` tie; (d) a token ` 1`, which only the unchecked `preRelease` and `buildMetadata` setters let through, reads as 1.
- Precedence.CompareZeroIffSamePrecedence: models the anchored classification of tokens (the corrected half of the src/version.ts:50 finding). As written, (a) `1.0.0-rc1-SNAPSHOT` is not a snapshot, because its last token becomes a NaN numeric identifier; (b) `1.0.0-2x` ranks below `1.0.0-3`, because `2x` reads as 2; (c) `rc1` is spelled back as `NaN`, and `0A` and `0B` tie; (d) a token ` 1`, which only the unchecked `preRelease` and `buildMetadata` setters let through, reads as 1.
- Precedence.CompareTransitive: models the anchored classification of tokens (the corrected half of the src/version.ts:50 finding). As written, (a) `1.0.0-rc1-SNAPSHOT` is not a snapshot, because its last token becomes a NaN numeric identifier; (b) `1.0.0-2x` ranks below `1.0.0-3`, because `2x` reads as 2; (c) `rc1` is spelled back as `NaN`, and `0A` and `0B` tie; (d) a token ` 1`, which only the unchecked `preRelease` and `buildMetadata` setters let through, reads as 1.
- Versions.Version.SetPreRelease, Versions.Version.CompareTo, Versions.Version.SetVersion: build their `Special`s with the anchored classification, so they share (a) and (b) above.
- Precedence.CompareAntisymmetric: stated only for versions whose pre-release is absent or non-empty, because an empty pre-release breaks it (see Precedence.EmptyPreReleaseAnomaly).
- Precedence.BuildMetadataNeverMatters: stated only for versions whose pre-release is absent or non-empty, because with an empty pre-release adding build metadata turns a `compareTo` of 1 into 0 (see Precedence.EmptyPreReleaseAnomaly).
- NextLaws.ReleaseAtOrAbove: its equality clause is stated only for a version whose pre-release is absent or non-empty. For `1.0.0-` with build metadata, `compareTo` against the release `1.0.0` answers 0, not the 1 a pre-release would give. The clause "never below" holds for every version.
- NextLaws.NextNeverGoesBack: its equality clause is stated only for a version whose pre-release is absent or non-empty, for the same reason as NextLaws.ReleaseAtOrAbove. The clause "never below" holds for every version.
- Precedence.CompareZeroIffSamePrecedence: stated only for canonically spelled pre-releases. The grammar never lets a non-canonical numeral through, but the stored pre-release is not checked by it. The `preRelease` setter stores `01` as given, and it compares 0 against `1`. On the components path a pre-release `a+b.01` renders as pre-release `a` with build metadata `b.01`, which `validate` accepts; it compares 0 against `a+b.1`.
- JavaScript numbers are integers, `NaN` or `Infinity`. Components are unbounded integers, not doubles, so fractional components and everything beyond 2^53 is outside this model. In the source, `parseInt` loses precision on such components, and two more consequences follow:
  - `this.minor + 1` at 2^53 (src/version.ts:728) gives 2^53 again, so `next(MINOR)` on `1.9007199254740992.1` gives `1.9007199254740992.0`, which ranks lower.
  - `${n}` (src/version.ts:773) renders 10^21 and above in exponent form (`1e+21`), which `validate` rejects.
- NextLaws.NextNeverGoesBack: holds for unbounded components only; at 2^53 the source's `next(MINOR)` can go back, as above.
- Construction.ComponentsConstruct: holds for unbounded components only; a component of 10^21 or more renders as `1e+21` and the source's constructor rejects it.
- JsRuntime.NatToString: renders every natural number in plain decimal, while `${n}` switches to exponent form from 10^21 on.
- The `catch` in the `version` setter, which resets the cache to `DEFAULT_VERSION`, is not modelled. It can only fire when a parsed component is not finite, which the integer model excludes.
- The `g` and `m` flags of `FORMAT` are not modelled. `exec` keeps `lastIndex` between calls, and `m` lets `^` and `$` match at line breaks. The grammar is a stateless whole-string match.
- `equals` against something that is not a `Version`, and the `obj === this` shortcuts, are not modelled: every comparison here is between two versions, compared by field values.
- `StringId`/`IntId`/`Special` `equals`, `clone`, `finalize` and `toString`, and the `Special` field `version` beyond being kept, are not modelled. `Version` never calls them.
- The tests' expectations of exact ±1 results where `IntId.compareTo` returns a difference are not modelled; the precedence lemmas speak of signs.
- Test-only accessors with no source behind them (`firstRelease`, `isPublicApi` and the like) are not part of this model.
- Versions.Version.Finalize: the other methods called on an instance that `finalize` left inconsistent (a truthy pre-release or build metadata with no Special) are not modelled: the setters, the `version` getter and `compareTo` require `Valid()`, and only `clone` and the cache rebuild are stated for such an instance. For example, `compareTo` then finds no `specialPrerelease` (src/version.ts:653-660) and falls through to 1 (src/version.ts:673), so a finalized `0.0.0-rc` ranks above `0.0.0`.
- Versions.NewVersion: the constructor is a factory method that returns a `Result` instead of throwing after allocation. A half-built instance after a throw cannot be observed.
- Versions.Version.CompareTo: the argument is another `Version`. A different `Semver` implementation, whose fields could not be read, is not modelled.

## Findings

| source | as written | input that shows it | evidently intended | confidence | as-written member | corrected member |
|---|---|---|---|---|---|---|
| src/version.ts:50 | `DIGITS_ONLY` is `/\d+/` without anchors, so `parseSpecialId` (src/version.ts:306-312) turns every token holding a digit into `IntId(parseInt(token))` | pre-releases `0A` and `0B` compare 0; `rc1` against `rc2` compares to NaN; `rc1` is spelled back as `NaN` | only all-digit tokens are numeric identifiers (Semantic Versioning 2.0.0, item 9), and the rest are ordered as strings | high, not executed | Identifiers.UnanchoredDigitTestConflates | Identifiers.DistinctTokensNeverTie |
| src/version.ts:50 | the same unanchored test applied to the last token of a snapshot pre-release (`isSnapshot`, src/version.ts:285-291) | `1.0.0-rc1-SNAPSHOT` is not a snapshot: its last token is IntId(NaN) | a pre-release ending with `SNAPSHOT` is a snapshot | high, not executed | Identifiers.UnanchoredDigitTestMissesSnapshot | Specials.SnapshotIffSuffix |
| src/version.ts:50 | the same unanchored test applied to a token that starts with digits (`compareTo`, src/version.ts:653-655) | `1.0.0-2x` ranks below `1.0.0-3`, because `2x` reads as IntId(2) | a token holding a non-digit is a string identifier and ranks above every numeric one (Semantic Versioning 2.0.0, item 11) | high, not executed | Identifiers.UnanchoredDigitTestReverses | Identifiers.Precedence |
| src/version.ts:716 | the guard `!type` rejects 0, and `VersionType.MAJOR` is 0 (src/semver.ts:49), so the MAJOR case at src/version.ts:721-725 is unreachable | `next(VersionType.MAJOR)` on any version fails with "null type" | only a missing kind is a null type, and MAJOR bumps the major version | high, not executed | NextLaws.NextMajorAlwaysFails | NextLaws.NextIntendedMajor |

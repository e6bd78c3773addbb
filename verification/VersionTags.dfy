/** The pre-release/build tag stripping both CompareVersions and
    GetManifestInfo apply: `version.Split('-', '+')[0]`.
 */
module VersionTags {
  import opened Wrappers
  import Text

  const TagMarkers: set<char> := {'-', '+'}

  /** The text of `version` before its first '-' or '+': a prefix with
      neither marker, ended either by the end of the text or by a marker. */
  function StripTags(version: string): (base: string)
    ensures base <= version
    ensures Text.NoneOf(base, TagMarkers)
    ensures |base| < |version| ==> version[|base|] in TagMarkers
  {
    Text.FirstPiece(version, TagMarkers);
    Text.Split(version, TagMarkers)[0]
  }

  /** A version without markers is its own base. */
  lemma StripTagsKeepsPlainVersion(version: string)
    requires Text.NoneOf(version, TagMarkers)
    ensures StripTags(version) == version
  {
  }

  /** Stripping twice is stripping once. */
  lemma StripTagsIdempotent(version: string)
    ensures StripTags(StripTags(version)) == StripTags(version)
  {
    StripTagsKeepsPlainVersion(StripTags(version));
  }

  /** The stripped text is the only prefix with the two properties of
      `StripTags`, so it is exactly "everything before the first marker". */
  lemma StripTagsUnique(version: string, base: string)
    requires base <= version
    requires Text.NoneOf(base, TagMarkers)
    requires |base| < |version| ==> version[|base|] in TagMarkers
    ensures StripTags(version) == base
  {
  }

  /** A blank-free base comes from a blank-free version: the base is a prefix. */
  lemma NonBlankBaseHasNonBlankVersion(version: string)
    requires !Text.IsNullOrWhiteSpace(Some(StripTags(version)))
    ensures !Text.IsNullOrWhiteSpace(Some(version))
  {
    var base := StripTags(version);
    var k :| 0 <= k < |base| && !Text.IsWhiteSpace(base[k]);
    assert version[k] == base[k];
  }
}

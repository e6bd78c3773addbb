/** The BasePluginVersion output of GetManifestInfo: the manifest's version
    with pre-release and build tags removed, for comparison with the
    assembly version.
 */
module ManifestInfo {
  import opened Wrappers
  import Text
  import VersionTags
  import CompareVersions

  /** Unset when the manifest has no version; otherwise the text before the
      first '-' or '+', which holds neither marker. */
  function BasePluginVersion(pluginVersion: Option<string>): (base: Option<string>)
    ensures base.None? <==> pluginVersion.None?
    ensures base.Some? ==> base.value <= pluginVersion.value
    ensures base.Some? ==> Text.NoneOf(base.value, VersionTags.TagMarkers)
    ensures base.Some? && |base.value| < |pluginVersion.value| ==>
      pluginVersion.value[|base.value|] in VersionTags.TagMarkers
  {
    if pluginVersion.None? then None else Some(VersionTags.StripTags(pluginVersion.value))
  }

  /** A version with neither marker passes through unchanged. */
  lemma PlainVersionPassesThrough(pluginVersion: string)
    requires Text.NoneOf(pluginVersion, VersionTags.TagMarkers)
    ensures BasePluginVersion(Some(pluginVersion)) == Some(pluginVersion)
  {
    VersionTags.StripTagsKeepsPlainVersion(pluginVersion);
  }

  /** Comparing the non-blank base version against an assembly version
      reaches the same verdict, and logs the same kind of diagnostic, as
      comparing the full plugin version: CompareVersions strips again, and
      stripping is idempotent. */
  lemma BaseVersionComparesAlike(pluginVersion: string, assemblyVersion: string, errorOnMismatch: bool)
    requires !Text.IsNullOrWhiteSpace(BasePluginVersion(Some(pluginVersion)))
    ensures !Text.IsNullOrWhiteSpace(Some(pluginVersion))
    ensures CompareVersions.Components(BasePluginVersion(Some(pluginVersion)).value) ==
            CompareVersions.Components(pluginVersion)
    ensures CompareVersions.Expected(BasePluginVersion(Some(pluginVersion)).value, assemblyVersion, errorOnMismatch).success ==
            CompareVersions.Expected(pluginVersion, assemblyVersion, errorOnMismatch).success
    ensures CompareVersions.Expected(BasePluginVersion(Some(pluginVersion)).value, assemblyVersion, errorOnMismatch).diagnostic.NoDiagnostic? ==
            CompareVersions.Expected(pluginVersion, assemblyVersion, errorOnMismatch).diagnostic.NoDiagnostic?
  {
    VersionTags.NonBlankBaseHasNonBlankVersion(pluginVersion);
    VersionTags.StripTagsIdempotent(pluginVersion);
  }
}

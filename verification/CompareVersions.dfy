/** The CompareVersions task: the manifest's version against the assembly's,
    component by component after tag stripping, with a wildcard or a
    shorter version ending the comparison successfully.
 */
module CompareVersions {
  import opened Wrappers
  import Text
  import VersionTags

  /** `StripTags(version).Split('.')`. */
  function Components(version: string): (parts: seq<string>)
    ensures |parts| >= 1
    ensures Text.Join(parts, ".") == VersionTags.StripTags(version)
  {
    Text.JoinOfSplit(VersionTags.StripTags(version), '.');
    Text.Split(VersionTags.StripTags(version), {'.'})
  }

  const Wildcard := "*"

  /** Index `j` is where the walk stops on a mismatch: both sides have a
      component there, they differ, and no wildcard occurs up to it. */
  predicate MismatchAt(plugin: seq<string>, assembly: seq<string>, j: int) {
    && 0 <= j < |plugin|
    && j < |assembly|
    && plugin[j] != assembly[j]
    && forall i :: 0 <= i <= j ==> plugin[i] != Wildcard && assembly[i] != Wildcard
  }

  predicate HasMismatch(plugin: seq<string>, assembly: seq<string>) {
    exists j | 0 <= j < |plugin| :: MismatchAt(plugin, assembly, j)
  }

  /** What Log.LogError / Log.LogWarning reports, if anything. */
  datatype Diagnostic = NoDiagnostic | Warning(message: string) | Error(message: string)

  /** Execute's return value and what it logged. */
  datatype Verdict = Verdict(success: bool, diagnostic: Diagnostic)

  function MismatchMessage(pluginVersion: string, assemblyVersion: string): string
  {
    "PluginVersion '" + pluginVersion + "' does not match AssemblyVersion '" + assemblyVersion + "'."
  }

  /** The verdict Execute reaches for two non-blank versions. */
  function Expected(pluginVersion: string, assemblyVersion: string, errorOnMismatch: bool): (r: Verdict)
    ensures r.diagnostic.NoDiagnostic? <==> !HasMismatch(Components(pluginVersion), Components(assemblyVersion))
    ensures r.success <==> !(errorOnMismatch && HasMismatch(Components(pluginVersion), Components(assemblyVersion)))
    ensures r.diagnostic.Error? <==> !r.success
    ensures !r.diagnostic.NoDiagnostic? ==> r.diagnostic.message == MismatchMessage(pluginVersion, assemblyVersion)
  {
    if !HasMismatch(Components(pluginVersion), Components(assemblyVersion)) then Verdict(true, NoDiagnostic)
    else if errorOnMismatch then Verdict(false, Error(MismatchMessage(pluginVersion, assemblyVersion)))
    else Verdict(true, Warning(MismatchMessage(pluginVersion, assemblyVersion)))
  }

  /** `CompareVersions.Execute`: blank inputs throw, PluginVersion checked
      first; otherwise the index loop decides at the first index where a side
      has run out or holds "*" (success, nothing logged) or where the
      components differ (an error and false if ErrorOnMismatch, else a
      warning and true). */
  method Execute(pluginVersion: Option<string>, assemblyVersion: Option<string>, errorOnMismatch: bool)
    returns (r: Result<Verdict, ArgumentNull>)
    ensures Text.IsNullOrWhiteSpace(pluginVersion) ==> r == Err(ArgumentNull("PluginVersion"))
    ensures !Text.IsNullOrWhiteSpace(pluginVersion) && Text.IsNullOrWhiteSpace(assemblyVersion) ==>
      r == Err(ArgumentNull("AssemblyVersion"))
    ensures !Text.IsNullOrWhiteSpace(pluginVersion) && !Text.IsNullOrWhiteSpace(assemblyVersion) ==>
      r == Ok(Expected(pluginVersion.value, assemblyVersion.value, errorOnMismatch))
  {
    if Text.IsNullOrWhiteSpace(pluginVersion) {
      return Err(ArgumentNull("PluginVersion"));
    }
    if Text.IsNullOrWhiteSpace(assemblyVersion) {
      return Err(ArgumentNull("AssemblyVersion"));
    }
    var plugin := Components(pluginVersion.value);
    var assembly := Components(assemblyVersion.value);
    var maxLength := if |plugin| < |assembly| then |assembly| else |plugin|;
    var i := 0;
    while i < maxLength
      invariant 0 <= i <= maxLength
      invariant forall k :: 0 <= k < i ==>
        k < |plugin| && k < |assembly| && plugin[k] != Wildcard && assembly[k] != Wildcard && plugin[k] == assembly[k]
    {
      if |plugin| <= i || plugin[i] == Wildcard || |assembly| <= i || assembly[i] == Wildcard {
        assert !HasMismatch(plugin, assembly) by {
          forall j | 0 <= j < |plugin| ensures !MismatchAt(plugin, assembly, j) {
          }
        }
        return Ok(Verdict(true, NoDiagnostic));
      }
      if plugin[i] != assembly[i] {
        assert MismatchAt(plugin, assembly, i);
        var message := MismatchMessage(pluginVersion.value, assemblyVersion.value);
        if errorOnMismatch {
          return Ok(Verdict(false, Error(message)));
        } else {
          return Ok(Verdict(true, Warning(message)));
        }
      }
      i := i + 1;
    }
    return Ok(Verdict(true, NoDiagnostic));
  }

  /** Only ErrorOnMismatch can make Execute return false; every failure logs an error. */
  lemma OnlyErrorOnMismatchFails(pluginVersion: string, assemblyVersion: string, errorOnMismatch: bool)
    ensures !Expected(pluginVersion, assemblyVersion, errorOnMismatch).success ==>
      errorOnMismatch && Expected(pluginVersion, assemblyVersion, errorOnMismatch).diagnostic.Error?
    ensures Expected(pluginVersion, assemblyVersion, errorOnMismatch).diagnostic.Error? ==>
      !Expected(pluginVersion, assemblyVersion, errorOnMismatch).success
  {
  }

  /** Versions equal once their tags are stripped agree, silently. */
  lemma SameBaseAgrees(pluginVersion: string, assemblyVersion: string, errorOnMismatch: bool)
    requires VersionTags.StripTags(pluginVersion) == VersionTags.StripTags(assemblyVersion)
    ensures Expected(pluginVersion, assemblyVersion, errorOnMismatch) == Verdict(true, NoDiagnostic)
  {
  }

  /** Swapping the two versions never changes whether they mismatch. */
  lemma MismatchSymmetric(plugin: seq<string>, assembly: seq<string>)
    ensures HasMismatch(plugin, assembly) == HasMismatch(assembly, plugin)
  {
    if HasMismatch(plugin, assembly) {
      var j :| 0 <= j < |plugin| && MismatchAt(plugin, assembly, j);
      assert MismatchAt(assembly, plugin, j);
    }
    if HasMismatch(assembly, plugin) {
      var j :| 0 <= j < |assembly| && MismatchAt(assembly, plugin, j);
      assert MismatchAt(plugin, assembly, j);
    }
  }

  /** So the verdict, and the kind of diagnostic, do not depend on which
      version is the plugin's. */
  lemma VerdictSymmetric(pluginVersion: string, assemblyVersion: string, errorOnMismatch: bool)
    ensures Expected(pluginVersion, assemblyVersion, errorOnMismatch).success ==
            Expected(assemblyVersion, pluginVersion, errorOnMismatch).success
    ensures Expected(pluginVersion, assemblyVersion, errorOnMismatch).diagnostic.NoDiagnostic? ==
            Expected(assemblyVersion, pluginVersion, errorOnMismatch).diagnostic.NoDiagnostic?
  {
    MismatchSymmetric(Components(pluginVersion), Components(assemblyVersion));
  }

  /** Components at and after a wildcard, or past the end of the shorter
      version, never matter: only the common wildcard-free stretch is compared. */
  lemma WildcardCutsOff(plugin: seq<string>, assembly: seq<string>, plugin': seq<string>, assembly': seq<string>, k: nat)
    requires k <= |plugin| && k <= |assembly| && k <= |plugin'| && k <= |assembly'|
    requires plugin[..k] == plugin'[..k] && assembly[..k] == assembly'[..k]
    requires k == |plugin| || k == |assembly| || plugin[k] == Wildcard || assembly[k] == Wildcard
    requires k == |plugin'| || k == |assembly'| || plugin'[k] == Wildcard || assembly'[k] == Wildcard
    ensures HasMismatch(plugin, assembly) == HasMismatch(plugin', assembly')
  {
    assert forall i :: 0 <= i < k ==> plugin[i] == plugin'[i] && assembly[i] == assembly'[i] by {
      forall i | 0 <= i < k ensures plugin[i] == plugin'[i] && assembly[i] == assembly'[i] {
        assert plugin[..k][i] == plugin[i] && plugin'[..k][i] == plugin'[i];
        assert assembly[..k][i] == assembly[i] && assembly'[..k][i] == assembly'[i];
      }
    }
    if HasMismatch(plugin, assembly) {
      var j :| 0 <= j < |plugin| && MismatchAt(plugin, assembly, j);
      assert j < k;
      assert MismatchAt(plugin', assembly', j);
    }
    if HasMismatch(plugin', assembly') {
      var j :| 0 <= j < |plugin'| && MismatchAt(plugin', assembly', j);
      assert j < k;
      assert MismatchAt(plugin, assembly, j);
    }
  }
}

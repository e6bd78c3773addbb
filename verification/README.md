# Beat Saber modding MSBuild tasks — GetCommitInfo, CompareVersions and the base plugin version

This project models three pieces of the MSBuild tasks used to build Beat Saber mods:

- **GetCommitInfo.** It runs `git status --porcelain=v2 --branch` in the project directory. From the status text it derives:
  - CommitHash, the abbreviated `branch.oid`;
  - Branch, the `branch.head`, unless detached;
  - Modified, which says whether any changed, renamed or unmerged entry exists.

  When the branch has an upstream, it also runs `git remote get-url <remote>`. That yields OriginUrl, and GitUser from the two GitHub URL patterns. Any exception after the ProjectDir check is logged as a warning. Execute still returns true and keeps whatever it had already assigned.
- **CompareVersions.** It strips the pre-release/build tags from the manifest's version and from the assembly's version, splits both at '.', and compares them component by component:
  - a `*` or a shorter version ends the walk successfully;
  - a mismatch is an error (Execute returns false) when ErrorOnMismatch is set, and a warning otherwise.
- **GetManifestInfo's BasePluginVersion.** This is the manifest's version with the same tag stripping applied.

The modules follow the program:

- `Wrappers`: Option, Result, and the ArgumentNullException.
- `Text`: the .NET string operations, over `seq<char>` with ordinal comparison.
- `ProcessRunner`: `RunCommand`'s decision, from what the child process did.
- `PorcelainStatus`: the line split, the header dictionary and the change test.
- `GitHubRemote`: the two URL regexes as hand-written recognizers.
- `CommitInfo`: GetCommitInfo's Execute.
- `VersionTags`, `CompareVersions`, `ManifestInfo`.

Git itself is a parameter. The status command and each `remote get-url` call are described by a `ProcessRunner.Outcome`:
- not started;
- timed out;
- or exited with an exit code and the stdout and stderr lines.

Some behaviour of the code is worth stating outright:
- `Substring(0, HashLength)` throws for a HashLength above the oid's length. Nothing clamps it.
- A repeated header key makes `ToDictionary` throw, and so does a header line with no space, through `lineParts[1]`. No value overwrites another.
- The HTTP pattern is tried before the SSH one. `GitHubRemote.PatternOrderIrrelevant` shows the order cannot matter.
- Modified is "Modified" or "Unmodified" whenever its step is reached. It stays unassigned (None) when an earlier step throws. It has no "unknown" value.

## Model

| member | source | states |
|---|---|---|
| Text.AsciiWhiteSpace | GetCommitInfo.cs:75 | among ASCII characters, `IsNullOrWhiteSpace` treats exactly space, tab, line feed, vertical tab, form feed and carriage return as white space |
| Text.ConcatBlank | GetCommitInfo.cs:164-178 | the stderr text glued from its lines is blank exactly when every stderr line is blank |
| Text.IndexOf | GetCommitInfo.cs:120 | `IndexOf('/')` is -1 exactly when the character is absent; otherwise it is a position holding the character with none before it |
| Text.SplitOnce | GetCommitInfo.cs:90 | `Split(' ', 2)` has no second part exactly when there is no space; otherwise the parts are the text before the first space and everything after it |
| Text.Split | GetCommitInfo.cs:85 | `Split('\n', '\r')` yields at least one piece, and no piece holds a separator |
| Text.SplitOfJoin | GetCommitInfo.cs:85 | splitting lines joined by one separator character gives back exactly those lines, empty ones included |
| Text.JoinOfSplit | CompareVersions.cs:52 | joining the '.'-split components with '.' gives back the stripped version, so no character is lost |
| Text.FirstPiece | CompareVersions.cs:51 | the first piece of a split is a prefix of the text, ended by a separator or by the end |
| ProcessRunner.Collect | GetCommitInfo.cs:158-189 | RunCommand returns only for an exited process with exit code 0 and blank stderr; a process that cannot start throws; a timeout throws TimeoutException; non-blank stderr throws an exception whose message is exactly the glued stderr text, even with exit code 0; blank stderr with a non-zero exit code throws the exit-code exception; a successful result is the stdout lines joined |
| ProcessRunner.Run | GetCommitInfo.cs:163-188 | as written, a successful result is exactly as long as all stdout lines together: no separator is added |
| ProcessRunner.RunLines | GetCommitInfo.cs:163-188 | with the lines kept apart, a successful result is as long as the stdout lines plus one separator between each two |
| ProcessRunner.RunnersDifferOnlyInSeparators | GetCommitInfo.cs:164-165 | gluing stdout lines as written and keeping them apart fail on the same outcomes with the same exception, and on success differ only by the separators |
| PorcelainStatus.Lines | GetCommitInfo.cs:85 | the status text yields at least one line, and no line holds '\n' or '\r' |
| PorcelainStatus.EntryShape | GetCommitInfo.cs:90 | a header line's key is the text after "# " up to the first space and its value is everything after that space; with no space there is no value |
| PorcelainStatus.EntryOfHeader | GetCommitInfo.cs:89-91 | round trip: "# key value" with a space-free key reads back as (key, value), spaces in the value kept |
| PorcelainStatus.ParseHeadersCorrect | GetCommitInfo.cs:88-91 | building the header dictionary succeeds exactly when every "# " line has a value and no two share a key; the dictionary then holds exactly those lines' entries |
| PorcelainStatus.ParseHeadersFirstError | GetCommitInfo.cs:88-91 | the exception that escapes the dictionary is that of the first offending line: every earlier line is well-formed, and that line is the one with no value, or a header whose key an earlier header already has |
| PorcelainStatus.ChangeLineMarkers | GetCommitInfo.cs:107 | a line counts as a change entry exactly when its first character is '1', '2' or 'u' |
| PorcelainStatus.AnyChangeFindsChangeLine | GetCommitInfo.cs:107 | `lines.Any(...)` is true exactly when some line starts with "1", "2" or "u" |
| PorcelainStatus.ModifiedText | GetCommitInfo.cs:106-114 | Modified is "Modified" exactly when some line is a changed, renamed or unmerged entry, and "Unmodified" otherwise; header, untracked, ignored and empty lines never count |
| PorcelainStatus.ModifiedAfterAppend | GetCommitInfo.cs:107-114 | one more line turns the verdict to "Modified" exactly when that line is a change entry |
| GitHubRemote.RecognisesGitHubUrls | GetCommitInfo.cs:14-15 | every URL of the form https://github.com/, http://github.com/ or git@github.com: followed by a user of [A-z0-9-], '/', a newline-free path and ".git" (optionally one final newline) yields that user |
| GitHubRemote.OnlyGitHubUrls | GetCommitInfo.cs:14-15 | a user is found only in a URL of one of those shapes, and it is the user the URL names |
| GitHubRemote.GitUser | GetCommitInfo.cs:126-135 | a user found in a URL is a non-empty run of [A-z0-9-] that follows one of the three GitHub heads and is followed by '/' |
| GitHubRemote.PatternOrderIrrelevant | GetCommitInfo.cs:126-135 | the HTTP and SSH patterns never both match, so trying them in either order gives the same GitUser |
| CommitInfo.HashStep | GetCommitInfo.cs:94-97 | the hash step assigns nothing exactly when branch.oid is missing or "(initial)"; it throws exactly when the oid is present, not initial and HashLength lies outside 0..length; otherwise the hash is the oid's prefix of length HashLength |
| CommitInfo.BranchOf | GetCommitInfo.cs:100-103 | a branch is found exactly when branch.head is present and not "(detached)", and it is branch.head's value |
| CommitInfo.UpstreamStep | GetCommitInfo.cs:117-135 | the upstream step never touches CommitHash, Modified or Branch; without an upstream it does nothing; when it throws it assigns nothing; it reports a missing '/' exactly when the upstream has none; when it completes with an upstream, OriginUrl is set and GitUser is what the recognizers find in it |
| CommitInfo.Steps | GetCommitInfo.cs:88-136 | the outputs are assigned in order and the first exception stops the rest: GitUser only with OriginUrl; OriginUrl only with Modified and no warning; no Modified means nothing assigned and a warning logged; the dictionary throws exactly when the header lines are rejected, and then nothing is assigned |
| CommitInfo.Execute | GetCommitInfo.cs:75-78 | GetCommitInfo's Execute, with stdout lines glued as written: a null or blank ProjectDir throws ArgumentNullException("ProjectDir"); otherwise Execute returns, and a status command that cannot start or times out leaves every output unset with a warning |
| CommitInfo.ExecuteKeepingLines | GetCommitInfo.cs:75-78 | the same ProjectDir check and failure behaviour over a runner that keeps the stdout lines apart |
| CommitInfo.StatusFailureLeavesAllUnset | GetCommitInfo.cs:139-143 | a failing status command is the logged warning and no output is assigned |
| CommitInfo.MalformedHeadersLeaveAllUnset | GetCommitInfo.cs:88-91 | a header line without a value, or a repeated key, is the logged warning exactly when the lines are not well formed, and then no output is assigned |
| CommitInfo.CommitHashFromOid | GetCommitInfo.cs:94-97 | CommitHash is unset for a missing or "(initial)" oid; otherwise it is the oid's first HashLength characters; a HashLength outside 0..length throws before anything is assigned |
| CommitInfo.CommitHashDefault | GetCommitInfo.cs:29-96 | with the default HashLength of 7, CommitHash is the oid's first seven characters |
| CommitInfo.BranchFromHead | GetCommitInfo.cs:100-103 | once the hash step passes, Branch is set exactly when branch.head is present and not "(detached)", and then holds it verbatim |
| CommitInfo.ModifiedFromEntries | GetCommitInfo.cs:106-114 | once the hash step passes, Modified is assigned, and it is "Modified" exactly when some status line is a change entry |
| CommitInfo.UpstreamFailureKeepsEarlierOutputs | GetCommitInfo.cs:117-123 | an upstream without '/', or a failing `remote get-url`, leaves OriginUrl and GitUser unset and keeps CommitHash, Branch and Modified |
| CommitInfo.OriginFromUpstream | GetCommitInfo.cs:117-135 | the remote is the upstream's text before its first '/'; its URL becomes OriginUrl and GitUser is what the recognizers find in it |
| CommitInfo.GitUserOnlyFromGitHubOrigin | GetCommitInfo.cs:123-135 | GitUser is only ever set together with OriginUrl, and only to the user of a recognised GitHub URL |
| CommitInfo.RunLinesKeepsLines | GetCommitInfo.cs:85 | with stdout lines kept apart, the status parser sees exactly the lines git printed |
| CommitInfo.RunGluesLines | GetCommitInfo.cs:165 | as written, the status parser sees a single line, whatever git printed |
| CommitInfo.GluedStatus | GetCommitInfo.cs:85-91 | glued lines that begin with the branch.oid header parse as that one header, whose value has swallowed all later lines |
| CommitInfo.AsWrittenLosesLaterLines | GetCommitInfo.cs:83-123 | as written, whenever git's first status line is the branch.oid header, Branch, OriginUrl and GitUser stay unset and Modified is never "Modified" |
| CommitInfo.GluedCheckoutOutputs | GetCommitInfo.cs:83-114 | as written, a clean status whose first lines are the branch.oid header and another header assigns exactly CommitHash, from the oid, and Modified = "Unmodified", even when the oid is "(initial)" |
| CommitInfo.InitialCommitAsWritten | GetCommitInfo.cs:94-96 | as written, on a repository without commits the "(initial)" guard never fires: CommitHash is the first HashLength characters of "(initial)", "(initia" for the default, and Branch stays unset |
| CommitInfo.InitialCommitKeepingLines | GetCommitInfo.cs:94-103 | with the lines kept apart, the same repository gets no CommitHash for any HashLength, "Unmodified", and its branch |
| CommitInfo.TypicalCheckoutOutputs | GetCommitInfo.cs:73-144 | on a modified checkout with a GitHub upstream, and with the lines kept apart, all five outputs are assigned: abbreviated oid, "Modified", branch, URL and user |
| CommitInfo.TypicalCheckoutOutputsAsWritten | GetCommitInfo.cs:83-114 | on the same checkout as written, only CommitHash and an "Unmodified" verdict are assigned |
| VersionTags.StripTags | CompareVersions.cs:51 | the stripped version is the prefix before the first '-' or '+': it holds neither marker and is followed by a marker or the end |
| VersionTags.StripTagsKeepsPlainVersion | CompareVersions.cs:51 | a version without markers is unchanged |
| VersionTags.StripTagsIdempotent | CompareVersions.cs:51 | stripping twice is stripping once |
| VersionTags.StripTagsUnique | CompareVersions.cs:51 | any prefix with those properties is the stripped version |
| VersionTags.NonBlankBaseHasNonBlankVersion | CompareVersions.cs:40-48 | a non-blank stripped version comes from a non-blank version |
| CompareVersions.Components | CompareVersions.cs:51-52 | there is at least one component, and the components joined by '.' are the stripped version |
| CompareVersions.Expected | CompareVersions.cs:56-79 | for non-blank versions, nothing is logged exactly when no mismatch precedes a "*" or either end; the result is false exactly when ErrorOnMismatch is set and there is a mismatch, and then an error is logged; any diagnostic carries the "does not match" message naming both versions |
| CompareVersions.Execute | CompareVersions.cs:40-79 | a blank PluginVersion throws first, then a blank AssemblyVersion; otherwise the walk succeeds silently unless, before any "*" or the end of either version, two components differ, which logs an error and fails when ErrorOnMismatch is set and logs a warning and succeeds otherwise |
| CompareVersions.OnlyErrorOnMismatchFails | CompareVersions.cs:65-76 | Execute returns false only when ErrorOnMismatch is set, and every failure logs an error |
| CompareVersions.SameBaseAgrees | CompareVersions.cs:51-79 | versions equal after tag stripping agree silently |
| CompareVersions.MismatchSymmetric | CompareVersions.cs:56-76 | whether two component lists mismatch does not depend on their order |
| CompareVersions.VerdictSymmetric | CompareVersions.cs:56-79 | swapping the versions changes neither success nor whether something is logged |
| CompareVersions.WildcardCutsOff | CompareVersions.cs:56-64 | components at or after the first "*", or past the shorter version's end, never affect the verdict |
| ManifestInfo.BasePluginVersion | GetManifestInfo.cs:80-82 | unset exactly when the manifest has no version; otherwise the prefix before the first '-' or '+' |
| ManifestInfo.PlainVersionPassesThrough | GetManifestInfo.cs:81 | a version without markers is its own base version |
| ManifestInfo.BaseVersionComparesAlike | GetManifestInfo.cs:80-82 | comparing the base version instead of the full version gives the same components, the same success and the same kind of diagnostic |

## Left out

- Process creation, the asynchronous stdout/stderr readers, the 1000 ms wait and `Kill` are not modelled. Each git call is summarised by a `ProcessRunner.Outcome`. A `Kill` that throws is not modelled.
- `WaitForExit(1000)` (GetCommitInfo.cs:170) does not wait for the asynchronous readers. So RunCommand may test stderr and return stdout before their last lines arrive. An `Outcome` holds the lines that had arrived, and which lines those are is not modelled.
- stderr text is kept as the concatenation of its lines, as `RunCommand` builds it. Exception message texts are modelled by their data only. The exceptions are `RunError`, `HeaderError` and `StepError`.
- The .NET regex engine is not modelled. The two GitHub patterns are hand-written recognizers with the same character class (`[A-z]` spans ordinal 'A'..'z'), `.` excluding '\n', and `$` matching at the end or before one final '\n'.
- `StartsWith(string)` is culture-sensitive in .NET. It is modelled as an ordinal prefix test. The two agree on lines that do not begin with a character the culture comparison ignores, such as the soft hyphen U+00AD. git's porcelain lines never begin with one.
- Lengths and positions are counted in characters (Unicode scalar values), not in .NET's UTF-16 code units. So `Substring(0, HashLength)` at GetCommitInfo.cs:96 and `IndexOf('/')` at line 120 differ from the model on text holding characters outside the Basic Multilingual Plane. A hex oid never holds one, though the glued oid value of the as-written runner can.
- MSBuild logging is modelled as data only:
  - `Log.LogWarningFromException` is the `warning` field of `CommitInfo.Report`;
  - `Log.LogError` and `Log.LogWarning` are the `Diagnostic` of `CompareVersions.Verdict`.
- The `[Required]` attribute's enforcement by MSBuild is not modelled. Only Execute's own ProjectDir check is.
- HashLength and exit codes are 32-bit in the source. They are unbounded integers here, because nothing in the model computes with them.
- GetManifestInfo is modelled only for BasePluginVersion. Reading and deserialising the JSON manifest, and GetManifestInfo's other outputs, are not part of this model, and Manifest.cs is not part of this model.
- GetAssemblyInfo.cs, ReplaceInFile.cs, ZipDir.cs and IsProcessRunning.cs are not part of this model.
- CommitInfo.ExecuteKeepingLines: this is not the source's Execute. It runs over a corrected runner that keeps stdout lines apart with "\n". The source as written is `CommitInfo.Execute`; see Findings.

## Findings

| source | as written | input that shows it | evidently intended | confidence | as-written member | corrected member |
|---|---|---|---|---|---|---|
| GetCommitInfo.cs:165 | `outputString += e.Data` appends each stdout line with no line break, so `Split('\n', '\r')` at line 85 sees one line | git prints `# branch.oid abc1234`, `# branch.head main`, `# branch.upstream origin/main` and `1 .M N... 100644 100644 100644 h1 h2 a.txt`. As written, the only header is branch.oid, whose value swallows the rest. Branch and OriginUrl stay unset and Modified is "Unmodified" | the lines are kept apart, so each header and entry line is seen, and Branch, Modified, OriginUrl and GitUser are all derived | high; not executed | CommitInfo.TypicalCheckoutOutputsAsWritten | CommitInfo.TypicalCheckoutOutputs |
| GetCommitInfo.cs:165 | the same gluing makes the oid's value `(initial)# branch.head main` on a repository without commits, so the `"(initial)"` test at line 94 fails and line 96 takes a prefix of it | git prints `# branch.oid (initial)` and `# branch.head main`, with HashLength 7. As written, CommitHash is "(initia" and Branch stays unset | CommitHash stays unset for "(initial)", and Branch is "main" | high; not executed | CommitInfo.InitialCommitAsWritten | CommitInfo.InitialCommitKeepingLines |

/** The GetCommitInfo task: run `git status --porcelain=v2 --branch`,
    derive CommitHash, Branch and Modified from its text, then, when the
    branch has an upstream, ask git for the remote's URL and recognise a
    GitHub user in it. Any exception inside the try block is logged as a
    warning and Execute still returns true, keeping what was assigned before.
 */
module CommitInfo {
  import opened Wrappers
  import Text
  import ProcessRunner
  import PorcelainStatus
  import GitHubRemote

  /** The five output properties; None is a property never assigned. */
  datatype Outputs = Outputs(
    commitHash: Option<string>,
    modified: Option<string>,
    branch: Option<string>,
    originUrl: Option<string>,
    gitUser: Option<string>)

  const Unset := Outputs(None, None, None, None, None)

  /** The exceptions the try block catches. */
  datatype StepError =
    | RunFailed(run: ProcessRunner.RunError)
    | HeaderFailed(header: PorcelainStatus.HeaderError)
    | HashLengthOutOfRange(oid: string, hashLength: int)
    | UpstreamWithoutRemote(upstream: string)

  /** What a call of Execute that returns leaves behind: it always returns
      true, with the outputs assigned so far and the exception it logged. */
  datatype Report = Report(outputs: Outputs, warning: Option<StepError>)

  const Git := "git"
  const StatusArguments := "status --porcelain=v2 --branch"
  const DefaultHashLength := 7
  const OidKey := "branch.oid"
  const HeadKey := "branch.head"
  const UpstreamKey := "branch.upstream"
  const InitialOid := "(initial)"
  const DetachedHead := "(detached)"

  function RemoteArguments(remote: string): string
  {
    "remote get-url " + remote
  }

  function Lookup(headers: map<string, string>, key: string): Option<string>
  {
    if key in headers then Some(headers[key]) else None
  }

  /** The CommitHash step: nothing for a missing or "(initial)" oid,
      otherwise `oid.Substring(0, HashLength)`, which throws unless
      0 <= HashLength <= |oid|. */
  function HashStep(headers: map<string, string>, hashLength: int): (r: Result<Option<string>, StepError>)
    ensures r == Ok(None) <==> OidKey !in headers || headers[OidKey] == InitialOid
    ensures r.Err? <==> OidKey in headers && headers[OidKey] != InitialOid && !(0 <= hashLength <= |headers[OidKey]|)
    ensures r.Err? ==> r.error == HashLengthOutOfRange(headers[OidKey], hashLength)
    ensures r.Ok? && r.value.Some? ==> |r.value.value| == hashLength && r.value.value <= headers[OidKey]
  {
    match Lookup(headers, OidKey)
    case None => Ok(None)
    case Some(oid) =>
      if oid == InitialOid then Ok(None)
      else if 0 <= hashLength <= |oid| then Ok(Some(oid[..hashLength]))
      else Err(HashLengthOutOfRange(oid, hashLength))
  }

  /** The Branch step. */
  function BranchOf(headers: map<string, string>): (r: Option<string>)
    ensures r.Some? <==> HeadKey in headers && headers[HeadKey] != DetachedHead
    ensures r.Some? ==> r.value == headers[HeadKey]
  {
    match Lookup(headers, HeadKey)
    case Some(head) => if head == DetachedHead then None else Some(head)
    case None => None
  }

  /** The upstream step: the remote is the upstream's text before its first
      '/' (`Substring(0, IndexOf('/'))` throws without one); its URL becomes
      OriginUrl and the recognised user GitUser. */
  function UpstreamStep(headers: map<string, string>, remoteUrl: string -> Result<string, ProcessRunner.RunError>, outputs: Outputs): (r: Report)
    ensures r.outputs.commitHash == outputs.commitHash && r.outputs.modified == outputs.modified && r.outputs.branch == outputs.branch
    ensures UpstreamKey !in headers ==> r == Report(outputs, None)
    ensures r.warning.Some? ==> r.outputs == outputs
    ensures (r.warning.Some? && r.warning.value.UpstreamWithoutRemote?) <==> UpstreamKey in headers && '/' !in headers[UpstreamKey]
    ensures r.warning.None? && UpstreamKey in headers ==>
      r.outputs.originUrl.Some? && r.outputs.gitUser == GitHubRemote.GitUser(r.outputs.originUrl.value)
  {
    match Lookup(headers, UpstreamKey)
    case None => Report(outputs, None)
    case Some(upstream) =>
      var slash := Text.IndexOf(upstream, '/');
      if slash < 0 then Report(outputs, Some(UpstreamWithoutRemote(upstream)))
      else
        match remoteUrl(upstream[..slash])
        case Err(e) => Report(outputs, Some(RunFailed(e)))
        case Ok(url) => Report(outputs.(originUrl := Some(url), gitUser := GitHubRemote.GitUser(url)), None)
  }

  /** The body of the try block, given what the status command returned and
      what `remote get-url <remote>` returns for each remote. The outputs are
      assigned in source order; the first exception stops the rest. */
  function Steps(status: Result<string, ProcessRunner.RunError>, remoteUrl: string -> Result<string, ProcessRunner.RunError>, hashLength: int): (r: Report)
    ensures r.outputs.gitUser.Some? ==> r.outputs.originUrl.Some?
    ensures r.outputs.originUrl.Some? ==> r.outputs.modified.Some? && r.warning.None?
    ensures r.outputs.modified.None? ==> r.outputs == Unset && r.warning.Some?
    ensures r.outputs.modified.Some? ==> r.outputs.modified.value == "Modified" || r.outputs.modified.value == "Unmodified"
    ensures status.Ok? && r.warning.None? ==> r.outputs.modified.Some?
    ensures (r.warning.Some? && r.warning.value.HeaderFailed?) <==>
      (status.Ok? && PorcelainStatus.ParseHeaders(PorcelainStatus.Lines(status.value)).Err?)
    ensures r.warning.Some? && r.warning.value.HeaderFailed? ==> r.outputs == Unset
  {
    match status
    case Err(e) => Report(Unset, Some(RunFailed(e)))
    case Ok(text) =>
      var lines := PorcelainStatus.Lines(text);
      match PorcelainStatus.ParseHeaders(lines)
      case Err(e) => Report(Unset, Some(HeaderFailed(e)))
      case Ok(headers) =>
        match HashStep(headers, hashLength)
        case Err(e) => Report(Unset, Some(e))
        case Ok(hash) =>
          var outputs := Outputs(hash, Some(PorcelainStatus.ModifiedText(lines)), BranchOf(headers), None, None);
          UpstreamStep(headers, remoteUrl, outputs)
  }

  /** `git remote get-url <name>`, given what git does for each remote, with
      the lines kept apart. */
  function RemoteUrl(remote: string -> ProcessRunner.Outcome): string -> Result<string, ProcessRunner.RunError>
  {
    (name: string) => ProcessRunner.RunLines(Git, RemoteArguments(name), remote(name))
  }

  /** The same with the lines glued, as written. */
  function RemoteUrlAsWritten(remote: string -> ProcessRunner.Outcome): string -> Result<string, ProcessRunner.RunError>
  {
    (name: string) => ProcessRunner.Run(Git, RemoteArguments(name), remote(name))
  }

  /** Execute over a corrected runner that keeps the stdout lines of each
      git call apart with "\n". A blank ProjectDir throws before the try block. */
  function ExecuteKeepingLines(projectDir: Option<string>, hashLength: int, status: ProcessRunner.Outcome, remote: string -> ProcessRunner.Outcome): (r: Result<Report, ArgumentNull>)
    ensures r.Err? <==> Text.IsNullOrWhiteSpace(projectDir)
    ensures r.Err? ==> r.error == ArgumentNull("ProjectDir")
    ensures r.Ok? && (status.NotStarted? || status.TimedOut?) ==> r.value.outputs == Unset && r.value.warning.Some?
  {
    if Text.IsNullOrWhiteSpace(projectDir) then Err(ArgumentNull("ProjectDir"))
    else
      Ok(Steps(ProcessRunner.RunLines(Git, StatusArguments, status), RemoteUrl(remote), hashLength))
  }

  /** GetCommitInfo's Execute as written: RunCommand glues the stdout lines
      together. A blank ProjectDir throws before the try block. */
  function Execute(projectDir: Option<string>, hashLength: int, status: ProcessRunner.Outcome, remote: string -> ProcessRunner.Outcome): (r: Result<Report, ArgumentNull>)
    ensures r.Err? <==> Text.IsNullOrWhiteSpace(projectDir)
    ensures r.Err? ==> r.error == ArgumentNull("ProjectDir")
    ensures r.Ok? && (status.NotStarted? || status.TimedOut?) ==> r.value.outputs == Unset && r.value.warning.Some?
  {
    if Text.IsNullOrWhiteSpace(projectDir) then Err(ArgumentNull("ProjectDir"))
    else
      Ok(Steps(ProcessRunner.Run(Git, StatusArguments, status), RemoteUrlAsWritten(remote), hashLength))
  }

  // ---------------------------------------------------------------------
  // Properties of the steps, for any runner results.

  /** The upstream step only ever adds OriginUrl and GitUser. */
  lemma UpstreamKeepsOutputs(headers: map<string, string>, remoteUrl: string -> Result<string, ProcessRunner.RunError>, outputs: Outputs)
    ensures var r := UpstreamStep(headers, remoteUrl, outputs);
      r.outputs.commitHash == outputs.commitHash && r.outputs.modified == outputs.modified && r.outputs.branch == outputs.branch
  {
  }

  /** Steps once the header map is known. */
  lemma StepsOnHeaders(text: string, headers: map<string, string>, remoteUrl: string -> Result<string, ProcessRunner.RunError>, hashLength: int)
    requires PorcelainStatus.ParseHeaders(PorcelainStatus.Lines(text)) == Ok(headers)
    ensures Steps(Ok(text), remoteUrl, hashLength) ==
      match HashStep(headers, hashLength)
      case Err(e) => Report(Unset, Some(e))
      case Ok(hash) =>
        UpstreamStep(headers, remoteUrl, Outputs(hash, Some(PorcelainStatus.ModifiedText(PorcelainStatus.Lines(text))), BranchOf(headers), None, None))
  {
  }

  /** A failed status command leaves every output unset and is the logged warning. */
  lemma StatusFailureLeavesAllUnset(status: Result<string, ProcessRunner.RunError>, remoteUrl: string -> Result<string, ProcessRunner.RunError>, hashLength: int)
    requires status.Err?
    ensures Steps(status, remoteUrl, hashLength) == Report(Unset, Some(RunFailed(status.error)))
  {
  }

  /** Header lines without a value, or two header lines with one key, make
      the dictionary throw before any output is assigned; otherwise it
      does not throw. */
  lemma MalformedHeadersLeaveAllUnset(text: string, remoteUrl: string -> Result<string, ProcessRunner.RunError>, hashLength: int)
    ensures !PorcelainStatus.WellFormed(PorcelainStatus.Lines(text)) <==>
      Steps(Ok(text), remoteUrl, hashLength).warning.Some? && Steps(Ok(text), remoteUrl, hashLength).warning.value.HeaderFailed?
    ensures !PorcelainStatus.WellFormed(PorcelainStatus.Lines(text)) ==>
      Steps(Ok(text), remoteUrl, hashLength).outputs == Unset
  {
    PorcelainStatus.ParseHeadersCorrect(PorcelainStatus.Lines(text));
  }

  /** CommitHash is unset when the oid is missing or "(initial)"; otherwise
      it is the oid's first HashLength characters, and a HashLength outside
      0..|oid| throws before anything is assigned. */
  lemma CommitHashFromOid(text: string, headers: map<string, string>, remoteUrl: string -> Result<string, ProcessRunner.RunError>, hashLength: int)
    requires PorcelainStatus.ParseHeaders(PorcelainStatus.Lines(text)) == Ok(headers)
    ensures var r := Steps(Ok(text), remoteUrl, hashLength);
      && (OidKey !in headers || headers[OidKey] == InitialOid ==> r.outputs.commitHash.None?)
      && (r.outputs.commitHash.Some? ==>
            OidKey in headers && headers[OidKey] != InitialOid
            && r.outputs.commitHash.value <= headers[OidKey] && |r.outputs.commitHash.value| == hashLength)
      && (OidKey in headers && headers[OidKey] != InitialOid && 0 <= hashLength <= |headers[OidKey]| ==>
            r.outputs.commitHash.Some?)
      && (OidKey in headers && headers[OidKey] != InitialOid && !(0 <= hashLength <= |headers[OidKey]|) ==>
            r == Report(Unset, Some(HashLengthOutOfRange(headers[OidKey], hashLength))))
  {
    StepsOnHeaders(text, headers, remoteUrl, hashLength);
    var r := Steps(Ok(text), remoteUrl, hashLength);
    match HashStep(headers, hashLength)
    case Err(e) =>
      assert r == Report(Unset, Some(e));
    case Ok(hash) =>
      UpstreamKeepsOutputs(headers, remoteUrl, Outputs(hash, Some(PorcelainStatus.ModifiedText(PorcelainStatus.Lines(text))), BranchOf(headers), None, None));
  }

  /** With HashLength left at its default, CommitHash is the oid's first
      seven characters, the short hash git itself shows. */
  lemma CommitHashDefault(text: string, headers: map<string, string>, remoteUrl: string -> Result<string, ProcessRunner.RunError>)
    requires PorcelainStatus.ParseHeaders(PorcelainStatus.Lines(text)) == Ok(headers)
    requires OidKey in headers && headers[OidKey] != InitialOid && |headers[OidKey]| >= DefaultHashLength
    ensures Steps(Ok(text), remoteUrl, DefaultHashLength).outputs.commitHash == Some(headers[OidKey][..DefaultHashLength])
  {
    CommitHashFromOid(text, headers, remoteUrl, DefaultHashLength);
  }

  /** The hash step passed: the outputs past it are assigned. */
  predicate PassesHashStep(headers: map<string, string>, hashLength: int) {
    HashStep(headers, hashLength).Ok?
  }

  /** Branch is set exactly when "branch.head" is present and not "(detached)",
      and then holds that value verbatim. */
  lemma BranchFromHead(text: string, headers: map<string, string>, remoteUrl: string -> Result<string, ProcessRunner.RunError>, hashLength: int)
    requires PorcelainStatus.ParseHeaders(PorcelainStatus.Lines(text)) == Ok(headers)
    requires PassesHashStep(headers, hashLength)
    ensures var r := Steps(Ok(text), remoteUrl, hashLength);
      && (r.outputs.branch.Some? <==> HeadKey in headers && headers[HeadKey] != DetachedHead)
      && (r.outputs.branch.Some? ==> r.outputs.branch.value == headers[HeadKey])
  {
    StepsOnHeaders(text, headers, remoteUrl, hashLength);
  }

  /** Once the hash step passes, Modified is always assigned, and it is
      "Modified" exactly when some line starts with '1', '2' or 'u'. */
  lemma ModifiedFromEntries(text: string, headers: map<string, string>, remoteUrl: string -> Result<string, ProcessRunner.RunError>, hashLength: int)
    requires PorcelainStatus.ParseHeaders(PorcelainStatus.Lines(text)) == Ok(headers)
    requires PassesHashStep(headers, hashLength)
    ensures var r := Steps(Ok(text), remoteUrl, hashLength);
      var lines := PorcelainStatus.Lines(text);
      && r.outputs.modified.Some?
      && (r.outputs.modified == Some("Modified") <==>
            exists i :: 0 <= i < |lines| && PorcelainStatus.IsChangeLine(lines[i]))
      && (r.outputs.modified != Some("Modified") ==> r.outputs.modified == Some("Unmodified"))
  {
    StepsOnHeaders(text, headers, remoteUrl, hashLength);
  }

  /** Without a '/' in the upstream, or when `remote get-url` fails, OriginUrl
      and GitUser stay unset while the three earlier outputs are kept. */
  lemma UpstreamFailureKeepsEarlierOutputs(text: string, headers: map<string, string>, remoteUrl: string -> Result<string, ProcessRunner.RunError>, hashLength: int)
    requires PorcelainStatus.ParseHeaders(PorcelainStatus.Lines(text)) == Ok(headers)
    requires PassesHashStep(headers, hashLength)
    requires UpstreamKey in headers
    requires var upstream := headers[UpstreamKey];
      '/' !in upstream || remoteUrl(upstream[..Text.IndexOf(upstream, '/')]).Err?
    ensures var r := Steps(Ok(text), remoteUrl, hashLength);
      && r.warning.Some?
      && r.outputs.originUrl.None? && r.outputs.gitUser.None?
      && r.outputs.commitHash == HashStep(headers, hashLength).value
      && r.outputs.branch == BranchOf(headers)
      && r.outputs.modified.Some?
  {
    StepsOnHeaders(text, headers, remoteUrl, hashLength);
  }

  /** The remote is the upstream's text before its first '/'; its URL is
      OriginUrl and GitUser is what the recognisers find in it. */
  lemma OriginFromUpstream(text: string, headers: map<string, string>, remoteUrl: string -> Result<string, ProcessRunner.RunError>, hashLength: int, remote: string, branch: string, url: string)
    requires PorcelainStatus.ParseHeaders(PorcelainStatus.Lines(text)) == Ok(headers)
    requires PassesHashStep(headers, hashLength)
    requires '/' !in remote
    requires Lookup(headers, UpstreamKey) == Some(remote + "/" + branch)
    requires remoteUrl(remote) == Ok(url)
    ensures var r := Steps(Ok(text), remoteUrl, hashLength);
      r.warning.None? && r.outputs.originUrl == Some(url) && r.outputs.gitUser == GitHubRemote.GitUser(url)
  {
    StepsOnHeaders(text, headers, remoteUrl, hashLength);
    Text.IndexOfAfter(remote, '/', branch);
    assert (remote + "/" + branch)[..|remote|] == remote;
  }

  /** GitUser is only ever set together with OriginUrl, and only to the user
      of a GitHub URL of one of the two recognised shapes. */
  lemma GitUserOnlyFromGitHubOrigin(status: Result<string, ProcessRunner.RunError>, remoteUrl: string -> Result<string, ProcessRunner.RunError>, hashLength: int)
    ensures var r := Steps(status, remoteUrl, hashLength);
      r.outputs.gitUser.Some? ==>
        && r.outputs.originUrl.Some?
        && exists prefix, path, ending ::
             GitHubRemote.IsGitHubUrl(r.outputs.originUrl.value, r.outputs.gitUser.value, prefix, path, ending)
  {
    var r := Steps(status, remoteUrl, hashLength);
    if r.outputs.gitUser.Some? {
      GitHubRemote.OnlyGitHubUrls(r.outputs.originUrl.value);
    }
  }

  // ---------------------------------------------------------------------
  // The runner and the parser together.

  /** Lines as git prints them: no line holds a line break. */
  predicate IsLineSequence(lines: seq<string>) {
    forall i :: 0 <= i < |lines| ==> Text.NoneOf(lines[i], PorcelainStatus.LineBreaks)
  }

  /** With the lines joined by "\n", the parser sees exactly the lines git printed. */
  lemma RunLinesKeepsLines(command: string, arguments: string, o: ProcessRunner.Outcome)
    requires ProcessRunner.RunLines(command, arguments, o).Ok?
    requires |o.stdoutLines| >= 1 && IsLineSequence(o.stdoutLines)
    ensures PorcelainStatus.Lines(ProcessRunner.RunLines(command, arguments, o).value) == o.stdoutLines
  {
    Text.SplitOfJoin(o.stdoutLines, '\n', PorcelainStatus.LineBreaks);
  }

  /** As written, the parser sees a single line, whatever git printed. */
  lemma RunGluesLines(command: string, arguments: string, o: ProcessRunner.Outcome)
    requires ProcessRunner.Run(command, arguments, o).Ok?
    requires IsLineSequence(o.stdoutLines)
    ensures PorcelainStatus.Lines(ProcessRunner.Run(command, arguments, o).value) ==
            [ProcessRunner.Run(command, arguments, o).value]
  {
    Text.JoinNoneOf(o.stdoutLines, "", PorcelainStatus.LineBreaks);
    Text.SplitWithoutSeparator(ProcessRunner.Run(command, arguments, o).value, PorcelainStatus.LineBreaks);
  }

  /** A header line never counts as a change line. */
  lemma HeaderIsNoChange(line: string)
    requires PorcelainStatus.IsHeaderLine(line)
    ensures !PorcelainStatus.IsChangeLine(line)
  {
    assert line[0] == PorcelainStatus.HeaderMarker[0] == '#';
  }

  /** Glued together, lines that start with the "branch.oid" header parse
      as that one header, whose value has swallowed all the later lines. */
  lemma GluedStatus(lines: seq<string>, oid: string)
    requires IsLineSequence(lines)
    requires |lines| >= 1 && lines[0] == PorcelainStatus.HeaderMarker + OidKey + " " + oid
    ensures PorcelainStatus.Lines(Text.Concat(lines)) == [Text.Concat(lines)]
    ensures PorcelainStatus.ParseHeaders([Text.Concat(lines)]) == Ok(map[OidKey := oid + Text.Concat(lines[1..])])
    ensures !PorcelainStatus.IsChangeLine(Text.Concat(lines))
  {
    var text := Text.Concat(lines);
    var rest := Text.Concat(lines[1..]);
    Text.JoinNoneOf(lines, "", PorcelainStatus.LineBreaks);
    Text.SplitWithoutSeparator(text, PorcelainStatus.LineBreaks);
    assert text == lines[0] + rest by {
      if |lines| > 1 {
        assert text == lines[0] + "" + Text.Join(lines[1..], "");
      }
    }
    assert text == PorcelainStatus.HeaderMarker + OidKey + " " + (oid + rest);
    assert ' ' !in OidKey;
    PorcelainStatus.EntryOfHeader(OidKey, oid + rest);
    assert [text][..0] == [];
    assert PorcelainStatus.ParseHeaders([text]) == Ok(map[][OidKey := oid + rest]);
    HeaderIsNoChange(text);
  }

  /** The steps on a status text that is one "branch.oid" header line and
      no change entry: CommitHash from the value, "Unmodified", nothing else. */
  lemma OidOnlySteps(text: string, value: string, remoteUrl: string -> Result<string, ProcessRunner.RunError>, hashLength: int)
    requires PorcelainStatus.Lines(text) == [text]
    requires PorcelainStatus.ParseHeaders([text]) == Ok(map[OidKey := value])
    requires !PorcelainStatus.IsChangeLine(text)
    ensures Steps(Ok(text), remoteUrl, hashLength) ==
      match HashStep(map[OidKey := value], hashLength)
      case Ok(hash) => Report(Outputs(hash, Some("Unmodified"), None, None, None), None)
      case Err(e) => Report(Unset, Some(e))
  {
    var headers := map[OidKey := value];
    assert forall i :: 0 <= i < |[text]| ==> [text][i] == text;
    assert PorcelainStatus.ModifiedText([text]) == "Unmodified";
    assert Lookup(headers, HeadKey) == None && Lookup(headers, UpstreamKey) == None;
  }

  /** As written, whenever git's first status line is the "branch.oid"
      header (which `--branch` always prints first), Branch and OriginUrl
      are never set and Modified is never "Modified": every later header and
      entry line has been glued into the oid's value. */
  lemma AsWrittenLosesLaterLines(projectDir: string, hashLength: int, exitCode: int, stdoutLines: seq<string>, stderrLines: seq<string>, remote: string -> ProcessRunner.Outcome, oid: string)
    requires !Text.IsNullOrWhiteSpace(Some(projectDir))
    requires IsLineSequence(stdoutLines)
    requires |stdoutLines| >= 1 && stdoutLines[0] == PorcelainStatus.HeaderMarker + OidKey + " " + oid
    ensures var r := Execute(Some(projectDir), hashLength, ProcessRunner.Exited(exitCode, stdoutLines, stderrLines), remote);
      && r.Ok?
      && r.value.outputs.branch.None?
      && r.value.outputs.originUrl.None?
      && r.value.outputs.gitUser.None?
      && r.value.outputs.modified != Some("Modified")
  {
    var o := ProcessRunner.Exited(exitCode, stdoutLines, stderrLines);
    if ProcessRunner.Run(Git, StatusArguments, o).Ok? {
      GluedStatus(stdoutLines, oid);
      var text := Text.Concat(stdoutLines);
      assert ProcessRunner.Run(Git, StatusArguments, o) == Ok(text);
      OidOnlySteps(text, oid + Text.Concat(stdoutLines[1..]), RemoteUrlAsWritten(remote), hashLength);
    }
  }

  // ---------------------------------------------------------------------
  // A typical checkout, both ways: a modified working tree on branch
  // `head`, whose upstream is `remote/remoteBranch`, the remote's URL being
  // a GitHub URL of `user`.

  /** The four lines `git status --porcelain=v2 --branch` prints for it. */
  function CheckoutStatus(oid: string, head: string, remote: string, remoteBranch: string, entry: string): seq<string>
  {
    [ PorcelainStatus.HeaderMarker + OidKey + " " + oid,
      PorcelainStatus.HeaderMarker + HeadKey + " " + head,
      PorcelainStatus.HeaderMarker + UpstreamKey + " " + (remote + "/" + remoteBranch),
      entry ]
  }

  /** What it takes for those lines to be a typical checkout. */
  predicate IsTypicalCheckout(oid: string, head: string, remote: string, remoteBranch: string, entry: string, hashLength: int) {
    && IsLineSequence(CheckoutStatus(oid, head, remote, remoteBranch, entry))
    && oid != InitialOid && 0 <= hashLength <= |oid|
    && head != DetachedHead
    && '/' !in remote
    && PorcelainStatus.IsChangeLine(entry)
  }

  lemma KeysHaveNoSpace()
    ensures ' ' !in OidKey && ' ' !in HeadKey && ' ' !in UpstreamKey
    ensures OidKey != HeadKey && OidKey != UpstreamKey && HeadKey != UpstreamKey
  {
  }

  lemma ChangeIsNoHeader(line: string)
    requires PorcelainStatus.IsChangeLine(line)
    ensures !PorcelainStatus.IsHeaderLine(line)
  {
    assert line[0] != PorcelainStatus.HeaderMarker[0];
  }

  lemma CheckoutHeaders(oid: string, head: string, remote: string, remoteBranch: string, entry: string)
    returns (headers: map<string, string>)
    requires PorcelainStatus.IsChangeLine(entry)
    ensures PorcelainStatus.ParseHeaders(CheckoutStatus(oid, head, remote, remoteBranch, entry)) == Ok(headers)
    ensures Lookup(headers, OidKey) == Some(oid)
    ensures Lookup(headers, HeadKey) == Some(head)
    ensures Lookup(headers, UpstreamKey) == Some(remote + "/" + remoteBranch)
  {
    KeysHaveNoSpace();
    var upstream := remote + "/" + remoteBranch;
    var first := [
      PorcelainStatus.HeaderMarker + OidKey + " " + oid,
      PorcelainStatus.HeaderMarker + HeadKey + " " + head,
      PorcelainStatus.HeaderMarker + UpstreamKey + " " + upstream ];
    PorcelainStatus.ThreeHeaders(OidKey, oid, HeadKey, head, UpstreamKey, upstream);
    headers := map[OidKey := oid, HeadKey := head, UpstreamKey := upstream];
    ChangeIsNoHeader(entry);
    PorcelainStatus.ParseHeadersSnocOther(first, entry);
    assert first + [entry] == CheckoutStatus(oid, head, remote, remoteBranch, entry);
  }

  /** The steps on the checkout's lines, whatever runner produced them. */
  lemma CheckoutSteps(text: string, oid: string, head: string, remote: string, remoteBranch: string, entry: string,
                      hashLength: int, remoteUrl: string -> Result<string, ProcessRunner.RunError>, url: string)
    requires IsTypicalCheckout(oid, head, remote, remoteBranch, entry, hashLength)
    requires PorcelainStatus.Lines(text) == CheckoutStatus(oid, head, remote, remoteBranch, entry)
    requires remoteUrl(remote) == Ok(url)
    ensures Steps(Ok(text), remoteUrl, hashLength) ==
      Report(Outputs(Some(oid[..hashLength]), Some("Modified"), Some(head), Some(url), GitHubRemote.GitUser(url)), None)
  {
    var lines := CheckoutStatus(oid, head, remote, remoteBranch, entry);
    var headers := CheckoutHeaders(oid, head, remote, remoteBranch, entry);
    assert PorcelainStatus.IsChangeLine(lines[3]);
    assert PorcelainStatus.ModifiedText(lines) == "Modified";
    assert HashStep(headers, hashLength) == Ok(Some(oid[..hashLength]));
    assert BranchOf(headers) == Some(head);
    OriginFromUpstream(text, headers, remoteUrl, hashLength, remote, remoteBranch, url);
  }

  /** With the lines kept apart every output is filled in: the abbreviated
      oid, "Modified", the branch, the origin's URL and its user. */
  lemma TypicalCheckoutOutputs(projectDir: string, oid: string, head: string, remote: string, remoteBranch: string, entry: string,
                               hashLength: int, remoteOutcome: string -> ProcessRunner.Outcome, url: string, user: string)
    requires !Text.IsNullOrWhiteSpace(Some(projectDir))
    requires IsTypicalCheckout(oid, head, remote, remoteBranch, entry, hashLength)
    requires remoteOutcome(remote) == ProcessRunner.Exited(0, [url], [])
    requires GitHubRemote.GitUser(url) == Some(user)
    ensures ExecuteKeepingLines(Some(projectDir), hashLength, ProcessRunner.Exited(0, CheckoutStatus(oid, head, remote, remoteBranch, entry), []), remoteOutcome) ==
      Ok(Report(Outputs(Some(oid[..hashLength]), Some("Modified"), Some(head), Some(url), Some(user)), None))
  {
    var lines := CheckoutStatus(oid, head, remote, remoteBranch, entry);
    var text := KeptLinesRun(projectDir, hashLength, lines, remoteOutcome);
    assert RemoteUrl(remoteOutcome)(remote) == Ok(url) by {
      assert Text.Join([url], "\n") == url;
    }
    CheckoutSteps(text, oid, head, remote, remoteBranch, entry, hashLength, RemoteUrl(remoteOutcome), url);
  }

  /** A clean status run with the lines kept apart hands the steps a text
      that splits back into git's lines. */
  lemma KeptLinesRun(projectDir: string, hashLength: int, lines: seq<string>, remoteOutcome: string -> ProcessRunner.Outcome)
    returns (text: string)
    requires !Text.IsNullOrWhiteSpace(Some(projectDir))
    requires |lines| >= 1 && IsLineSequence(lines)
    ensures PorcelainStatus.Lines(text) == lines
    ensures ExecuteKeepingLines(Some(projectDir), hashLength, ProcessRunner.Exited(0, lines, []), remoteOutcome) ==
      Ok(Steps(Ok(text), RemoteUrl(remoteOutcome), hashLength))
  {
    var o := ProcessRunner.Exited(0, lines, []);
    assert Text.Concat([]) == "";
    RunLinesKeepsLines(Git, StatusArguments, o);
    text := ProcessRunner.RunLines(Git, StatusArguments, o).value;
  }

  /** A clean exit: exit code 0 and nothing on stderr. */
  lemma RunOfCleanExit(command: string, arguments: string, lines: seq<string>)
    ensures ProcessRunner.Run(command, arguments, ProcessRunner.Exited(0, lines, [])) == Ok(Text.Concat(lines))
  {
    assert Text.Concat([]) == "";
  }

  /** Glued after a header line, the oid's value is never "(initial)": it holds the '#'. */
  lemma GluedOidNotInitial(oid: string, lines: seq<string>)
    requires |lines| >= 1 && PorcelainStatus.IsHeaderLine(lines[0])
    ensures oid + Text.Concat(lines) != InitialOid
  {
    var rest := Text.Concat(lines);
    if |lines| > 1 {
      assert rest == lines[0] + "" + Text.Concat(lines[1..]);
    }
    assert rest[0] == '#';
    assert (oid + rest)[|oid|] == '#';
    assert forall k :: 0 <= k < |InitialOid| ==> InitialOid[k] != '#';
  }

  /** As written, a clean status whose first two lines are the "branch.oid"
      header and another header (`--branch` always prints "branch.head")
      assigns CommitHash from the oid, "Unmodified", and nothing else, even
      for the oid "(initial)": glued, the value is no longer "(initial)". */
  lemma GluedCheckoutOutputs(projectDir: string, hashLength: int, lines: seq<string>, remoteOutcome: string -> ProcessRunner.Outcome, oid: string)
    requires !Text.IsNullOrWhiteSpace(Some(projectDir))
    requires IsLineSequence(lines)
    requires |lines| >= 2 && lines[0] == PorcelainStatus.HeaderMarker + OidKey + " " + oid
    requires PorcelainStatus.IsHeaderLine(lines[1])
    requires 0 <= hashLength <= |oid|
    ensures Execute(Some(projectDir), hashLength, ProcessRunner.Exited(0, lines, []), remoteOutcome) ==
      Ok(Report(Outputs(Some(oid[..hashLength]), Some("Unmodified"), None, None, None), None))
  {
    var text := Text.Concat(lines);
    var rest := Text.Concat(lines[1..]);
    RunOfCleanExit(Git, StatusArguments, lines);
    GluedStatus(lines, oid);
    var o := ProcessRunner.Exited(0, lines, []);
    assert Execute(Some(projectDir), hashLength, o, remoteOutcome) ==
      Ok(Steps(Ok(text), RemoteUrlAsWritten(remoteOutcome), hashLength));
    OidOnlySteps(text, oid + rest, RemoteUrlAsWritten(remoteOutcome), hashLength);
    GluedOidNotInitial(oid, lines[1..]);
    assert (oid + rest)[..hashLength] == oid[..hashLength];
  }

  /** As written only CommitHash is assigned besides an "Unmodified" verdict:
      the glued text is one "branch.oid" header line. */
  lemma TypicalCheckoutOutputsAsWritten(projectDir: string, oid: string, head: string, remote: string, remoteBranch: string, entry: string,
                                        hashLength: int, remoteOutcome: string -> ProcessRunner.Outcome)
    requires !Text.IsNullOrWhiteSpace(Some(projectDir))
    requires IsTypicalCheckout(oid, head, remote, remoteBranch, entry, hashLength)
    ensures Execute(Some(projectDir), hashLength, ProcessRunner.Exited(0, CheckoutStatus(oid, head, remote, remoteBranch, entry), []), remoteOutcome) ==
      Ok(Report(Outputs(Some(oid[..hashLength]), Some("Unmodified"), None, None, None), None))
  {
    GluedCheckoutOutputs(projectDir, hashLength, CheckoutStatus(oid, head, remote, remoteBranch, entry), remoteOutcome, oid);
  }

  // ---------------------------------------------------------------------
  // A repository without commits: git prints "(initial)" as the oid.

  /** The two header lines git prints on branch `head` before the first commit. */
  function InitialStatus(head: string): seq<string>
  {
    [ PorcelainStatus.HeaderMarker + OidKey + " " + InitialOid,
      PorcelainStatus.HeaderMarker + HeadKey + " " + head ]
  }

  /** As written, the "(initial)" guard never fires: CommitHash becomes the
      first HashLength characters of "(initial)" itself, "(initia" for the
      default, and Branch is lost. */
  lemma InitialCommitAsWritten(projectDir: string, head: string, hashLength: int, remoteOutcome: string -> ProcessRunner.Outcome)
    requires !Text.IsNullOrWhiteSpace(Some(projectDir))
    requires IsLineSequence(InitialStatus(head))
    requires 0 <= hashLength <= |InitialOid|
    ensures Execute(Some(projectDir), hashLength, ProcessRunner.Exited(0, InitialStatus(head), []), remoteOutcome) ==
      Ok(Report(Outputs(Some(InitialOid[..hashLength]), Some("Unmodified"), None, None, None), None))
    ensures hashLength == DefaultHashLength ==> InitialOid[..hashLength] == "(initia"
  {
    GluedCheckoutOutputs(projectDir, hashLength, InitialStatus(head), remoteOutcome, InitialOid);
  }

  /** The two lines parse as the oid and head entries, and neither is a change. */
  lemma InitialHeaders(head: string)
    ensures PorcelainStatus.ParseHeaders(InitialStatus(head)) == Ok(map[OidKey := InitialOid, HeadKey := head])
    ensures PorcelainStatus.ModifiedText(InitialStatus(head)) == "Unmodified"
  {
    KeysHaveNoSpace();
    PorcelainStatus.TwoHeaders(OidKey, InitialOid, HeadKey, head);
    HeaderIsNoChange(InitialStatus(head)[0]);
    HeaderIsNoChange(InitialStatus(head)[1]);
  }

  /** The steps on those two lines: no CommitHash, "Unmodified", the branch. */
  lemma InitialSteps(text: string, head: string, remoteUrl: string -> Result<string, ProcessRunner.RunError>, hashLength: int)
    requires PorcelainStatus.Lines(text) == InitialStatus(head)
    requires head != DetachedHead
    ensures Steps(Ok(text), remoteUrl, hashLength) == Report(Outputs(None, Some("Unmodified"), Some(head), None, None), None)
  {
    InitialHeaders(head);
    InitialLookups(head, hashLength);
    StepsOnHeaders(text, map[OidKey := InitialOid, HeadKey := head], remoteUrl, hashLength);
  }

  /** The steps' view of that map: no hash, the branch, no upstream. */
  lemma InitialLookups(head: string, hashLength: int)
    requires head != DetachedHead
    ensures HashStep(map[OidKey := InitialOid, HeadKey := head], hashLength) == Ok(None)
    ensures BranchOf(map[OidKey := InitialOid, HeadKey := head]) == Some(head)
    ensures UpstreamKey !in map[OidKey := InitialOid, HeadKey := head]
  {
    KeysHaveNoSpace();
  }

  /** With the lines kept apart, the same repository gets no CommitHash,
      whatever HashLength is, and keeps its branch. */
  lemma InitialCommitKeepingLines(projectDir: string, head: string, hashLength: int, remoteOutcome: string -> ProcessRunner.Outcome)
    requires !Text.IsNullOrWhiteSpace(Some(projectDir))
    requires IsLineSequence(InitialStatus(head))
    requires head != DetachedHead
    ensures ExecuteKeepingLines(Some(projectDir), hashLength, ProcessRunner.Exited(0, InitialStatus(head), []), remoteOutcome) ==
      Ok(Report(Outputs(None, Some("Unmodified"), Some(head), None, None), None))
  {
    var text := KeptLinesRun(projectDir, hashLength, InitialStatus(head), remoteOutcome);
    InitialSteps(text, head, RemoteUrl(remoteOutcome), hashLength);
  }
}

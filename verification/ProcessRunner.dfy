/** The decision part of GetCommitInfo's `RunCommand`: what it returns or
    throws once the child process has been started and waited for up to
    1000 ms. That timed wait does not wait for the asynchronous stream
    readers, so the streams are whatever they had delivered by then.
    Process creation, the readers and `Kill` are outside the model; they are
    summarised by an `Outcome`.
 */
module ProcessRunner {
  import opened Wrappers
  import Text

  /** What the external command did, as `RunCommand` observes it. Each stream
      is the sequence of lines its `DataReceived` events had delivered when
      `RunCommand` checks them, line terminators removed (a null event adds
      nothing); this may be a prefix of what the process wrote. */
  datatype Outcome =
    | NotStarted
    | TimedOut
    | Exited(exitCode: int, stdoutLines: seq<string>, stderrLines: seq<string>)

  /** The exceptions `RunCommand` lets escape. */
  datatype RunError =
    | LaunchFailed(command: string, arguments: string)
    | Timeout(command: string, arguments: string)
    | StderrText(text: string)
    | NonZeroExit(command: string, arguments: string, exitCode: int)

  /** The runner's verdict, with the stdout lines glued by `separator`:
      timeout first, then any non-blank stderr (even with exit code 0),
      then a non-zero exit code, otherwise the collected stdout. */
  function Collect(command: string, arguments: string, o: Outcome, separator: string): (r: Result<string, RunError>)
    ensures r.Ok? <==> o.Exited? && o.exitCode == 0 && Text.IsNullOrWhiteSpace(Some(Text.Concat(o.stderrLines)))
    ensures o.TimedOut? ==> r == Err(Timeout(command, arguments))
    ensures o.NotStarted? ==> r == Err(LaunchFailed(command, arguments))
    ensures o.Exited? && !Text.IsNullOrWhiteSpace(Some(Text.Concat(o.stderrLines))) ==>
      r == Err(StderrText(Text.Concat(o.stderrLines)))
    ensures o.Exited? && Text.IsNullOrWhiteSpace(Some(Text.Concat(o.stderrLines))) && o.exitCode != 0 ==>
      r == Err(NonZeroExit(command, arguments, o.exitCode))
    ensures r.Ok? ==> r.value == Text.Join(o.stdoutLines, separator)
  {
    match o
    case NotStarted => Err(LaunchFailed(command, arguments))
    case TimedOut => Err(Timeout(command, arguments))
    case Exited(code, out, err) =>
      var errorText := Text.Concat(err);
      if !Text.IsNullOrWhiteSpace(Some(errorText)) then Err(StderrText(errorText))
      else if code != 0 then Err(NonZeroExit(command, arguments, code))
      else Ok(Text.Join(out, separator))
  }

  /** `RunCommand` as written: `outputString += e.Data` appends every stdout
      line with no separator at all. */
  function Run(command: string, arguments: string, o: Outcome): (r: Result<string, RunError>)
    ensures r.Ok? ==> o.Exited? && |r.value| == Text.TotalLength(o.stdoutLines)
  {
    if o.Exited? && |o.stdoutLines| >= 1 then
      Text.JoinLength(o.stdoutLines, "");
      Collect(command, arguments, o, "")
    else Collect(command, arguments, o, "")
  }

  /** `RunCommand` with the line structure kept: stdout lines joined by "\n". */
  function RunLines(command: string, arguments: string, o: Outcome): (r: Result<string, RunError>)
    ensures r.Ok? ==> o.Exited?
    ensures r.Ok? && |o.stdoutLines| >= 1 ==> |r.value| == Text.TotalLength(o.stdoutLines) + |o.stdoutLines| - 1
  {
    if o.Exited? && |o.stdoutLines| >= 1 then
      Text.JoinLength(o.stdoutLines, "\n");
      Collect(command, arguments, o, "\n")
    else Collect(command, arguments, o, "\n")
  }

  /** The two runners fail on exactly the same outcomes with the same
      exception, and on success differ only by the newlines between lines. */
  lemma RunnersDifferOnlyInSeparators(command: string, arguments: string, o: Outcome)
    ensures Run(command, arguments, o).Err? <==> RunLines(command, arguments, o).Err?
    ensures Run(command, arguments, o).Err? ==> Run(command, arguments, o) == RunLines(command, arguments, o)
    ensures Run(command, arguments, o).Ok? && |o.stdoutLines| >= 1 ==>
      |RunLines(command, arguments, o).value| == |Run(command, arguments, o).value| + |o.stdoutLines| - 1
  {
    if Run(command, arguments, o).Ok? && |o.stdoutLines| >= 1 {
      Text.JoinLength(o.stdoutLines, "");
      Text.JoinLength(o.stdoutLines, "\n");
    }
  }
}
